/** The host's periodic bandwidth throttle, which updates its array of peers in place. */
module HostThrottle {
  import opened Words
  import opened BandwidthSharing

  class Host {
    const peers: array<Peer>
    var connectedPeers: nat
    var bandwidthLimitedPeers: nat
    var incomingBandwidth: Word
    var outgoingBandwidth: Word
    var bandwidthThrottleEpoch: Word
    var recalculateBandwidthLimits: bool

    constructor (peers: array<Peer>)
      ensures this.peers == peers
    {
      this.peers := peers;
      connectedPeers, bandwidthLimitedPeers := 0, 0;
      incomingBandwidth, outgoingBandwidth, bandwidthThrottleEpoch := 0, 0, 0;
      recalculateBandwidthLimits := false;
    }

    ghost function Peers(): seq<Peer>
      reads this, peers
    {
      peers[..]
    }

    /** The peer count is right, and no peer is marked with the current time yet. */
    ghost predicate Ready(now: Word)
      reads this, peers
    {
      && connectedPeers == ActiveCount(Peers()) < WORD
      && (forall k :: 0 <= k < |Peers()| ==>
            Peers()[k].outgoingBandwidthThrottleEpoch != now && Peers()[k].incomingBandwidthThrottleEpoch != now)
    }

    /** The data of the active peers, added up in 32 bits. */
    method DataTotal(now: Word) returns (dataTotal: Word)
      requires Ready(now)
      ensures dataTotal == U32(UnservedData(Peers(), now))
    {
      hide UnservedData, ActiveCount, U32;
      dataTotal := 0;
      NothingUnserved(now);
      Fits32(0);
      assert Peers()[..0] == [];
      for k := 0 to peers.Length
        invariant dataTotal == U32(UnservedData(Peers()[..k], now))
      {
        DataStep(Peers(), now, k);
        if peers[k].state != Connected && peers[k].state != DisconnectLater {
          continue;
        }
        WrapsTwice(UnservedData(Peers()[..k], now), -(peers[k].outgoingDataTotal as int));
        dataTotal := U32(dataTotal + peers[k].outgoingDataTotal);
      }
      assert Peers()[..peers.Length] == Peers();
    }

    /** Throttles one peer to what it is taken to receive, if it would be sent more than that. */
    method ServePeer(k: nat, now: Word, elapsed: Word, throttle: Word) returns (served: bool, peerBandwidth: Word)
      requires k < peers.Length
      modifies peers
      ensures Peers() == old(Peers())[k := ServeIfOver(old(peers[k]), throttle, now, elapsed)]
      ensures served <==> Exceeds(old(peers[k]), throttle, now, elapsed)
      ensures served ==> peerBandwidth == PeerBandwidth(old(peers[k]), elapsed)
    {
      hide Mul32, Div32;
      var peer := peers[k];
      served, peerBandwidth := false, 0;
      if (peer.state == Connected || peer.state == DisconnectLater) && peer.incomingBandwidth != 0
         && peer.outgoingBandwidthThrottleEpoch != now {
        peerBandwidth := Div32(Mul32(peer.incomingBandwidth, elapsed), 1000);
        if Div32(Mul32(throttle, peer.outgoingDataTotal), THROTTLE_SCALE) > peerBandwidth {
          ExceedsHasData(peer, throttle, now, elapsed);
          var limit := Div32(Mul32(peerBandwidth, THROTTLE_SCALE), peer.outgoingDataTotal);
          if limit == 0 {
            limit := 1;
          }
          SetThrottle(k, limit);
          peers[k] := peers[k].(outgoingBandwidthThrottleEpoch := now);
          served := true;
        }
      }
    }

    /** Sets a peer's limit, caps its throttle, and starts counting its data anew. */
    method SetThrottle(k: nat, limit: Word)
      requires k < peers.Length
      modifies peers
      ensures Peers() == old(Peers())[k := Throttled(old(peers[k]), limit)]
    {
      peers[k] := peers[k].(packetThrottleLimit := limit);
      if peers[k].packetThrottle > peers[k].packetThrottleLimit {
        peers[k] := peers[k].(packetThrottle := peers[k].packetThrottleLimit);
      }
      peers[k] := peers[k].(incomingDataTotal := 0, outgoingDataTotal := 0);
    }

    /** One pass over the peers that throttles those that would be sent more than they can receive. */
    method ServePeers(now: Word, elapsed: Word, throttle: Word, bandwidth: Word, dataTotal: Word, peersRemaining: Word)
      returns (needsAdjustment: bool, bandwidth': Word, dataTotal': Word, peersRemaining': Word)
      requires peersRemaining == UnservedCount(Peers(), now)
      modifies peers
      ensures Peers() == ServeAll(old(Peers()), throttle, now, elapsed)
      ensures bandwidth' == Left(bandwidth, ServedBandwidth(old(Peers()), throttle, now, elapsed))
      ensures dataTotal' == Left(dataTotal, ServedBandwidth(old(Peers()), throttle, now, elapsed))
      ensures peersRemaining' == UnservedCount(Peers(), now)
      ensures needsAdjustment <==> ServedCount(old(Peers()), throttle, now, elapsed) > 0
    {
      ghost var ps := Peers();
      needsAdjustment, bandwidth', dataTotal', peersRemaining' := false, bandwidth, dataTotal, peersRemaining;
      hide ServeAll, ServedBandwidth, ServedCount, Covers, Exceeds, ServeIfOver, PeerBandwidth, UnservedCount, Throttle;
      StartPass(ps, throttle, now, elapsed);
      for k := 0 to peers.Length
        invariant Peers() == ServeAll(ps[..k], throttle, now, elapsed) + ps[k..]
        invariant bandwidth' == Left(bandwidth, ServedBandwidth(ps[..k], throttle, now, elapsed))
        invariant dataTotal' == Left(dataTotal, ServedBandwidth(ps[..k], throttle, now, elapsed))
        invariant peersRemaining' == peersRemaining - ServedCount(ps[..k], throttle, now, elapsed)
        invariant needsAdjustment <==> ServedCount(ps[..k], throttle, now, elapsed) > 0
      {
        ServeStep(ps, throttle, now, elapsed, k);
        var served, peerBandwidth := ServePeer(k, now, elapsed, throttle);
        if served {
          needsAdjustment := true;
          peersRemaining' := peersRemaining' - 1;
          WrapsTwice(bandwidth - ServedBandwidth(ps[..k], throttle, now, elapsed), peerBandwidth);
          WrapsTwice(dataTotal - ServedBandwidth(ps[..k], throttle, now, elapsed), peerBandwidth);
          bandwidth' := U32(bandwidth' - peerBandwidth);
          dataTotal' := U32(dataTotal' - peerBandwidth);
        }
      }
      assert ps[..peers.Length] == ps;
    }

    /** Gives the common throttle to all peers that were not served. */
    method ThrottlePeers(now: Word, throttle: Word)
      modifies peers
      ensures Peers() == ThrottleAll(old(Peers()), throttle, now)
    {
      hide ThrottleAll, ThrottleIfUnserved;
      ghost var ps := Peers();
      ThrottleNone(ps, throttle, now);
      for k := 0 to peers.Length
        invariant Peers() == ThrottleAll(ps[..k], throttle, now) + ps[k..]
      {
        ThrottleStep(ps, throttle, now, k);
        ThrottleOne(ps[k], throttle, now);
        if (peers[k].state != Connected && peers[k].state != DisconnectLater)
           || peers[k].outgoingBandwidthThrottleEpoch == now {
          continue;
        }
        SetThrottle(k, throttle);
      }
      assert ps[..peers.Length] == ps;
    }

    /** The passes that serve over-supplied peers: at most two if the sums fit, the second with nothing to do. */
    method ServeLoop(now: Word, elapsed: Word, bandwidth0: Word, dataTotal0: Word)
      returns (bandwidth: Word, dataTotal: Word, peersRemaining: Word, ghost passes: nat)
      requires connectedPeers == UnservedCount(Peers(), now) < WORD
      modifies peers
      ensures Sharing(Peers(), bandwidth, dataTotal, passes) ==
              Passes(old(Peers()), now, elapsed, bandwidth0, dataTotal0, bandwidthLimitedPeers > 0)
      ensures peersRemaining == UnservedCount(Peers(), now)
      ensures Balanced(old(Peers()), now, bandwidth0, dataTotal0) ==> passes <= 2
    {
      hide ServeAll, ServedBandwidth, ServedCount, UnservedCount, Throttle, Balanced, Left, Rounds;
      ghost var ps := Peers();
      ghost var goal := Passes(ps, now, elapsed, bandwidth0, dataTotal0, bandwidthLimitedPeers > 0);
      if Balanced(ps, now, bandwidth0, dataTotal0) {
        TwoPasses(ps, now, elapsed, bandwidth0, dataTotal0, bandwidthLimitedPeers > 0);
      }
      bandwidth, dataTotal, peersRemaining, passes := bandwidth0, dataTotal0, connectedPeers, 0;
      var needsAdjustment := bandwidthLimitedPeers > 0;
      if peersRemaining == 0 {
        NoRounds(ps, now, elapsed, bandwidth0, dataTotal0);
      }
      while peersRemaining > 0 && needsAdjustment
        invariant peersRemaining == UnservedCount(Peers(), now)
        invariant if peersRemaining > 0 && needsAdjustment then
                    var rest := Rounds(Peers(), now, elapsed, bandwidth, dataTotal);
                    rest.(passes := passes + rest.passes) == goal
                  else
                    Sharing(Peers(), bandwidth, dataTotal, passes) == goal
        decreases peersRemaining, needsAdjustment
      {
        RoundsStep(Peers(), now, elapsed, bandwidth, dataTotal);
        var throttle := CommonThrottle(bandwidth, dataTotal);
        needsAdjustment, bandwidth, dataTotal, peersRemaining :=
          ServePeers(now, elapsed, throttle, bandwidth, dataTotal, peersRemaining);
        passes := passes + 1;
      }
    }

    /** The throttle under which all data fits the bandwidth. */
    method CommonThrottle(bandwidth: Word, dataTotal: Word) returns (throttle: Word)
      ensures throttle == Throttle(bandwidth, dataTotal)
    {
      if dataTotal <= bandwidth {
        throttle := THROTTLE_SCALE;
      } else {
        throttle := Div32(Mul32(bandwidth, THROTTLE_SCALE), dataTotal);
      }
    }

    /** Shares the outgoing bandwidth among the active peers. */
    method ShareOutgoing(now: Word, elapsed: Word)
      requires Ready(now)
      modifies peers
      ensures Peers() == Outgoing(old(Peers()), now, elapsed, Budget(outgoingBandwidth, elapsed),
                                  DataBudget(old(Peers()), outgoingBandwidth, now), bandwidthLimitedPeers > 0)
    {
      hide Passes, UnservedCount, UnservedData, ActiveCount, Throttle, ThrottleAll, Balanced;
      NobodyMarked(Peers(), now);
      var dataTotal: Word, bandwidth: Word := WORD - 1, WORD - 1;
      if outgoingBandwidth != 0 {
        bandwidth := Div32(Mul32(outgoingBandwidth, elapsed), 1000);
        dataTotal := DataTotal(now);
      }
      var peersRemaining;
      ghost var passes;
      bandwidth, dataTotal, peersRemaining, passes := ServeLoop(now, elapsed, bandwidth, dataTotal);
      if peersRemaining > 0 {
        var throttle := CommonThrottle(bandwidth, dataTotal);
        ThrottlePeers(now, throttle);
      } else {
        NoneUnserved(Peers(), Throttle(bandwidth, dataTotal), now);
      }
    }

    /** One pass that marks the peers below the limit. */
    method MarkPeers(now: Word, limit: Word, bandwidth: Word, peersRemaining: Word)
      returns (needsAdjustment: bool, bandwidth': Word, peersRemaining': Word)
      requires peersRemaining == UnmarkedCount(Peers(), now) > 0 && limit == bandwidth / peersRemaining
      modifies peers
      ensures Peers() == MarkAll(old(Peers()), limit, now)
      ensures bandwidth' == bandwidth - MarkedDemand(old(Peers()), limit, now)
      ensures peersRemaining' == UnmarkedCount(Peers(), now)
      ensures needsAdjustment <==> MarkedCount(old(Peers()), limit, now) > 0
    {
      ghost var ps := Peers();
      hide MarkAll, MarkedDemand, MarkedCount, UnmarkedCount;
      needsAdjustment, bandwidth', peersRemaining' := false, bandwidth, peersRemaining;
      MarkNone(ps, limit, now);
      RoundFits(ps, bandwidth, now);
      MarkCounts(ps, limit, now);
      for k := 0 to peers.Length
        invariant Peers() == MarkAll(ps[..k], limit, now) + ps[k..]
        invariant bandwidth' == bandwidth - MarkedDemand(ps[..k], limit, now)
        invariant peersRemaining' == peersRemaining - MarkedCount(ps[..k], limit, now)
        invariant needsAdjustment <==> MarkedCount(ps[..k], limit, now) > 0
      {
        MarkStep(ps, limit, now, k);
        if (peers[k].state != Connected && peers[k].state != DisconnectLater)
           || peers[k].incomingBandwidthThrottleEpoch == now {
          continue;
        }
        if peers[k].outgoingBandwidth > 0 && peers[k].outgoingBandwidth >= limit {
          continue;
        }
        peers[k] := peers[k].(incomingBandwidthThrottleEpoch := now);
        needsAdjustment := true;
        peersRemaining' := peersRemaining' - 1;
        bandwidth' := bandwidth' - peers[k].outgoingBandwidth;
      }
      assert ps[..peers.Length] == ps;
    }

    /** Sends each active peer its limit. */
    method InformPeers(now: Word, limit: Word)
      modifies peers
      ensures Peers() == InformAll(old(Peers()), limit, now, outgoingBandwidth)
    {
      hide InformAll;
      ghost var ps := Peers();
      InformNone(ps, limit, now, outgoingBandwidth);
      for k := 0 to peers.Length
        invariant Peers() == InformAll(ps[..k], limit, now, outgoingBandwidth) + ps[k..]
      {
        InformStep(ps, limit, now, outgoingBandwidth, k);
        if peers[k].state != Connected && peers[k].state != DisconnectLater {
          continue;
        }
        var incoming := if peers[k].incomingBandwidthThrottleEpoch == now then peers[k].outgoingBandwidth else limit;
        var command := LimitCommand(incoming, outgoingBandwidth);
        peers[k] := peers[k].(outgoingCommands := peers[k].outgoingCommands + [command]);
      }
      assert ps[..peers.Length] == ps;
    }

    /** Recalculates the incoming limits of the active peers. */
    method LimitIncoming(now: Word)
      requires connectedPeers == UnmarkedCount(Peers(), now) && 0 < connectedPeers < WORD
      modifies peers
      ensures Peers() == Incoming(old(Peers()), incomingBandwidth, outgoingBandwidth, now)
    {
      hide MarkAll, MarkedDemand, MarkedCount, UnmarkedCount, InformAll, Settle;
      ghost var ps := Peers();
      var peersRemaining: Word, bandwidth: Word, bandwidthLimit: Word := connectedPeers, incomingBandwidth, 0;
      var needsAdjustment := true;
      if bandwidth == 0 {
        bandwidthLimit := 0;
      } else {
        ghost var goal := Settle(ps, bandwidth, now);
        while peersRemaining > 0 && needsAdjustment
          invariant peersRemaining == UnmarkedCount(Peers(), now)
          invariant if peersRemaining > 0 && needsAdjustment then Settle(Peers(), bandwidth, now) == goal
                    else Level(bandwidthLimit, Peers()) == goal
          decreases peersRemaining, needsAdjustment
        {
          SettleStep(Peers(), bandwidth, now);
          bandwidthLimit := Div32(bandwidth, peersRemaining);
          needsAdjustment, bandwidth, peersRemaining := MarkPeers(now, bandwidthLimit, bandwidth, peersRemaining);
        }
      }
      InformPeers(now, bandwidthLimit);
    }

    /**
      Shares the bandwidth among the peers, at most once per interval: the outgoing
      throttle, and the incoming limits if they are to be recalculated.
     */
    method BandwidthThrottle(timeCurrent: Word)
      requires U32(timeCurrent - bandwidthThrottleEpoch) >= 1000 ==> Ready(timeCurrent)
      modifies this`bandwidthThrottleEpoch, this`recalculateBandwidthLimits, peers
      ensures var elapsed := U32(timeCurrent - old(bandwidthThrottleEpoch));
              if elapsed < 1000 then
                Peers() == old(Peers()) && bandwidthThrottleEpoch == old(bandwidthThrottleEpoch)
                && recalculateBandwidthLimits == old(recalculateBandwidthLimits)
              else if connectedPeers == 0 then
                Peers() == old(Peers()) && bandwidthThrottleEpoch == timeCurrent
                && recalculateBandwidthLimits == old(recalculateBandwidthLimits)
              else
                && bandwidthThrottleEpoch == timeCurrent && !recalculateBandwidthLimits
                && UnmarkedCount(old(Peers()), timeCurrent) > 0
                && var shared := Outgoing(old(Peers()), timeCurrent, elapsed, Budget(outgoingBandwidth, elapsed),
                                          DataBudget(old(Peers()), outgoingBandwidth, timeCurrent),
                                          bandwidthLimitedPeers > 0);
                && UnmarkedCount(shared, timeCurrent) > 0
                && Peers() == if old(recalculateBandwidthLimits)
                              then Incoming(shared, incomingBandwidth, outgoingBandwidth, timeCurrent)
                              else shared
    {
      hide Outgoing, Incoming, UnmarkedCount, ActiveCount, UnservedCount, UnservedData;
      var elapsedTime := U32(timeCurrent - bandwidthThrottleEpoch);
      if elapsedTime < THROTTLE_INTERVAL {
        return;
      }
      bandwidthThrottleEpoch := timeCurrent;
      if connectedPeers == 0 {
        return;
      }
      ghost var ps := Peers();
      NobodyMarked(ps, timeCurrent);
      OutgoingKeepsCount(ps, timeCurrent, elapsedTime, Budget(outgoingBandwidth, elapsedTime),
                         DataBudget(ps, outgoingBandwidth, timeCurrent), bandwidthLimitedPeers > 0);
      ShareOutgoing(timeCurrent, elapsedTime);
      if recalculateBandwidthLimits {
        recalculateBandwidthLimits := false;
        LimitIncoming(timeCurrent);
      }
    }
  }

  lemma NothingUnserved(now: Word)
    ensures UnservedData([], now) == 0
  {
  }

  lemma MarkNone(ps: seq<Peer>, limit: Word, now: Word)
    ensures MarkAll(ps[..0], limit, now) + ps[0..] == ps
    ensures MarkedDemand(ps[..0], limit, now) == 0 && MarkedCount(ps[..0], limit, now) == 0
  {
  }

  lemma InformNone(ps: seq<Peer>, limit: Word, now: Word, outgoing: Word)
    ensures InformAll(ps[..0], limit, now, outgoing) + ps[0..] == ps
  {
  }

  lemma ThrottleNone(ps: seq<Peer>, throttle: Word, now: Word)
    ensures ThrottleAll(ps[..0], throttle, now) + ps[0..] == ps
  {
  }

  lemma ThrottleOne(p: Peer, throttle: Word, now: Word)
    ensures ThrottleIfUnserved(p, throttle, now) == if Unserved(p, now) then Throttled(p, throttle) else p
  {
  }
}
