/**
  What the bandwidth throttle does to each peer, in plain numbers: exact quotients instead of the steps of the
  loops, and 32-bit words only where the code itself cannot hold a product.
 */
module PlainSharing {
  import opened Words
  import opened BandwidthSharing

  function Total(ps: seq<Peer>, f: Peer -> nat): nat {
    if ps == [] then 0 else Total(ps[..|ps| - 1], f) + f(ps[|ps| - 1])
  }

  predicate Connection(p: Peer) {
    p.state == Connected || p.state == DisconnectLater
  }

  // ---------------------------------------------------------------- outgoing

  predicate Waiting(p: Peer, now: Word) {
    Connection(p) && p.outgoingBandwidthThrottleEpoch != now
  }

  /** What the peer states that it can receive in the elapsed milliseconds. */
  function Stated(p: Peer, elapsed: Word): nat {
    p.incomingBandwidth * elapsed % 0x1_0000_0000 / 1000
  }

  /** The throttle t is too much for the peer, which states a rate. */
  predicate TooMuch(p: Peer, t: nat, now: Word, elapsed: Word) {
    && Waiting(p, now) && p.incomingBandwidth != 0
    && t * p.outgoingDataTotal % 0x1_0000_0000 / 32 > Stated(p, elapsed)
  }

  function Data(ps: seq<Peer>, now: Word): nat {
    Total(ps, p => if Waiting(p, now) then p.outgoingDataTotal else 0)
  }

  /** What is reserved for the peers for which the throttle t is too much. */
  function Reserved(ps: seq<Peer>, t: nat, now: Word, elapsed: Word): nat {
    Total(ps, p => if TooMuch(p, t, now, elapsed) then Stated(p, elapsed) else 0)
  }

  lemma {:induction false} DataIs(ps: seq<Peer>, now: Word)
    ensures UnservedData(ps, now) == Data(ps, now)
    decreases |ps|
  {
    if ps != [] {
      DataIs(ps[..|ps| - 1], now);
    }
  }

  lemma TooMuchIs(p: Peer, t: Word, now: Word, elapsed: Word)
    ensures TooMuch(p, t, now, elapsed) <==> Exceeds(p, t, now, elapsed)
    ensures PeerBandwidth(p, elapsed) == Stated(p, elapsed)
  {
  }

  lemma {:induction false} ReservedIs(ps: seq<Peer>, t: Word, now: Word, elapsed: Word)
    ensures ServedBandwidth(ps, t, now, elapsed) == Reserved(ps, t, now, elapsed)
    decreases |ps|
  {
    if ps != [] {
      hide Exceeds, PeerBandwidth, TooMuch, Stated;
      TooMuchIs(ps[|ps| - 1], t, now, elapsed);
      ReservedIs(ps[..|ps| - 1], t, now, elapsed);
    }
  }

  /** The largest throttle, of at most 32, that scales the data to no more than the bandwidth. */
  predicate LargestThrottle(t: int, bandwidth: int, data: int) {
    if data <= bandwidth then t == 32 else t * data <= 32 * bandwidth < (t + 1) * data
  }

  lemma ThrottleIsLargest(bandwidth: Word, dataTotal: Word)
    requires dataTotal > bandwidth ==> bandwidth * 32 < 0x1_0000_0000
    ensures LargestThrottle(Throttle(bandwidth, dataTotal), bandwidth, dataTotal)
    ensures 0 <= Throttle(bandwidth, dataTotal) <= 32
  {
    ThrottleScales(bandwidth, dataTotal);
    if dataTotal > bandwidth {
      QuotientBounds(32 * bandwidth, dataTotal);
    }
  }

  /** Only one throttle is the largest. */
  lemma LargestThrottleIsUnique(t: int, t': int, bandwidth: int, data: int)
    requires 0 <= bandwidth && LargestThrottle(t, bandwidth, data) && LargestThrottle(t', bandwidth, data)
    ensures t == t'
  {
    if t < t' {
      MulLess(t + 1, t', data);
    } else if t > t' {
      MulLess(t' + 1, t, data);
    }
  }

  function Capped(throttle: Word, limit: Word): Word {
    if throttle > limit then limit else throttle
  }

  /**
    What becomes of a peer.  If the throttle t is too much for it, it gets the largest limit for what it states,
    but never 0.  All others get one common limit, the largest for what is left of bandwidth and data, or 32 on a
    host without a limit.  Nothing else changes, except that data is counted anew.
   */
  predicate Outcome(p: Peer, q: Peer, t: Word, outgoing: Word, left: int, dataLeft: int, now: Word, elapsed: Word,
                    limited: bool)
  {
    var limit := q.packetThrottleLimit;
    if !Waiting(p, now) then q == p
    else if limited && TooMuch(p, t, now, elapsed) then
      && q == p.(packetThrottleLimit := limit, packetThrottle := Capped(p.packetThrottle, limit),
                 outgoingBandwidthThrottleEpoch := now, incomingDataTotal := 0, outgoingDataTotal := 0)
      && limit >= 1
      && (limit > 1 ==> limit * p.outgoingDataTotal <= 32 * Stated(p, elapsed))
      && (limit + 1) * p.outgoingDataTotal > 32 * Stated(p, elapsed)
    else
      && q == p.(packetThrottleLimit := limit, packetThrottle := Capped(p.packetThrottle, limit),
                 incomingDataTotal := 0, outgoingDataTotal := 0)
      && if outgoing == 0 then limit == 32 else LargestThrottle(limit, left, dataLeft)
  }

  lemma OutcomeIs(p: Peer, t: Word, final: Word, outgoing: Word, left: int, dataLeft: int, now: Word, elapsed: Word,
                  limited: bool)
    requires t <= 32
    requires if outgoing == 0 then final == 32 else LargestThrottle(final, left, dataLeft)
    ensures Outcome(p, ThrottleIfUnserved(if limited then ServeIfOver(p, t, now, elapsed) else p, final, now),
                    t, outgoing, left, dataLeft, now, elapsed, limited)
  {
    hide LargestThrottle, Exceeds, TooMuch, Stated, PeerBandwidth, Mul32, Div32;
    TooMuchIs(p, t, now, elapsed);
    if limited && Exceeds(p, t, now, elapsed) {
      ServedLimit(p, t, now, elapsed);
      assert Unserved(p, now) by {
        ServedOne(p, t, now, elapsed);
      }
    }
  }

  lemma PlainBudget(ps: seq<Peer>, outgoing: Word, elapsed: Word, now: Word)
    requires outgoing == 0 || Data(ps, now) < 0x1_0000_0000
    ensures Balanced(ps, now, Budget(outgoing, elapsed), DataBudget(ps, outgoing, now))
    ensures if outgoing == 0 then Budget(outgoing, elapsed) == DataBudget(ps, outgoing, now)
            else
              && Covers(ps, now, Budget(outgoing, elapsed), DataBudget(ps, outgoing, now))
              && Budget(outgoing, elapsed) == outgoing * elapsed % 0x1_0000_0000 / 1000
              && DataBudget(ps, outgoing, now) == Data(ps, now)
  {
    hide Data, UnservedData;
    DataIs(ps, now);
    BudgetCovers(ps, outgoing, elapsed, now);
    if outgoing != 0 {
      Fits32(Data(ps, now));
    }
  }

  /** The common limit is the largest for what is left. */
  lemma CommonLimitIs(ps: seq<Peer>, outgoing: Word, elapsed: Word, now: Word, limited: bool)
    requires outgoing == 0 || Data(ps, now) < 0x1_0000_0000
    ensures var b, d := Budget(outgoing, elapsed), DataBudget(ps, outgoing, now);
            var t, final := Throttle(b, d), FinalThrottle(ps, now, elapsed, b, d, limited);
            var reserved := if limited then Reserved(ps, t, now, elapsed) else 0;
            && t <= 32
            && if outgoing == 0 then t == final == 32
               else
                 && reserved <= b && reserved <= d
                 && LargestThrottle(t, b, d) && LargestThrottle(final, b - reserved, d - reserved)
  {
    hide Data, Reserved, Throttle, ServedBandwidth, Budget, DataBudget, LargestThrottle, UnservedData, Passes;
    var b, d := Budget(outgoing, elapsed), DataBudget(ps, outgoing, now);
    var t := Throttle(b, d);
    PlainBudget(ps, outgoing, elapsed, now);
    ReservedIs(ps, t, now, elapsed);
    OutgoingInOnePass(ps, now, elapsed, b, d, limited);
    if outgoing != 0 {
      var spent := SpentPass(ps, t, now, elapsed, limited);
      SpentFits(ps, now, elapsed, b, d, limited);
      SpentBalanced(ps, now, elapsed, b, d, limited);
      TwoPasses(ps, now, elapsed, b, d, limited);
      ThrottleIsLargest(b, d);
      ThrottleIsLargest(b - spent, d - spent);
    }
  }

  /**
    The outgoing throttle of a host on which the data of the peers fits a word, or which has no limit.  The
    throttle t is the largest for all bandwidth and data, and what is left is what the reservations for the
    peers for which it is too much leave of them.
   */
  lemma OutgoingInPlainTerms(ps: seq<Peer>, outgoing: Word, elapsed: Word, now: Word, limited: bool) returns (t: Word)
    requires outgoing == 0 || Data(ps, now) < 0x1_0000_0000
    ensures var qs := Outgoing(ps, now, elapsed, Budget(outgoing, elapsed), DataBudget(ps, outgoing, now), limited);
            var bandwidth, data := outgoing * elapsed % 0x1_0000_0000 / 1000, Data(ps, now);
            var reserved := if limited then Reserved(ps, t, now, elapsed) else 0;
            && (if outgoing == 0 then t == 32 else LargestThrottle(t, bandwidth, data))
            && (outgoing != 0 ==> reserved <= bandwidth && reserved <= data)
            && |qs| == |ps|
            && forall k :: 0 <= k < |ps| ==>
                 Outcome(ps[k], qs[k], t, outgoing, bandwidth - reserved, data - reserved, now, elapsed, limited)
  {
    hide Throttle, Outgoing, FinalThrottle, Data, Reserved, LargestThrottle, Outcome, Budget, DataBudget, Balanced;
    hide Covers, ServeIfOver, ThrottleIfUnserved;
    var b, d := Budget(outgoing, elapsed), DataBudget(ps, outgoing, now);
    t := Throttle(b, d);
    PlainBudget(ps, outgoing, elapsed, now);
    CommonLimitIs(ps, outgoing, elapsed, now, limited);
    OutgoingInOnePass(ps, now, elapsed, b, d, limited);
    var final := FinalThrottle(ps, now, elapsed, b, d, limited);
    var bandwidth, data := outgoing * elapsed % 0x1_0000_0000 / 1000, Data(ps, now);
    var reserved := if limited then Reserved(ps, t, now, elapsed) else 0;
    var qs := Outgoing(ps, now, elapsed, b, d, limited);
    forall k | 0 <= k < |ps|
      ensures |qs| == |ps|
      ensures Outcome(ps[k], qs[k], t, outgoing, bandwidth - reserved, data - reserved, now, elapsed, limited)
    {
      ServeAllAt(ps, t, now, elapsed, k);
      ThrottleAllAt(ServePass(ps, t, now, elapsed, limited), final, now, k);
      OutcomeIs(ps[k], t, final, outgoing, bandwidth - reserved, data - reserved, now, elapsed, limited);
    }
  }

  // ---------------------------------------------------------------- incoming

  /** Below the limit, or without a stated rate. */
  predicate Small(p: Peer, limit: Word) {
    Connection(p) && (p.outgoingBandwidth == 0 || p.outgoingBandwidth < limit)
  }

  function Demand(ps: seq<Peer>, limit: Word): nat {
    Total(ps, p => if Small(p, limit) then p.outgoingBandwidth else 0)
  }

  function Others(ps: seq<Peer>, limit: Word): nat {
    Total(ps, p => if Connection(p) && !Small(p, limit) then 1 else 0)
  }

  /** Sent one more limit, and otherwise as before. */
  predicate SentLimit(p: Peer, q: Peer, limit: Word, outgoing: Word, epoch: Word) {
    q == p.(outgoingCommands := p.outgoingCommands + [LimitCommand(limit, outgoing)],
            incomingBandwidthThrottleEpoch := epoch)
  }

  /** A host without an incoming limit sends every connection the limit 0, which means none. */
  lemma UnlimitedIncoming(ps: seq<Peer>, outgoing: Word, now: Word)
    requires UnmarkedCount(ps, now) > 0
    requires forall k :: 0 <= k < |ps| ==> ps[k].incomingBandwidthThrottleEpoch != now
    ensures var qs := Incoming(ps, 0, outgoing, now);
            && |qs| == |ps|
            && forall k :: 0 <= k < |ps| ==>
                 if ps[k].state == Connected || ps[k].state == DisconnectLater then
                   qs[k] == ps[k].(outgoingCommands := ps[k].outgoingCommands + [LimitCommand(0, outgoing)])
                 else qs[k] == ps[k]
  {
    var qs := Incoming(ps, 0, outgoing, now);
    forall k | 0 <= k < |ps|
      ensures qs[k] == Informed(ps[k], 0, now, outgoing)
    {
      InformAllAt(ps, 0, now, outgoing, k);
    }
  }

  lemma {:induction false} DemandIs(ps: seq<Peer>, limit: Word, now: Word)
    requires forall k :: 0 <= k < |ps| ==> ps[k].incomingBandwidthThrottleEpoch != now
    ensures MarkedDemand(ps, limit, now) == Demand(ps, limit)
    ensures UnmarkedCount(MarkAll(ps, limit, now), now) == Others(ps, limit)
    decreases |ps|
  {
    if ps != [] {
      var init := ps[..|ps| - 1];
      DemandIs(init, limit, now);
      var qs := MarkAll(ps, limit, now);
      assert qs[..|qs| - 1] == MarkAll(init, limit, now);
    }
  }

  /**
    A host with an incoming limit: a connection below the common limit is sent its own rate and marked, all
    others are sent the common limit, and that is the largest for what the former leave of the bandwidth.
   */
  lemma IncomingInPlainTerms(ps: seq<Peer>, bandwidth: Word, outgoing: Word, now: Word) returns (limit: Word)
    requires UnmarkedCount(ps, now) > 0 && bandwidth > 0
    requires forall k :: 0 <= k < |ps| ==> ps[k].incomingBandwidthThrottleEpoch != now
    ensures var qs := Incoming(ps, bandwidth, outgoing, now);
            var rest := bandwidth - Demand(ps, limit);
            && limit * Others(ps, limit) <= rest
            && (Others(ps, limit) > 0 ==> rest < (limit + 1) * Others(ps, limit))
            && |qs| == |ps|
            && forall k :: 0 <= k < |ps| ==>
                 if !Connection(ps[k]) then qs[k] == ps[k]
                 else if Small(ps[k], limit) then SentLimit(ps[k], qs[k], ps[k].outgoingBandwidth, outgoing, now)
                 else SentLimit(ps[k], qs[k], limit, outgoing, ps[k].incomingBandwidthThrottleEpoch)
  {
    hide Settle, UnmarkedCount, MarkedDemand, Demand, Others;
    SettleFair(ps, bandwidth, now);
    limit := Settle(ps, bandwidth, now).limit;
    DemandIs(ps, limit, now);
    var n := Others(ps, limit);
    if n > 0 {
      QuotientBounds(bandwidth - Demand(ps, limit), n);
    }
    forall k | 0 <= k < |ps|
      ensures var q := Incoming(ps, bandwidth, outgoing, now)[k];
              q == Informed(MarkIfBelow(ps[k], limit, now), limit, now, outgoing)
    {
      MarkAllAt(ps, limit, now, k);
      InformAllAt(MarkAll(ps, limit, now), limit, now, outgoing, k);
    }
  }
}
