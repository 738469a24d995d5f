/**
  How a host shares its bandwidth among its peers, as functions of the peers: the
  outgoing throttle and the incoming limits, and what they guarantee.
 */
module BandwidthSharing {
  import opened Words

  const THROTTLE_SCALE: Word := 32
  const THROTTLE_INTERVAL := 1000

  datatype PeerState =
    | Disconnected | Connecting | AcknowledgingConnect | ConnectionPending | ConnectionSucceeded
    | Connected | DisconnectLater | Disconnecting | AcknowledgingDisconnect | Zombie

  /** A bandwidth limit that is sent to a peer. */
  datatype LimitCommand = LimitCommand(incomingBandwidth: Word, outgoingBandwidth: Word)

  datatype Peer = Peer(
    state: PeerState,
    incomingBandwidth: Word, outgoingBandwidth: Word,
    incomingBandwidthThrottleEpoch: Word, outgoingBandwidthThrottleEpoch: Word,
    incomingDataTotal: Word, outgoingDataTotal: Word,
    packetThrottle: Word, packetThrottleLimit: Word,
    outgoingCommands: seq<LimitCommand>)

  predicate Active(p: Peer) {
    p.state == Connected || p.state == DisconnectLater
  }

  function ActiveCount(ps: seq<Peer>): nat {
    if ps == [] then 0 else ActiveCount(ps[..|ps| - 1]) + if Active(ps[|ps| - 1]) then 1 else 0
  }

  // ---------------------------------------------------------------- outgoing throttle

  /** A rate over the elapsed milliseconds, in the code's 32 bits. */
  function Scaled(rate: Word, elapsed: Word): Word {
    Div32(Mul32(rate, elapsed), 1000)
  }

  /** What the rate really amounts to. */
  function Capacity(rate: Word, elapsed: Word): int {
    rate * elapsed / 1000
  }

  /** The code never takes a rate for more than it is, and takes it for less exactly if the product wraps around. */
  lemma ScaledIs(rate: Word, elapsed: Word)
    ensures 0 <= Scaled(rate, elapsed) <= Capacity(rate, elapsed)
    ensures Scaled(rate, elapsed) == Capacity(rate, elapsed) <==> rate * elapsed < WORD
    ensures Scaled(rate, elapsed) < WORD / THROTTLE_SCALE
  {
    var n: int := rate * elapsed;
    TimesNonNegative(rate, elapsed);
    if n < WORD {
      Fits32(n);
    } else {
      WrapsDown(n - WORD);
      assert U32(n) == U32(n - WORD);
    }
  }

  lemma TimesNonNegative(a: int, b: int)
    requires 0 <= a && 0 <= b
    ensures 0 <= a * b
  {
  }

  /** What the code takes for what a peer can receive in the elapsed time. */
  function PeerBandwidth(p: Peer, elapsed: Word): Word {
    Scaled(p.incomingBandwidth, elapsed)
  }

  /** What it can receive. */
  function PeerCapacity(p: Peer, elapsed: Word): int {
    Capacity(p.incomingBandwidth, elapsed)
  }

  /** Still to be served at this time. */
  predicate Unserved(p: Peer, now: Word) {
    Active(p) && p.outgoingBandwidthThrottleEpoch != now
  }

  /** Under this throttle the peer would be sent more than it is taken to receive. */
  predicate Exceeds(p: Peer, throttle: Word, now: Word, elapsed: Word) {
    && Unserved(p, now) && p.incomingBandwidth != 0
    && Div32(Mul32(throttle, p.outgoingDataTotal), THROTTLE_SCALE) > PeerBandwidth(p, elapsed)
  }

  function Min(a: Word, b: Word): Word {
    if a > b then b else a
  }

  /** A peer over its bandwidth has data, so dividing by its data is safe. */
  lemma ExceedsHasData(p: Peer, throttle: Word, now: Word, elapsed: Word)
    requires Exceeds(p, throttle, now, elapsed)
    ensures p.outgoingDataTotal > 0
  {
    assert p.outgoingDataTotal == 0 ==> throttle * p.outgoingDataTotal == 0;
  }

  /** A peer that is throttled to what it can receive. */
  function Served(p: Peer, now: Word, elapsed: Word): Peer
    requires p.outgoingDataTotal > 0
  {
    var quotient := Div32(Mul32(PeerBandwidth(p, elapsed), THROTTLE_SCALE), p.outgoingDataTotal);
    var limit := if quotient == 0 then 1 else quotient;
    p.(packetThrottleLimit := limit, packetThrottle := Min(p.packetThrottle, limit),
       outgoingBandwidthThrottleEpoch := now, incomingDataTotal := 0, outgoingDataTotal := 0)
  }

  function ServeIfOver(p: Peer, throttle: Word, now: Word, elapsed: Word): Peer {
    if Exceeds(p, throttle, now, elapsed) then
      ExceedsHasData(p, throttle, now, elapsed);
      Served(p, now, elapsed)
    else p
  }

  /** A peer that gets the common throttle. */
  function Throttled(p: Peer, throttle: Word): Peer {
    p.(packetThrottleLimit := throttle, packetThrottle := Min(p.packetThrottle, throttle),
       incomingDataTotal := 0, outgoingDataTotal := 0)
  }

  function Throttle(bandwidth: Word, dataTotal: Word): Word {
    if dataTotal <= bandwidth then THROTTLE_SCALE else Div32(Mul32(bandwidth, THROTTLE_SCALE), dataTotal)
  }

  /** All peers that exceed their bandwidth under the throttle are served. */
  function ServeAll(ps: seq<Peer>, throttle: Word, now: Word, elapsed: Word): (qs: seq<Peer>)
    ensures |qs| == |ps|
  {
    if ps == [] then []
    else
      ServeAll(ps[..|ps| - 1], throttle, now, elapsed) + [ServeIfOver(ps[|ps| - 1], throttle, now, elapsed)]
  }

  /** The bandwidth that serving them takes. */
  function ServedBandwidth(ps: seq<Peer>, throttle: Word, now: Word, elapsed: Word): nat {
    if ps == [] then 0
    else
      var p := ps[|ps| - 1];
      ServedBandwidth(ps[..|ps| - 1], throttle, now, elapsed) +
      if Exceeds(p, throttle, now, elapsed) then PeerBandwidth(p, elapsed) else 0
  }

  function ServedCount(ps: seq<Peer>, throttle: Word, now: Word, elapsed: Word): nat {
    if ps == [] then 0
    else
      var p := ps[|ps| - 1];
      ServedCount(ps[..|ps| - 1], throttle, now, elapsed) + if Exceeds(p, throttle, now, elapsed) then 1 else 0
  }

  /** The data for peers still to be served. */
  function UnservedData(ps: seq<Peer>, now: Word): nat {
    if ps == [] then 0
    else UnservedData(ps[..|ps| - 1], now) + if Unserved(ps[|ps| - 1], now) then ps[|ps| - 1].outgoingDataTotal else 0
  }

  function UnservedCount(ps: seq<Peer>, now: Word): nat {
    if ps == [] then 0
    else UnservedCount(ps[..|ps| - 1], now) + if Unserved(ps[|ps| - 1], now) then 1 else 0
  }

  /** The sums that the throttle is computed from. */
  ghost predicate Covers(ps: seq<Peer>, now: Word, bandwidth: int, dataTotal: int) {
    && 0 <= bandwidth < WORD && 0 <= dataTotal < WORD
    && UnservedData(ps, now) <= dataTotal
    && (dataTotal > bandwidth ==> bandwidth * THROTTLE_SCALE < WORD)
  }

  /** What the throttle is computed from: the sums, or equal words on a host without a limit. */
  ghost predicate Balanced(ps: seq<Peer>, now: Word, bandwidth: Word, dataTotal: Word) {
    bandwidth == dataTotal || Covers(ps, now, bandwidth, dataTotal)
  }

  /** The host's bandwidth in the elapsed time, and the data it is for; both unlimited if the host is. */
  function Budget(outgoing: Word, elapsed: Word): Word {
    if outgoing == 0 then WORD - 1 else Scaled(outgoing, elapsed)
  }

  function DataBudget(ps: seq<Peer>, outgoing: Word, now: Word): Word {
    if outgoing == 0 then WORD - 1 else U32(UnservedData(ps, now))
  }

  /** A limited host's sum of data must fit its word. */
  lemma BudgetCovers(ps: seq<Peer>, outgoing: Word, elapsed: Word, now: Word)
    ensures outgoing == 0 || UnservedData(ps, now) < WORD ==>
              Balanced(ps, now, Budget(outgoing, elapsed), DataBudget(ps, outgoing, now))
    ensures UnservedData(ps, now) < WORD ==>
              Covers(ps, now, Budget(outgoing, elapsed), DataBudget(ps, outgoing, now))
  {
    hide Capacity;
    ScaledIs(outgoing, elapsed);
    if UnservedData(ps, now) < WORD {
      Fits32(UnservedData(ps, now));
    }
  }

  /** What is left of a word, in unsigned subtraction. */
  function Left(x: Word, spent: nat): Word {
    U32(x - spent)
  }

  lemma {:induction false} ServeAllAt(ps: seq<Peer>, throttle: Word, now: Word, elapsed: Word, k: nat)
    requires k < |ps|
    ensures ServeAll(ps, throttle, now, elapsed)[k] == ServeIfOver(ps[k], throttle, now, elapsed)
    decreases |ps|
  {
    if k < |ps| - 1 {
      ServeAllAt(ps[..|ps| - 1], throttle, now, elapsed, k);
    }
  }

  /** The throttle scales the whole data to at most the bandwidth. */
  lemma ThrottleScales(bandwidth: Word, dataTotal: Word)
    requires dataTotal > bandwidth ==> bandwidth * THROTTLE_SCALE < WORD
    ensures 0 <= Throttle(bandwidth, dataTotal) <= THROTTLE_SCALE
    ensures Throttle(bandwidth, dataTotal) * dataTotal <= THROTTLE_SCALE * bandwidth
  {
    if dataTotal > bandwidth {
      var t := Throttle(bandwidth, dataTotal);
      assert t * dataTotal <= bandwidth * THROTTLE_SCALE;
      if t > THROTTLE_SCALE {
        MulLess(THROTTLE_SCALE, t, dataTotal);
      }
    }
  }

  lemma MulLess(a: int, b: int, c: int)
    requires a <= b && 0 <= c
    ensures a * c <= b * c
  {
  }

  /** Serving one peer takes less than its share of the data under the throttle. */
  lemma ServedShare(p: Peer, throttle: Word, now: Word, elapsed: Word)
    requires Exceeds(p, throttle, now, elapsed) && throttle <= THROTTLE_SCALE
    ensures THROTTLE_SCALE * PeerBandwidth(p, elapsed) < throttle * p.outgoingDataTotal
    ensures PeerBandwidth(p, elapsed) < p.outgoingDataTotal && THROTTLE_SCALE * PeerBandwidth(p, elapsed) < WORD
  {
    hide U32;
    MulLess(throttle, THROTTLE_SCALE, p.outgoingDataTotal);
    MulLess(0, throttle, p.outgoingDataTotal);
    WrapsDown(throttle * p.outgoingDataTotal);
  }

  /** One pass keeps the unserved data within what is left of the data total, and scaled within the bandwidth. */
  lemma {:induction false} ServeAllFits(ps: seq<Peer>, throttle: Word, now: Word, elapsed: Word)
    requires throttle <= THROTTLE_SCALE
    ensures var left := UnservedData(ServeAll(ps, throttle, now, elapsed), now);
            var spent := ServedBandwidth(ps, throttle, now, elapsed);
            && spent + left <= UnservedData(ps, now)
            && THROTTLE_SCALE * spent + throttle * left <= throttle * UnservedData(ps, now)
    decreases |ps|
  {
    if ps != [] {
      hide Exceeds, ServeIfOver, Unserved, PeerBandwidth;
      var p, init := ps[|ps| - 1], ps[..|ps| - 1];
      ServedOne(p, throttle, now, elapsed);
      ServeAllFits(init, throttle, now, elapsed);
      var qs := ServeAll(ps, throttle, now, elapsed);
      assert qs[..|qs| - 1] == ServeAll(init, throttle, now, elapsed);
      var left := UnservedData(qs[..|qs| - 1], now);
      Spread(throttle, left, p.outgoingDataTotal);
      Spread(throttle, UnservedData(init, now), p.outgoingDataTotal);
      if Exceeds(p, throttle, now, elapsed) {
        ServedShare(p, throttle, now, elapsed);
      }
    }
  }

  lemma OneMore(a: int, b: int)
    ensures a * (b + 1) == a * b + a
  {
  }

  lemma Spread(a: int, b: int, c: int)
    ensures a * (b + c) == a * b + a * c
  {
  }

  lemma ServedOne(p: Peer, throttle: Word, now: Word, elapsed: Word)
    ensures Unserved(ServeIfOver(p, throttle, now, elapsed), now) <==>
            Unserved(p, now) && !Exceeds(p, throttle, now, elapsed)
    ensures Exceeds(p, throttle, now, elapsed) ==> Unserved(p, now)
    ensures !Exceeds(p, throttle, now, elapsed) ==> ServeIfOver(p, throttle, now, elapsed) == p
  {
  }

  lemma {:induction false} ServedCounts(ps: seq<Peer>, throttle: Word, now: Word, elapsed: Word)
    ensures var qs := ServeAll(ps, throttle, now, elapsed);
            && UnservedCount(qs, now) == UnservedCount(ps, now) - ServedCount(ps, throttle, now, elapsed)
            && (ServedCount(ps, throttle, now, elapsed) == 0 ==>
               qs == ps && ServedBandwidth(ps, throttle, now, elapsed) == 0)
    decreases |ps|
  {
    if ps != [] {
      hide Exceeds, ServeIfOver, Unserved, PeerBandwidth;
      var init := ps[..|ps| - 1];
      ServedOne(ps[|ps| - 1], throttle, now, elapsed);
      ServedCounts(init, throttle, now, elapsed);
      var qs := ServeAll(ps, throttle, now, elapsed);
      assert qs[..|qs| - 1] == ServeAll(init, throttle, now, elapsed);
      assert init + [ps[|ps| - 1]] == ps;
    }
  }

  /** Taking the same amount from the bandwidth and from the data never raises the throttle. */
  lemma ThrottleNeverRises(bandwidth: Word, dataTotal: Word, spent: nat)
    requires spent <= bandwidth && spent <= dataTotal
    requires dataTotal > bandwidth ==> bandwidth * THROTTLE_SCALE < WORD
    ensures Throttle(bandwidth - spent, dataTotal - spent) <= Throttle(bandwidth, dataTotal)
  {
    hide U32;
    if dataTotal > bandwidth {
      Fits32(bandwidth * THROTTLE_SCALE);
      Fits32((bandwidth - spent) * THROTTLE_SCALE);
      QuotientDrops(bandwidth, dataTotal, spent);
    }
  }

  lemma QuotientDrops(b: int, d: int, x: int)
    requires 0 <= x <= b < d
    ensures THROTTLE_SCALE * (b - x) / (d - x) <= THROTTLE_SCALE * b / d
  {
    var q := THROTTLE_SCALE * b / d;
    assert q * d <= THROTTLE_SCALE * b < q * d + d;
    if q >= THROTTLE_SCALE {
      MulLess(THROTTLE_SCALE, q, d);
    }
    MulLess(q + 1, THROTTLE_SCALE, x);
    assert (q + 1) * (d - x) == q * d + d - (q + 1) * x;
    QuotientBelow(THROTTLE_SCALE * (b - x), d - x, q + 1);
  }

  lemma QuotientBelow(n: int, d: int, bound: int)
    requires d > 0 && n < bound * d
    ensures n / d < bound
  {
    var q := n / d;
    assert q * d <= n;
    if q >= bound {
      MulLess(bound, q, d);
    }
  }

  /** The products of the throttle with the data of the peers do not wrap around. */
  ghost predicate Unwrapped(ps: seq<Peer>, throttle: Word, now: Word) {
    forall k :: 0 <= k < |ps| && Unserved(ps[k], now) ==> throttle * ps[k].outgoingDataTotal < WORD
  }

  /** After one pass, no peer exceeds its bandwidth under the same throttle, or a lower one if nothing wraps around. */
  lemma ServedSettles(ps: seq<Peer>, throttle: Word, lower: Word, now: Word, elapsed: Word)
    requires lower == throttle || (lower <= throttle && Unwrapped(ps, throttle, now))
    ensures ServedCount(ServeAll(ps, throttle, now, elapsed), lower, now, elapsed) == 0
  {
    var qs := ServeAll(ps, throttle, now, elapsed);
    forall k | 0 <= k < |qs|
      ensures !Exceeds(qs[k], lower, now, elapsed)
    {
      ServeAllAt(ps, throttle, now, elapsed, k);
      LowerStillFits(ps[k], throttle, lower, now, elapsed);
    }
    NoneServed(qs, lower, now, elapsed);
  }

  lemma LowerStillFits(p: Peer, throttle: Word, lower: Word, now: Word, elapsed: Word)
    requires lower == throttle || (lower <= throttle && (Unserved(p, now) ==> throttle * p.outgoingDataTotal < WORD))
    ensures !Exceeds(ServeIfOver(p, throttle, now, elapsed), lower, now, elapsed)
  {
    hide Mul32, Div32, PeerBandwidth;
    if lower != throttle && Unserved(p, now) {
      ScaledMonotone(lower, throttle, p.outgoingDataTotal);
    }
  }

  lemma ScaledMonotone(lower: Word, throttle: Word, data: Word)
    requires lower <= throttle && throttle * data < WORD
    ensures Div32(Mul32(lower, data), THROTTLE_SCALE) <= Div32(Mul32(throttle, data), THROTTLE_SCALE)
  {
    MulLess(lower, throttle, data);
    MulLess(0, lower, data);
    Fits32(lower * data);
    Fits32(throttle * data);
  }

  lemma {:induction false} DataWithin(ps: seq<Peer>, now: Word, k: nat)
    requires k < |ps| && Unserved(ps[k], now)
    ensures ps[k].outgoingDataTotal <= UnservedData(ps, now)
    decreases |ps|
  {
    if k < |ps| - 1 {
      DataWithin(ps[..|ps| - 1], now, k);
    }
  }

  /** While there is too much data, the throttle is low enough for products that do not wrap around. */
  lemma ScarceIsUnwrapped(ps: seq<Peer>, now: Word, bandwidth: Word, dataTotal: Word)
    requires Covers(ps, now, bandwidth, dataTotal) && dataTotal > bandwidth
    ensures Unwrapped(ps, Throttle(bandwidth, dataTotal), now)
  {
    hide Throttle, UnservedData;
    var t := Throttle(bandwidth, dataTotal);
    ThrottleScales(bandwidth, dataTotal);
    forall k | 0 <= k < |ps| && Unserved(ps[k], now)
      ensures t * ps[k].outgoingDataTotal < WORD
    {
      DataWithin(ps, now, k);
      MulLessLeft(t, ps[k].outgoingDataTotal, dataTotal);
    }
  }

  lemma {:induction false} NoneServed(ps: seq<Peer>, throttle: Word, now: Word, elapsed: Word)
    requires forall k :: 0 <= k < |ps| ==> !Exceeds(ps[k], throttle, now, elapsed)
    ensures ServedCount(ps, throttle, now, elapsed) == 0
    decreases |ps|
  {
    if ps != [] {
      NoneServed(ps[..|ps| - 1], throttle, now, elapsed);
    }
  }

  // ---------------------------------------------------------------- the outgoing throttle as a whole

  function ThrottleIfUnserved(p: Peer, throttle: Word, now: Word): Peer {
    if Unserved(p, now) then Throttled(p, throttle) else p
  }

  function ThrottleAll(ps: seq<Peer>, throttle: Word, now: Word): (qs: seq<Peer>)
    ensures |qs| == |ps|
  {
    if ps == [] then []
    else ThrottleAll(ps[..|ps| - 1], throttle, now) + [ThrottleIfUnserved(ps[|ps| - 1], throttle, now)]
  }

  lemma {:induction false} ThrottleAllAt(ps: seq<Peer>, throttle: Word, now: Word, k: nat)
    requires k < |ps|
    ensures ThrottleAll(ps, throttle, now)[k] == ThrottleIfUnserved(ps[k], throttle, now)
    decreases |ps|
  {
    if k < |ps| - 1 {
      ThrottleAllAt(ps[..|ps| - 1], throttle, now, k);
    }
  }

  /** One pass of serving, if any peer limits its bandwidth at all. */
  function ServePass(ps: seq<Peer>, throttle: Word, now: Word, elapsed: Word, limited: bool): seq<Peer> {
    if limited then ServeAll(ps, throttle, now, elapsed) else ps
  }

  function SpentPass(ps: seq<Peer>, throttle: Word, now: Word, elapsed: Word, limited: bool): nat {
    if limited then ServedBandwidth(ps, throttle, now, elapsed) else 0
  }

  lemma SpentFits(ps: seq<Peer>, now: Word, elapsed: Word, bandwidth: Word, dataTotal: Word, limited: bool)
    requires Covers(ps, now, bandwidth, dataTotal)
    ensures var t := Throttle(bandwidth, dataTotal);
            var spent := SpentPass(ps, t, now, elapsed, limited);
            && t <= THROTTLE_SCALE && spent <= bandwidth && spent <= dataTotal
            && Covers(ServePass(ps, t, now, elapsed, limited), now, bandwidth - spent, dataTotal - spent)
  {
    hide ServeAll, ServedBandwidth, UnservedData, Throttle;
    var t := Throttle(bandwidth, dataTotal);
    ThrottleScales(bandwidth, dataTotal);
    ServeAllFits(ps, t, now, elapsed);
    MulLessLeft(t, UnservedData(ps, now), dataTotal);
  }

  lemma MulLessLeft(c: int, a: int, b: int)
    requires a <= b && 0 <= c
    ensures c * a <= c * b && 0 * a == 0 && (0 <= a ==> 0 <= c * a)
  {
  }

  /** The same with unsigned subtraction, whether or not the sums fit. */
  lemma SpentBalanced(ps: seq<Peer>, now: Word, elapsed: Word, bandwidth: Word, dataTotal: Word, limited: bool)
    requires Balanced(ps, now, bandwidth, dataTotal)
    ensures var t := Throttle(bandwidth, dataTotal);
            var spent := SpentPass(ps, t, now, elapsed, limited);
            var t2 := Throttle(Left(bandwidth, spent), Left(dataTotal, spent));
            && Balanced(ServePass(ps, t, now, elapsed, limited), now, Left(bandwidth, spent), Left(dataTotal, spent))
            && t2 <= t <= THROTTLE_SCALE
            && (dataTotal <= bandwidth ==> t2 == t == THROTTLE_SCALE)
            && (Covers(ps, now, bandwidth, dataTotal) ==>
               Left(bandwidth, spent) == bandwidth - spent && Left(dataTotal, spent) == dataTotal - spent)
  {
    hide ServePass, SpentPass, U32, UnservedData;
    var t := Throttle(bandwidth, dataTotal);
    var spent := SpentPass(ps, t, now, elapsed, limited);
    if Covers(ps, now, bandwidth, dataTotal) {
      SpentFits(ps, now, elapsed, bandwidth, dataTotal, limited);
      Fits32(bandwidth - spent);
      Fits32(dataTotal - spent);
      ThrottleNeverRises(bandwidth, dataTotal, spent);
    }
  }

  lemma LeftNone(x: Word)
    ensures Left(x, 0) == x
  {
  }

  /** What a second pass would find: nothing to do. */
  lemma SecondPassIdle(ps: seq<Peer>, now: Word, elapsed: Word, bandwidth: Word, dataTotal: Word)
    requires Balanced(ps, now, bandwidth, dataTotal)
    ensures var t := Throttle(bandwidth, dataTotal);
            var qs := ServeAll(ps, t, now, elapsed);
            var spent := ServedBandwidth(ps, t, now, elapsed);
            var t2 := Throttle(Left(bandwidth, spent), Left(dataTotal, spent));
            && Balanced(qs, now, Left(bandwidth, spent), Left(dataTotal, spent))
            && ServeAll(qs, t2, now, elapsed) == qs && ServedBandwidth(qs, t2, now, elapsed) == 0
            && ServedCount(qs, t2, now, elapsed) == 0
  {
    hide ServeAll, ServedBandwidth, ServedCount, Throttle, Covers, U32;
    var t := Throttle(bandwidth, dataTotal);
    var qs := ServeAll(ps, t, now, elapsed);
    var spent := ServedBandwidth(ps, t, now, elapsed);
    var t2 := Throttle(Left(bandwidth, spent), Left(dataTotal, spent));
    SpentBalanced(ps, now, elapsed, bandwidth, dataTotal, true);
    if dataTotal > bandwidth {
      ScarceIsUnwrapped(ps, now, bandwidth, dataTotal);
    }
    ServedSettles(ps, t, t2, now, elapsed);
    ServedCounts(qs, t2, now, elapsed);
  }

  /** The peers after some passes, and the sums that are left. */
  datatype Sharing = Sharing(peers: seq<Peer>, bandwidth: Word, dataTotal: Word, passes: nat)

  /** The passes that serve over-supplied peers, until one serves nobody or nobody is left. */
  function Rounds(ps: seq<Peer>, now: Word, elapsed: Word, bandwidth: Word, dataTotal: Word): Sharing
    decreases UnservedCount(ps, now)
  {
    if UnservedCount(ps, now) == 0 then Sharing(ps, bandwidth, dataTotal, 0)
    else
      var t := Throttle(bandwidth, dataTotal);
      var qs, spent := ServeAll(ps, t, now, elapsed), ServedBandwidth(ps, t, now, elapsed);
      ServedCounts(ps, t, now, elapsed);
      if ServedCount(ps, t, now, elapsed) == 0 then Sharing(ps, bandwidth, dataTotal, 1)
      else
        var rest := Rounds(qs, now, elapsed, Left(bandwidth, spent), Left(dataTotal, spent));
        rest.(passes := rest.passes + 1)
  }

  /** One more pass. */
  lemma RoundsStep(ps: seq<Peer>, now: Word, elapsed: Word, bandwidth: Word, dataTotal: Word)
    requires UnservedCount(ps, now) > 0
    ensures var t := Throttle(bandwidth, dataTotal);
            var qs, spent := ServeAll(ps, t, now, elapsed), ServedBandwidth(ps, t, now, elapsed);
            var b, d := Left(bandwidth, spent), Left(dataTotal, spent);
            && UnservedCount(qs, now) == UnservedCount(ps, now) - ServedCount(ps, t, now, elapsed)
            && Rounds(ps, now, elapsed, bandwidth, dataTotal) ==
               if ServedCount(ps, t, now, elapsed) == 0 || UnservedCount(qs, now) == 0 then Sharing(qs, b, d, 1)
               else Rounds(qs, now, elapsed, b, d).(passes := Rounds(qs, now, elapsed, b, d).passes + 1)
  {
    hide ServeAll, ServedBandwidth, ServedCount, UnservedCount, Throttle, Left;
    ServedCounts(ps, Throttle(bandwidth, dataTotal), now, elapsed);
    LeftNone(bandwidth);
    LeftNone(dataTotal);
  }

  /** The passes of a host, of which there are none if no peer limits its bandwidth. */
  function Passes(ps: seq<Peer>, now: Word, elapsed: Word, bandwidth: Word, dataTotal: Word, limited: bool): Sharing {
    if limited then Rounds(ps, now, elapsed, bandwidth, dataTotal) else Sharing(ps, bandwidth, dataTotal, 0)
  }

  /** The first pass does everything, and at most one more follows. */
  lemma TwoPasses(ps: seq<Peer>, now: Word, elapsed: Word, bandwidth: Word, dataTotal: Word, limited: bool)
    requires Balanced(ps, now, bandwidth, dataTotal)
    ensures var t := Throttle(bandwidth, dataTotal);
            var spent := SpentPass(ps, t, now, elapsed, limited);
            var r := Passes(ps, now, elapsed, bandwidth, dataTotal, limited);
            && r.peers == ServePass(ps, t, now, elapsed, limited)
            && r.bandwidth == Left(bandwidth, spent) && r.dataTotal == Left(dataTotal, spent)
            && r.passes <= 2
  {
    hide ServeAll, ServedBandwidth, ServedCount, UnservedCount, Throttle, Balanced, Left, Rounds;
    var t := Throttle(bandwidth, dataTotal);
    var qs, spent := ServeAll(ps, t, now, elapsed), ServedBandwidth(ps, t, now, elapsed);
    LeftNone(bandwidth);
    LeftNone(dataTotal);
    if limited {
      if UnservedCount(ps, now) == 0 {
        ServedCounts(ps, t, now, elapsed);
        NoRounds(ps, now, elapsed, bandwidth, dataTotal);
      } else {
        RoundsStep(ps, now, elapsed, bandwidth, dataTotal);
        if UnservedCount(qs, now) > 0 {
          SecondPassIdle(ps, now, elapsed, bandwidth, dataTotal);
          LeftNone(Left(bandwidth, spent));
          LeftNone(Left(dataTotal, spent));
          RoundsStep(qs, now, elapsed, Left(bandwidth, spent), Left(dataTotal, spent));
        }
      }
    }
  }

  lemma NoRounds(ps: seq<Peer>, now: Word, elapsed: Word, bandwidth: Word, dataTotal: Word)
    requires UnservedCount(ps, now) == 0
    ensures Rounds(ps, now, elapsed, bandwidth, dataTotal) == Sharing(ps, bandwidth, dataTotal, 0)
  {
  }

  /** The outgoing throttle: over-supplied peers are served, and the others share what is left. */
  function Outgoing(ps: seq<Peer>, now: Word, elapsed: Word, bandwidth: Word, dataTotal: Word,
                    limited: bool): seq<Peer>
  {
    ThrottleAll(Passes(ps, now, elapsed, bandwidth, dataTotal, limited).peers,
                FinalThrottle(ps, now, elapsed, bandwidth, dataTotal, limited), now)
  }

  /** The common throttle that the peers end up with. */
  function FinalThrottle(ps: seq<Peer>, now: Word, elapsed: Word, bandwidth: Word, dataTotal: Word,
                         limited: bool): Word
  {
    var r := Passes(ps, now, elapsed, bandwidth, dataTotal, limited);
    Throttle(r.bandwidth, r.dataTotal)
  }

  /** On sums that fit, the first throttle decides. */
  lemma OutgoingInOnePass(ps: seq<Peer>, now: Word, elapsed: Word, bandwidth: Word, dataTotal: Word, limited: bool)
    requires Balanced(ps, now, bandwidth, dataTotal)
    ensures var t := Throttle(bandwidth, dataTotal);
            var final := FinalThrottle(ps, now, elapsed, bandwidth, dataTotal, limited);
            && final <= t <= THROTTLE_SCALE && (dataTotal <= bandwidth ==> final == t == THROTTLE_SCALE)
            && Outgoing(ps, now, elapsed, bandwidth, dataTotal, limited) ==
               ThrottleAll(ServePass(ps, t, now, elapsed, limited), final, now)
  {
    hide Passes, ServePass, SpentPass, Throttle, Balanced, Left, ThrottleAll;
    TwoPasses(ps, now, elapsed, bandwidth, dataTotal, limited);
    SpentBalanced(ps, now, elapsed, bandwidth, dataTotal, limited);
  }

  /** What the served peers may receive and what the throttle lets through for the others stay within the bandwidth. */
  lemma OutgoingConserves(ps: seq<Peer>, now: Word, elapsed: Word, bandwidth: Word, dataTotal: Word, limited: bool)
    requires Covers(ps, now, bandwidth, dataTotal)
    ensures var t := Throttle(bandwidth, dataTotal);
            var final := FinalThrottle(ps, now, elapsed, bandwidth, dataTotal, limited);
            && final <= t <= THROTTLE_SCALE
            && SpentPass(ps, t, now, elapsed, limited) <= bandwidth
            && SpentPass(ps, t, now, elapsed, limited) <= dataTotal
            && THROTTLE_SCALE * SpentPass(ps, t, now, elapsed, limited)
               + final * UnservedData(ServePass(ps, t, now, elapsed, limited), now)
               <= THROTTLE_SCALE * bandwidth
  {
    hide U32, ServePass, SpentPass, Passes;
    var t := Throttle(bandwidth, dataTotal);
    var spent := SpentPass(ps, t, now, elapsed, limited);
    SpentFits(ps, now, elapsed, bandwidth, dataTotal, limited);
    SpentBalanced(ps, now, elapsed, bandwidth, dataTotal, limited);
    TwoPasses(ps, now, elapsed, bandwidth, dataTotal, limited);
    ThrottleScales(bandwidth - spent, dataTotal - spent);
    var final := FinalThrottle(ps, now, elapsed, bandwidth, dataTotal, limited);
    MulLessLeft(final, UnservedData(ServePass(ps, t, now, elapsed, limited), now), dataTotal - spent);
  }

  /** So much data that its product with the full throttle wraps around to what the peer is taken to receive. */
  predicate Wraps(p: Peer, elapsed: Word) {
    && p.outgoingDataTotal >= WORD / THROTTLE_SCALE
    && p.outgoingDataTotal % (WORD / THROTTLE_SCALE) <= PeerBandwidth(p, elapsed)
  }

  /**
    A peer is passed over although it would be sent more than it can receive, if and only if there
    is bandwidth for all data, the product wraps around, and the data is really too much.
   */
  lemma PassedOver(p: Peer, bandwidth: Word, dataTotal: Word, now: Word, elapsed: Word)
    requires Unserved(p, now) && p.incomingBandwidth != 0
    requires dataTotal > bandwidth ==> p.outgoingDataTotal <= dataTotal && bandwidth * THROTTLE_SCALE < WORD
    ensures var t := Throttle(bandwidth, dataTotal);
            !Exceeds(p, t, now, elapsed) && t * p.outgoingDataTotal / THROTTLE_SCALE > PeerCapacity(p, elapsed)
            <==> dataTotal <= bandwidth && Wraps(p, elapsed) && p.outgoingDataTotal > PeerCapacity(p, elapsed)
    ensures var t := Throttle(bandwidth, dataTotal);
            !Exceeds(p, t, now, elapsed) && t * p.outgoingDataTotal / THROTTLE_SCALE > PeerBandwidth(p, elapsed)
            <==> dataTotal <= bandwidth && Wraps(p, elapsed)
  {
    hide Scaled, Capacity, U32;
    var t, d := Throttle(bandwidth, dataTotal), p.outgoingDataTotal;
    ScaledIs(p.incomingBandwidth, elapsed);
    if dataTotal > bandwidth {
      ThrottleScales(bandwidth, dataTotal);
      MulLessLeft(t, d, dataTotal);
      Fits32(t * d);
    } else {
      FullProduct(d);
    }
  }

  lemma FullProduct(d: Word)
    ensures U32(THROTTLE_SCALE * d) / THROTTLE_SCALE == d % (WORD / THROTTLE_SCALE)
  {
    var wrap := WORD / THROTTLE_SCALE;
    assert THROTTLE_SCALE * d == WORD * (d / wrap) + THROTTLE_SCALE * (d % wrap);
  }

  /** A host with an outgoing limit never has bandwidth for that much data, if the sum of all data fits its word. */
  lemma LimitedHostNeverWraps(ps: seq<Peer>, outgoing: Word, elapsed: Word, now: Word, k: nat)
    requires outgoing != 0 && UnservedData(ps, now) < WORD && k < |ps| && Unserved(ps[k], now)
    ensures DataBudget(ps, outgoing, now) <= Budget(outgoing, elapsed) ==> !Wraps(ps[k], elapsed)
  {
    hide Scaled, Capacity;
    ScaledIs(outgoing, elapsed);
    Fits32(UnservedData(ps, now));
    DataWithin(ps, now, k);
  }

  /**
    A peer is served although it could receive what it would be sent, if and only if its rate wraps
    around, what is left of the rate falls short of its data, and what is really there does not.
   */
  lemma ServedNeedlessly(p: Peer, throttle: Word, now: Word, elapsed: Word)
    requires Unserved(p, now)
    ensures Exceeds(p, throttle, now, elapsed)
            && throttle * p.outgoingDataTotal / THROTTLE_SCALE <= PeerCapacity(p, elapsed)
            <==> p.incomingBandwidth * elapsed >= WORD
                 && PeerBandwidth(p, elapsed) < Div32(Mul32(throttle, p.outgoingDataTotal), THROTTLE_SCALE)
                 && throttle * p.outgoingDataTotal / THROTTLE_SCALE <= PeerCapacity(p, elapsed)
  {
    hide Scaled, Capacity, U32;
    var n: int := throttle * p.outgoingDataTotal;
    ScaledIs(p.incomingBandwidth, elapsed);
    TimesNonNegative(throttle, p.outgoingDataTotal);
    WrapsDown(n);
    QuotientMonotone(U32(n), n);
    assert p.incomingBandwidth == 0 ==> p.incomingBandwidth * elapsed == 0;
  }

  lemma QuotientMonotone(a: int, b: int)
    requires a <= b
    ensures a / THROTTLE_SCALE <= b / THROTTLE_SCALE
  {
  }

  // ---------------------------------------------------------------- what each peer gets

  function AtLeastOne(q: int): int {
    if q == 0 then 1 else q
  }

  /** The largest throttle under which the data is no more than the capacity, but never 0. */
  predicate Largest(data: Word, limit: nat, capacity: int) {
    && (limit > 1 ==> limit * data <= THROTTLE_SCALE * capacity)
    && (limit + 1) * data > THROTTLE_SCALE * capacity
  }

  lemma LargestIs(data: Word, limit: nat, capacity: int)
    requires data > 0 && limit >= 1 && capacity >= 0
    ensures Largest(data, limit, capacity) <==> limit == AtLeastOne(THROTTLE_SCALE * capacity / data)
  {
    var n: int, d: int := THROTTLE_SCALE * capacity, data;
    QuotientBounds(n, d);
    if limit < n / d {
      MulLess(limit + 1, n / d, d);
    } else if limit > n / d {
      MulLess(n / d + 1, limit, d);
    }
  }

  /** What the code takes for the capacity leads to the same limit as the capacity itself. */
  predicate SameLimit(p: Peer, elapsed: Word) {
    && p.outgoingDataTotal > 0
    && AtLeastOne(THROTTLE_SCALE * PeerCapacity(p, elapsed) / p.outgoingDataTotal) ==
       AtLeastOne(THROTTLE_SCALE * PeerBandwidth(p, elapsed) / p.outgoingDataTotal)
  }

  /** A rate whose product does not wrap around gets the right limit. */
  lemma ExactRate(p: Peer, elapsed: Word)
    requires p.outgoingDataTotal > 0 && p.incomingBandwidth * elapsed < WORD
    ensures SameLimit(p, elapsed)
  {
    ScaledIs(p.incomingBandwidth, elapsed);
  }

  /**
    The limit of a served peer is the largest for what the code takes for its capacity, and for
    the capacity itself exactly if both lead to the same limit.
   */
  predicate FitsReceiver(p: Peer, limit: nat, elapsed: Word) {
    && Largest(p.outgoingDataTotal, limit, PeerBandwidth(p, elapsed))
    && (Largest(p.outgoingDataTotal, limit, PeerCapacity(p, elapsed)) <==> SameLimit(p, elapsed))
  }

  lemma ServedLimit(p: Peer, throttle: Word, now: Word, elapsed: Word)
    requires Exceeds(p, throttle, now, elapsed) && throttle <= THROTTLE_SCALE
    ensures p.outgoingDataTotal > 0
    ensures var limit := Served(p, now, elapsed).packetThrottleLimit;
            1 <= limit <= throttle && FitsReceiver(p, limit, elapsed)
  {
    hide U32, Scaled, Capacity, Largest;
    ExceedsHasData(p, throttle, now, elapsed);
    ServedShare(p, throttle, now, elapsed);
    ScaledIs(p.incomingBandwidth, elapsed);
    var d: int, n: int := p.outgoingDataTotal, PeerBandwidth(p, elapsed) * THROTTLE_SCALE;
    Fits32(n);
    QuotientBelow(n, d, throttle);
    QuotientBounds(n, d);
    var limit := Served(p, now, elapsed).packetThrottleLimit;
    LargestIs(d, limit, PeerBandwidth(p, elapsed));
    LargestIs(d, limit, PeerCapacity(p, elapsed));
  }

  lemma QuotientBounds(n: int, d: int)
    requires 0 <= n && d > 0
    ensures n / d >= 0 && n / d * d <= n < (n / d + 1) * d
    ensures n / d == 0 ==> n < 2 * d
  {
  }

  /**
    What the throttle owes a peer p that becomes r: t is the throttle of the first pass, final
    the common one, and plenty tells whether there was bandwidth for all data.
   */
  ghost predicate FairOutcome(p: Peer, r: Peer, t: Word, final: Word, now: Word, elapsed: Word,
                              limited: bool, plenty: bool)
  {
    && (!Unserved(p, now) ==> r == p)
    && (Unserved(p, now) ==>
          && r.packetThrottle == Min(p.packetThrottle, r.packetThrottleLimit) <= r.packetThrottleLimit <= t
          && r.outgoingDataTotal == 0 && r.incomingDataTotal == 0
          && if limited && Exceeds(p, t, now, elapsed) then
               && r.outgoingBandwidthThrottleEpoch == now && 1 <= r.packetThrottleLimit
               && FitsReceiver(p, r.packetThrottleLimit, elapsed)
               && (t * p.outgoingDataTotal / THROTTLE_SCALE <= PeerCapacity(p, elapsed) ==>
                     p.incomingBandwidth * elapsed >= WORD)
             else
               && r.packetThrottleLimit == final && r.outgoingBandwidthThrottleEpoch != now
               && (limited && p.incomingBandwidth != 0 ==>
                     (final * p.outgoingDataTotal / THROTTLE_SCALE <= PeerCapacity(p, elapsed) <==>
                      !(plenty && Wraps(p, elapsed) && p.outgoingDataTotal > PeerCapacity(p, elapsed)))))
  }

  lemma FairPeer(p: Peer, bandwidth: Word, dataTotal: Word, final: Word, now: Word, elapsed: Word, limited: bool)
    requires dataTotal > bandwidth ==>
               bandwidth * THROTTLE_SCALE < WORD && (Unserved(p, now) ==> p.outgoingDataTotal <= dataTotal)
    requires final <= Throttle(bandwidth, dataTotal) <= THROTTLE_SCALE
    requires dataTotal <= bandwidth ==> final == THROTTLE_SCALE
    ensures var t := Throttle(bandwidth, dataTotal);
            FairOutcome(p, ThrottleIfUnserved(if limited then ServeIfOver(p, t, now, elapsed) else p, final, now),
                        t, final, now, elapsed, limited, dataTotal <= bandwidth)
  {
    hide U32, FitsReceiver, Throttle, PeerBandwidth, PeerCapacity, Wraps;
    var t: int, d: int := Throttle(bandwidth, dataTotal), p.outgoingDataTotal;
    if Unserved(p, now) && limited {
      if Exceeds(p, t, now, elapsed) {
        ServedLimit(p, t, now, elapsed);
        ServedNeedlessly(p, t, now, elapsed);
      } else if p.incomingBandwidth != 0 {
        PassedOver(p, bandwidth, dataTotal, now, elapsed);
        MulLess(final, t, d);
        QuotientMonotone(final * d, t * d);
      }
    }
  }

  /**
    Every peer gets a fair outcome: one that is taken to receive too little is throttled to that, all
    others get the same throttle, and can receive what that lets through unless the product wraps around.
   */
  lemma OutgoingPerPeer(ps: seq<Peer>, now: Word, elapsed: Word, bandwidth: Word, dataTotal: Word,
                        limited: bool, k: nat)
    requires Balanced(ps, now, bandwidth, dataTotal) && k < |ps|
    ensures var qs := Outgoing(ps, now, elapsed, bandwidth, dataTotal, limited);
            && |qs| == |ps|
            && FairOutcome(ps[k], qs[k], Throttle(bandwidth, dataTotal),
                           FinalThrottle(ps, now, elapsed, bandwidth, dataTotal, limited), now, elapsed, limited,
                           dataTotal <= bandwidth)
  {
    hide FairOutcome, Throttle, UnservedData, ServeIfOver, ServedBandwidth, Outgoing, FinalThrottle;
    var t := Throttle(bandwidth, dataTotal);
    OutgoingInOnePass(ps, now, elapsed, bandwidth, dataTotal, limited);
    var final := FinalThrottle(ps, now, elapsed, bandwidth, dataTotal, limited);
    ServeAllAt(ps, t, now, elapsed, k);
    ThrottleAllAt(ServePass(ps, t, now, elapsed, limited), final, now, k);
    if Unserved(ps[k], now) {
      DataWithin(ps, now, k);
    }
    FairPeer(ps[k], bandwidth, dataTotal, final, now, elapsed, limited);
  }

  // ---------------------------------------------------------------- what the words of the code cannot hold

  /** A host without an outgoing limit can pass over a peer that is sent 2^27 bytes and can receive 1000. */
  lemma WrapIsReached(now: Word, epoch: Word, throttle: Word)
    requires epoch != now
    ensures var p := Peer(Connected, 1000, 0, epoch, epoch, 0, WORD / THROTTLE_SCALE, throttle, throttle, []);
            var qs := Outgoing([p], now, 1000, Budget(0, 1000), DataBudget([p], 0, now), true);
            && PeerCapacity(p, 1000) == 1000 && Wraps(p, 1000)
            && |qs| == 1 && qs[0].packetThrottleLimit == THROTTLE_SCALE
  {
    hide Outgoing, FinalThrottle, Throttle;
    var p := Peer(Connected, 1000, 0, epoch, epoch, 0, WORD / THROTTLE_SCALE, throttle, throttle, []);
    var b: Word := WORD - 1;
    OutgoingInOnePass([p], now, 1000, b, b, true);
    OutgoingPerPeer([p], now, 1000, b, b, true, 0);
    PassedOver(p, b, b, now, 1000);
  }

  /** It can also hold a fast peer down to the smallest throttle, although that could receive everything. */
  lemma FastPeerIsHeldDown(now: Word, epoch: Word, throttle: Word)
    requires epoch != now
    ensures var p := Peer(Connected, 4294968, 0, epoch, epoch, 0, 1000, throttle, throttle, []);
            var qs := Outgoing([p], now, 1000, Budget(0, 1000), DataBudget([p], 0, now), true);
            && PeerCapacity(p, 1000) == 4294968 && !SameLimit(p, 1000)
            && |qs| == 1 && qs[0].packetThrottleLimit == 1
  {
    hide Outgoing, FinalThrottle, Throttle;
    var p := Peer(Connected, 4294968, 0, epoch, epoch, 0, 1000, throttle, throttle, []);
    var b: Word := WORD - 1;
    assert PeerBandwidth(p, 1000) == 0;
    OutgoingInOnePass([p], now, 1000, b, b, true);
    OutgoingPerPeer([p], now, 1000, b, b, true, 0);
  }

  /** One more peer at the end. */
  lemma OneMorePeer(ps: seq<Peer>, p: Peer, throttle: Word, now: Word, elapsed: Word)
    ensures ServeAll(ps + [p], throttle, now, elapsed) ==
            ServeAll(ps, throttle, now, elapsed) + [ServeIfOver(p, throttle, now, elapsed)]
    ensures ServedBandwidth(ps + [p], throttle, now, elapsed) ==
            ServedBandwidth(ps, throttle, now, elapsed)
            + if Exceeds(p, throttle, now, elapsed) then PeerBandwidth(p, elapsed) else 0
    ensures ServedCount(ps + [p], throttle, now, elapsed) ==
            ServedCount(ps, throttle, now, elapsed) + if Exceeds(p, throttle, now, elapsed) then 1 else 0
    ensures UnservedData(ps + [p], now) == UnservedData(ps, now) + if Unserved(p, now) then p.outgoingDataTotal else 0
  {
    assert (ps + [p])[..|ps|] == ps;
  }

  /** Three peers of a host that is limited to a million bytes per second, with more data than a word can hold. */
  function Greedy(epoch: Word): Peer {
    Peer(Connected, 1500000, 0, epoch, epoch, 0, 4000000, 32, 32, [])
  }

  function Unlimited(epoch: Word): Peer {
    Peer(Connected, 0, 0, epoch, epoch, 0, WORD - 2001000, 32, 32, [])
  }

  function Modest(epoch: Word): Peer {
    Peer(Connected, 700, 0, epoch, epoch, 0, 1000, 32, 32, [])
  }

  /**
    The sum of a limited host's data must fit its word: here it does not, and the first pass spends
    more than the bandwidth, which wraps around, so that the throttle rises and the second pass
    serves another peer.
   */
  lemma SumMustFit(now: Word, epoch: Word)
    requires epoch != now
    ensures var ps := [Greedy(epoch)] + [Unlimited(epoch)] + [Modest(epoch)];
            var bandwidth, dataTotal := Budget(1000000, 1000), DataBudget(ps, 1000000, now);
            var t := Throttle(bandwidth, dataTotal);
            var qs, spent := ServeAll(ps, t, now, 1000), ServedBandwidth(ps, t, now, 1000);
            var t2 := Throttle(Left(bandwidth, spent), Left(dataTotal, spent));
            && UnservedData(ps, now) == WORD + 2000000
            && bandwidth == 1000000 && spent == 1500000 && Left(bandwidth, spent) > bandwidth
            && t == 16 && t2 == 32 && ServedCount(qs, t2, now, 1000) == 1
  {
    hide ServeAll, ServedBandwidth, ServedCount, UnservedData, Greedy, Unlimited, Modest;
    hide Exceeds, ServeIfOver, PeerBandwidth, Unserved, Throttle, Left, Budget;
    var p, q, r := Greedy(epoch), Unlimited(epoch), Modest(epoch);
    var p' := ServeIfOver(p, 16, now, 1000);
    ThreePeers(now, epoch);
    ScarceThenPlenty();
    NoPeers(16, now, 1000);
    NoPeers(32, now, 1000);
    assert [] + [p] == [p] && [] + [p'] == [p'];
    OneMorePeer([], p, 16, now, 1000);
    OneMorePeer([p], q, 16, now, 1000);
    OneMorePeer([p] + [q], r, 16, now, 1000);
    OneMorePeer([], p', 32, now, 1000);
    OneMorePeer([p'], q, 32, now, 1000);
    OneMorePeer([p'] + [q], r, 32, now, 1000);
  }

  /** Greedy is served at once, Modest only under the full throttle, and Unlimited never. */
  lemma ThreePeers(now: Word, epoch: Word)
    requires epoch != now
    ensures var p, q, r := Greedy(epoch), Unlimited(epoch), Modest(epoch);
            var p' := ServeIfOver(p, 16, now, 1000);
            && Unserved(p, now) && Unserved(q, now) && Unserved(r, now)
            && p.outgoingDataTotal + q.outgoingDataTotal + r.outgoingDataTotal == WORD + 2000000
            && Exceeds(p, 16, now, 1000) && PeerBandwidth(p, 1000) == 1500000 && !Exceeds(p', 32, now, 1000)
            && !Exceeds(q, 16, now, 1000) && !Exceeds(q, 32, now, 1000)
            && ServeIfOver(q, 16, now, 1000) == q && ServeIfOver(r, 16, now, 1000) == r
            && !Exceeds(r, 16, now, 1000) && Exceeds(r, 32, now, 1000)
  {
  }

  lemma ScarceThenPlenty()
    ensures Budget(1000000, 1000) == 1000000 && U32(WORD + 2000000) == 2000000
    ensures Throttle(1000000, 2000000) == 16 && Left(1000000, 1500000) > 1000000
    ensures Throttle(Left(1000000, 1500000), Left(2000000, 1500000)) == 32
  {
  }

  lemma NoPeers(throttle: Word, now: Word, elapsed: Word)
    ensures ServeAll([], throttle, now, elapsed) == [] && ServedBandwidth([], throttle, now, elapsed) == 0
    ensures ServedCount([], throttle, now, elapsed) == 0 && UnservedData([], now) == 0
  {
  }

  // ---------------------------------------------------------------- incoming limits

  predicate Unmarked(p: Peer, now: Word) {
    Active(p) && p.incomingBandwidthThrottleEpoch != now
  }

  /** The peer sends less than the limit allows, or does not say how much. */
  predicate Below(p: Peer, limit: Word, now: Word) {
    Unmarked(p, now) && (p.outgoingBandwidth == 0 || p.outgoingBandwidth < limit)
  }

  function MarkIfBelow(p: Peer, limit: Word, now: Word): Peer {
    if Below(p, limit, now) then p.(incomingBandwidthThrottleEpoch := now) else p
  }

  function MarkAll(ps: seq<Peer>, limit: Word, now: Word): (qs: seq<Peer>)
    ensures |qs| == |ps|
  {
    if ps == [] then [] else MarkAll(ps[..|ps| - 1], limit, now) + [MarkIfBelow(ps[|ps| - 1], limit, now)]
  }

  /** What the marked peers send. */
  function MarkedDemand(ps: seq<Peer>, limit: Word, now: Word): nat {
    if ps == [] then 0
    else
      var p := ps[|ps| - 1];
      MarkedDemand(ps[..|ps| - 1], limit, now) + if Below(p, limit, now) then p.outgoingBandwidth else 0
  }

  function MarkedCount(ps: seq<Peer>, limit: Word, now: Word): nat {
    if ps == [] then 0
    else MarkedCount(ps[..|ps| - 1], limit, now) + if Below(ps[|ps| - 1], limit, now) then 1 else 0
  }

  function UnmarkedCount(ps: seq<Peer>, now: Word): nat {
    if ps == [] then 0
    else UnmarkedCount(ps[..|ps| - 1], now) + if Unmarked(ps[|ps| - 1], now) then 1 else 0
  }

  lemma {:induction false} MarkAllAt(ps: seq<Peer>, limit: Word, now: Word, k: nat)
    requires k < |ps|
    ensures MarkAll(ps, limit, now)[k] == MarkIfBelow(ps[k], limit, now)
    decreases |ps|
  {
    if k < |ps| - 1 {
      MarkAllAt(ps[..|ps| - 1], limit, now, k);
    }
  }

  /** One pass: each marked peer takes at most the limit. */
  lemma {:induction false} MarkCounts(ps: seq<Peer>, limit: Word, now: Word)
    ensures var qs := MarkAll(ps, limit, now);
            && UnmarkedCount(qs, now) == UnmarkedCount(ps, now) - MarkedCount(ps, limit, now)
            && MarkedDemand(ps, limit, now) <= limit * MarkedCount(ps, limit, now)
            && (MarkedCount(ps, limit, now) == 0 ==> qs == ps && MarkedDemand(ps, limit, now) == 0)
    decreases |ps|
  {
    hide Below, Unmarked, MarkIfBelow;
    DemandBound(ps, limit, now);
    if ps != [] {
      var p, init := ps[|ps| - 1], ps[..|ps| - 1];
      MarkCounts(init, limit, now);
      MarkOne(p, limit, now);
      var qs := MarkAll(ps, limit, now);
      assert qs[..|qs| - 1] == MarkAll(init, limit, now) && qs[|qs| - 1] == MarkIfBelow(p, limit, now);
      assert init + [p] == ps;
    }
  }

  lemma {:induction false} DemandBound(ps: seq<Peer>, limit: Word, now: Word)
    ensures MarkedDemand(ps, limit, now) <= limit * MarkedCount(ps, limit, now)
    decreases |ps|
  {
    if ps == [] {
      MulLessLeft(limit, 0, 0);
    } else {
      hide Unmarked;
      DemandBound(ps[..|ps| - 1], limit, now);
      OneMore(limit, MarkedCount(ps[..|ps| - 1], limit, now));
    }
  }

  lemma MarkOne(p: Peer, limit: Word, now: Word)
    ensures Unmarked(MarkIfBelow(p, limit, now), now) <==> Unmarked(p, now) && !Below(p, limit, now)
    ensures if Below(p, limit, now) then Unmarked(p, now) && p.outgoingBandwidth <= limit
            else MarkIfBelow(p, limit, now) == p
  {
  }

  /** Marking twice is marking once under the higher limit. */
  lemma {:induction false} MarkTwice(ps: seq<Peer>, limit: Word, higher: Word, now: Word)
    requires limit <= higher
    ensures MarkAll(MarkAll(ps, limit, now), higher, now) == MarkAll(ps, higher, now)
    ensures MarkedDemand(ps, limit, now) + MarkedDemand(MarkAll(ps, limit, now), higher, now) ==
            MarkedDemand(ps, higher, now)
    decreases |ps|
  {
    if ps != [] {
      var init := ps[..|ps| - 1];
      MarkTwice(init, limit, higher, now);
      var qs := MarkAll(ps, limit, now);
      assert qs[..|qs| - 1] == MarkAll(init, limit, now);
    }
  }

  datatype Level = Level(limit: Word, peers: seq<Peer>)

  /** The rounds that raise the limit while marked peers leave bandwidth to the others. */
  function Settle(ps: seq<Peer>, bandwidth: Word, now: Word): (l: Level)
    requires UnmarkedCount(ps, now) > 0
    decreases UnmarkedCount(ps, now)
  {
    var limit := bandwidth / UnmarkedCount(ps, now);
    var qs := MarkAll(ps, limit, now);
    RoundFits(ps, bandwidth, now);
    MarkCounts(ps, limit, now);
    if MarkedCount(ps, limit, now) == 0 || UnmarkedCount(qs, now) == 0 then Level(limit, qs)
    else Settle(qs, bandwidth - MarkedDemand(ps, limit, now), now)
  }

  /** A round leaves each unmarked peer at least the limit, so the limit never falls. */
  lemma RoundFits(ps: seq<Peer>, bandwidth: Word, now: Word)
    requires UnmarkedCount(ps, now) > 0
    ensures var limit := bandwidth / UnmarkedCount(ps, now);
            var rest := bandwidth - MarkedDemand(ps, limit, now);
            var left := UnmarkedCount(MarkAll(ps, limit, now), now);
            && 0 <= limit <= bandwidth && 0 <= rest && limit * left <= rest
            && (left > 0 ==> rest / left >= limit)
  {
    hide UnmarkedCount, MarkedCount, MarkedDemand, MarkAll;
    var n := UnmarkedCount(ps, now);
    var limit := bandwidth / n;
    QuotientBounds(bandwidth, n);
    MulLess(1, n, limit);
    MarkCounts(ps, limit, now);
    RestSuffices(bandwidth, n, MarkedCount(ps, limit, now), MarkedDemand(ps, limit, now));
  }

  lemma RestSuffices(bandwidth: nat, n: nat, marked: nat, demand: nat)
    requires marked <= n && n > 0 && demand <= bandwidth / n * marked
    ensures bandwidth / n * (n - marked) <= bandwidth - demand
    ensures marked < n ==> (bandwidth - demand) / (n - marked) >= bandwidth / n
    ensures demand <= bandwidth
  {
    var limit, left, rest := bandwidth / n, n - marked, bandwidth - demand;
    QuotientBounds(bandwidth, n);
    Spread(limit, left, marked);
    MulLessLeft(limit, 0, left);
    if left > 0 {
      AtLeastQuotient(rest, left, limit);
    }
  }

  lemma AtLeastQuotient(n: int, d: int, q: int)
    requires d > 0 && 0 <= n && q * d <= n
    ensures n / d >= q
  {
    QuotientBounds(n, d);
    if n / d < q {
      MulLess(n / d + 1, q, d);
    }
  }

  /**
    The limits are fair: exactly the peers below the final limit are marked, they
    get what they ask for, and everybody else can get the limit.
   */
  lemma {:induction false} SettleFair(ps: seq<Peer>, bandwidth: Word, now: Word)
    requires UnmarkedCount(ps, now) > 0
    ensures var l := Settle(ps, bandwidth, now);
            && l.peers == MarkAll(ps, l.limit, now)
            && l.limit >= bandwidth / UnmarkedCount(ps, now)
            && MarkedDemand(ps, l.limit, now) + l.limit * UnmarkedCount(l.peers, now) <= bandwidth
            && (UnmarkedCount(l.peers, now) > 0 ==>
                  l.limit == (bandwidth - MarkedDemand(ps, l.limit, now)) / UnmarkedCount(l.peers, now))
    decreases UnmarkedCount(ps, now)
  {
    hide MarkAll, MarkedDemand, MarkedCount, UnmarkedCount;
    var limit := bandwidth / UnmarkedCount(ps, now);
    var qs := MarkAll(ps, limit, now);
    var rest := bandwidth - MarkedDemand(ps, limit, now);
    RoundFits(ps, bandwidth, now);
    MarkCounts(ps, limit, now);
    if MarkedCount(ps, limit, now) != 0 && UnmarkedCount(qs, now) != 0 {
      SettleFair(qs, rest, now);
      MarkTwice(ps, limit, Settle(qs, rest, now).limit, now);
    }
  }

  // ---------------------------------------------------------------- limit commands

  /** The limit for a peer: what it sends if that is below the common limit, else the common limit. */
  function LimitFor(p: Peer, limit: Word, now: Word): Word {
    if p.incomingBandwidthThrottleEpoch == now then p.outgoingBandwidth else limit
  }

  function Informed(p: Peer, limit: Word, now: Word, outgoing: Word): Peer {
    if Active(p) then
      p.(outgoingCommands := p.outgoingCommands + [LimitCommand(LimitFor(p, limit, now), outgoing)])
    else p
  }

  function InformAll(ps: seq<Peer>, limit: Word, now: Word, outgoing: Word): (qs: seq<Peer>)
    ensures |qs| == |ps|
  {
    if ps == [] then []
    else InformAll(ps[..|ps| - 1], limit, now, outgoing) + [Informed(ps[|ps| - 1], limit, now, outgoing)]
  }

  lemma {:induction false} InformAllAt(ps: seq<Peer>, limit: Word, now: Word, outgoing: Word, k: nat)
    requires k < |ps|
    ensures InformAll(ps, limit, now, outgoing)[k] == Informed(ps[k], limit, now, outgoing)
    decreases |ps|
  {
    if k < |ps| - 1 {
      InformAllAt(ps[..|ps| - 1], limit, now, outgoing, k);
    }
  }

  /** The incoming limits: unlimited hosts send 0 to everybody. */
  function Incoming(ps: seq<Peer>, bandwidth: Word, outgoing: Word, now: Word): seq<Peer>
    requires UnmarkedCount(ps, now) > 0
  {
    if bandwidth == 0 then InformAll(ps, 0, now, outgoing)
    else
      var l := Settle(ps, bandwidth, now);
      InformAll(l.peers, l.limit, now, outgoing)
  }

  /** The limits that are sent to the active peers, added up; the 0 for a peer that states no rate limits nothing. */
  function Assigned(ps: seq<Peer>, limit: Word): nat {
    if ps == [] then 0
    else
      var p := ps[|ps| - 1];
      Assigned(ps[..|ps| - 1], limit) + if Active(p) then Min(p.outgoingBandwidth, limit) else 0
  }

  lemma {:induction false} AssignedIs(ps: seq<Peer>, limit: Word, now: Word)
    requires forall k :: 0 <= k < |ps| ==> ps[k].incomingBandwidthThrottleEpoch != now
    ensures Assigned(ps, limit) == MarkedDemand(ps, limit, now) + limit * UnmarkedCount(MarkAll(ps, limit, now), now)
    decreases |ps|
  {
    if ps != [] {
      var init := ps[..|ps| - 1];
      AssignedIs(init, limit, now);
      var qs := MarkAll(ps, limit, now);
      assert qs[..|qs| - 1] == MarkAll(init, limit, now);
      OneMore(limit, UnmarkedCount(MarkAll(init, limit, now), now));
    } else {
      assert limit * 0 == 0;
    }
  }

  /**
    Each active peer is sent the smaller of what it sends and one common limit, and the
    limits of the peers that state a rate stay together within the incoming bandwidth.
    A peer that states none is sent 0, which means no limit, and is not part of the sum.
   */
  lemma IncomingFair(ps: seq<Peer>, bandwidth: Word, outgoing: Word, now: Word) returns (limit: Word)
    requires UnmarkedCount(ps, now) > 0 && bandwidth > 0
    requires forall k :: 0 <= k < |ps| ==> ps[k].incomingBandwidthThrottleEpoch != now
    ensures Assigned(ps, limit) <= bandwidth && limit >= bandwidth / UnmarkedCount(ps, now)
    ensures var qs := Incoming(ps, bandwidth, outgoing, now);
            && |qs| == |ps|
            && forall k :: 0 <= k < |ps| ==>
                 if Active(ps[k]) then
                   qs[k].outgoingCommands ==
                     ps[k].outgoingCommands + [LimitCommand(Min(ps[k].outgoingBandwidth, limit), outgoing)]
                 else qs[k] == ps[k]
  {
    SettleFair(ps, bandwidth, now);
    limit := Settle(ps, bandwidth, now).limit;
    AssignedIs(ps, limit, now);
    var qs := Incoming(ps, bandwidth, outgoing, now);
    forall k | 0 <= k < |ps|
      ensures if Active(ps[k]) then
                qs[k].outgoingCommands ==
                  ps[k].outgoingCommands + [LimitCommand(Min(ps[k].outgoingBandwidth, limit), outgoing)]
              else qs[k] == ps[k]
    {
      MarkAllAt(ps, limit, now, k);
      InformAllAt(MarkAll(ps, limit, now), limit, now, outgoing, k);
    }
  }

  // ---------------------------------------------------------------- passes, one peer at a time

  lemma NextPeer(ps: seq<Peer>, k: nat)
    requires k < |ps|
    ensures ps[..k + 1] == ps[..k] + [ps[k]] && ps[..k + 1][..k] == ps[..k] && ps[k..] == [ps[k]] + ps[k + 1..]
  {
  }

  lemma {:induction false} PrefixData(ps: seq<Peer>, now: Word, k: nat)
    requires k <= |ps|
    ensures UnservedData(ps[..k], now) <= UnservedData(ps, now)
    decreases |ps| - k
  {
    if k < |ps| {
      NextPeer(ps, k);
      PrefixData(ps, now, k + 1);
    } else {
      assert ps[..k] == ps;
    }
  }

  lemma DataStep(ps: seq<Peer>, now: Word, k: nat)
    requires k < |ps|
    ensures UnservedData(ps[..k + 1], now) ==
            UnservedData(ps[..k], now) + if Unserved(ps[k], now) then ps[k].outgoingDataTotal else 0
    ensures UnservedData(ps[..k + 1], now) <= UnservedData(ps, now)
  {
    hide Unserved;
    NextPeer(ps, k);
    PrefixData(ps, now, k + 1);
  }

  lemma {:induction false} PrefixServed(ps: seq<Peer>, throttle: Word, now: Word, elapsed: Word, k: nat)
    requires k <= |ps|
    ensures ServedBandwidth(ps[..k], throttle, now, elapsed) <= ServedBandwidth(ps, throttle, now, elapsed)
    ensures ServedCount(ps[..k], throttle, now, elapsed) <= ServedCount(ps, throttle, now, elapsed)
    decreases |ps| - k
  {
    if k < |ps| {
      NextPeer(ps, k);
      PrefixServed(ps, throttle, now, elapsed, k + 1);
    } else {
      assert ps[..k] == ps;
    }
  }

  lemma {:induction false} PrefixMarked(ps: seq<Peer>, limit: Word, now: Word, k: nat)
    requires k <= |ps|
    ensures MarkedDemand(ps[..k], limit, now) <= MarkedDemand(ps, limit, now)
    ensures MarkedCount(ps[..k], limit, now) <= MarkedCount(ps, limit, now)
    decreases |ps| - k
  {
    if k < |ps| {
      NextPeer(ps, k);
      PrefixMarked(ps, limit, now, k + 1);
    } else {
      assert ps[..k] == ps;
    }
  }

  /** Before anybody is marked, all active peers are to be served, and to be limited. */
  lemma {:induction false} NobodyMarked(ps: seq<Peer>, now: Word)
    requires forall k :: 0 <= k < |ps| ==>
               ps[k].outgoingBandwidthThrottleEpoch != now && ps[k].incomingBandwidthThrottleEpoch != now
    ensures UnservedCount(ps, now) == ActiveCount(ps) && UnmarkedCount(ps, now) == ActiveCount(ps)
    decreases |ps|
  {
    if ps != [] {
      NobodyMarked(ps[..|ps| - 1], now);
    }
  }

  lemma ReplaceNext(done: seq<Peer>, ps: seq<Peer>, k: nat, p: Peer)
    requires k < |ps| && |done| == k
    ensures (done + ps[k..])[k] == ps[k]
    ensures (done + ps[k..])[k := p] == done + [p] + ps[k + 1..]
  {
  }

  lemma ServeStep(ps: seq<Peer>, throttle: Word, now: Word, elapsed: Word, k: nat)
    requires k < |ps|
    ensures var mid := ServeAll(ps[..k], throttle, now, elapsed) + ps[k..];
            && mid[k] == ps[k]
            && mid[k := ServeIfOver(ps[k], throttle, now, elapsed)] ==
               ServeAll(ps[..k + 1], throttle, now, elapsed) + ps[k + 1..]
    ensures ServedBandwidth(ps[..k + 1], throttle, now, elapsed) ==
            ServedBandwidth(ps[..k], throttle, now, elapsed)
            + if Exceeds(ps[k], throttle, now, elapsed) then PeerBandwidth(ps[k], elapsed) else 0
    ensures ServedCount(ps[..k + 1], throttle, now, elapsed) ==
            ServedCount(ps[..k], throttle, now, elapsed) + if Exceeds(ps[k], throttle, now, elapsed) then 1 else 0
    ensures ServedBandwidth(ps[..k + 1], throttle, now, elapsed) <= ServedBandwidth(ps, throttle, now, elapsed)
    ensures ServedCount(ps[..k + 1], throttle, now, elapsed) <= ServedCount(ps, throttle, now, elapsed)
  {
    hide Exceeds, ServeIfOver, PeerBandwidth;
    NextPeer(ps, k);
    ReplaceNext(ServeAll(ps[..k], throttle, now, elapsed), ps, k, ServeIfOver(ps[k], throttle, now, elapsed));
    PrefixServed(ps, throttle, now, elapsed, k + 1);
  }

  lemma ThrottleStep(ps: seq<Peer>, throttle: Word, now: Word, k: nat)
    requires k < |ps|
    ensures var mid := ThrottleAll(ps[..k], throttle, now) + ps[k..];
            && mid[k] == ps[k]
            && mid[k := ThrottleIfUnserved(ps[k], throttle, now)] ==
               ThrottleAll(ps[..k + 1], throttle, now) + ps[k + 1..]
  {
    hide ThrottleIfUnserved;
    NextPeer(ps, k);
    ReplaceNext(ThrottleAll(ps[..k], throttle, now), ps, k, ThrottleIfUnserved(ps[k], throttle, now));
  }

  lemma MarkStep(ps: seq<Peer>, limit: Word, now: Word, k: nat)
    requires k < |ps|
    ensures var mid := MarkAll(ps[..k], limit, now) + ps[k..];
            && mid[k] == ps[k]
            && mid[k := MarkIfBelow(ps[k], limit, now)] == MarkAll(ps[..k + 1], limit, now) + ps[k + 1..]
    ensures MarkedDemand(ps[..k + 1], limit, now) ==
            MarkedDemand(ps[..k], limit, now) + if Below(ps[k], limit, now) then ps[k].outgoingBandwidth else 0
    ensures MarkedCount(ps[..k + 1], limit, now) ==
            MarkedCount(ps[..k], limit, now) + if Below(ps[k], limit, now) then 1 else 0
    ensures MarkedDemand(ps[..k + 1], limit, now) <= MarkedDemand(ps, limit, now)
    ensures MarkedCount(ps[..k + 1], limit, now) <= MarkedCount(ps, limit, now)
  {
    hide MarkIfBelow, Below;
    NextPeer(ps, k);
    ReplaceNext(MarkAll(ps[..k], limit, now), ps, k, MarkIfBelow(ps[k], limit, now));
    PrefixMarked(ps, limit, now, k + 1);
  }

  lemma InformStep(ps: seq<Peer>, limit: Word, now: Word, outgoing: Word, k: nat)
    requires k < |ps|
    ensures var mid := InformAll(ps[..k], limit, now, outgoing) + ps[k..];
            && mid[k] == ps[k]
            && mid[k := Informed(ps[k], limit, now, outgoing)] ==
               InformAll(ps[..k + 1], limit, now, outgoing) + ps[k + 1..]
  {
    hide Informed;
    NextPeer(ps, k);
    ReplaceNext(InformAll(ps[..k], limit, now, outgoing), ps, k, Informed(ps[k], limit, now, outgoing));
  }

  /** Before a pass, and what it will have changed. */
  lemma StartPass(ps: seq<Peer>, throttle: Word, now: Word, elapsed: Word)
    ensures ServeAll(ps[..0], throttle, now, elapsed) + ps[0..] == ps
    ensures ServedBandwidth(ps[..0], throttle, now, elapsed) == 0 && ServedCount(ps[..0], throttle, now, elapsed) == 0
    ensures UnservedCount(ServeAll(ps, throttle, now, elapsed), now) ==
            UnservedCount(ps, now) - ServedCount(ps, throttle, now, elapsed)
  {
    ServedCounts(ps, throttle, now, elapsed);
  }

  lemma {:induction false} NoneUnserved(ps: seq<Peer>, throttle: Word, now: Word)
    requires UnservedCount(ps, now) == 0
    ensures ThrottleAll(ps, throttle, now) == ps
    decreases |ps|
  {
    if ps != [] {
      NoneUnserved(ps[..|ps| - 1], throttle, now);
      assert ps[..|ps| - 1] + [ps[|ps| - 1]] == ps;
    }
  }

  /** The outgoing throttle changes nothing that the incoming limits depend on. */
  lemma {:induction false} OutgoingKeeps(ps: seq<Peer>, qs: seq<Peer>, now: Word)
    requires |qs| == |ps|
    requires forall k :: 0 <= k < |ps| ==>
               && qs[k].state == ps[k].state
               && qs[k].incomingBandwidthThrottleEpoch == ps[k].incomingBandwidthThrottleEpoch
    ensures UnmarkedCount(qs, now) == UnmarkedCount(ps, now)
    decreases |ps|
  {
    if ps != [] {
      OutgoingKeeps(ps[..|ps| - 1], qs[..|qs| - 1], now);
    }
  }

  ghost predicate Kept(p: Peer, q: Peer) {
    && q.state == p.state && q.outgoingBandwidth == p.outgoingBandwidth
    && q.incomingBandwidthThrottleEpoch == p.incomingBandwidthThrottleEpoch && q.outgoingCommands == p.outgoingCommands
  }

  lemma {:induction false} RoundsKeep(ps: seq<Peer>, now: Word, elapsed: Word, bandwidth: Word, dataTotal: Word, k: nat)
    requires k < |ps|
    ensures var qs := Rounds(ps, now, elapsed, bandwidth, dataTotal).peers;
            |qs| == |ps| && Kept(ps[k], qs[k])
    decreases UnservedCount(ps, now)
  {
    hide Exceeds, Throttle, Left, UnservedCount, ServedCount, ServedBandwidth;
    var t := Throttle(bandwidth, dataTotal);
    ServedCounts(ps, t, now, elapsed);
    if UnservedCount(ps, now) > 0 && ServedCount(ps, t, now, elapsed) > 0 {
      var qs, spent := ServeAll(ps, t, now, elapsed), ServedBandwidth(ps, t, now, elapsed);
      ServeAllAt(ps, t, now, elapsed, k);
      RoundsKeep(qs, now, elapsed, Left(bandwidth, spent), Left(dataTotal, spent), k);
    }
  }

  lemma OutgoingKeepsPeer(ps: seq<Peer>, now: Word, elapsed: Word, bandwidth: Word, dataTotal: Word,
                          limited: bool, k: nat)
    requires k < |ps|
    ensures var qs := Outgoing(ps, now, elapsed, bandwidth, dataTotal, limited);
            |qs| == |ps| && Kept(ps[k], qs[k])
  {
    hide FinalThrottle, Rounds;
    RoundsKeep(ps, now, elapsed, bandwidth, dataTotal, k);
    ThrottleAllAt(Passes(ps, now, elapsed, bandwidth, dataTotal, limited).peers,
                  FinalThrottle(ps, now, elapsed, bandwidth, dataTotal, limited), now, k);
  }

  lemma OutgoingKeepsCount(ps: seq<Peer>, now: Word, elapsed: Word, bandwidth: Word, dataTotal: Word, limited: bool)
    ensures UnmarkedCount(Outgoing(ps, now, elapsed, bandwidth, dataTotal, limited), now) == UnmarkedCount(ps, now)
  {
    hide Outgoing;
    var qs := Outgoing(ps, now, elapsed, bandwidth, dataTotal, limited);
    if ps == [] {
      NobodyStays(now, elapsed, bandwidth, dataTotal, limited);
    } else {
      forall k | 0 <= k < |ps|
        ensures |qs| == |ps| && Kept(ps[k], qs[k])
      {
        OutgoingKeepsPeer(ps, now, elapsed, bandwidth, dataTotal, limited, k);
      }
      OutgoingKeepsPeer(ps, now, elapsed, bandwidth, dataTotal, limited, 0);
      OutgoingKeeps(ps, qs, now);
    }
  }

  lemma NobodyStays(now: Word, elapsed: Word, bandwidth: Word, dataTotal: Word, limited: bool)
    ensures Outgoing([], now, elapsed, bandwidth, dataTotal, limited) == []
  {
  }

  /** One round of settling the limit. */
  lemma SettleStep(ps: seq<Peer>, bandwidth: Word, now: Word)
    requires UnmarkedCount(ps, now) > 0
    ensures var limit := bandwidth / UnmarkedCount(ps, now);
            var qs := MarkAll(ps, limit, now);
            var rest := bandwidth - MarkedDemand(ps, limit, now);
            && 0 <= limit <= bandwidth && 0 <= rest <= bandwidth
            && UnmarkedCount(qs, now) <= UnmarkedCount(ps, now)
            && (MarkedCount(ps, limit, now) > 0 ==> UnmarkedCount(qs, now) < UnmarkedCount(ps, now))
            && Settle(ps, bandwidth, now) ==
               if MarkedCount(ps, limit, now) == 0 || UnmarkedCount(qs, now) == 0 then Level(limit, qs)
               else Settle(qs, rest, now)
  {
    hide MarkAll, MarkedDemand, MarkedCount, UnmarkedCount;
    RoundFits(ps, bandwidth, now);
    MarkCounts(ps, bandwidth / UnmarkedCount(ps, now), now);
  }
}
