/** How the client picks the display mode for a stream: one scan over the modes of the display. */
module DisplayModes {

  datatype FramePacing = MinLatency | Balanced | CapFps | MaxSmoothness

  datatype Preferences = Preferences(
    width: int, height: int, fps: int,
    framePacing: FramePacing, reduceRefreshRate: bool)

  datatype Mode = Mode(width: int, height: int, refreshRate: real)

  /** Rounds to the nearest integer, halves up. */
  function Round(x: real): int {
    (x + 0.5).Floor
  }

  predicate EqualMatch(p: Preferences, refreshRate: real) {
    refreshRate >= p.fps as real && refreshRate <= (p.fps + 3) as real
  }

  predicate GoodMatch(p: Preferences, refreshRate: real)
    requires p.fps > 0
  {
    refreshRate >= p.fps as real && Round(refreshRate) % p.fps <= 3
  }

  predicate MayReduce(p: Preferences) {
    p.framePacing == CapFps || p.framePacing == MaxSmoothness || (p.framePacing == Balanced && p.reduceRefreshRate)
  }

  /** A refresh rate that matches the stream's is a good one. */
  lemma EqualIsGood(p: Preferences, refreshRate: real)
    requires p.fps > 0 && EqualMatch(p, refreshRate)
    ensures GoodMatch(p, refreshRate)
  {
    var r := Round(refreshRate);
    assert p.fps <= r <= p.fps + 3;
    if r - p.fps < p.fps {
      RemainderOnce(r, p.fps);
    }
  }

  lemma RemainderOnce(n: int, d: int)
    requires 0 < d <= n < 2 * d
    ensures n % d == n - d
  {
    var q := n / d;
    assert n == d * q + n % d;
    assert d * (q - 1) + n % d == n - d;
    assert 0 < q < 2;
  }

  /** The resolution must not change: an ordinary stream of at most 60 frames per second below 4K. */
  predicate Pinned(p: Preferences, isNative: bool) {
    p.width < 3840 && p.fps <= 60 && !isNative
  }

  predicate SameResolution(a: Mode, b: Mode) {
    a.width == b.width && a.height == b.height
  }

  predicate AtLeast(a: Mode, b: Mode) {
    a.width >= b.width && a.height >= b.height
  }

  predicate Fits(p: Preferences, m: Mode) {
    m.width >= p.width && m.height >= p.height
  }

  /** The resolutions that a stream may switch to at all, given the mode of the display at the start. */
  predicate Eligible(p: Preferences, isNative: bool, current: Mode, m: Mode) {
    && (m.width <= 4096 || p.width > 4096)
    && (Pinned(p, isNative) ==> SameResolution(current, m))
  }

  /** The resolutions that may replace `best`: no smaller, except that a high frame rate only has to fit. */
  predicate Replaces(p: Preferences, m: Mode, best: Mode) {
    AtLeast(m, best) || (p.fps > 60 && Fits(p, m))
  }

  /** Among good refresh rates, the lowest or the highest is better; a good one is better than any other. */
  predicate NoBetter(p: Preferences, m: Mode, best: Mode)
    requires p.fps > 0
  {
    if GoodMatch(p, m.refreshRate) then
      && GoodMatch(p, best.refreshRate)
      && if MayReduce(p) then best.refreshRate <= m.refreshRate else m.refreshRate <= best.refreshRate
    else GoodMatch(p, best.refreshRate) || m.refreshRate <= best.refreshRate
  }

  /** No mode of the display could still improve on `best`, and the way to `best` was itself an improvement. */
  ghost predicate Settled(p: Preferences, isNative: bool, current: Mode, modes: seq<Mode>, best: Mode)
    requires p.fps > 0
  {
    && (best == current || (best in modes && Eligible(p, isNative, current, best)))
    && Replaces(p, best, current)
    && NoBetter(p, current, best)
    && forall m :: m in modes && Eligible(p, isNative, current, m) && Replaces(p, m, best) ==> NoBetter(p, m, best)
  }

  /** The modes that a stream can choose from when its choice does not depend on the order of the list. */
  ghost predicate Candidate(p: Preferences, isNative: bool, current: Mode, modes: seq<Mode>, m: Mode) {
    m == current || (m in modes && Eligible(p, isNative, current, m) && Replaces(p, m, current))
  }

  ghost predicate Optimal(p: Preferences, isNative: bool, current: Mode, modes: seq<Mode>, best: Mode)
    requires p.fps > 0
  {
    && Candidate(p, isNative, current, modes, best)
    && forall m :: Candidate(p, isNative, current, modes, m) ==> NoBetter(p, m, best)
  }

  /** Where the scan ends without a change of resolution, or where one cannot trap it, it has found the optimum. */
  lemma SettledIsOptimal(p: Preferences, isNative: bool, current: Mode, modes: seq<Mode>, best: Mode)
    requires p.fps > 0 && Settled(p, isNative, current, modes, best)
    requires Pinned(p, isNative) || (p.fps > 60 && Fits(p, current)) || SameResolution(current, best)
    ensures Optimal(p, isNative, current, modes, best)
  {
    forall m | Candidate(p, isNative, current, modes, m)
      ensures NoBetter(p, m, best)
    {
      assert m != current ==> Replaces(p, m, best);
    }
  }

  /** Whatever the order in which the display lists its modes, the best refresh rate is the same. */
  lemma OptimalIsUnique(p: Preferences, isNative: bool, current: Mode, modes: seq<Mode>, modes': seq<Mode>,
                        best: Mode, best': Mode)
    requires p.fps > 0 && SameModes(modes, modes')
    requires Optimal(p, isNative, current, modes, best) && Optimal(p, isNative, current, modes', best')
    ensures best.refreshRate == best'.refreshRate
    ensures Pinned(p, isNative) ==> best == best'
    ensures GoodMatch(p, best.refreshRate) <==>
            exists m :: Candidate(p, isNative, current, modes, m) && GoodMatch(p, m.refreshRate)
  {
    assert Candidate(p, isNative, current, modes', best) && Candidate(p, isNative, current, modes, best');
    assert NoBetter(p, best, best') && NoBetter(p, best', best);
  }

  // ---------------------------------------------------------------- the scan

  /** One mode after the other may take the place of the best so far, if it may replace it and is no worse. */
  function Scan(p: Preferences, isNative: bool, current: Mode, modes: seq<Mode>): Mode
    requires p.fps > 0
  {
    if modes == [] then current
    else
      var best, m := Scan(p, isNative, current, modes[..|modes| - 1]), modes[|modes| - 1];
      if Eligible(p, isNative, current, m) && Replaces(p, m, best) && NoBetter(p, best, m) then m else best
  }

  /** Scans the modes once. */
  method ChooseMode(p: Preferences, isNative: bool, current: Mode, modes: seq<Mode>) returns (best: Mode)
    requires p.fps > 0
    ensures best == Scan(p, isNative, current, modes)
  {
    best := current;
    var refreshRateIsGood, refreshRateIsEqual := GoodMatch(p, best.refreshRate), EqualMatch(p, best.refreshRate);
    for k := 0 to |modes|
      invariant refreshRateIsGood == GoodMatch(p, best.refreshRate)
      invariant refreshRateIsEqual == EqualMatch(p, best.refreshRate)
      invariant best == Scan(p, isNative, current, modes[..k])
    {
      var candidate := modes[k];
      assert modes[..k + 1][..k] == modes[..k];
      if refreshRateIsEqual {
        EqualIsGood(p, best.refreshRate);
      }
      var refreshRateReduced := candidate.refreshRate < best.refreshRate;
      var resolutionReduced := candidate.width < best.width || candidate.height < best.height;
      var resolutionFitsStream := candidate.width >= p.width && candidate.height >= p.height;
      if candidate.width > 4096 && p.width <= 4096 {
        continue;
      }
      if p.width < 3840 && p.fps <= 60 && !isNative {
        if current.width != candidate.width || current.height != candidate.height {
          continue;
        }
      }
      if resolutionReduced && !(p.fps > 60 && resolutionFitsStream) {
        continue;
      }
      if MayReduce(p) && refreshRateIsEqual && !EqualMatch(p, candidate.refreshRate) {
        continue;
      } else if refreshRateIsGood {
        if !GoodMatch(p, candidate.refreshRate) {
          continue;
        }
        if MayReduce(p) {
          if candidate.refreshRate > best.refreshRate {
            continue;
          }
        } else if refreshRateReduced {
          continue;
        }
      } else if !GoodMatch(p, candidate.refreshRate) {
        if refreshRateReduced {
          continue;
        }
      }
      best := candidate;
      refreshRateIsGood := GoodMatch(p, candidate.refreshRate);
      refreshRateIsEqual := EqualMatch(p, candidate.refreshRate);
    }
    assert modes[..|modes|] == modes;
  }

  /** What one more mode in the list asks for, whether it is passed over or taken. */
  lemma OneMoreMode(p: Preferences, isNative: bool, current: Mode, modes: seq<Mode>, k: nat, best: Mode)
    requires p.fps > 0 && k < |modes| && Settled(p, isNative, current, modes[..k], best)
    ensures !Eligible(p, isNative, current, modes[k]) || !Replaces(p, modes[k], best) || NoBetter(p, modes[k], best) ==>
              Settled(p, isNative, current, modes[..k + 1], best)
    ensures Eligible(p, isNative, current, modes[k]) && Replaces(p, modes[k], best) && NoBetter(p, best, modes[k]) ==>
              Settled(p, isNative, current, modes[..k + 1], modes[k])
  {
    hide GoodMatch, MayReduce;
    assert modes[..k + 1] == modes[..k] + [modes[k]];
    assert modes[..k + 1][k] == modes[k];
    if Eligible(p, isNative, current, modes[k]) && Replaces(p, modes[k], best) && NoBetter(p, best, modes[k]) {
      forall m | m in modes[..k + 1] && Eligible(p, isNative, current, m) && Replaces(p, m, modes[k])
        ensures NoBetter(p, m, modes[k])
      {
        if m != modes[k] {
          assert m in modes[..k] && Replaces(p, m, best);
        }
      }
    }
  }

  /** The scan ends with a mode that no other mode of the display could replace for the better. */
  lemma {:induction false} ScanSettles(p: Preferences, isNative: bool, current: Mode, modes: seq<Mode>)
    requires p.fps > 0
    ensures Settled(p, isNative, current, modes, Scan(p, isNative, current, modes))
    decreases |modes|
  {
    if modes != [] {
      var k := |modes| - 1;
      ScanSettles(p, isNative, current, modes[..k]);
      assert modes[..k + 1] == modes;
      OneMoreMode(p, isNative, current, modes, k, Scan(p, isNative, current, modes[..k]));
    }
  }

  /**
    From any point of the scan to its end nothing is lost: no good match, where a reduction
    is welcome no equal match, and up to 60 frames per second no column and no row.
   */
  lemma {:induction false} ScanImproves(p: Preferences, isNative: bool, current: Mode, modes: seq<Mode>, j: nat)
    requires p.fps > 0 && j <= |modes|
    ensures var a, b := Scan(p, isNative, current, modes[..j]), Scan(p, isNative, current, modes);
            && NoBetter(p, a, b) && Replaces(p, b, a)
            && (GoodMatch(p, a.refreshRate) ==> GoodMatch(p, b.refreshRate))
            && (MayReduce(p) && EqualMatch(p, a.refreshRate) ==> EqualMatch(p, b.refreshRate))
            && (p.fps <= 60 ==> AtLeast(b, a))
            && (Fits(p, a) ==> Fits(p, b))
    decreases |modes|
  {
    var a := Scan(p, isNative, current, modes[..j]);
    if j == |modes| {
      assert modes[..j] == modes;
    } else {
      var k := |modes| - 1;
      ScanImproves(p, isNative, current, modes[..k], j);
      assert modes[..k][..j] == modes[..j];
    }
    if EqualMatch(p, a.refreshRate) {
      EqualIsGood(p, a.refreshRate);
    }
  }

  // ---------------------------------------------------------------- when the scan finds the optimum

  /** A mode that the scan may go to, although there is a better one, and from which it can reach no better one. */
  ghost predicate Trap(p: Preferences, isNative: bool, current: Mode, modes: seq<Mode>, m: Mode)
    requires p.fps > 0
  {
    && m in modes && Eligible(p, isNative, current, m) && Replaces(p, m, current) && NoBetter(p, current, m)
    && (exists c :: c in modes && Eligible(p, isNative, current, c) && Replaces(p, c, current) && !NoBetter(p, c, m))
    && (forall c :: c in modes && Eligible(p, isNative, current, c) && !NoBetter(p, c, m) ==> !Replaces(p, c, m))
  }

  ghost predicate SameModes(modes: seq<Mode>, modes': seq<Mode>) {
    forall m :: m in modes <==> m in modes'
  }

  /** Where a scan can end is either a trap or optimal, and never both. */
  lemma TrapIsNotOptimal(p: Preferences, isNative: bool, current: Mode, modes: seq<Mode>, m: Mode)
    requires p.fps > 0 && Settled(p, isNative, current, modes, m)
    ensures Trap(p, isNative, current, modes, m) <==> !Optimal(p, isNative, current, modes, m)
  {
    if m == current || SameResolution(current, m) {
      SettledIsOptimal(p, isNative, current, modes, m);
    }
  }

  /** The same list in another order. */
  ghost predicate Reordered(modes: seq<Mode>, modes': seq<Mode>) {
    multiset(modes) == multiset(modes')
  }

  lemma ReorderedIsSame(modes: seq<Mode>, modes': seq<Mode>)
    requires Reordered(modes, modes')
    ensures SameModes(modes, modes')
  {
    forall m
      ensures m in modes <==> m in modes'
    {
      assert m in modes <==> m in multiset(modes);
    }
  }

  /** With a trap at the front of the list, the scan ends no better than there. */
  lemma TrapIsTaken(p: Preferences, isNative: bool, current: Mode, modes: seq<Mode>, trap: Mode) returns (ms: seq<Mode>)
    requires p.fps > 0 && Trap(p, isNative, current, modes, trap)
    ensures Reordered(ms, modes) && ms != [] && ms[0] == trap
    ensures !Optimal(p, isNative, current, modes, Scan(p, isNative, current, ms))
  {
    var i :| 0 <= i < |modes| && modes[i] == trap;
    ms := [trap] + modes[..i] + modes[i + 1..];
    assert modes == modes[..i] + [trap] + modes[i + 1..];
    ReorderedIsSame(ms, modes);
    var best := Scan(p, isNative, current, ms);
    assert ms[..1] == [trap] && [trap][..0] == [];
    assert Scan(p, isNative, current, []) == current;
    assert Scan(p, isNative, current, [trap]) == trap;
    ScanImproves(p, isNative, current, ms, 1);
    ScanSettles(p, isNative, current, ms);
    assert NoBetter(p, best, trap);
    var c :| c in modes && Eligible(p, isNative, current, c) && Replaces(p, c, current) && !NoBetter(p, c, trap);
    assert Candidate(p, isNative, current, modes, c);
    assert !NoBetter(p, c, best);
  }

  /** The scan finds the optimum for every order of the list, if and only if no mode of the display is a trap. */
  lemma OptimalUnlessTrapped(p: Preferences, isNative: bool, current: Mode, modes: seq<Mode>)
    requires p.fps > 0
    ensures (forall ms :: Reordered(ms, modes) ==> Optimal(p, isNative, current, modes, Scan(p, isNative, current, ms)))
            <==> (forall m :: m in modes ==> !Trap(p, isNative, current, modes, m))
  {
    forall ms | Reordered(ms, modes)
      ensures Trap(p, isNative, current, modes, Scan(p, isNative, current, ms)) <==>
              !Optimal(p, isNative, current, modes, Scan(p, isNative, current, ms))
    {
      ReorderedIsSame(ms, modes);
      ScanSettles(p, isNative, current, ms);
      TrapIsNotOptimal(p, isNative, current, modes, Scan(p, isNative, current, ms));
    }
    forall m | m in modes && Trap(p, isNative, current, modes, m)
      ensures exists ms :: Reordered(ms, modes) && !Optimal(p, isNative, current, modes, Scan(p, isNative, current, ms))
    {
      var ms := TrapIsTaken(p, isNative, current, modes, m);
    }
  }

  /** A pinned resolution has no traps, nor has a high frame rate on a display that fits the stream. */
  lemma NoTraps(p: Preferences, isNative: bool, current: Mode, modes: seq<Mode>, m: Mode)
    requires p.fps > 0 && (Pinned(p, isNative) || (p.fps > 60 && Fits(p, current)))
    ensures !Trap(p, isNative, current, modes, m)
  {
  }

  /**
    A larger resolution can be a trap, and then the order matters: for a native stream at 60 frames
    per second the scan goes to a larger mode at 50 Hz if it comes first, and cannot come back.
   */
  lemma OrderMatters()
    ensures var p := Preferences(1920, 1080, 60, MinLatency, false);
            var current, large, wanted := Mode(1920, 1080, 50.0), Mode(2560, 1440, 50.0), Mode(1920, 1080, 60.0);
            && Scan(p, true, current, [large, wanted]) == large
            && Scan(p, true, current, [wanted, large]) == wanted
            && Trap(p, true, current, [large, wanted], large)
            && !Optimal(p, true, current, [large, wanted], large)
            && Optimal(p, true, current, [large, wanted], wanted)
  {
    var p := Preferences(1920, 1080, 60, MinLatency, false);
    var current, large, wanted := Mode(1920, 1080, 50.0), Mode(2560, 1440, 50.0), Mode(1920, 1080, 60.0);
    assert Round(60.0) == 60;
    assert Scan(p, true, current, []) == current;
    assert [large, wanted][..1] == [large] && [wanted, large][..1] == [wanted] && [large][..0] == [] == [wanted][..0];
    assert Scan(p, true, current, [large]) == large && Scan(p, true, current, [wanted]) == wanted;
    assert wanted in [large, wanted] && large in [large, wanted];
    assert !NoBetter(p, wanted, large) && Candidate(p, true, current, [large, wanted], wanted);
  }

  // ---------------------------------------------------------------- the choice in plain terms

  /**
    An ordinary stream of at most 60 frames per second below 4K: if the current mode or a listed one of its
    resolution has a good refresh rate, at least that of the stream and at most 3 above a multiple, the choice
    has the lowest such rate where the preferences ask for a reduction, and the highest otherwise.  If there
    is none it has the highest rate of all.
   */
  lemma ChoiceBelow4K(p: Preferences, current: Mode, modes: seq<Mode>)
    requires p.width < 3840 && 0 < p.fps <= 60
    ensures var best := Scan(p, false, current, modes);
            var good := (rate: real) => rate >= p.fps as real && (rate + 0.5).Floor % p.fps <= 3;
            var lowest := p.framePacing == CapFps || p.framePacing == MaxSmoothness
                          || (p.framePacing == Balanced && p.reduceRefreshRate);
            && best.width == current.width && best.height == current.height && (best == current || best in modes)
            && (current.width > 4096 ==> best == current)
            && (good(current.refreshRate) ==>
                  && good(best.refreshRate)
                  && if lowest then best.refreshRate <= current.refreshRate
                     else current.refreshRate <= best.refreshRate)
            && (!good(best.refreshRate) ==> current.refreshRate <= best.refreshRate)
            && (current.width <= 4096 ==>
                  forall m :: m in modes && m.width == current.width && m.height == current.height ==>
                    && (good(m.refreshRate) ==>
                          && good(best.refreshRate)
                          && if lowest then best.refreshRate <= m.refreshRate else m.refreshRate <= best.refreshRate)
                    && (!good(best.refreshRate) ==> m.refreshRate <= best.refreshRate))
  {
    ScanSettles(p, false, current, modes);
    var best := Scan(p, false, current, modes);
    forall m | m in modes && m.width == current.width && m.height == current.height && current.width <= 4096
      ensures NoBetter(p, m, best)
    {
      assert Eligible(p, false, current, m) && Replaces(p, m, best);
    }
  }

  /**
    Any stream: the choice is the current mode or a listed one that is at most 4096 wide unless the stream is
    wider.  Up to 60 frames per second it is no smaller than the current mode; above, it may be smaller if it
    fits the stream.  No listed mode that is allowed in place of the choice has a better refresh rate.
   */
  lemma ChoiceInGeneral(p: Preferences, isNative: bool, current: Mode, modes: seq<Mode>)
    requires p.fps > 0
    ensures var best := Scan(p, isNative, current, modes);
            var good := (rate: real) => rate >= p.fps as real && (rate + 0.5).Floor % p.fps <= 3;
            var lowest := p.framePacing == CapFps || p.framePacing == MaxSmoothness
                          || (p.framePacing == Balanced && p.reduceRefreshRate);
            && (best == current || (best in modes && (best.width <= 4096 || p.width > 4096)))
            && ((best.width >= current.width && best.height >= current.height)
                || (p.fps > 60 && best.width >= p.width && best.height >= p.height))
            && (good(current.refreshRate) ==>
                  && good(best.refreshRate)
                  && if lowest then best.refreshRate <= current.refreshRate
                     else current.refreshRate <= best.refreshRate)
            && (!good(best.refreshRate) ==> current.refreshRate <= best.refreshRate)
            && (p.width >= 3840 || p.fps > 60 || isNative ==>
                  forall m :: m in modes && (m.width <= 4096 || p.width > 4096)
                              && ((m.width >= best.width && m.height >= best.height)
                                  || (p.fps > 60 && m.width >= p.width && m.height >= p.height)) ==>
                    && (good(m.refreshRate) ==>
                          && good(best.refreshRate)
                          && if lowest then best.refreshRate <= m.refreshRate else m.refreshRate <= best.refreshRate)
                    && (!good(best.refreshRate) ==> m.refreshRate <= best.refreshRate))
  {
    ScanSettles(p, isNative, current, modes);
    var best := Scan(p, isNative, current, modes);
    if p.width >= 3840 || p.fps > 60 || isNative {
      forall m | m in modes && Eligible(p, isNative, current, m) && Replaces(p, m, best)
        ensures NoBetter(p, m, best)
      {
      }
    }
  }

  /** The mode m takes the place of the best so far, in plain terms. */
  predicate Takes(p: Preferences, isNative: bool, current: Mode, best: Mode, m: Mode)
    requires p.fps > 0
  {
    var good := (rate: real) => rate >= p.fps as real && (rate + 0.5).Floor % p.fps <= 3;
    var lowest := p.framePacing == CapFps || p.framePacing == MaxSmoothness
                  || (p.framePacing == Balanced && p.reduceRefreshRate);
    && (m.width <= 4096 || p.width > 4096)
    && (p.width < 3840 && p.fps <= 60 && !isNative ==> m.width == current.width && m.height == current.height)
    && ((m.width >= best.width && m.height >= best.height)
        || (p.fps > 60 && m.width >= p.width && m.height >= p.height))
    && if good(best.refreshRate) then
         && good(m.refreshRate)
         && if lowest then m.refreshRate <= best.refreshRate else m.refreshRate >= best.refreshRate
       else good(m.refreshRate) || m.refreshRate >= best.refreshRate
  }

  lemma TakesIs(p: Preferences, isNative: bool, current: Mode, best: Mode, m: Mode)
    requires p.fps > 0
    ensures Takes(p, isNative, current, best, m) <==>
            Eligible(p, isNative, current, m) && Replaces(p, m, best) && NoBetter(p, best, m)
  {
  }

  /** One mode after the other: of equal modes the last is taken. */
  lemma OneModeAtATime(p: Preferences, isNative: bool, current: Mode, modes: seq<Mode>, m: Mode)
    requires p.fps > 0
    ensures Scan(p, isNative, current, []) == current
    ensures var best := Scan(p, isNative, current, modes);
            Scan(p, isNative, current, modes + [m]) == if Takes(p, isNative, current, best, m) then m else best
  {
    hide Takes, Eligible, Replaces, NoBetter;
    assert (modes + [m])[..|modes|] == modes;
    TakesIs(p, isNative, current, Scan(p, isNative, current, modes), m);
  }

  /** Up to 60 frames per second, the scan does not end with a mode that a larger one matches in its refresh rate. */
  lemma {:induction false} NoLargerAtTheSameRate(p: Preferences, isNative: bool, current: Mode,
                                                 modes: seq<Mode>, m: Mode)
    requires 0 < p.fps <= 60 && m in modes && Eligible(p, isNative, current, m)
    requires AtLeast(m, Scan(p, isNative, current, modes))
    requires m.refreshRate == Scan(p, isNative, current, modes).refreshRate
    ensures SameResolution(m, Scan(p, isNative, current, modes))
    decreases |modes|
  {
    hide GoodMatch, MayReduce;
    var init, last := modes[..|modes| - 1], modes[|modes| - 1];
    assert modes == init + [last];
    var best := Scan(p, isNative, current, init);
    ScanSettles(p, isNative, current, init);
    if m in init {
      if AtLeast(m, best) && m.refreshRate == best.refreshRate {
        NoLargerAtTheSameRate(p, isNative, current, init, m);
      }
    }
  }
}
