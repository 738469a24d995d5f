/**
  The carryless 32-bit range coder, apart from any statistical model.

  An encoder narrows an interval of 32-bit words to the part that belongs to a
  symbol and emits leading bytes as they become certain.  A decoder follows the
  same intervals while it keeps the next four bytes of the stream in a word.
 */
module RangeCoding {
  import opened Words

  const TOP := 0x100_0000        // the leading byte counts multiples of this
  const BOTTOM := 0x1_0000       // the smallest range that is left after normalizing
  const MAX_TOTAL := 0xFF00      // no model total exceeds this when it reaches the coder

  /** The words low, ..., low + range - 1. */
  datatype Interval = Interval(low: int, range: int)

  /** A symbol's share [under, under + count) of a scale of total units. */
  datatype Share = Share(under: int, count: int, total: int)

  ghost predicate Proper(x: Share) {
    0 <= x.under && 1 <= x.count && x.under + x.count <= x.total <= MAX_TOTAL
  }

  ghost predicate AllProper(xs: seq<Share>) {
    forall k :: 0 <= k < |xs| ==> Proper(xs[k])
  }

  /** What holds of the interval at every moment of a run. */
  ghost predicate Live(i: Interval) {
    && 0 <= i.low && 1 <= i.range
    && i.low + i.range <= WORD
    && (i.low + i.range == WORD ==> i.range < TOP)
  }

  /** What holds of the interval whenever a symbol is about to be coded. */
  ghost predicate Ready(i: Interval) {
    Live(i) && BOTTOM <= i.range
  }

  const FULL_INTERVAL := Interval(0, WORD - 1)

  // ---------------------------------------------------------------- steps shared by both sides

  /** Cuts the share x out of the interval. */
  function Narrow(i: Interval, x: Share): (j: Interval)
    requires Ready(i) && Proper(x)
    ensures Live(j) && i.low <= j.low && j.low + j.range <= i.low + i.range
  {
    var unit := i.range / x.total;
    UnitFits(i.range, x);
    Interval(i.low + x.under * unit, x.count * unit)
  }

  lemma UnitFits(range: int, x: Share)
    requires BOTTOM <= range && Proper(x)
    ensures var unit := range / x.total;
            && 1 <= unit
            && 0 <= x.under * unit
            && 1 <= x.count * unit
            && x.under * unit + x.count * unit <= range
  {
    var unit := range / x.total;
    assert x.total * unit <= range;
    Mono(1, x.count, unit);
    Mono(0, x.under, unit);
    Mono(x.under + x.count, x.total, unit);
    Distribute(x.under, x.count, unit);
  }

  lemma Mono(a: int, b: int, c: int)
    requires a <= b && 0 <= c
    ensures a * c <= b * c
  {
  }

  lemma Distribute(a: int, b: int, c: int)
    ensures (a + b) * c == a * c + b * c
  {
  }

  /** The interval reaches past the words that share the leading byte of low. */
  predicate Straddles(i: Interval) {
    i.low / TOP < (i.low + i.range) / TOP
  }

  predicate Settled(i: Interval) {
    Straddles(i) && BOTTOM <= i.range
  }

  /** Gives up the part of the range beyond the words that share the leading byte of low. */
  function Truncate(i: Interval): (t: Interval)
    requires Live(i) && !Settled(i)
    ensures Live(t) && t.low == i.low && t.range <= i.range
    ensures t.low / TOP == (t.low + t.range - 1) / TOP
    ensures t.range < TOP
    ensures Straddles(i) ==> (t.low + t.range) % TOP == 0
    ensures (t.low + t.range) % TOP == 0 ==> t.range < BOTTOM
    ensures i.low + i.range == WORD ==> t == i && Straddles(i)
  {
    if Straddles(i) then Interval(i.low, TOP - i.low % TOP) else i
  }

  /** Drops the leading byte. */
  function Shift(t: Interval): (j: Interval)
    requires Live(t) && t.range < TOP
    requires t.low / TOP == (t.low + t.range - 1) / TOP
    requires (t.low + t.range) % TOP == 0 ==> t.range < BOTTOM
    ensures Live(j)
    ensures (t.low + t.range) % TOP == 0 ==> j.low + j.range == WORD
    ensures j.range == t.range * 256 && j.low == t.low % TOP * 256
  {
    Interval(t.low % TOP * 256, t.range * 256)
  }

  // ---------------------------------------------------------------- the encoder

  datatype Coded = Coded(bytes: seq<Byte>, interval: Interval)

  /** Normalizing terminates: after a truncation the range only grows, and before it as well. */
  ghost function Rounds(i: Interval): (nat, nat)
    requires Live(i)
  {
    (if i.low + i.range == WORD then 0 else 1, WORD - i.range)
  }

  /** Emits leading bytes until the range is wide enough and the leading byte is open again. */
  function Normalize(i: Interval): (c: Coded)
    requires Live(i)
    ensures Ready(c.interval)
    decreases Rounds(i).0, Rounds(i).1
  {
    if Settled(i) then Coded([], i)
    else
      var t := Truncate(i);
      var rest := Normalize(Shift(t));
      Coded([t.low / TOP] + rest.bytes, rest.interval)
  }

  function Encode(i: Interval, x: Share): (c: Coded)
    requires Ready(i) && Proper(x)
    ensures Ready(c.interval)
  {
    Normalize(Narrow(i, x))
  }

  /** How many bytes remain before a word becomes zero under shifting. */
  function Span(low: int): nat {
    if low == 0 then 0 else if low % TOP == 0 then 1 else if low % BOTTOM == 0 then 2
    else if low % 256 == 0 then 3 else 4
  }

  lemma SpanShrinks(low: int)
    requires 0 < low < WORD
    ensures Span(low) == 1 + Span(low % TOP * 256)
  {
  }

  /** The bytes of the final low word, without its trailing zeros. */
  function Flush(low: int): (bytes: seq<Byte>)
    requires 0 <= low < WORD
    ensures |bytes| == Span(low)
    decreases Span(low)
  {
    if low == 0 then []
    else
      SpanShrinks(low);
      [low / TOP] + Flush(low % TOP * 256)
  }

  /** Everything that is emitted from here on if exactly the shares xs are still to be coded. */
  function EncodeAll(i: Interval, xs: seq<Share>): seq<Byte>
    requires Ready(i) && AllProper(xs)
    decreases |xs|
  {
    if xs == [] then Flush(i.low)
    else
      var c := Encode(i, xs[0]);
      c.bytes + EncodeAll(c.interval, xs[1..])
  }

  /** The interval after coding the shares xs. */
  function IntervalAfter(i: Interval, xs: seq<Share>): (j: Interval)
    requires Ready(i) && AllProper(xs)
    ensures Ready(j)
    decreases |xs|
  {
    if xs == [] then i else IntervalAfter(Encode(i, xs[0]).interval, xs[1..])
  }

  /** The bytes emitted while coding the shares xs. */
  function Emitted(i: Interval, xs: seq<Share>): seq<Byte>
    requires Ready(i) && AllProper(xs)
    decreases |xs|
  {
    if xs == [] then []
    else
      var c := Encode(i, xs[0]);
      c.bytes + Emitted(c.interval, xs[1..])
  }

  lemma EmittedOne(i: Interval, x: Share)
    requires Ready(i) && Proper(x)
    ensures AllProper([x]) && Emitted(i, [x]) == Encode(i, x).bytes && IntervalAfter(i, [x]) == Encode(i, x).interval
  {
    hide Encode;
    var c := Encode(i, x);
    assert IntervalAfter(c.interval, []) == c.interval;
    assert c.bytes + Emitted(c.interval, []) == c.bytes;
  }

  lemma {:induction false} EmittedSplit(i: Interval, xs: seq<Share>, ys: seq<Share>)
    requires Ready(i) && AllProper(xs) && AllProper(ys)
    ensures AllProper(xs + ys)
    ensures Emitted(i, xs + ys) == Emitted(i, xs) + Emitted(IntervalAfter(i, xs), ys)
    ensures IntervalAfter(i, xs + ys) == IntervalAfter(IntervalAfter(i, xs), ys)
    decreases |xs|
  {
    hide Encode, Proper;
    if xs == [] {
      assert xs + ys == ys;
    } else {
      assert (xs + ys)[1..] == xs[1..] + ys;
      EmittedSplit(Encode(i, xs[0]).interval, xs[1..], ys);
    }
  }

  lemma {:induction false} EncodeAllSplit(i: Interval, xs: seq<Share>, later: seq<Share>)
    requires Ready(i) && AllProper(xs) && AllProper(later)
    ensures EncodeAll(i, xs + later) == Emitted(i, xs) + EncodeAll(IntervalAfter(i, xs), later)
    decreases |xs|
  {
    hide Encode;
    if xs == [] {
      assert xs + later == later;
    } else {
      assert (xs + later)[1..] == xs[1..] + later;
      EncodeAllSplit(Encode(i, xs[0]).interval, xs[1..], later);
    }
  }

  // ---------------------------------------------------------------- the decoder

  /** Four bytes of lookahead, and the bytes after them. */
  datatype Reader = Reader(code: int, rest: seq<Byte>)

  function At(s: seq<Byte>, k: nat): int {
    if k < |s| then s[k] else 0
  }

  /** The first four bytes of a stream as one word; missing bytes are zero. */
  function Window(s: seq<Byte>): (w: int)
    ensures 0 <= w < WORD
  {
    At(s, 0) * TOP + At(s, 1) * BOTTOM + At(s, 2) * 256 + At(s, 3)
  }

  function Load(s: seq<Byte>): Reader {
    Reader(Window(s), if |s| <= 4 then [] else s[4..])
  }

  function Pull(r: Reader): Reader {
    Reader(r.code % TOP * 256 + At(r.rest, 0), if r.rest == [] then [] else r.rest[1..])
  }

  datatype Position = Position(interval: Interval, reader: Reader)

  /** The decoder's rounds: the same as the encoder's, with a byte taken in for each byte given out. */
  function NormalizeReader(p: Position): (q: Position)
    requires Live(p.interval)
    ensures q.interval == Normalize(p.interval).interval
    decreases Rounds(p.interval).0, Rounds(p.interval).1
  {
    if Settled(p.interval) then p
    else
      NormalizeReader(Position(Shift(Truncate(p.interval)), Pull(p.reader)))
  }

  /** The unit of the scale that the lookahead points at, as a 16-bit number. */
  function ReadCode(p: Position, total: int): (code: int)
    requires p.interval.range >= total > 0
    ensures 0 <= code < 0x1_0000
  {
    U16(U32(p.reader.code - p.interval.low) / (p.interval.range / total))
  }

  function Decode(p: Position, x: Share): (q: Position)
    requires Ready(p.interval) && Proper(x)
    ensures q.interval == Encode(p.interval, x).interval
    ensures Ready(q.interval)
  {
    NormalizeReader(Position(Narrow(p.interval, x), p.reader))
  }

  // ---------------------------------------------------------------- what the encoder's bytes mean

  lemma WindowCons(b: Byte, s: seq<Byte>)
    ensures Window([b] + s) == b * TOP + Window(s) / 256
    ensures Pull(Load([b] + s)) == Load(s)
  {
    var t := [b] + s;
    assert At(t, 0) == b && At(t, 1) == At(s, 0) && At(t, 2) == At(s, 1) && At(t, 3) == At(s, 2);
    assert Window(s) == (At(s, 0) * BOTTOM + At(s, 1) * 256 + At(s, 2)) * 256 + At(s, 3);
    var x := At(s, 0) * BOTTOM + At(s, 1) * 256 + At(s, 2);
    assert Window(t) == b * TOP + x;
    assert Window(t) * 256 == b * WORD + x * 256;
    assert 0 <= x * 256 < WORD;
    assert Window(t) * 256 % WORD == x * 256;
    if |t| > 4 {
      assert t[4..] == s[3..];
      assert t[4..][1..] == s[4..];
    }
  }

  ghost predicate Inside(i: Interval, w: int) {
    i.low <= w < i.low + i.range
  }

  /** Whatever follows, if it lies in the normalized interval then with the emitted bytes in front it lies in i. */
  lemma {:induction false} NormalizeInside(i: Interval, tail: seq<Byte>)
    requires Live(i) && Inside(Normalize(i).interval, Window(tail))
    ensures Inside(i, Window(Normalize(i).bytes + tail))
    decreases Rounds(i).0, Rounds(i).1
  {
    hide Window;
    if Settled(i) {
      assert [] + tail == tail;
    } else {
      var t := Truncate(i);
      var rest := Normalize(Shift(t));
      NormalizeInside(Shift(t), tail);
      var s := rest.bytes + tail;
      assert ([t.low / TOP] + rest.bytes) + tail == [t.low / TOP] + s;
      WindowCons(t.low / TOP, s);
      assert t.low % TOP <= Window(s) / 256 < t.low % TOP + t.range;
    }
  }

  lemma {:induction false} FlushWindow(low: int)
    requires 0 <= low < WORD
    ensures Load(Flush(low)) == Reader(low, [])
    decreases Span(low)
  {
    if low != 0 {
      var next := low % TOP * 256;
      SpanShrinks(low);
      FlushWindow(next);
      WindowCons(low / TOP, Flush(next));
    }
  }

  /** And not a byte more: the flushed bytes end with one that is not zero. */
  lemma {:induction false} FlushIsShortest(low: int)
    requires 0 <= low < WORD
    ensures Flush(low) == [] <==> low == 0
    ensures low != 0 ==> Flush(low)[|Flush(low)| - 1] != 0
    decreases Span(low)
  {
    if low != 0 {
      SpanShrinks(low);
      FlushIsShortest(low % TOP * 256);
    }
  }

  /**
    Interval containment: at every point of a run, the next four bytes of the
    stream (with zeros past its end) form a word of the current interval.
   */
  lemma {:induction false} EncodeInside(i: Interval, xs: seq<Share>)
    requires Ready(i) && AllProper(xs)
    ensures Inside(i, Window(EncodeAll(i, xs)))
    decreases |xs|
  {
    if xs == [] {
      FlushWindow(i.low);
    } else {
      var x := xs[0];
      var c := Encode(i, x);
      EncodeInside(c.interval, xs[1..]);
      NormalizeInside(Narrow(i, x), EncodeAll(c.interval, xs[1..]));
    }
  }

  lemma {:induction false} NormalizeReaderFollows(i: Interval, tail: seq<Byte>)
    requires Live(i)
    ensures var c := Normalize(i);
            NormalizeReader(Position(i, Load(c.bytes + tail))) == Position(c.interval, Load(tail))
    decreases Rounds(i).0, Rounds(i).1
  {
    if Settled(i) {
      assert [] + tail == tail;
    } else {
      var t := Truncate(i);
      var rest := Normalize(Shift(t)).bytes + tail;
      assert Normalize(i).bytes + tail == [t.low / TOP] + rest;
      assert Pull(Load([t.low / TOP] + rest)) == Load(rest) by { WindowCons(t.low / TOP, rest); }
      NormalizeReaderFollows(Shift(t), tail);
    }
  }

  /** The code read from a word of the share x, cut out of the interval, lies in that share. */
  lemma ReadWithin(p: Position, x: Share)
    requires Ready(p.interval) && Proper(x) && Inside(Narrow(p.interval, x), p.reader.code)
    ensures x.under <= ReadCode(p, x.total) < x.under + x.count
  {
    var unit := p.interval.range / x.total;
    var d := p.reader.code - p.interval.low;
    UnitFits(p.interval.range, x);
    QuotientWithin(d, unit, x.under, x.count);
    assert U32(d) == d;
  }

  /**
    One decoding step on a produced stream: the code read lies in the share that
    was coded, and decoding that share leaves the reader at the rest of the stream.
   */
  lemma DecodeFollows(i: Interval, xs: seq<Share>)
    requires Ready(i) && AllProper(xs) && xs != []
    ensures var p := Position(i, Load(EncodeAll(i, xs)));
            var x := xs[0];
            var j := Encode(i, x).interval;
            && x.under <= ReadCode(p, x.total) < x.under + x.count
            && Decode(p, x) == Position(j, Load(EncodeAll(j, xs[1..])))
  {
    var n := Narrow(i, xs[0]);
    var c := Normalize(n);
    var tail := EncodeAll(c.interval, xs[1..]);
    EncodeInside(c.interval, xs[1..]);
    NormalizeInside(n, tail);
    ReadWithin(Position(i, Load(c.bytes + tail)), xs[0]);
    NormalizeReaderFollows(n, tail);
  }

  lemma QuotientWithin(d: int, unit: int, under: int, count: int)
    requires unit >= 1 && under * unit <= d < under * unit + count * unit
    ensures under <= d / unit < under + count
  {
    var q := d / unit;
    assert q * unit <= d < (q + 1) * unit;
    Distribute(under, count, unit);
    if q < under {
      Mono(q + 1, under, unit);
    }
    if q >= under + count {
      Mono(under + count, q, unit);
    }
  }

  /** At the implied end of a stream every code read is 0, and decoding a share that starts at 0 keeps it so. */
  lemma EndFollows(i: Interval, x: Share)
    requires Ready(i) && Proper(x) && x.under == 0
    ensures var p := Position(i, Load(Flush(i.low)));
            var j := Encode(i, x).interval;
            && ReadCode(p, x.total) == 0
            && Decode(p, x) == Position(j, Load(Flush(j.low)))
  {
    FlushWindow(i.low);
    FlushWindow(Encode(i, x).interval.low);
    NarrowAtZero(i, x);
    EmptyReaderFollows(Narrow(i, x));
    ReadZero(i, x.total);
  }

  lemma NarrowAtZero(i: Interval, x: Share)
    requires Ready(i) && Proper(x) && x.under == 0
    ensures Narrow(i, x).low == i.low
  {
  }

  lemma ReadZero(i: Interval, total: int)
    requires i.range >= total > 0
    ensures ReadCode(Position(i, Reader(i.low, [])), total) == 0
  {
    var unit := i.range / total;
    assert 0 / unit == 0;
  }

  lemma {:induction false} EmptyReaderFollows(i: Interval)
    requires Live(i)
    ensures var j := Normalize(i).interval;
            NormalizeReader(Position(i, Reader(i.low, []))) == Position(j, Reader(j.low, []))
    decreases Rounds(i).0, Rounds(i).1
  {
    if !Settled(i) {
      assert Pull(Reader(i.low, [])) == Reader(Shift(Truncate(i)).low, []);
      EmptyReaderFollows(Shift(Truncate(i)));
    }
  }

  // ---------------------------------------------------------------- output size

  /** A word whose last k bytes are zero. */
  ghost predicate Coarse(w: int, k: nat) {
    (k == 1 ==> w % 256 == 0) && (k == 2 ==> w % BOTTOM == 0) && (k == 3 ==> w % TOP == 0)
  }

  lemma CoarseWord(w: int, k: nat)
    requires 0 <= w && Coarse(w, k) && k < 3
    ensures Coarse(w * 256, k + 1) && Coarse(w % TOP * 256, k + 1) && Coarse(TOP - w % TOP, k)
  {
    if k == 1 {
      CoarseByte(w);
    } else if k == 2 {
      CoarseHalf(w);
    }
  }

  lemma CoarseByte(w: int)
    requires 0 <= w && w % 256 == 0
    ensures w * 256 % BOTTOM == 0 && w % TOP * 256 % BOTTOM == 0 && (TOP - w % TOP) % 256 == 0
  {
    var q, m := w / 256, w / TOP;
    assert w * 256 == BOTTOM * q;
    assert w % TOP == 256 * (q - BOTTOM * m);
    assert w % TOP * 256 == BOTTOM * (q - BOTTOM * m);
  }

  lemma CoarseHalf(w: int)
    requires 0 <= w && w % BOTTOM == 0
    ensures w * 256 % TOP == 0 && w % TOP * 256 % TOP == 0 && (TOP - w % TOP) % BOTTOM == 0
  {
    var q, m := w / BOTTOM, w / TOP;
    assert w * 256 == TOP * q;
    assert w % TOP == BOTTOM * (q - 256 * m);
    assert w % TOP * 256 == TOP * (q - 256 * m);
  }

  lemma WideSettled(i: Interval)
    requires Live(i) && Coarse(i.range, 3)
    ensures Settled(i)
  {
    assert i.range >= TOP;
  }

  lemma CoarseShift(i: Interval, k: nat)
    requires Live(i) && !Settled(i) && Coarse(i.low, k) && Coarse(i.range, k) && k <= 3
    ensures k < 3 && Coarse(Shift(Truncate(i)).low, k + 1) && Coarse(Shift(Truncate(i)).range, k + 1)
  {
    if k == 3 {
      WideSettled(i);
    } else {
      CoarseWord(i.low, k);
      CoarseWord(Truncate(i).range, k);
    }
  }

  /** Normalizing emits at most three bytes. */
  lemma {:induction false} NormalizeBound(i: Interval, k: nat)
    requires Live(i) && Coarse(i.low, k) && Coarse(i.range, k) && k <= 3
    ensures |Normalize(i).bytes| <= 3 - k
    decreases 3 - k
  {
    if !Settled(i) {
      CoarseShift(i, k);
      NormalizeBound(Shift(Truncate(i)), k + 1);
    }
  }

  lemma {:induction false} EncodeAllBound(i: Interval, xs: seq<Share>)
    requires Ready(i) && AllProper(xs)
    ensures |EncodeAll(i, xs)| <= 3 * |xs| + 4
    decreases |xs|
  {
    if xs != [] {
      NormalizeBound(Narrow(i, xs[0]), 0);
      EncodeAllBound(Encode(i, xs[0]).interval, xs[1..]);
    }
  }

  /** A stream is empty only if no byte was emitted and the low word never left zero. */
  lemma {:induction false} EncodeAllNonEmpty(i: Interval, xs: seq<Share>)
    requires Ready(i) && AllProper(xs)
    requires i.low > 0
    ensures EncodeAll(i, xs) != []
    decreases |xs|
  {
    if xs != [] {
      if Normalize(Narrow(i, xs[0])).bytes == [] {
        EncodeAllNonEmpty(Narrow(i, xs[0]), xs[1..]);
      }
    }
  }
}
