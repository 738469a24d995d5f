/** The two ends of the range coder, with their 32-bit words and their byte buffers. */
module CoderObjects {
  import opened Words
  import opened Bits
  import opened RangeCoding

  // ---------------------------------------------------------------- machine words

  /** The exclusive-or of low and the wrapped end tells whether the interval reaches past its leading byte. */
  lemma TopTest(i: Interval)
    requires Live(i)
    ensures Xor(i.low, U32(i.low + i.range)) >= TOP <==> Straddles(i)
  {
    Powers();
    XorDiffers(i.low, U32(i.low + i.range), 24);
    LeadingBytes(i);
  }

  lemma LeadingBytes(i: Interval)
    requires Live(i)
    ensures i.low / TOP != U32(i.low + i.range) / TOP <==> Straddles(i)
  {
  }

  /** Masking the negated low word leaves the distance to the next leading byte. */
  lemma MaskTest(i: Interval)
    requires Live(i) && Straddles(i) && i.range < BOTTOM
    ensures And(U32(-i.low), BOTTOM - 1) == Truncate(i).range
  {
    var m := i.low / TOP + 1;
    var distance := m * TOP - i.low;
    assert distance == TOP - i.low % TOP;
    assert m * TOP <= i.low + i.range;
    NegativeWord(i.low);
    assert U32(-i.low) == (BOTTOM - 256 * m) * BOTTOM + distance;
    Remainder(BOTTOM - 256 * m, distance);
    Powers();
    AndIsRemainder(U32(-i.low), 16);
  }

  lemma NotTruncated(i: Interval)
    requires Live(i) && !Straddles(i)
    ensures !Settled(i) && Truncate(i) == i
  {
  }

  lemma AlreadySettled(i: Interval)
    requires Live(i) && Settled(i)
    ensures Normalize(i) == Coded([], i)
  {
  }

  lemma NegativeWord(low: int)
    requires 0 < low < WORD
    ensures U32(-low) == WORD - low
  {
  }

  lemma Remainder(q: int, r: int)
    requires 0 <= r < BOTTOM
    ensures (q * BOTTOM + r) % BOTTOM == r
  {
  }

  lemma ShiftTest(i: Interval)
    requires 0 <= i.low < WORD && 0 <= i.range < TOP
    ensures U32(i.low * 256) == i.low % TOP * 256 && U32(i.range * 256) == i.range * 256
  {
    assert i.low * 256 == WORD * (i.low / TOP) + i.low % TOP * 256;
  }

  /** One round of normalizing. */
  lemma Round(i: Interval)
    requires Live(i) && !Settled(i)
    ensures var next := Shift(Truncate(i));
            && Normalize(i).bytes == [i.low / TOP] + Normalize(next).bytes
            && Normalize(i).interval == Normalize(next).interval
            && next == Interval(U32(i.low * 256), U32(Truncate(i).range * 256))
            && (Rounds(i).0 > Rounds(next).0 || (Rounds(i).0 == Rounds(next).0 && Rounds(i).1 > Rounds(next).1))
  {
    ShiftTest(Truncate(i));
  }

  /** The rounds of normalizing as the code has them, in 32-bit words. */
  lemma RoundInPlainTerms(i: Interval)
    requires Live(i)
    ensures var straddles := Xor(i.low, (i.low + i.range) % 0x1_0000_0000) >= 0x100_0000;
            if straddles && i.range >= 0x1_0000 then Normalize(i) == Coded([], i)
            else
              var range := if straddles then And(-i.low % 0x1_0000_0000, 0xFFFF) else i.range;
              var next := Interval(i.low * 256 % 0x1_0000_0000, range * 256 % 0x1_0000_0000);
              && Live(next)
              && Normalize(i) == Coded([i.low / 0x100_0000] + Normalize(next).bytes, Normalize(next).interval)
  {
    hide Normalize, Truncate, Shift, Straddles, Xor, And, Rounds;
    TopTest(i);
    if Settled(i) {
      AlreadySettled(i);
    } else {
      if Straddles(i) {
        MaskTest(i);
      } else {
        NotTruncated(i);
      }
      Round(i);
    }
  }

  /** Cutting out a share does not wrap around. */
  lemma NarrowTest(i: Interval, x: Share)
    requires Ready(i) && Proper(x)
    ensures var unit := i.range / x.total;
            Narrow(i, x) == Interval(U32(i.low + U32(x.under * unit)), U32(unit * x.count))
  {
    var unit := i.range / x.total;
    UnitFits(i.range, x);
    NoWrap(i, x.under * unit, x.count * unit);
    assert unit * x.count == x.count * unit;
  }

  lemma NoWrap(i: Interval, under: int, count: int)
    requires Live(i) && 0 <= under && 1 <= count && under + count <= i.range
    ensures U32(i.low + U32(under)) == i.low + under && U32(count) == count
  {
  }

  // ---------------------------------------------------------------- encoding

  class RangeEncoder {
    var low: nat
    var range: nat
    const out: array<Byte>
    const limit: nat
    var written: nat

    ghost function Span(): Interval
      reads this
    {
      Interval(low, range)
    }

    ghost predicate Valid()
      reads this
    {
      written <= limit <= out.Length && Ready(Span())
    }

    ghost function Output(): seq<Byte>
      requires written <= out.Length
      reads this, out
    {
      out[..written]
    }

    constructor (out: array<Byte>, limit: nat)
      requires limit <= out.Length
      ensures Valid() && Span() == FULL_INTERVAL && Output() == []
      ensures this.out == out && this.limit == limit
    {
      this.out, this.limit := out, limit;
      low, range, written := 0, WORD - 1, 0;
    }

    method Emit(b: Byte) returns (ok: bool)
      requires written <= limit <= out.Length
      modifies this`written, out
      ensures ok <==> old(written) < limit
      ensures written <= limit
      ensures Output() == if ok then old(Output()) + [b] else old(Output())
    {
      if written >= limit {
        return false;
      }
      out[written] := b;
      written := written + 1;
      return true;
    }

    /** Codes one share; fails exactly if its bytes do not fit. */
    method EncodeShare(under: nat, count: nat, total: nat) returns (ok: bool)
      requires Valid() && Proper(Share(under, count, total))
      modifies this, out
      ensures ok <==> |old(Output())| + |Encode(old(Span()), Share(under, count, total)).bytes| <= limit
      ensures ok ==> Valid() && Span() == Encode(old(Span()), Share(under, count, total)).interval
      ensures ok ==> Output() == old(Output()) + Encode(old(Span()), Share(under, count, total)).bytes
    {
      NarrowTest(Span(), Share(under, count, total));
      range := range / total;
      low := U32(low + U32(under * range));
      range := U32(range * count);
      ok := EmitSettled();
    }

    /** Tells whether the range is wide enough and the leading byte open, and otherwise truncates the range. */
    method TruncateRange() returns (settled: bool)
      requires Live(Span())
      modifies this`range
      ensures settled <==> Settled(old(Span()))
      ensures Span() == if settled then old(Span()) else Truncate(old(Span()))
    {
      hide Truncate, Straddles, U32, Xor, And;
      ghost var i := Span();
      TopTest(i);
      if Xor(low, U32(low + range)) >= TOP {
        if range >= BOTTOM {
          return true;
        }
        MaskTest(i);
        range := And(U32(-(low as int)), BOTTOM - 1);
      } else {
        NotTruncated(i);
      }
      return false;
    }

    /** The rounds that emit settled bytes. */
    method EmitSettled() returns (ok: bool)
      requires written <= limit <= out.Length && Live(Span())
      modifies this, out
      ensures ok <==> |old(Output())| + |Normalize(old(Span())).bytes| <= limit
      ensures ok ==> Valid() && Span() == Normalize(old(Span())).interval
      ensures ok ==> Output() == old(Output()) + Normalize(old(Span())).bytes
    {
      hide Normalize, Truncate, Shift, Settled, U32, Rounds;
      ghost var goal := Normalize(Span());
      while true
        invariant written <= limit && Live(Span())
        invariant Output() + Normalize(Span()).bytes == old(Output()) + goal.bytes
        invariant Normalize(Span()).interval == goal.interval
        decreases Rounds(Span()).0, Rounds(Span()).1
      {
        ghost var i := Span();
        var settled := TruncateRange();
        if settled {
          AlreadySettled(i);
          break;
        }
        Round(i);
        var fits := Emit(low / TOP);
        if !fits {
          return false;
        }
        range := U32(range * 256);
        low := U32(low * 256);
        assert Span() == Shift(Truncate(i));
      }
      return true;
    }

    /** Writes out the low word; fails exactly if its bytes do not fit. */
    method FlushLow() returns (ok: bool)
      requires Valid()
      modifies this, out
      ensures ok <==> |old(Output())| + |Flush(old(low))| <= limit
      ensures ok ==> written <= limit && Output() == old(Output()) + Flush(old(low))
    {
      while low != 0
        invariant written <= limit && low < WORD
        invariant Output() + Flush(low) == old(Output()) + Flush(old(low))
        decreases RangeCoding.Span(low)
      {
        SpanShrinks(low);
        ShiftTest(Interval(low, 0));
        ghost var word := low;
        var fits := Emit(low / TOP);
        if !fits {
          return false;
        }
        low := U32(low * 256);
        assert Flush(word) == [word / TOP] + Flush(low);
      }
      return true;
    }
  }

  // ---------------------------------------------------------------- decoding

  class RangeDecoder {
    var low: nat
    var range: nat
    var code: nat
    const input: seq<Byte>
    var taken: nat

    ghost function Place(): Position
      requires taken <= |input|
      reads this
    {
      Position(Interval(low, range), Reader(code, input[taken..]))
    }

    ghost predicate Valid()
      reads this
    {
      taken <= |input| && code < WORD && Ready(Interval(low, range))
    }

    /** Takes the first four bytes of the input, as far as there are any, for the code word. */
    constructor (input: seq<Byte>)
      ensures Valid() && Place() == Position(FULL_INTERVAL, Load(input))
      ensures this.input == input
    {
      this.input := input;
      low, range, code, taken := 0, WORD - 1, 0, 0;
      new;
      if taken < |input| {
        code := code + input[taken] * TOP;
        taken := taken + 1;
      }
      if taken < |input| {
        code := code + input[taken] * BOTTOM;
        taken := taken + 1;
      }
      if taken < |input| {
        code := code + (input[taken] as int) * 256;
        taken := taken + 1;
      }
      if taken < |input| {
        code := code + input[taken];
        taken := taken + 1;
      }
    }

    /** Divides the range into units and tells in which unit the code word lies. */
    method Read(total: nat) returns (unitCode: nat)
      requires Valid() && 1 <= total <= MAX_TOTAL
      modifies this`range
      ensures unitCode == ReadCode(old(Place()), total)
      ensures range == old(range) / total
    {
      DivisionPositive(range, total);
      range := range / total;
      unitCode := U16(U32(code - low) / range);
    }

    /** Decodes one share, after Read has divided the range. */
    method DecodeShare(under: nat, count: nat, ghost total: nat, ghost before: Position)
      requires taken <= |input| && code < WORD && Ready(before.interval)
      requires before.interval.low == low && before.reader == Reader(code, input[taken..])
      requires Proper(Share(under, count, total)) && range == before.interval.range / total
      modifies this
      ensures Valid() && Place() == Decode(before, Share(under, count, total))
    {
      NarrowTest(before.interval, Share(under, count, total));
      low := U32(low + U32(under * range));
      range := U32(range * count);
      TakeSettled();
    }

    /** Shifts the next byte into the code word, or a zero past the end of the input. */
    method TakeByte()
      requires taken <= |input| && code < WORD
      modifies this`code, this`taken
      ensures taken <= |input| && code == U32(old(code) * 256) + At(input[old(taken)..], 0)
      ensures input[taken..] == if input[old(taken)..] == [] then [] else input[old(taken)..][1..]
    {
      code := U32(code * 256);
      if taken < |input| {
        code := code + input[taken];
        taken := taken + 1;
      }
    }

    /** The rounds that take a byte in for each settled byte. */
    method TakeSettled()
      requires taken <= |input| && code < WORD && Live(Interval(low, range))
      modifies this
      ensures Valid() && Place() == NormalizeReader(old(Place()))
    {
      hide NormalizeReader, Normalize, Truncate, Shift, Straddles, U32, Rounds, Pull, At, Xor, And;
      ghost var goal := NormalizeReader(Place());
      while true
        invariant taken <= |input| && code < WORD && Live(Interval(low, range))
        invariant NormalizeReader(Place()) == goal
        decreases Rounds(Interval(low, range)).0, Rounds(Interval(low, range)).1
      {
        ghost var p := Place();
        TopTest(p.interval);
        if Xor(low, U32(low + range)) >= TOP {
          if range >= BOTTOM {
            ReaderSettled(p);
            break;
          }
          MaskTest(p.interval);
          range := And(U32(-(low as int)), BOTTOM - 1);
        } else {
          NotTruncated(p.interval);
        }
        Round(p.interval);
        ReaderRound(p);
        TakeByte();
        range := U32(range * 256);
        low := U32(low * 256);
        assert Place() == Position(Shift(Truncate(p.interval)), Pull(p.reader));
      }
    }
  }

  lemma DivisionPositive(range: int, total: int)
    requires BOTTOM <= range && 1 <= total <= MAX_TOTAL
    ensures range / total >= 1
  {
  }

  lemma ReaderSettled(p: Position)
    requires Live(p.interval) && Settled(p.interval)
    ensures NormalizeReader(p) == p
  {
  }

  /** One round of the decoder, in wrapping arithmetic. */
  lemma ReaderRound(p: Position)
    requires Live(p.interval) && !Settled(p.interval) && 0 <= p.reader.code < WORD
    ensures NormalizeReader(p) == NormalizeReader(Position(Shift(Truncate(p.interval)), Pull(p.reader)))
    ensures Pull(p.reader).code == U32(p.reader.code * 256) + At(p.reader.rest, 0) < WORD
    ensures Pull(p.reader).rest == if p.reader.rest == [] then [] else p.reader.rest[1..]
  {
    hide Truncate, Shift, Straddles;
    ShiftTest(Interval(p.reader.code, 0));
  }
}
