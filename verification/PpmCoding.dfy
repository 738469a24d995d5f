/**
  The compressor and the decompressor as functions, and the proof that the
  second undoes the first.
 */
module PpmCoding {
  import opened Words
  import opened RangeCoding
  import opened FrequencyTree
  import opened ContextModel

  // ---------------------------------------------------------------- the compressor

  function After(m: Model, v: Byte): Model {
    Next(m, Stop(m.contexts, m.history, v), v)
  }

  function AllShares(m: Model, message: seq<Byte>): (xs: seq<Share>)
    requires ValidModel(m)
    ensures AllProper(xs)
    decreases |message|
  {
    if message == [] then []
    else
      var v := message[0];
      SharesProper(m.contexts, m.history, v);
      NextValid(m, Stop(m.contexts, m.history, v), v);
      Shares(m.contexts, m.history, v) + AllShares(After(m, v), message[1..])
  }

  lemma AllSharesStep(m: Model, message: seq<Byte>)
    requires ValidModel(m) && message != []
    ensures ValidModel(After(m, message[0]))
    ensures AllShares(m, message) ==
            Shares(m.contexts, m.history, message[0]) + AllShares(After(m, message[0]), message[1..])
  {
    hide Shares, Next, Stop;
    NextValid(m, Stop(m.contexts, m.history, message[0]), message[0]);
  }

  lemma NoShares(m: Model)
    requires ValidModel(m)
    ensures AllShares(m, []) == []
  {
  }

  /** All bytes that compressing the message produces. */
  function Stream(message: seq<Byte>): seq<Byte> {
    EncodeAll(FULL_INTERVAL, AllShares(FRESH_MODEL, message))
  }

  /** What the compressor returns: no bytes if they do not fit. */
  function Compressed(message: seq<Byte>, limit: nat): seq<Byte> {
    if |Stream(message)| <= limit then Stream(message) else []
  }

  // ---------------------------------------------------------------- the decompressor

  datatype Walk =
    | Found(stop: Name, value: Byte, position: Position)
    | End       // the root escaped: there are no more bytes
    | Stuck     // a code without a symbol in a context other than the root
    | Derailed  // a code at or beyond the total of the root

  ghost predicate Locates(c: Context, root: bool, code: int) {
    c.escapes <= code < c.escapes + Sum(c.tree) + Extra(256, root)
  }

  function Locate(c: Context, root: bool, code: int): (v: Byte)
    requires Sound(c, root) && Locates(c, root, code)
    ensures Proper(SymbolShare(c, root, v))
    ensures SymbolShare(c, root, v).under <= code < SymbolShare(c, root, v).under + SymbolShare(c, root, v).count
  {
    var v := Find(c.tree, 0, code - c.escapes, root);
    FindRange(c.tree, 0, 256, 0xFF - SymbolDelta(root), code - c.escapes, root);
    FindIsInverse(c.tree, 0, 256, 0xFF - SymbolDelta(root), code - c.escapes, root, v);
    SymbolShareProper(c, root, v);
    v
  }

  /** One symbol, looked for in the context s and then in its suffixes. */
  function DecodeSymbol(cs: Contexts, s: Name, p: Position): (w: Walk)
    requires AllSound(cs) && Ready(p.interval)
    ensures w.Found? ==> Ready(w.position.interval)
    decreases |s|
  {
    var c := ContextOf(cs, s);
    ContextOfSound(cs, s);
    if s != [] && !(0 < c.escapes < c.total) then DecodeSymbol(cs, s[1..], p)
    else
      var code := ReadCode(p, c.total);
      if code < c.escapes then
        if s == [] then End
        else
          EscapeShareProper(c);
          DecodeSymbol(cs, s[1..], Decode(p, EscapeShare(c)))
      else if code >= c.total then
        if s == [] then Derailed else Stuck
      else
        var v := Locate(c, s == [], code);
        Found(s, v, Decode(p, SymbolShare(c, s == [], v)))
  }

  datatype Outcome = Done(bytes: seq<Byte>) | Failed | OutOfModel

  /** Decodes symbols after the bytes out until the end of the stream, or until the output is full. */
  function DecodeAll(m: Model, p: Position, out: seq<Byte>, limit: nat): Outcome
    requires ValidModel(m) && Ready(p.interval) && |out| <= limit
    decreases limit - |out|
  {
    match DecodeSymbol(m.contexts, m.history, p)
    case End => Done(out)
    case Stuck => Failed
    case Derailed => OutOfModel
    case Found(stop, v, q) =>
      NextValid(m, stop, v);
      if |out| >= limit then Failed else DecodeAll(Next(m, stop, v), q, out + [v], limit)
  }

  function Decompressed(input: seq<Byte>, limit: nat): Outcome {
    DecodeAll(FRESH_MODEL, Position(FULL_INTERVAL, Load(input)), [], limit)
  }

  /** Input whose code has no symbol in the first context that it is read in makes the decompressor fail. */
  lemma NoSymbolFails(m: Model, p: Position, out: seq<Byte>, limit: nat)
    requires ValidModel(m) && Ready(p.interval) && |out| <= limit
    requires m.history != [] && 0 < ContextOf(m.contexts, m.history).escapes < ContextOf(m.contexts, m.history).total
    requires ReadCode(p, ContextOf(m.contexts, m.history).total) >= ContextOf(m.contexts, m.history).total
    ensures DecodeAll(m, p, out, limit) == Failed
  {
  }

  // ---------------------------------------------------------------- one symbol

  /** The code of a share leads back to the value the share was made for. */
  lemma LocateIsInverse(c: Context, root: bool, v: Byte, code: int)
    requires Sound(c, root) && (root || Count(c.tree, v) > 0)
    requires var x := SymbolShare(c, root, v); x.under <= code < x.under + x.count
    ensures Locates(c, root, code) && Locate(c, root, code) == v
  {
    SymbolShareProper(c, root, v);
    FindIsInverse(c.tree, 0, 256, 0xFF - SymbolDelta(root), code - c.escapes, root, v);
  }

  /**
    Decoding the shares of v gives back v and the context in which it was coded,
    with the reader at what was encoded after them.
   */
  lemma {:induction false} SymbolRoundTrip(cs: Contexts, s: Name, v: Byte, i: Interval, later: seq<Share>)
    requires AllSound(cs) && Ready(i) && AllProper(later) && AllProper(Shares(cs, s, v))
    ensures var xs := Shares(cs, s, v);
            var j := IntervalAfter(i, xs);
            DecodeSymbol(cs, s, Position(i, Load(EncodeAll(i, xs + later)))) ==
              Found(Stop(cs, s, v), v, Position(j, Load(EncodeAll(j, later))))
    decreases |s|
  {
    var c := ContextOf(cs, s);
    var xs := Shares(cs, s, v);
    ContextOfSound(cs, s);
    if s == [] || Count(c.tree, v) > 0 {
      assert (xs + later)[1..] == later;
      DecodeFollows(i, xs + later);
      SymbolShareProper(c, s == [], v);
      var code := ReadCode(Position(i, Load(EncodeAll(i, xs + later))), c.total);
      LocateIsInverse(c, s == [], v, code);
      CountedEscapes(c, s == [], v);
    } else if 0 < c.escapes < c.total {
      var rest := Shares(cs, s[1..], v);
      assert xs == [EscapeShare(c)] + rest;
      assert xs[1..] == rest && (xs + later)[1..] == rest + later;
      DecodeFollows(i, xs + later);
      SymbolRoundTrip(cs, s[1..], v, Encode(i, xs[0]).interval, later);
    } else {
      assert xs == Shares(cs, s[1..], v);
      SymbolRoundTrip(cs, s[1..], v, i, later);
    }
  }

  lemma CountedEscapes(c: Context, root: bool, v: Byte)
    requires Sound(c, root) && (root || Count(c.tree, v) > 0)
    ensures 0 < c.escapes < c.total
  {
  }

  /** At the end of a stream every context escapes, the root included. */
  lemma {:induction false} EndOfStream(cs: Contexts, s: Name, i: Interval)
    requires AllSound(cs) && Ready(i)
    ensures DecodeSymbol(cs, s, Position(i, Load(Flush(i.low)))) == End
    decreases |s|
  {
    var c := ContextOf(cs, s);
    ContextOfSound(cs, s);
    if s != [] && !(0 < c.escapes < c.total) {
      EndOfStream(cs, s[1..], i);
    } else {
      EscapeAtEnd(c, s == [], i);
      if s != [] {
        EndOfStream(cs, s[1..], Encode(i, EscapeShare(c)).interval);
      }
    }
  }

  lemma EscapeAtEnd(c: Context, root: bool, i: Interval)
    requires Sound(c, root) && Ready(i) && 0 < c.escapes
    ensures Proper(EscapeShare(c)) && c.escapes < c.total
    ensures var p := Position(i, Load(Flush(i.low)));
            var j := Encode(i, EscapeShare(c)).interval;
            ReadCode(p, c.total) == 0 && Decode(p, EscapeShare(c)) == Position(j, Load(Flush(j.low)))
  {
    if !root {
      EscapeShareProper(c);
    }
    EndFollows(i, EscapeShare(c));
  }

  // ---------------------------------------------------------------- the round trip

  /** One message byte: the decoder finds it and is then at the stream of the other bytes. */
  lemma ByteRoundTrip(m: Model, i: Interval, v: Byte, rest: seq<Byte>) returns (j: Interval)
    requires ValidModel(m) && Ready(i)
    ensures Ready(j) && ValidModel(After(m, v))
    ensures DecodeSymbol(m.contexts, m.history, Position(i, Load(EncodeAll(i, AllShares(m, [v] + rest))))) ==
            Found(Stop(m.contexts, m.history, v), v, Position(j, Load(EncodeAll(j, AllShares(After(m, v), rest)))))
  {
    var xs := Shares(m.contexts, m.history, v);
    SharesProper(m.contexts, m.history, v);
    NextValid(m, Stop(m.contexts, m.history, v), v);
    var later := AllShares(After(m, v), rest);
    assert ([v] + rest)[1..] == rest;
    assert AllShares(m, [v] + rest) == xs + later;
    SymbolRoundTrip(m.contexts, m.history, v, i, later);
    j := IntervalAfter(i, xs);
  }

  lemma DecodeAllStep(m: Model, p: Position, out: seq<Byte>, limit: nat, v: Byte, q: Position)
    requires ValidModel(m) && Ready(p.interval) && Ready(q.interval) && ValidModel(After(m, v))
    requires |out| < limit
    requires DecodeSymbol(m.contexts, m.history, p) == Found(Stop(m.contexts, m.history, v), v, q)
    ensures DecodeAll(m, p, out, limit) == DecodeAll(After(m, v), q, out + [v], limit)
  {
  }

  lemma DecodeAllFull(m: Model, p: Position, out: seq<Byte>)
    requires ValidModel(m) && Ready(p.interval) && DecodeSymbol(m.contexts, m.history, p).Found?
    ensures DecodeAll(m, p, out, |out|) == Failed
  {
    var w := DecodeSymbol(m.contexts, m.history, p);
    NextValid(m, w.stop, w.value);
  }

  /** What decoding makes of the stream of a message, from any state both sides share. */
  ghost function Restored(m: Model, i: Interval, message: seq<Byte>, out: seq<Byte>, limit: nat): Outcome
    requires ValidModel(m) && Ready(i) && |out| <= limit
  {
    DecodeAll(m, Position(i, Load(EncodeAll(i, AllShares(m, message)))), out, limit)
  }

  /** Decoding restores the message and stops, or fails if and only if there is no room for it. */
  lemma {:induction false} MessageRoundTrip(m: Model, i: Interval, message: seq<Byte>, out: seq<Byte>, limit: nat)
    requires ValidModel(m) && Ready(i) && |out| <= limit
    ensures Restored(m, i, message, out, limit) == if |out| + |message| <= limit then Done(out + message) else Failed
    decreases |message|
  {
    hide Window, Load, Shares, Next, Stop, Encode, Flush, DecodeSymbol;
    if message == [] {
      EndOfStream(m.contexts, m.history, i);
      assert out + message == out;
    } else {
      var v, rest := message[0], message[1..];
      assert message == [v] + rest;
      var j := ByteRoundTrip(m, i, v, rest);
      var p := Position(i, Load(EncodeAll(i, AllShares(m, message))));
      if |out| == limit {
        DecodeAllFull(m, p, out);
        return;
      }
      var q := Position(j, Load(EncodeAll(j, AllShares(After(m, v), rest))));
      DecodeAllStep(m, p, out, limit, v, q);
      assert Restored(m, i, message, out, limit) == Restored(After(m, v), j, rest, out + [v], limit);
      MessageRoundTrip(After(m, v), j, rest, out + [v], limit);
      assert out + [v] + rest == out + message;
    }
  }

  lemma StreamRoundTrip(message: seq<Byte>, limit: nat)
    ensures Decompressed(Stream(message), limit) == if |message| <= limit then Done(message) else Failed
  {
    MessageRoundTrip(FRESH_MODEL, FULL_INTERVAL, message, [], limit);
    assert [] + message == message;
  }

  /** Decompressing what the compressor returned gives back the message, exactly if there is room for it. */
  lemma RoundTrip(message: seq<Byte>, limit: nat, outLimit: nat)
    requires Compressed(message, limit) != []
    ensures Decompressed(Compressed(message, limit), outLimit) ==
            if |message| <= outLimit then Done(message) else Failed
  {
    StreamRoundTrip(message, outLimit);
  }

  // ---------------------------------------------------------------- output size

  lemma {:induction false} AllSharesBound(m: Model, message: seq<Byte>)
    requires ValidModel(m)
    ensures |AllShares(m, message)| <= 3 * |message|
    decreases |message|
  {
    if message != [] {
      var v := message[0];
      SharesProper(m.contexts, m.history, v);
      NextValid(m, Stop(m.contexts, m.history, v), v);
      AllSharesBound(After(m, v), message[1..]);
    }
  }

  /** The first byte is coded in the root, away from the start of the interval. */
  lemma StreamNonEmpty(message: seq<Byte>)
    requires message != []
    ensures Stream(message) != []
  {
    var v := message[0];
    var xs := AllShares(FRESH_MODEL, message);
    var n := Narrow(FULL_INTERVAL, xs[0]);
    SharesProper(map[], [], v);
    assert xs[0].under > 0 && xs[0].total == 257;
    assert n.low > 0;
    if Normalize(n).bytes == [] {
      EncodeAllNonEmpty(n, xs[1..]);
    }
  }

  /**
    With room for nine bytes per message byte and four more, compressing a
    non-empty message succeeds; so an empty result always means too little room.
   */
  lemma CompressSucceeds(message: seq<Byte>, limit: nat)
    requires message != []
    ensures |Stream(message)| <= 9 * |message| + 4
    ensures limit >= 9 * |message| + 4 ==> Compressed(message, limit) != []
    ensures Compressed(message, limit) == [] <==> |Stream(message)| > limit
  {
    AllSharesBound(FRESH_MODEL, message);
    EncodeAllBound(FULL_INTERVAL, AllShares(FRESH_MODEL, message));
    StreamNonEmpty(message);
  }

  /** Different messages have different streams. */
  lemma StreamInjective(a: seq<Byte>, b: seq<Byte>)
    requires Stream(a) == Stream(b)
    ensures a == b
  {
    hide Stream, Decompressed;
    var limit := if |a| > |b| then |a| else |b|;
    StreamRoundTrip(a, limit);
    StreamRoundTrip(b, limit);
  }
}
