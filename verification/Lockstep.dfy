/**
  Compressor and decompressor stay in step: after every byte they have the same
  model, and their arrays are the same up to the numbering of the slots.
 */
module Lockstep {
  import opened Words
  import opened RangeCoding
  import opened FrequencyTree
  import opened ContextModel
  import opened PpmCoding
  import opened SymbolStore
  import opened PpmCoder

  // ---------------------------------------------------------------- the same models

  function ModelAfter(m: Model, message: seq<Byte>): Model
    decreases |message|
  {
    if message == [] then m else ModelAfter(After(m, message[0]), message[1..])
  }

  datatype Stage = Stage(model: Model, position: Position) | Over

  /** The decompressor after n more symbols. */
  function DecoderAfter(m: Model, p: Position, n: nat): Stage
    requires ValidModel(m) && Ready(p.interval)
    decreases n
  {
    if n == 0 then Stage(m, p)
    else
      match DecodeSymbol(m.contexts, m.history, p)
      case Found(stop, v, q) =>
        NextValid(m, stop, v);
        DecoderAfter(Next(m, stop, v), q, n - 1)
      case _ => Over
  }

  /** After each byte of a message, the decompressor of its stream has the compressor's model. */
  lemma {:induction false} SameModels(m: Model, i: Interval, message: seq<Byte>, n: nat)
    requires ValidModel(m) && Ready(i) && n <= |message|
    ensures var stage := DecoderAfter(m, Position(i, Load(EncodeAll(i, AllShares(m, message)))), n);
            stage.Stage? && stage.model == ModelAfter(m, message[..n])
    decreases n
  {
    hide Window, Load, Shares, Next, Stop, Encode, Flush, DecodeSymbol;
    if n > 0 {
      var v, rest := message[0], message[1..];
      assert message == [v] + rest;
      var j := ByteRoundTrip(m, i, v, rest);
      SameModels(After(m, v), j, rest, n - 1);
      assert message[..n][1..] == rest[..n - 1];
    }
  }

  /** The slots run out with v, so that the model starts afresh. */
  predicate Restarts(m: Model, v: Byte) {
    m.slots + Created(m.contexts, m.history, Stop(m.contexts, m.history, v), v) >= 4094
  }

  /** The number of bytes since the last fresh start, if there were n before the message. */
  function Since(m: Model, message: seq<Byte>, n: nat): nat
    decreases |message|
  {
    if message == [] then n
    else Since(After(m, message[0]), message[1..], if Restarts(m, message[0]) then 0 else n + 1)
  }

  /** The context for the next byte is named by the last two bytes since the last fresh start, or by all of them. */
  lemma {:induction false} HistoryIsRecent(m: Model, past: seq<Byte>, message: seq<Byte>, n: nat)
    requires ValidModel(m) && IsSuffix(m.history, past)
    requires |m.history| == if n < 2 then n else 2
    ensures var m', n' := ModelAfter(m, message), Since(m, message, n);
            && ValidModel(m') && IsSuffix(m'.history, past + message)
            && |m'.history| == if n' < 2 then n' else 2
    decreases |message|
  {
    hide Created, Stop, Learn;
    if message == [] {
      assert past + message == past;
    } else {
      var v := message[0];
      NextValid(m, Stop(m.contexts, m.history, v), v);
      ExtendRecent(m.history, past, v);
      HistoryIsRecent(After(m, v), past + [v], message[1..], if Restarts(m, v) then 0 else n + 1);
      assert past + [v] + message[1..] == past + message;
    }
  }

  /** After a message the next byte is coded after its last two bytes, or as many as follow a fresh start. */
  lemma LastTwoBytes(message: seq<Byte>)
    ensures var n := Since(FRESH_MODEL, message, 0);
            var order := if n < 2 then n else 2;
            && order <= |message|
            && ModelAfter(FRESH_MODEL, message).history == message[|message| - order..]
  {
    hide ModelAfter, Since, ValidModel;
    FreshIsValid();
    assert FRESH_MODEL.history == [] && [] + message == message;
    HistoryIsRecent(FRESH_MODEL, [], message, 0);
  }

  lemma FreshIsValid()
    ensures ValidModel(FRESH_MODEL)
  {
  }

  /** After two bytes a and b in whose context v was counted, v is coded by its share of that context alone. */
  lemma OrderTwo(m: Model, a: Byte, b: Byte, v: Byte)
    requires ValidModel(m) && m.history == [a, b] && Count(ContextOf(m.contexts, [a, b]).tree, v) > 0
    ensures var c := ContextOf(m.contexts, [a, b]);
            var c' := Learned(c, false, v);
            && Shares(m.contexts, m.history, v) ==
               [Share(c.escapes + CountsBelow(c.tree, 0, v), Count(c.tree, v), c.escapes + CountsBelow(c.tree, 0, 256))]
            && After(m, v) == Model(m.contexts[[a, b] := c'], [b, v], m.slots)
            && (Count(c.tree, v) <= 251 && c.total + 2 <= 65280 ==>
                  Count(c'.tree, v) == Count(c.tree, v) + 2 && c'.escapes == c.escapes && c'.total == c.total + 2)
  {
    hide CountsBelow, Ordered, Learned, Under, Sum;
    var c := ContextOf(m.contexts, [a, b]);
    ContextOfSound(m.contexts, [a, b]);
    UnderIsCumulative(c.tree, 0, 256, 0xFF - SymbolDelta(false), v);
    StepStop(m.contexts, [a, b], v);
    LearnedCounts(c, false, v);
    assert Extend([a, b], v) == [b, v];
  }

  lemma ExtendRecent(h: Name, past: seq<Byte>, v: Byte)
    requires IsSuffix(h, past)
    ensures IsSuffix(Extend(h, v), past + [v]) && IsSuffix([], past + [v])
  {
    var e := Extend(h, v);
    assert past[|past| - |h|..] == h;
    assert (past + [v])[|past| + 1 - |e|..] == e;
  }

  // ---------------------------------------------------------------- the same arrays

  /** Links from corresponding records lead nowhere, or to corresponding records. */
  ghost predicate SameLink(slots: Slots, from: nat, offset: nat, slots': Slots, from': nat, offset': nat) {
    if offset == 0 then offset' == 0
    else
      && offset' != 0
      && exists r :: r in slots && r in slots' && slots[r] == from + offset && slots'[r] == from' + offset'
  }

  /** The tree parts of two records are the same up to the numbering of the slots. */
  ghost predicate SameTreePart(a: Symbol, slots: Slots, n: nat, b: Symbol, slots': Slots, n': nat) {
    && a.value == b.value && a.count == b.count && a.under == b.under
    && SameLink(slots, n, a.left, slots', n', b.left) && SameLink(slots, n, a.right, slots', n', b.right)
  }

  ghost predicate SameContextPart(a: Symbol, slots: Slots, n: nat, b: Symbol, slots': Slots, n': nat) {
    && a.escapes == b.escapes && a.total == b.total
    && SameLink(slots, n, a.symbols, slots', n', b.symbols)
  }

  /** The records of r are the same up to the numbering of the slots. */
  ghost predicate SameRecords(mem: seq<Symbol>, slots: Slots, mem': seq<Symbol>, slots': Slots, r: Name) {
    && Placed(mem, slots, r) && Placed(mem', slots', r)
    && SameContextPart(mem[slots[r]], slots, slots[r], mem'[slots'[r]], slots', slots'[r])
    && (r != [] ==>
          && SameTreePart(mem[slots[r]], slots, slots[r], mem'[slots'[r]], slots', slots'[r])
          && r[1..] in slots && r[1..] in slots'
          && mem[slots[r]].parent == slots[r[1..]] && mem'[slots'[r]].parent == slots'[r[1..]])
  }

  /** Two arrays hold the same records, differently numbered. */
  ghost predicate SameUpToSlots(mem: seq<Symbol>, slots: Slots, mem': seq<Symbol>, slots': Slots) {
    && slots.Keys == slots'.Keys
    && forall r :: r in slots ==> SameRecords(mem, slots, mem', slots', r)
  }

  lemma KnownPrefix(mem: seq<Symbol>, slots: Slots, next: nat, cs: Contexts, r: Name)
    requires Represents(mem, slots, next, cs) && r in slots && r != []
    ensures Prefix(r) in slots && Has(ContextOf(cs, Prefix(r)).tree, Last(r))
  {
    hide AllIn, AllNamed, Has, Distinct, Below;
  }

  lemma {:induction false} SameNames(mem: seq<Symbol>, slots: Slots, next: nat, mem': seq<Symbol>, slots': Slots,
                                     next': nat, cs: Contexts, r: Name)
    requires Represents(mem, slots, next, cs) && Represents(mem', slots', next', cs) && r in slots
    ensures r in slots'
    decreases |r|
  {
    hide AllIn, AllNamed, Has, NamesKnown, Distinct, Below;
    if r != [] {
      KnownPrefix(mem, slots, next, cs, r);
      SameNames(mem, slots, next, mem', slots', next', cs, Prefix(r));
      KnownNames(mem', slots', next', cs, Prefix(r), Last(r));
      assert Prefix(r) + [Last(r)] == r;
    }
  }

  lemma LinkedAlike(slots: Slots, slots': Slots, s: Name, from: nat, offset: nat, from': nat, offset': nat, t: Tree)
    requires Linked(slots, s, from, offset, t) && Linked(slots', s, from', offset', t)
    ensures SameLink(slots, from, offset, slots', from', offset')
  {
  }

  /** A node of a tree that both arrays hold. */
  lemma {:induction false} SameNodes(mem: seq<Symbol>, slots: Slots, mem': seq<Symbol>, slots': Slots, s: Name,
                                     t: Tree, u: Byte)
    requires TreeIn(mem, slots, s, t) && TreeIn(mem', slots', s, t) && Has(t, u)
    ensures Placed(mem, slots, s + [u]) && Placed(mem', slots', s + [u])
    ensures SameTreePart(mem[slots[s + [u]]], slots, slots[s + [u]], mem'[slots'[s + [u]]], slots', slots'[s + [u]])
    decreases t
  {
    if Has(t.left, u) {
      SameNodes(mem, slots, mem', slots', s, t.left, u);
    } else if Has(t.right, u) {
      SameNodes(mem, slots, mem', slots', s, t.right, u);
    } else {
      var n, n' := slots[s + [u]], slots'[s + [u]];
      LinkedAlike(slots, slots', s, n, mem[n].left, n', mem'[n'].left, t.left);
      LinkedAlike(slots, slots', s, n, mem[n].right, n', mem'[n'].right, t.right);
    }
  }

  /**
    Arrays that represent the same contexts are the same up to the numbering of
    the slots: the shapes of all trees, all counters, and all suffix links agree.
   */
  lemma SameContextsSameArrays(mem: seq<Symbol>, slots: Slots, next: nat, mem': seq<Symbol>, slots': Slots,
                               next': nat, cs: Contexts)
    requires Represents(mem, slots, next, cs) && Represents(mem', slots', next', cs)
    requires SuffixLinks(mem, slots, []) && SuffixLinks(mem', slots', [])
    ensures SameUpToSlots(mem, slots, mem', slots')
  {
    hide Represents, SuffixLinks, SameRecords;
    forall r | r in slots
      ensures r in slots' && SameRecords(mem, slots, mem', slots', r)
    {
      SameNames(mem, slots, next, mem', slots', next', cs, r);
      SameRecord(mem, slots, next, mem', slots', next', cs, r);
    }
    forall r | r in slots'
      ensures r in slots
    {
      SameNames(mem', slots', next', mem, slots, next, cs, r);
    }
  }

  lemma SameRecord(mem: seq<Symbol>, slots: Slots, next: nat, mem': seq<Symbol>, slots': Slots, next': nat,
                   cs: Contexts, r: Name)
    requires Represents(mem, slots, next, cs) && Represents(mem', slots', next', cs) && r in slots && r in slots'
    requires SuffixLinks(mem, slots, []) && SuffixLinks(mem', slots', [])
    ensures SameRecords(mem, slots, mem', slots', r)
  {
    hide Represents, SameTreePart, SameContextPart;
    SameHeaders(mem, slots, next, mem', slots', next', cs, r);
    if r != [] {
      SamePlaces(mem, slots, next, mem', slots', next', cs, r);
    }
  }

  lemma SameHeaders(mem: seq<Symbol>, slots: Slots, next: nat, mem': seq<Symbol>, slots': Slots, next': nat,
                    cs: Contexts, r: Name)
    requires Represents(mem, slots, next, cs) && Represents(mem', slots', next', cs) && r in slots && r in slots'
    ensures Placed(mem, slots, r) && Placed(mem', slots', r)
    ensures SameContextPart(mem[slots[r]], slots, slots[r], mem'[slots'[r]], slots', slots'[r])
  {
    hide TreeIn, Represents, Linked, SameLink;
    ContextAt(mem, slots, next, cs, r);
    ContextAt(mem', slots', next', cs, r);
    var n, n' := slots[r], slots'[r];
    LinkedAlike(slots, slots', r, n, mem[n].symbols, n', mem'[n'].symbols, ContextOf(cs, r).tree);
  }

  lemma SamePlaces(mem: seq<Symbol>, slots: Slots, next: nat, mem': seq<Symbol>, slots': Slots, next': nat,
                   cs: Contexts, r: Name)
    requires Represents(mem, slots, next, cs) && Represents(mem', slots', next', cs) && r in slots && r in slots'
             && r != []
    ensures Placed(mem, slots, r) && Placed(mem', slots', r)
    ensures SameTreePart(mem[slots[r]], slots, slots[r], mem'[slots'[r]], slots', slots'[r])
  {
    hide TreeIn, AllIn, AllNamed, Has, Linked, SameTreePart;
    var s := Prefix(r);
    assert s + [Last(r)] == r;
    ContextAt(mem, slots, next, cs, s);
    ContextAt(mem', slots', next', cs, s);
    SameNodes(mem, slots, mem', slots', s, ContextOf(cs, s).tree, Last(r));
  }

  // ---------------------------------------------------------------- the coder object

  /** Two coders with the same model are the same up to the numbering of the slots, whatever each has coded with it. */
  lemma SameCoders(a: RangeCoder, b: RangeCoder)
    requires a.Valid() && b.Valid() && a.CurrentModel() == b.CurrentModel()
    ensures SameUpToSlots(a.Memory(), a.slots, b.Memory(), b.slots)
    ensures a.nextSymbol == b.nextSymbol && a.order == b.order && a.history == b.history
    ensures a.predicted == a.slots[a.history] && b.predicted == b.slots[a.history]
  {
    hide Represents, SuffixLinks, SameUpToSlots, ValidModel;
    SameContextsSameArrays(a.Memory(), a.slots, a.nextSymbol, b.Memory(), b.slots, b.nextSymbol, a.contexts);
  }

  /** A link from slot n leads nowhere, or to a later slot in use. */
  predicate Reaches(n: nat, offset: nat, next: nat) {
    offset != 0 ==> n + offset < next
  }

  /** The fields of the record named r, at slot n, keep within the widths of the array: counts 8 bits, sums 16. */
  ghost predicate Fits(x: Symbol, r: Name, n: nat, next: nat) {
    && x.escapes <= x.total <= 65280 && Reaches(n, x.symbols, next)
    && (r == [] ==> x.escapes == 1 && 257 <= x.total)
    && (r != [] ==>
          && x.value == Last(r)
          && 1 <= x.count <= (if |r| == 1 then 252 else 253) && x.count <= x.under <= 65280
          && Reaches(n, x.left, next) && Reaches(n, x.right, next)
          && x.parent < next)
  }

  lemma LinkReaches(slots: Slots, s: Name, n: nat, offset: nat, t: Tree, next: nat)
    requires Linked(slots, s, n, offset, t) && Below(slots, next)
    ensures Reaches(n, offset, next)
  {
  }

  lemma {:induction false} NodeFits(mem: seq<Symbol>, slots: Slots, s: Name, t: Tree, lo: int, hi: int, max: int,
                                    u: Byte, next: nat)
    requires TreeIn(mem, slots, s, t) && Ordered(t, lo, hi, max) && Has(t, u) && Below(slots, next)
    ensures Placed(mem, slots, s + [u])
    ensures var n := slots[s + [u]];
            var x := mem[n];
            && x.value == u && 1 <= x.count <= max && x.count <= x.under <= Sum(t)
            && Reaches(n, x.left, next) && Reaches(n, x.right, next)
    decreases t
  {
    if Has(t.left, u) {
      NodeFits(mem, slots, s, t.left, lo, t.value, max, u, next);
    } else if Has(t.right, u) {
      NodeFits(mem, slots, s, t.right, t.value + 1, hi, max, u, next);
    } else {
      hide Linked;
      var n := slots[s + [u]];
      LinkReaches(slots, s, n, mem[n].left, t.left, next);
      LinkReaches(slots, s, n, mem[n].right, t.right, next);
    }
  }

  /** The part of a record that belongs to the tree of its prefix. */
  lemma TreePartFits(mem: seq<Symbol>, slots: Slots, next: nat, cs: Contexts, r: Name)
    requires Represents(mem, slots, next, cs) && AllSound(cs) && r in slots && r != []
    ensures Placed(mem, slots, r)
    ensures var x := mem[slots[r]];
            && x.value == Last(r)
            && 1 <= x.count <= (if |r| == 1 then 252 else 253) && x.count <= x.under <= 65280
            && Reaches(slots[r], x.left, next) && Reaches(slots[r], x.right, next)
  {
    hide TreeIn, AllIn, AllNamed, Has, Linked, Ordered;
    var s := Prefix(r);
    assert s + [Last(r)] == r;
    ContextAt(mem, slots, next, cs, s);
    ContextOfSound(cs, s);
    NodeFits(mem, slots, s, ContextOf(cs, s).tree, 0, 256, 0xFF - SymbolDelta(s == []), Last(r), next);
  }

  /** The part of a record that is the context of its name. */
  lemma ContextPartFits(mem: seq<Symbol>, slots: Slots, next: nat, cs: Contexts, r: Name)
    requires Represents(mem, slots, next, cs) && AllSound(cs) && r in slots
    ensures Placed(mem, slots, r) && slots[r] < next
    ensures var x := mem[slots[r]];
            && x.escapes <= x.total <= 65280 && (r == [] ==> x.escapes == 1 && 257 <= x.total)
            && Reaches(slots[r], x.symbols, next)
  {
    hide TreeIn, AllIn, AllNamed, Has, Linked, Ordered;
    ContextAt(mem, slots, next, cs, r);
    ContextOfSound(cs, r);
    LinkReaches(slots, r, slots[r], mem[slots[r]].symbols, ContextOf(cs, r).tree, next);
  }

  /** Between any two bytes, no record has come near the width of its fields, and no link leaves the slots in use. */
  lemma RecordsFit(a: RangeCoder, r: Name)
    requires a.Valid() && r in a.slots
    ensures a.slots[r] < a.nextSymbol < SYMBOL_SLOTS && Fits(a.Memory()[a.slots[r]], r, a.slots[r], a.nextSymbol)
  {
    hide AllIn, AllNamed, NamesKnown, Sound, Reaches;
    ContextPartFits(a.Memory(), a.slots, a.nextSymbol, a.contexts, r);
    if r != [] {
      TreePartFits(a.Memory(), a.slots, a.nextSymbol, a.contexts, r);
    }
  }
}
