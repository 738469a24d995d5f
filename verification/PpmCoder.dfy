/**
  The range coder object: the symbol array, changed in place, and the compressor
  and decompressor that drive it.
 */
module PpmCoder {
  import opened Words
  import opened RangeCoding
  import opened FrequencyTree
  import opened ContextModel
  import opened SymbolStore
  import opened PpmCoding
  import opened CoderObjects

  /** Where the suffix link of the current symbol goes: the coder's prediction, or another symbol. */
  datatype ParentRef = Predicted | ParentOf(symbol: nat)

  class RangeCoder {
    const symbols: array<Symbol>
    var nextSymbol: nat
    var predicted: nat
    var order: nat

    // What the array represents
    ghost var slots: Slots
    ghost var contexts: Contexts
    ghost var history: Name

    ghost function Memory(): seq<Symbol>
      reads this, symbols
    {
      symbols[..]
    }

    /** The array holds the contexts; one record may still wait for its suffix link. */
    ghost predicate Holds(pending: Name)
      reads this, symbols
    {
      && symbols.Length == SYMBOL_SLOTS
      && Represents(Memory(), slots, nextSymbol, contexts)
      && SuffixLinks(Memory(), slots, pending)
    }

    ghost function CurrentModel(): Model
      reads this
    {
      Model(contexts, history, nextSymbol)
    }

    ghost predicate Valid()
      reads this, symbols
    {
      && Holds([])
      && ValidModel(CurrentModel())
      && history in slots && predicted == slots[history] && order == |history|
    }

    constructor ()
      ensures symbols.Length == SYMBOL_SLOTS
    {
      symbols := new Symbol[SYMBOL_SLOTS](_ => NewSymbol(0, 0));
    }

    method Store(i: nat, x: Symbol)
      requires i < symbols.Length
      modifies symbols
      ensures Memory() == old(Memory())[i := x]
    {
      symbols[i] := x;
    }

    method CreateSymbol(value: nat, count: nat) returns (symbol: nat)
      requires nextSymbol < symbols.Length
      modifies this`nextSymbol, symbols
      ensures symbol == old(nextSymbol) && nextSymbol == symbol + 1
      ensures Memory() == old(Memory())[symbol := NewSymbol(value, count)]
    {
      symbol := nextSymbol;
      nextSymbol := nextSymbol + 1;
      Store(symbol, NewSymbol(value, count));
    }

    method RaiseUnder(node: nat, update: nat)
      requires node < symbols.Length
      modifies symbols
      ensures Memory() == old(Memory())[node := old(symbols[node]).(under := U16(old(symbols[node]).under + update))]
    {
      Store(node, symbols[node].(under := U16(symbols[node].under + update)));
    }

    method RaiseCount(node: nat, update: nat)
      requires node < symbols.Length
      modifies symbols
      ensures Memory() == old(Memory())[node := old(symbols[node]).(under := U16(old(symbols[node]).under + update),
                                                                    count := U8(old(symbols[node]).count + update))]
    {
      Store(node, symbols[node].(under := U16(symbols[node].under + update),
                                 count := U8(symbols[node].count + update)));
    }

    method CreateLeft(node: nat, value: nat, update: nat) returns (symbol: nat)
      requires node < nextSymbol < symbols.Length
      modifies this`nextSymbol, symbols
      ensures symbol == old(nextSymbol) && nextSymbol == symbol + 1
      ensures Memory() == old(Memory())[symbol := NewSymbol(value, update)]
                          [node := old(symbols[node]).(left := U16(symbol - node))]
    {
      symbol := CreateSymbol(value, update);
      Store(node, symbols[node].(left := U16(symbol - node)));
    }

    method CreateRight(node: nat, value: nat, update: nat) returns (symbol: nat)
      requires node < nextSymbol < symbols.Length
      modifies this`nextSymbol, symbols
      ensures symbol == old(nextSymbol) && nextSymbol == symbol + 1
      ensures Memory() == old(Memory())[symbol := NewSymbol(value, update)]
                          [node := old(symbols[node]).(right := U16(symbol - node))]
    {
      symbol := CreateSymbol(value, update);
      Store(node, symbols[node].(right := U16(symbol - node)));
    }

    /** Starts afresh with the root context alone. */
    method Reset()
      requires symbols.Length == SYMBOL_SLOTS
      modifies this, symbols
      ensures Valid() && CurrentModel() == FRESH_MODEL
    {
      nextSymbol := 0;
      var root := CreateSymbol(0, 0);
      Store(root, symbols[root].(escapes := 1, total := 1 + 256 * 1, symbols := 0));
      predicted := 0;
      order := 0;
      slots, contexts, history := map[[] := 0], map[], [];
    }

    /**
      Looks for a value in the tree of a context and adds to its count, or makes a
      new symbol for it.  Returns the symbol and its share of the symbols' scale.
     */
    method SearchByValue(context: nat, value: Byte, update: nat, root: bool, ghost sl: Slots, ghost s: Name,
                         ghost t: Tree)
      returns (symbol: nat, under: nat, count: nat)
      requires CanSearch(Memory(), sl, nextSymbol, s, t, value) && context == sl[s]
      requires root == (s == []) && update == SymbolDelta(root)
      modifies this`nextSymbol, symbols
      ensures Memory() == InsertSymbol(old(Memory()), sl, s, t, value, update, old(nextSymbol))
      ensures nextSymbol == old(nextSymbol) + if Has(t, value) then 0 else 1
      ensures symbol == WithSlot(sl, s + [value], old(nextSymbol))[s + [value]]
      ensures under == Under(t, value) + Extra(value, root) && count == Count(t, value) + Extra(1, root)
    {
      if symbols[context].symbols == 0 {
        under := Extra(value, root);
        count := Extra(1, root);
        symbol := CreateSymbol(value, update);
        Store(context, symbols[context].(symbols := U16(symbol - context)));
      } else {
        symbol, under, count := WalkByValue(context + symbols[context].symbols, value, update, root, sl, s, t);
      }
    }

    method WalkByValue(start: nat, value: Byte, update: nat, root: bool, ghost sl: Slots, ghost s: Name, ghost t: Tree)
      returns (symbol: nat, under: nat, count: nat)
      requires symbols.Length == SYMBOL_SLOTS && nextSymbol < SYMBOL_SLOTS
      requires t.Node? && CanInsert(Memory(), sl, s, t, 0, 256, value, update, nextSymbol)
      requires s + [t.value] in sl && start == sl[s + [t.value]]
      requires Sum(t) + Extra(256, root) <= 0xFFFF
      modifies this`nextSymbol, symbols
      ensures Memory() == InsertIn(old(Memory()), sl, s, t, value, update, old(nextSymbol))
      ensures nextSymbol == old(nextSymbol) + if Has(t, value) then 0 else 1
      ensures symbol == WithSlot(sl, s + [value], old(nextSymbol))[s + [value]]
      ensures under == Under(t, value) + Extra(value, root) && count == Count(t, value) + Extra(1, root)
    {
      hide CanInsert, CanWalk, InsertIn, NodeIn, TreeIn, Named, Sum, Under, Count, Has, Ordered, Linked, U16, U8;
      hide NewSymbol;
      ghost var next := nextSymbol;
      CanInsertAt(Memory(), sl, s, t, 0, 256, value, update, next);
      AtNode(Memory(), sl, s, t, 0, 256, update, next);
      UnderBound(t, value);
      Fits16(Extra(value, root));
      under := U16(Extra(value, root));
      count := Extra(1, root);
      var node := start;
      ghost var cur: Tree, lo: int, hi: int := t, 0, 256;
      while true
        invariant cur.Node? && s + [cur.value] in sl && node == sl[s + [cur.value]]
        invariant nextSymbol == next && |Memory()| == SYMBOL_SLOTS
        invariant CanInsert(Memory(), sl, s, cur, lo, hi, value, update, next)
        invariant Named(sl, s, cur, SYMBOL_SLOTS)
        invariant InsertIn(Memory(), sl, s, cur, value, update, next) ==
                  InsertIn(old(Memory()), sl, s, t, value, update, next)
        invariant under + Under(cur, value) == Extra(value, root) + Under(t, value)
        invariant Count(cur, value) == Count(t, value) && (Has(cur, value) <==> Has(t, value))
        decreases cur
      {
        CanInsertAt(Memory(), sl, s, cur, lo, hi, value, update, next);
        AtNode(Memory(), sl, s, cur, lo, hi, update, next);
        if value < symbols[node].value {
          StepLeft(Memory(), sl, s, cur, lo, hi, value, update, next);
          RaiseUnder(node, update);
          if symbols[node].left != 0 {
            node := node + symbols[node].left;
            cur, hi := cur.left, cur.value;
            continue;
          }
          symbol := CreateLeft(node, value, update);
        } else if value > symbols[node].value {
          StepRight(Memory(), sl, s, cur, lo, hi, value, update, next);
          Fits16(under + symbols[node].under);
          under := U16(under + symbols[node].under);
          if symbols[node].right != 0 {
            node := node + symbols[node].right;
            cur, lo := cur.right, cur.value + 1;
            continue;
          }
          symbol := CreateRight(node, value, update);
        } else {
          StepHere(Memory(), sl, s, cur, lo, hi, update, next);
          count := count + symbols[node].count;
          Fits16(under + symbols[node].under - symbols[node].count);
          under := U16(under + symbols[node].under - symbols[node].count);
          RaiseCount(node, update);
          symbol := node;
        }
        break;
      }
    }

    /**
      Looks for the value whose share contains a code.  In the root every value has
      a share, so a value that does not occur yet gets a symbol; elsewhere a code
      beyond all counts is a failure.
     */
    method WalkByCode(start: nat, code: nat, update: nat, root: bool, ghost sl: Slots, ghost s: Name, ghost t: Tree)
      returns (found: bool, symbol: nat, value: Byte, under: nat, count: nat)
      requires symbols.Length == SYMBOL_SLOTS && nextSymbol < SYMBOL_SLOTS
      requires t.Node? && CanWalk(Memory(), sl, s, t, 0, 256, update, nextSymbol)
      requires s + [t.value] in sl && start == sl[s + [t.value]]
      requires Sum(t) + Extra(256, root) <= 0xFFFF
      requires code < 0x1_0000 && (root ==> code < Sum(t) + 256)
      requires forall v: Byte :: s + [v] in sl <==> Has(t, v)
      modifies this`nextSymbol, symbols
      ensures found <==> Located(t, code, root)
      ensures found ==>
                && value == Find(t, 0, code, root)
                && CanInsert(old(Memory()), sl, s, t, 0, 256, value, update, old(nextSymbol))
                && Memory() == InsertIn(old(Memory()), sl, s, t, value, update, old(nextSymbol))
                && nextSymbol == old(nextSymbol) + (if Has(t, value) then 0 else 1)
                && symbol == WithSlot(sl, s + [value], old(nextSymbol))[s + [value]]
                && under == Under(t, value) + Extra(value, root) && count == Count(t, value) + Extra(1, root)
    {
      hide CanInsert, CanWalk, InsertIn, NodeIn, TreeIn, Named, Sum, Under, Count, Has, Find, Ordered, Linked, U16, U8,
           NewSymbol, Searching, Located;
      ghost var next := nextSymbol;
      ghost var max := 0xFF - update;
      ghost var v := StartSearch(sl, s, t, code, update, root);
      AtNode(Memory(), sl, s, t, 0, 256, update, next);
      found := false;
      under := 0;
      count := Extra(1, root);
      symbol, value := 0, 0;
      var node := start;
      ghost var cur: Tree, lo: int, hi: int := t, 0, 256;
      while true
        invariant cur.Node? && s + [cur.value] in sl && node == sl[s + [cur.value]]
        invariant nextSymbol == next && |Memory()| == SYMBOL_SLOTS
        invariant CanWalk(Memory(), sl, s, cur, lo, hi, update, next)
        invariant Named(sl, s, cur, SYMBOL_SLOTS)
        invariant Searching(t, cur, lo, hi, code, under, root, v)
        invariant Located(t, code, root) ==>
                    && CanInsert(Memory(), sl, s, cur, lo, hi, v, update, next)
                    && InsertIn(Memory(), sl, s, cur, v, update, next) ==
                       InsertIn(old(Memory()), sl, s, t, v, update, next)
        decreases cur
      {
        AtNode(Memory(), sl, s, cur, lo, hi, update, next);
        SearchFits(t, cur, lo, hi, max, code, under, root, v);
        var after := U16(under + symbols[node].under + Extra(symbols[node].value + 1, root));
        var before := symbols[node].count + Extra(1, root);
        if code >= after {
          SearchRight(t, cur, lo, hi, max, code, under, root, v);
          under := U16(under + symbols[node].under);
          if Located(t, code, root) {
            CanInsertAt(Memory(), sl, s, cur, lo, hi, v, update, next);
            StepRight(Memory(), sl, s, cur, lo, hi, v, update, next);
          }
          if symbols[node].right != 0 {
            node := node + symbols[node].right;
            cur, lo := cur.right, cur.value + 1;
            continue;
          }
          if !root {
            break;
          }
          value := symbols[node].value + 1 + (code - after);
          under := code;
          symbol := CreateRight(node, value, update);
        } else if code < after - before {
          SearchLeft(t, cur, lo, hi, max, code, under, root, v);
          CanInsertAt(Memory(), sl, s, cur, lo, hi, v, update, next);
          StepLeft(Memory(), sl, s, cur, lo, hi, v, update, next);
          RaiseUnder(node, update);
          if symbols[node].left != 0 {
            CanInsertAt(Memory(), sl, s, cur.left, lo, cur.value, v, update, next);
            node := node + symbols[node].left;
            cur, hi := cur.left, cur.value;
            continue;
          }
          if !root {
            break;
          }
          value := symbols[node].value - 1 - (after - before - code - 1);
          under := code;
          symbol := CreateLeft(node, value, update);
        } else {
          SearchHere(t, cur, lo, hi, max, code, under, root, v);
          StepHere(Memory(), sl, s, cur, lo, hi, update, next);
          value := symbols[node].value;
          count := count + symbols[node].count;
          under := after - before;
          RaiseCount(node, update);
          symbol := node;
        }
        found := true;
        break;
      }
    }

    /** The value that a search by code starts out for. */
    ghost method StartSearch(sl: Slots, s: Name, t: Tree, code: nat, update: nat, root: bool) returns (v: Byte)
      requires symbols.Length == SYMBOL_SLOTS && nextSymbol < SYMBOL_SLOTS
      requires t.Node? && CanWalk(Memory(), sl, s, t, 0, 256, update, nextSymbol)
      requires Sum(t) + Extra(256, root) <= 0xFFFF
      requires forall v: Byte :: s + [v] in sl <==> Has(t, v)
      requires root ==> code < Sum(t) + 256
      ensures root ==> Located(t, code, root)
      ensures Searching(t, t, 0, 256, code, 0, root, v)
      ensures Located(t, code, root) ==>
                CanInsert(Memory(), sl, s, t, 0, 256, v, update, nextSymbol) && v == Find(t, 0, code, root)
    {
      v := 0;
      if Located(t, code, root) {
        FindRange(t, 0, 256, 0xFF - update, code, root);
        v := Find(t, 0, code, root);
        CanInsertAll(Memory(), sl, s, t, v, update, nextSymbol);
      }
    }

    /** Halves the counts of a tree, and returns their new total. */
    method RescaleTree(start: nat, ghost sl: Slots, ghost s: Name, ghost t: Tree, ghost from: int, ghost to: int)
      returns (total: nat)
      requires symbols.Length == SYMBOL_SLOTS
      requires t.Node? && CanHalve(Memory(), sl, s, t, from, to)
      requires s + [t.value] in sl && start == sl[s + [t.value]]
      modifies symbols
      ensures Named(sl, s, t, SYMBOL_SLOTS) && Memory() == HalveIn(old(Memory()), sl, s, t)
      ensures total == Sum(Halve(t))
      decreases t
    {
      hide CanHalve, HalveIn, HalveLeft, NodeIn, TreeIn, Named, Sum, Halve, Ordered, Linked, U16, U8;
      HalveAtNode(Memory(), sl, s, t, from, to);
      total := 0;
      var node := start;
      ghost var cur: Tree, lo: int := t, from;
      while true
        invariant cur.Node? && s + [cur.value] in sl && node == sl[s + [cur.value]]
        invariant |Memory()| == SYMBOL_SLOTS && Named(sl, s, cur, SYMBOL_SLOTS)
        invariant CanHalve(Memory(), sl, s, cur, lo, to)
        invariant HalveIn(Memory(), sl, s, cur) == HalveIn(old(Memory()), sl, s, t)
        invariant total + Sum(Halve(cur)) == Sum(Halve(t))
        decreases cur
      {
        ghost var mem := Memory();
        HalveAtNode(mem, sl, s, cur, lo, to);
        HalveAfterLeft(mem, sl, s, cur, lo, to);
        var count := U8(symbols[node].count - symbols[node].count / 2);
        Store(node, symbols[node].(count := count, under := count));
        if symbols[node].left != 0 {
          var leftTotal := RescaleTree(node + symbols[node].left, sl, s, cur.left, lo, cur.value);
          Store(node, symbols[node].(under := U16(symbols[node].under + leftTotal)));
        }
        assert Memory() == HalveLeft(mem, sl, s, cur);
        Fits16(total + symbols[node].under);
        total := U16(total + symbols[node].under);
        if symbols[node].right == 0 {
          break;
        }
        node := node + symbols[node].right;
        cur, lo := cur.right, cur.value + 1;
      }
    }

    // ---------------------------------------------------------------- one context

    /** The record of s + [v] is known, and so is its share of the context c of s. */
    ghost predicate Visited(s: Name, c: Context, v: Byte, symbol: nat, under: nat, count: nat)
      reads this
    {
      && s + [v] in slots && symbol == slots[s + [v]]
      && under == Under(c.tree, v) + Extra(v, s == []) && count == Count(c.tree, v) + Extra(1, s == [])
    }

    /** A record that waits for the link to that of s + [v], or none. */
    ghost predicate Waiting(parent: ParentRef, pending: Name, s: Name, v: Byte)
      reads this
    {
      if pending == [] then parent == Predicted
      else pending in slots && parent == ParentOf(slots[pending]) && pending[1..] == s + [v]
    }

    /** Looks for a value in the context of s, and links the waiting record to its symbol. */
    method Visit(context: nat, value: Byte, parent: ParentRef, ghost s: Name, ghost pending: Name)
      returns (symbol: nat, under: nat, count: nat)
      requires Holds(pending) && s in slots && context == slots[s] && nextSymbol < SYMBOL_SLOTS
      requires Sound(ContextOf(contexts, s), s == []) && Waiting(parent, pending, s, value)
      modifies this`nextSymbol, this`slots, this`contexts, this`predicted, symbols
      ensures var c := old(ContextOf(contexts, s));
              && Holds(if s == [] || Has(c.tree, value) then [] else s + [value])
              && contexts == old(contexts)[s := c.(tree := Insert(c.tree, value, SymbolDelta(s == [])))]
              && slots == WithSlot(old(slots), s + [value], old(nextSymbol))
              && nextSymbol == NextAfter(c, value, old(nextSymbol))
              && Visited(s, c, value, symbol, under, count)
              && predicted == if pending == [] then symbol else old(predicted)
    {
      hide Represents, SuffixLinks, CanSearch, Sound, HasRoom, InsertSymbol, Named, Has, Under, Count, Insert;
      ghost var c := ContextOf(contexts, s);
      ghost var mem, sl := Memory(), slots;
      SearchReady(mem, slots, nextSymbol, contexts, s, value);
      VisitRepresents(mem, slots, nextSymbol, contexts, s, value, pending);
      symbol, under, count :=
        SearchByValue(context, value, if context == 0 then 3 else 2, context == 0, slots, s, c.tree);
      slots := WithSlot(slots, s + [value], old(nextSymbol));
      contexts := contexts[s := c.(tree := Insert(c.tree, value, SymbolDelta(s == [])))];
      match parent {
        case Predicted => predicted := symbol;
        case ParentOf(p) =>
          Fits16(symbol);
          Store(p, symbols[p].(parent := U16(symbol)));
      }
    }

    /** New escapes and total for the context of s. */
    method SetHeader(context: nat, escapes: nat, total: nat, ghost s: Name, ghost pending: Name)
      requires Holds(pending) && s in slots && context == slots[s] && context < symbols.Length
      modifies this`contexts, symbols
      ensures Holds(pending)
      ensures contexts == old(contexts)[s := ContextOf(old(contexts), s).(escapes := escapes, total := total)]
    {
      hide Represents, ContextOf;
      HeaderRepresents(Memory(), slots, nextSymbol, contexts, s, escapes, total);
      Store(context, symbols[context].(escapes := escapes, total := total));
      contexts := contexts[s := ContextOf(contexts, s).(escapes := escapes, total := total)];
    }

    /** Halves all counts of the context of s, and its escapes. */
    method Rescale(context: nat, minimum: nat, ghost s: Name, ghost pending: Name)
      requires Holds(pending) && s in slots && context == slots[s]
      requires minimum == Extra(1, s == [])
      requires ContextOf(contexts, s).tree.Node?
      requires Sum(ContextOf(contexts, s).tree) + ContextOf(contexts, s).escapes + 256 * minimum <= 0xFFFF
      modifies this`contexts, symbols
      ensures Holds(pending)
      ensures contexts == old(contexts)[s := Rescaled(ContextOf(old(contexts), s), s == [])]
    {
      hide Represents, CanHalve, HalveIn, Named, Sum, Halve;
      ghost var c := ContextOf(contexts, s);
      HalveReady(Memory(), slots, nextSymbol, contexts, s);
      HalveRepresents(Memory(), slots, nextSymbol, contexts, s);
      HalveSmaller(c.tree);
      var total := 0;
      if symbols[context].symbols != 0 {
        total := RescaleTree(context + symbols[context].symbols, slots, s, c.tree, 0, 256);
      }
      contexts := contexts[s := c.(tree := Halve(c.tree))];
      HalveReady(Memory(), slots, nextSymbol, contexts, s);
      var escapes := symbols[context].escapes - symbols[context].escapes / 2;
      Fits16(total + escapes + 256 * minimum);
      SetHeader(context, escapes, U16(total + escapes + 256 * minimum), s, pending);
    }

    /**
      Completes what the context of s learns from v, after v was looked for in its
      tree: an escape if v was new, the total, and rescaling at the thresholds.
     */
    method Adapt(context: nat, count: nat, ghost s: Name, ghost v: Byte, ghost before: Contexts, ghost pending: Name)
      requires Holds(pending) && s in slots && context == slots[s]
      requires Sound(ContextOf(before, s), s == [])
      requires contexts == Looked(before, s, v)
      requires count == Count(ContextOf(before, s).tree, v) + Extra(1, s == [])
      modifies this`contexts, symbols
      ensures Holds(pending) && contexts == LearnAt(before, s, v)
    {
      hide Represents, Sound, Insert, Count, Sum, Halve, ContextOf, Rescaled, U16, SuffixLinks, Named, CanHalve;
      ghost var c' := Counted(ContextOf(before, s), s == [], v);
      Overwrite(before, s, ContextOf(before, s).(tree := c'.tree), c');
      Overwrite(before, s, c', Rescaled(c', s == []));
      AdaptBounds(ContextOf(before, s), s == [], v);
      HalveReady(Memory(), slots, nextSymbol, contexts, s);
      var root := context == 0;
      RootSlot(Memory(), slots, nextSymbol, contexts, s);
      var delta := if root then 3 else 2;
      var escaped := if !root && count == 0 then SUBCONTEXT_ESCAPE_DELTA else 0;
      Fits16(symbols[context].escapes + escaped);
      Fits16(symbols[context].total + escaped + delta);
      SetHeader(context, U16(symbols[context].escapes + escaped), U16(symbols[context].total + escaped + delta),
                s, pending);
      assert contexts == before[s := c'];
      HalveReady(Memory(), slots, nextSymbol, contexts, s);
      if count > 0xFF - 2 * delta + Extra(1, root) || symbols[context].total > BOTTOM - 0x100 {
        Rescale(context, Extra(1, root), s, pending);
      }
    }

    // ---------------------------------------------------------------- compressing

    /** What visiting the context of s with v leaves behind, whoever visits. */
    twostate predicate VisitedWith(s: Name, v: Byte, pending: Name, symbol: nat)
      reads this, symbols
    {
      var c := old(ContextOf(contexts, s));
      && Holds(if s == [] || Count(c.tree, v) > 0 then [] else s + [v])
      && contexts == LearnAt(old(contexts), s, v)
      && slots == WithSlot(old(slots), s + [v], old(nextSymbol))
      && nextSymbol == old(nextSymbol) + (if Count(c.tree, v) > 0 then 0 else 1)
      && s + [v] in slots && symbol == slots[s + [v]]
      && predicted == (if pending == [] then symbol else old(predicted))
      && order == old(order) && history == old(history)
    }

    /** Codes a value in the context of s: its share if it is known there, else an escape if there can be one. */
    method EncodeIn(e: RangeEncoder, context: nat, value: Byte, parent: ParentRef, ghost s: Name, ghost pending: Name)
      returns (ok: bool, symbol: nat, found: bool)
      requires Holds(pending) && s in slots && context == slots[s] && nextSymbol < SYMBOL_SLOTS
      requires Sound(ContextOf(contexts, s), s == []) && Waiting(parent, pending, s, value)
      requires e.Valid()
      modifies this, symbols, e, e.out
      ensures var c := old(ContextOf(contexts, s));
              var xs := OwnShares(c, s == [], value);
              && AllProper(xs) && (found <==> s == [] || Count(c.tree, value) > 0)
              && (ok <==> |old(e.Output())| + |Emitted(old(e.Span()), xs)| <= e.limit)
              && (ok ==> e.Valid() && e.Span() == IntervalAfter(old(e.Span()), xs)
                         && e.Output() == old(e.Output()) + Emitted(old(e.Span()), xs))
      ensures ok ==> VisitedWith(s, value, pending, symbol)
    {
      hide Represents, SuffixLinks, Under, Insert, Sum, Ordered, Learned, Encode;
      ghost var before := contexts;
      ghost var c := ContextOf(contexts, s);
      ghost var i := e.Span();
      OwnSharesProper(c, s == [], value);
      HasIffCounted(c.tree, 0, 256, 0xFF - SymbolDelta(s == []), value);
      RootSlot(Memory(), slots, nextSymbol, contexts, s);
      var under, count;
      symbol, under, count := Visit(context, value, parent, s, pending);
      HeaderAt(Memory(), slots, nextSymbol, contexts, s);
      var escapes, total := symbols[context].escapes, symbols[context].total;
      found := count > 0;
      if count > 0 {
        SymbolShareProper(c, s == [], value);
        EmittedOne(i, SymbolShare(c, s == [], value));
        ok := e.EncodeShare(escapes + under, count, total);
        if !ok {
          return;
        }
      } else if escapes > 0 && escapes < total {
        TotalBounds(c, s == []);
        EmittedOne(i, EscapeShare(c));
        ok := e.EncodeShare(0, escapes, total);
        if !ok {
          return;
        }
      }
      ok := true;
      Adapt(context, count, s, value, before, if s == [] || Has(c.tree, value) then [] else s + [value]);
    }

    /** Moves on to the context for the next byte, or starts afresh when the symbols run out. */
    method NextInput(ghost v: Byte)
      requires Holds([]) && AllSound(contexts) && 1 <= nextSymbol
      requires forall s :: s in contexts ==> |s| <= SUBCONTEXT_ORDER
      requires order == |history| <= SUBCONTEXT_ORDER
      requires history + [v] in slots && predicted == slots[history + [v]]
      modifies this, symbols
      ensures Valid()
      ensures CurrentModel() == if old(nextSymbol) >= SYMBOL_SLOTS - SUBCONTEXT_ORDER then FRESH_MODEL
                                else Model(old(contexts), Extend(old(history), v), old(nextSymbol))
    {
      hide Represents;
      if order >= SUBCONTEXT_ORDER {
        SuffixAt(Memory(), slots, nextSymbol, contexts, history + [v], []);
        assert (history + [v])[1..] == history[1..] + [v];
        predicted := symbols[predicted].parent;
      } else {
        order := order + 1;
      }
      history := Extend(history, v);
      if nextSymbol >= SYMBOL_SLOTS - SUBCONTEXT_ORDER {
        Reset();
      }
    }

    /** A byte v is partly learned, starting from the model m: the contexts longer than s have learned it. */
    ghost predicate Learning(context: nat, parent: ParentRef, s: Name, pending: Name, v: Byte, m: Model, stop: Name)
      reads this, symbols
    {
      && Holds(pending) && s in slots && context == slots[s] && (context == 0 <==> s == [])
      && Waiting(parent, pending, s, v) && AllSound(contexts)
      && (forall t :: t in contexts ==> |t| <= SUBCONTEXT_ORDER)
      && history == m.history && order == |history| && |s| <= |history| <= SUBCONTEXT_ORDER
      && m.slots < SYMBOL_SLOTS - SUBCONTEXT_ORDER && 1 <= nextSymbol == m.slots + |m.history| - |s|
      && (if pending == [] then s == history else history + [v] in slots && predicted == slots[history + [v]])
      && Learn(contexts, s, stop, v) == Learn(m.contexts, m.history, stop, v)
      && nextSymbol + Created(contexts, s, stop, v) == m.slots + Created(m.contexts, m.history, stop, v)
    }

    /** What is left to emit for v, starting with the context s. */
    ghost predicate Emitting(e: RangeEncoder, s: Name, v: Byte, stop: Name, bytes: seq<Byte>, interval: Interval)
      reads this, e, e.out
    {
      var xs := Shares(contexts, s, v);
      && e.Valid() && AllProper(xs) && Stop(contexts, s, v) == stop
      && bytes == e.Output() + Emitted(e.Span(), xs)
      && interval == IntervalAfter(e.Span(), xs)
    }

    /** Codes a value in one context; if it was not found there, moves on to the next shorter one. */
    method EncodeStep(e: RangeEncoder, context: nat, value: Byte, parent: ParentRef, ghost s: Name, ghost pending: Name,
                      ghost m: Model, ghost stop: Name, ghost bytes: seq<Byte>, ghost interval: Interval)
      returns (ok: bool, found: bool, next: nat, symbol: nat)
      requires Learning(context, parent, s, pending, value, m, stop) && Emitting(e, s, value, stop, bytes, interval)
      modifies this, symbols, e, e.out
      ensures !ok ==> |bytes| > e.limit
      ensures ok && found ==>
                && Holds([]) && AllSound(contexts) && 1 <= nextSymbol
                && (forall t :: t in contexts ==> |t| <= SUBCONTEXT_ORDER)
                && history == m.history && order == |history| <= SUBCONTEXT_ORDER
                && history + [value] in slots && predicted == slots[history + [value]]
                && contexts == Learn(m.contexts, m.history, stop, value)
                && nextSymbol == m.slots + Created(m.contexts, m.history, stop, value)
                && e.Valid() && e.Output() == bytes && e.Span() == interval
      ensures ok && !found ==>
                && s != [] && Learning(next, ParentOf(symbol), s[1..], s + [value], value, m, stop)
                && Emitting(e, s[1..], value, stop, bytes, interval)
    {
      hide Represents, SuffixLinks, Shares, Learn, Created, Stop, Sound, Learned, OwnShares, Emitted, IntervalAfter;
      hide Proper;
      ghost var cs := contexts;
      ContextOfSound(cs, s);
      CodeStep(cs, s, value, e.Span());
      ok, symbol, found := EncodeIn(e, context, value, parent, s, pending);
      next := 0;
      if ok && !found {
        SuffixAt(Memory(), slots, nextSymbol, contexts, s, s + [value]);
        RootSlot(Memory(), slots, nextSymbol, contexts, s[1..]);
        next := symbols[context].parent;
      }
    }

    /** Codes one byte in the contexts of the preceding bytes, longest first, and adapts these. */
    method EncodeByte(e: RangeEncoder, value: Byte) returns (ok: bool)
      requires Valid() && e.Valid()
      modifies this, symbols, e, e.out
      ensures var m := old(CurrentModel());
              var xs := Shares(m.contexts, m.history, value);
              && AllProper(xs)
              && (ok <==> |old(e.Output())| + |Emitted(old(e.Span()), xs)| <= e.limit)
              && (ok ==> Valid() && CurrentModel() == After(m, value))
              && (ok ==> e.Valid() && e.Span() == IntervalAfter(old(e.Span()), xs)
                         && e.Output() == old(e.Output()) + Emitted(old(e.Span()), xs))
    {
      hide Represents, SuffixLinks, Shares, Learn, Created, Stop, Sound, Learned, Emitted, IntervalAfter, Learning;
      hide Emitting;
      ghost var m := CurrentModel();
      ghost var stop := Stop(m.contexts, m.history, value);
      ghost var xs := Shares(m.contexts, m.history, value);
      SharesProper(m.contexts, m.history, value);
      NextValid(m, stop, value);
      ghost var bytes, interval := e.Output() + Emitted(e.Span(), xs), IntervalAfter(e.Span(), xs);
      RootSlot(Memory(), slots, nextSymbol, contexts, history);
      var subcontext, parent, symbol, found := predicted, Predicted, 0, false;
      ghost var s, pending := history, [];
      StartLearning(subcontext, value, stop);
      StartEmitting(e, value);
      while subcontext != 0
        invariant Learning(subcontext, parent, s, pending, value, m, stop)
        invariant Emitting(e, s, value, stop, bytes, interval)
        decreases |s|
      {
        var next;
        ok, found, next, symbol := EncodeStep(e, subcontext, value, parent, s, pending, m, stop, bytes, interval);
        if !ok {
          return;
        }
        if found {
          NextInput(value);
          return;
        }
        subcontext, parent := next, ParentOf(symbol);
        s, pending := s[1..], s + [value];
      }
      AtRoot(subcontext, parent, s, pending, value, m, stop);
      ok, found, subcontext, symbol := EncodeStep(e, subcontext, value, parent, s, pending, m, stop, bytes, interval);
      if ok {
        NextInput(value);
      }
    }

    ghost method StartEmitting(e: RangeEncoder, v: Byte)
      requires e.Valid() && AllProper(Shares(contexts, history, v))
      ensures var xs := Shares(contexts, history, v);
              Emitting(e, history, v, Stop(contexts, history, v),
                       e.Output() + Emitted(e.Span(), xs), IntervalAfter(e.Span(), xs))
    {
    }

    ghost method AtRoot(context: nat, parent: ParentRef, s: Name, pending: Name, v: Byte, m: Model, stop: Name)
      requires Learning(context, parent, s, pending, v, m, stop) && context == 0
      ensures s == []
    {
    }

    ghost method StartLearning(context: nat, v: Byte, stop: Name)
      requires Valid() && context == predicted
      ensures Learning(context, Predicted, history, [], v, CurrentModel(), stop)
    {
      RootSlot(Memory(), slots, nextSymbol, contexts, history);
    }

    /**
      Compresses the concatenation of the buffers.  Returns the number of bytes
      written to out, which is 0 if there is nothing to do or they do not fit.
     */
    method Compress(inBuffers: seq<seq<Byte>>, inLimit: nat, out: array<Byte>, outLimit: nat) returns (n: nat)
      requires symbols.Length == SYMBOL_SLOTS && outLimit <= out.Length
      requires forall k :: 1 <= k < |inBuffers| ==> inBuffers[k] != []
      modifies this, symbols, out
      ensures n <= outLimit
      ensures out[..n] == if inBuffers == [] || inLimit == 0 then [] else Compressed(Flatten(inBuffers), outLimit)
    {
      hide Represents, SuffixLinks, Shares, Stop, Emitted, IntervalAfter, ValidModel, Valid, Flush, AllProper;
      hide Flatten, Pending, Next;
      if inBuffers == [] || inLimit <= 0 {
        return 0;
      }
      var buffer, position, nextBuffer := inBuffers[0], 0, 1;
      Reset();
      var e := new RangeEncoder(out, outLimit);
      ghost var message := Flatten(inBuffers);
      ghost var rest := message;
      StartPending(message);
      FlattenCons(inBuffers);
      while true
        invariant 1 <= nextBuffer <= |inBuffers| && position <= |buffer|
        invariant rest == buffer[position..] + Flatten(inBuffers[nextBuffer..])
        invariant Valid() && e.Valid() && e.out == out && e.limit == outLimit
        invariant Pending(CurrentModel(), e.Span(), e.Output(), message, rest)
        decreases |rest|
      {
        FlattenCons(inBuffers[nextBuffer..]);
        if position >= |buffer| {
          if nextBuffer >= |inBuffers| {
            break;
          }
          buffer, position, nextBuffer := inBuffers[nextBuffer], 0, nextBuffer + 1;
        }
        var value := buffer[position];
        position := position + 1;
        ghost var later := buffer[position..] + Flatten(inBuffers[nextBuffer..]);
        assert rest == [value] + later;
        PendingStep(CurrentModel(), e.Span(), e.Output(), message, value, later);
        rest := later;
        var ok := EncodeByte(e, value);
        if !ok {
          return 0;
        }
      }
      PendingEnd(CurrentModel(), e.Span(), e.Output(), message);
      var ok := e.FlushLow();
      return if ok then e.written else 0;
    }

    // ---------------------------------------------------------------- decompressing

    /**
      Looks for the value of a code in the context of s, which must have symbols
      unless it is the root, and adds to its count.
     */
    method ContextDecode(context: nat, code: nat, ghost s: Name)
      returns (found: bool, symbol: nat, value: Byte, under: nat, count: nat)
      requires Holds([]) && s in slots && context == slots[s] && nextSymbol < SYMBOL_SLOTS
      requires Sound(ContextOf(contexts, s), s == []) && code < 0x1_0000
      requires if s == [] then code < Sum(ContextOf(contexts, s).tree) + 256 else ContextOf(contexts, s).tree.Node?
      modifies this`nextSymbol, this`slots, this`contexts, symbols
      ensures var c := old(ContextOf(contexts, s));
              && (found <==> Located(c.tree, code, s == []))
              && (found ==>
                    && value == Find(c.tree, 0, code, s == [])
                    && Holds(if s == [] || Has(c.tree, value) then [] else s + [value])
                    && contexts == Looked(old(contexts), s, value)
                    && slots == WithSlot(old(slots), s + [value], old(nextSymbol))
                    && nextSymbol == NextAfter(c, value, old(nextSymbol))
                    && Visited(s, c, value, symbol, under, count))
    {
      hide Represents, SuffixLinks, CanSearch, Sound, HasRoom, Named, Has, Under, Count, Insert, InsertIn, CanInsert;
      hide CanWalk;
      ghost var c := ContextOf(contexts, s);
      ghost var mem, sl := Memory(), slots;
      RootSlot(mem, slots, nextSymbol, contexts, s);
      DecodeReady(mem, slots, nextSymbol, contexts, s);
      if symbols[context].symbols == 0 {
        found := true;
        value, under, count := code, code, 1;
        SearchReady(mem, slots, nextSymbol, contexts, s, value);
        LeafFacts(value);
        symbol := CreateSymbol(value, 3);
        Store(context, symbols[context].(symbols := U16(symbol - context)));
      } else {
        found, symbol, value, under, count :=
          WalkByCode(context + symbols[context].symbols, code, if context == 0 then 3 else 2, context == 0,
                     slots, s, c.tree);
      }
      if found {
        VisitRepresents(mem, slots, old(nextSymbol), contexts, s, value, []);
        slots := WithSlot(slots, s + [value], old(nextSymbol));
        contexts := Looked(contexts, s, value);
      }
    }

    /** Decoding from the context of s on will have the given result. */
    ghost predicate Decoding(d: RangeDecoder, s: Name, goal: Walk)
      reads this, d
    {
      d.Valid() && AllSound(contexts) && goal == DecodeSymbol(contexts, s, d.Place())
    }

    /** What finding v in the context of s leaves behind. */
    twostate predicate FoundIn(s: Name, v: Byte, symbol: nat)
      reads this, symbols
    {
      var count := Count(old(ContextOf(contexts, s)).tree, v);
      && Holds([]) && contexts == LearnAt(old(contexts), s, v)
      && slots == WithSlot(old(slots), s + [v], old(nextSymbol))
      && nextSymbol == old(nextSymbol) + (if count > 0 then 0 else 1)
      && s + [v] in slots && symbol == slots[s + [v]] && (s == [] || count > 0)
    }

    /**
      Decodes in the context of s.  Either the value is found there, or the context
      escapes, or the code does not belong to it.
     */
    method DecodeIn(d: RangeDecoder, context: nat, ghost s: Name, ghost goal: Walk)
      returns (status: Status, symbol: nat, value: Byte)
      requires Holds([]) && s in slots && context == slots[s] && (context == 0 <==> s == [])
               && nextSymbol < SYMBOL_SLOTS
      requires Decoding(d, s, goal)
      modifies this, symbols, d
      ensures order == old(order) && history == old(history) && predicted == old(predicted)
      ensures status == Escaped ==>
                && s != [] && Holds([]) && Decoding(d, s[1..], goal)
                && contexts == old(contexts) && slots == old(slots) && nextSymbol == old(nextSymbol)
      ensures status == Hit ==> d.Valid() && goal == Found(s, value, d.Place()) && FoundIn(s, value, symbol)
      ensures status == Ended ==> goal == End
      ensures status == NoSymbol ==> goal == Stuck
      ensures status == OffScale ==> goal == Derailed
    {
      hide Represents, SuffixLinks, Under, Insert, Sum, Ordered, Learned, Decode, ReadCode, Find, DecodeSymbol, Sound;
      hide Locates;
      ghost var c := ContextOf(contexts, s);
      ContextOfSound(contexts, s);
      HeaderAt(Memory(), slots, nextSymbol, contexts, s);
      symbol, value := 0, 0;
      var escapes, total := symbols[context].escapes, symbols[context].total;
      DecodeCases(contexts, s, d.Place());
      if context != 0 && (escapes <= 0 || escapes >= total) {
        return Escaped, symbol, value;
      }
      ghost var p := d.Place();
      TotalBounds(c, s == []);
      var code := d.Read(total);
      if code < escapes {
        d.DecodeShare(0, escapes, total, p);
        status := if context == 0 then Ended else Escaped;
      } else if context == 0 && code >= total {
        status := OffScale;
      } else {
        var found;
        found, symbol, value := DecodeShareIn(d, context, code, escapes, total, s, p);
        status := if found then Hit else NoSymbol;
      }
    }

    /** Takes the value whose share the code lies in, and decodes that share. */
    method DecodeShareIn(d: RangeDecoder, context: nat, code: nat, escapes: nat, total: nat, ghost s: Name,
                         ghost p: Position)
      returns (found: bool, symbol: nat, value: Byte)
      requires Holds([]) && s in slots && context == slots[s] && nextSymbol < SYMBOL_SLOTS
      requires Sound(ContextOf(contexts, s), s == [])
               && 0 < ContextOf(contexts, s).escapes < ContextOf(contexts, s).total
      requires escapes == ContextOf(contexts, s).escapes && total == ContextOf(contexts, s).total
      requires escapes <= code < 0x1_0000 && (s == [] ==> code < total)
      requires Ready(p.interval) && d.taken <= |d.input| && d.code < WORD
      requires p.interval.low == d.low && p.reader == Reader(d.code, d.input[d.taken..])
               && d.range == p.interval.range / total
      modifies this, symbols, d
      ensures order == old(order) && history == old(history) && predicted == old(predicted)
      ensures found <==> code < total
      ensures found ==>
                && Locates(old(ContextOf(contexts, s)), s == [], code)
                && value == Locate(old(ContextOf(contexts, s)), s == [], code)
                && d.Valid() && d.Place() == Decode(p, SymbolShare(old(ContextOf(contexts, s)), s == [], value))
                && FoundIn(s, value, symbol)
    {
      hide Represents, SuffixLinks, Under, Insert, Sum, Ordered, Learned, Decode, Find, Sound, Located, Locates;
      hide Count, Has, Locate;
      ghost var c, before := ContextOf(contexts, s), contexts;
      TotalBounds(c, s == []);
      LocatesIff(c, s == [], code);
      var under, count;
      found, symbol, value, under, count := ContextDecode(context, code - escapes, s);
      if found {
        LocateFinds(c, s == [], code);
        SoundCounts(c, s == [], value);
        d.DecodeShare(escapes + under, count, total, p);
        Adapt(context, count, s, value, before, []);
      }
    }

    /** Decodes in the contexts of the preceding bytes, longest first, until a value is found in one of them. */
    method FindSymbol(d: RangeDecoder, ghost goal: Walk)
      returns (status: Status, context: nat, symbol: nat, value: Byte, ghost stop: Name)
      requires Valid() && Decoding(d, history, goal)
      modifies this, symbols, d
      ensures order == old(order) && history == old(history) && predicted == old(predicted)
      ensures status == Hit ==>
                && d.Valid() && goal == Found(stop, value, d.Place()) && FoundIn(stop, value, symbol)
                && stop in slots && context == slots[stop] && IsSuffix(stop, history)
      ensures status == Ended ==> goal == End
      ensures status == NoSymbol ==> goal == Stuck
      ensures status == OffScale ==> goal == Derailed
      ensures status != Escaped
    {
      hide Represents, SuffixLinks, Learned, Sound, Decoding, ValidModel;
      context := predicted;
      stop := history;
      ValidSlots();
      RootSlot(Memory(), slots, nextSymbol, contexts, stop);
      while context != 0
        invariant Holds([]) && stop in slots && context == slots[stop] && (context == 0 <==> stop == [])
        invariant contexts == old(contexts) && slots == old(slots) && nextSymbol == old(nextSymbol)
        invariant order == old(order) && history == old(history) && predicted == old(predicted)
        invariant Decoding(d, stop, goal) && IsSuffix(stop, history)
        decreases |stop|
      {
        status, symbol, value := DecodeIn(d, context, stop, goal);
        if status != Escaped {
          return;
        }
        SuffixAt(Memory(), slots, nextSymbol, contexts, stop, []);
        SuffixTail(stop, history);
        RootSlot(Memory(), slots, nextSymbol, contexts, stop[1..]);
        context, stop := symbols[context].parent, stop[1..];
      }
      status, symbol, value := DecodeIn(d, context, stop, goal);
    }

    ghost method ValidSlots()
      requires Valid()
      ensures 1 <= nextSymbol < SYMBOL_SLOTS - SUBCONTEXT_ORDER
    {
    }

    // ---------------------------------------------------------------- patching

    /** The value v was found in the context stop, and the contexts longer than s have learned it since. */
    ghost predicate Patching(parent: ParentRef, s: Name, pending: Name, v: Byte, m: Model, stop: Name, plain: Contexts)
      reads this, symbols
    {
      && Holds(pending) && s in slots && stop in slots && stop + [v] in slots && Waiting(parent, pending, s, v)
      && Planned(contexts, plain, s, stop, v, m, nextSymbol)
      && history == m.history && order == |history| <= SUBCONTEXT_ORDER && |s| <= |history|
      && (if pending == [] then s == history && predicted == slots[history]
          else history + [v] in slots && predicted == slots[history + [v]])
    }

    /** One context learns a value that was found in a shorter one. */
    method PatchIn(context: nat, value: Byte, parent: ParentRef, ghost s: Name, ghost pending: Name,
                   ghost m: Model, ghost stop: Name, ghost plain: Contexts)
      returns (next: nat, symbol: nat)
      requires Patching(parent, s, pending, value, m, stop, plain) && s != stop && context == slots[s]
      modifies this, symbols
      ensures s != [] && Patching(ParentOf(symbol), s[1..], s + [value], value, m, stop, LearnAt(plain, s, value))
      ensures next == slots[s[1..]]
      ensures slots == WithSlot(old(slots), s + [value], old(nextSymbol))
    {
      hide Represents, SuffixLinks, Sound, Count, Learned, Under, Insert, Planned, Has;
      ghost var before := contexts;
      PlannedDown(contexts, plain, s, stop, value, m, nextSymbol);
      var under, count;
      symbol, under, count := Visit(context, value, parent, s, pending);
      Adapt(context, count, s, value, before, if Has(ContextOf(before, s).tree, value) then [] else s + [value]);
      LinksExcept(Memory(), slots, s + [value]);
      SuffixAt(Memory(), slots, nextSymbol, contexts, s, s + [value]);
      next := symbols[context].parent;
    }

    /** All of v is learned, starting from the model m; the next byte has its context. */
    ghost predicate HasLearned(v: Byte, m: Model, stop: Name)
      reads this, symbols
    {
      && Holds([]) && contexts == Learn(m.contexts, m.history, stop, v)
      && nextSymbol == m.slots + Created(m.contexts, m.history, stop, v)
      && history == m.history && order == |history|
      && history + [v] in slots && predicted == slots[history + [v]]
    }

    /** The contexts longer than the one where the value was found learn it as well, and get their suffix links. */
    method PatchContexts(subcontext: nat, bottom: nat, value: Byte, ghost m: Model, ghost stop: Name)
      requires Patching(Predicted, history, [], value, m, stop, m.contexts)
      requires subcontext == slots[stop] && bottom == slots[stop + [value]]
      modifies this, symbols
      ensures HasLearned(value, m, stop)
    {
      hide Represents, SuffixLinks, Planned;
      var patch, parent := predicted, Predicted;
      ghost var s, pending, plain := history, [], m.contexts;
      SlotsDiffer(Memory(), slots, nextSymbol, contexts, s, stop);
      while patch != subcontext
        invariant Patching(parent, s, pending, value, m, stop, plain)
        invariant patch == slots[s] && subcontext == slots[stop] && bottom == slots[stop + [value]]
        invariant patch == subcontext <==> s == stop
        decreases |s|
      {
        var symbol;
        patch, symbol := PatchIn(patch, value, parent, s, pending, m, stop, plain);
        parent := ParentOf(symbol);
        s, pending, plain := s[1..], s + [value], LearnAt(plain, s, value);
        SlotsDiffer(Memory(), slots, nextSymbol, contexts, s, stop);
      }
      PlannedDone(contexts, plain, stop, value, m, nextSymbol);
      LinkBottom(parent, bottom, pending, stop, value);
    }

    /** Links the waiting record to a known symbol. */
    method LinkBottom(parent: ParentRef, bottom: nat, ghost pending: Name, ghost s: Name, ghost v: Byte)
      requires Holds(pending) && Waiting(parent, pending, s, v) && s + [v] in slots && bottom == slots[s + [v]]
      modifies this`predicted, symbols
      ensures Holds([]) && predicted == if pending == [] then bottom else old(predicted)
    {
      hide Represents, Distinct;
      match parent {
        case Predicted => predicted := bottom;
        case ParentOf(p) =>
          SlotBounds(Memory(), slots, nextSymbol, contexts);
          Fits16(bottom);
          ParentRepresents(Memory(), slots, nextSymbol, contexts, p, bottom);
          Store(p, symbols[p].(parent := U16(bottom)));
      }
    }

    /** Decodes one byte, and lets all contexts learn it. */
    method DecodeByte(d: RangeDecoder) returns (status: Status, value: Byte, ghost stop: Name)
      requires Valid() && d.Valid()
      modifies this, symbols, d
      ensures var w := DecodeSymbol(old(contexts), old(history), old(d.Place()));
              && status != Escaped
              && (status == Hit ==>
                 d.Valid() && w == Found(stop, value, d.Place()) && HasLearned(value, old(CurrentModel()), stop))
              && (status == Ended ==> w == End) && (status == NoSymbol ==> w == Stuck)
              && (status == OffScale ==> w == Derailed)
    {
      hide Represents, SuffixLinks, ContextModel.Learned, Planned, DecodeSymbol, Sound, Learn, Created;
      ghost var m := CurrentModel();
      ghost var goal := DecodeSymbol(contexts, history, d.Place());
      var context, symbol;
      ValidSlots();
      status, context, symbol, value, stop := FindSymbol(d, goal);
      if status == Hit {
        PlannedFirst(contexts, m, stop, value, nextSymbol);
        assert history in slots;
        PatchContexts(context, symbol, value, m, stop);
      }
    }

    /**
      Decompresses the input.  Returns the number of bytes written to out, or 0 if
      they do not fit or a code has no symbol; derailed tells that the input left the
      scale of the root, which no output of Compress does.
     */
    method Decompress(input: seq<Byte>, out: array<Byte>, outLimit: nat) returns (n: nat, derailed: bool)
      requires symbols.Length == SYMBOL_SLOTS && outLimit <= out.Length
      modifies this, symbols, out
      ensures n <= outLimit
      ensures match Decompressed(input, outLimit)
              case Done(bytes) => !derailed && out[..n] == bytes
              case Failed => !derailed && n == 0
              case OutOfModel => derailed && n == 0
    {
      hide Represents, SuffixLinks, ContextModel.Learned, DecodeSymbol, ValidModel, Valid, Learn, Created, Restoring;
      if |input| <= 0 {
        EmptyInput(outLimit);
        return 0, false;
      }
      Reset();
      var d := new RangeDecoder(input);
      n := 0;
      ghost var bytes := [];
      StartRestoring(input, outLimit);
      while true
        invariant Valid() && d.Valid() && n <= outLimit && out[..n] == bytes
        invariant Restoring(CurrentModel(), d.Place(), bytes, input, outLimit)
        decreases outLimit - n
      {
        ghost var m, p := CurrentModel(), d.Place();
        var status, value, stop := DecodeByte(d);
        RestoreStep(m, p, bytes, input, outLimit);
        if status == Ended {
          return n, false;
        }
        if status == NoSymbol || (status == Hit && n >= outLimit) {
          return 0, false;
        }
        if status == OffScale {
          return 0, true;
        }
        out[n] := value;
        n, bytes := n + 1, bytes + [value];
        ReadyForNext(value, m, stop);
        NextInput(value);
        assert CurrentModel() == Next(m, stop, value);
      }
    }

    ghost method ReadyForNext(v: Byte, m: Model, stop: Name)
      requires HasLearned(v, m, stop) && ValidModel(m)
      ensures AllSound(contexts) && 1 <= nextSymbol && order == |history| <= SUBCONTEXT_ORDER
      ensures forall s :: s in contexts ==> |s| <= SUBCONTEXT_ORDER
    {
      hide Represents, SuffixLinks;
      LearnSound(m.contexts, m.history, stop, v);
    }
  }

  /** What is decoded so far, and what is still to come, make the result for the input. */
  ghost predicate Restoring(m: Model, p: Position, bytes: seq<Byte>, input: seq<Byte>, limit: nat) {
    && ValidModel(m) && Ready(p.interval) && |bytes| <= limit
    && DecodeAll(m, p, bytes, limit) == Decompressed(input, limit)
  }

  lemma StartRestoring(input: seq<Byte>, limit: nat)
    ensures Restoring(FRESH_MODEL, Position(FULL_INTERVAL, Load(input)), [], input, limit)
  {
  }

  lemma RestoreStep(m: Model, p: Position, bytes: seq<Byte>, input: seq<Byte>, limit: nat)
    requires Restoring(m, p, bytes, input, limit)
    ensures ValidModel(m) && Ready(p.interval)
    ensures match DecodeSymbol(m.contexts, m.history, p)
            case End => Decompressed(input, limit) == Done(bytes)
            case Stuck => Decompressed(input, limit) == Failed
            case Derailed => Decompressed(input, limit) == OutOfModel
            case Found(stop, v, q) =>
              if |bytes| >= limit then Decompressed(input, limit) == Failed
              else Restoring(Next(m, stop, v), q, bytes + [v], input, limit)
  {
    DecodeAllCases(m, p, bytes, limit);
  }

  lemma PlannedFirst(cs: Contexts, m: Model, stop: Name, v: Byte, next: nat)
    requires ValidModel(m) && IsSuffix(stop, m.history) && cs == LearnAt(m.contexts, stop, v)
    requires next == m.slots + if Count(ContextOf(m.contexts, stop).tree, v) > 0 then 0 else 1
    ensures Planned(cs, m.contexts, m.history, stop, v, m, next)
  {
    LearnStop(m.contexts, stop, v);
  }

  lemma EmptyInput(limit: nat)
    ensures Decompressed([], limit) == Done([])
  {
    assert Flush(0) == [];
    EndOfStream(map[], [], FULL_INTERVAL);
  }

  lemma DecodeAllCases(m: Model, p: Position, out: seq<Byte>, limit: nat)
    requires ValidModel(m) && Ready(p.interval) && |out| <= limit
    ensures var r := DecodeAll(m, p, out, limit);
            match DecodeSymbol(m.contexts, m.history, p)
            case End => r == Done(out)
            case Stuck => r == Failed
            case Derailed => r == OutOfModel
            case Found(stop, v, q) =>
              && Ready(q.interval) && ValidModel(Next(m, stop, v))
              && r == if |out| >= limit then Failed else DecodeAll(Next(m, stop, v), q, out + [v], limit)
  {
    match DecodeSymbol(m.contexts, m.history, p)
    case End =>
    case Stuck =>
    case Derailed =>
    case Found(stop, v, q) => NextValid(m, stop, v);
  }

  lemma SlotBounds(mem: seq<Symbol>, slots: Slots, next: nat, cs: Contexts)
    requires Represents(mem, slots, next, cs)
    ensures Distinct(slots) && forall r :: r in slots ==> slots[r] < |mem| <= SYMBOL_SLOTS
  {
  }

  lemma SlotsDiffer(mem: seq<Symbol>, slots: Slots, next: nat, cs: Contexts, s: Name, t: Name)
    requires Represents(mem, slots, next, cs) && s in slots && t in slots
    ensures slots[s] == slots[t] <==> s == t
  {
  }

  lemma PlannedDone(cs: Contexts, plain: Contexts, stop: Name, v: Byte, m: Model, next: nat)
    requires Planned(cs, plain, stop, stop, v, m, next)
    ensures cs == Learn(m.contexts, m.history, stop, v) && next == m.slots + Created(m.contexts, m.history, stop, v)
  {
    LearnStop(plain, stop, v);
  }

  /** The contexts cs are the contexts `plain`, and stop has learned v; so will s and what lies between. */
  ghost predicate Planned(cs: Contexts, plain: Contexts, s: Name, stop: Name, v: Byte, m: Model, next: nat) {
    && AllSound(plain) && (forall t :: t in plain ==> |t| <= SUBCONTEXT_ORDER) && |s| <= SUBCONTEXT_ORDER
    && cs == LearnAt(plain, stop, v) && IsSuffix(stop, s)
    && Learn(plain, s, stop, v) == Learn(m.contexts, m.history, stop, v)
    && next + Created(plain, s, stop, v) ==
       m.slots + Created(m.contexts, m.history, stop, v) + Created(plain, stop, stop, v)
    && 1 <= next <= m.slots + 1 + |m.history| - |s| && |m.history| <= SUBCONTEXT_ORDER
    && m.slots < SYMBOL_SLOTS - SUBCONTEXT_ORDER
  }

  lemma PlannedDown(cs: Contexts, plain: Contexts, s: Name, stop: Name, v: Byte, m: Model, next: nat)
    requires Planned(cs, plain, s, stop, v, m, next) && s != stop
    ensures s != [] && Sound(ContextOf(cs, s), false) && next < SYMBOL_SLOTS
    ensures Planned(LearnAt(cs, s, v), LearnAt(plain, s, v), s[1..], stop, v, m, NextAfter(ContextOf(cs, s), v, next))
    ensures Has(ContextOf(cs, s).tree, v) <==> Count(ContextOf(cs, s).tree, v) > 0
  {
    hide Sound, Learn, Created, Count, Learned, Has;
    var c := ContextOf(plain, s);
    ShorterSuffix(stop, s);
    LearnDown(plain, s, stop, v);
    LearnCommutes(plain, s, stop, v);
    LearnCommutes(plain, stop, s, v);
    ContextOfSound(plain, s);
    LearnedSound(c, false, v);
    SoundCounts(c, false, v);
    LearnStop(plain, stop, v);
    LearnStop(LearnAt(plain, s, v), stop, v);
  }

  lemma SoundCounts(c: Context, root: bool, v: Byte)
    requires Sound(c, root)
    ensures Has(c.tree, v) <==> Count(c.tree, v) > 0
  {
    HasIffCounted(c.tree, 0, 256, 0xFF - SymbolDelta(root), v);
  }

  lemma LinksExcept(mem: seq<Symbol>, slots: Slots, pending: Name)
    requires SuffixLinks(mem, slots, []) || SuffixLinks(mem, slots, pending)
    ensures SuffixLinks(mem, slots, pending)
  {
  }

  lemma SuffixTail(t: Name, s: Name)
    requires IsSuffix(t, s) && t != []
    ensures IsSuffix(t[1..], s)
  {
    assert s[|s| - |t[1..]|..] == s[|s| - |t|..][1..];
  }

  /** The outcomes of decoding in one context. */
  datatype Status = Escaped | Hit | Ended | NoSymbol | OffScale

  lemma TotalBounds(c: Context, root: bool)
    requires Sound(c, root) && (root || 0 < c.escapes < c.total)
    ensures 1 <= c.escapes < c.total <= MAX_TOTAL && Proper(EscapeShare(c))
    ensures !root ==> c.tree.Node?
  {
  }

  /** What decoding from the context of s gives, case by case. */
  lemma DecodeCases(cs: Contexts, s: Name, p: Position)
    requires AllSound(cs) && Ready(p.interval)
    ensures Sound(ContextOf(cs, s), s == [])
    ensures var c := ContextOf(cs, s);
            if s != [] && !(0 < c.escapes < c.total) then DecodeSymbol(cs, s, p) == DecodeSymbol(cs, s[1..], p)
            else
              && 0 < c.total <= MAX_TOTAL
              && var code := ReadCode(p, c.total);
              && (code < c.escapes && s == [] ==> DecodeSymbol(cs, s, p) == End)
              && (code < c.escapes && s != [] ==>
                    && Proper(EscapeShare(c))
                    && DecodeSymbol(cs, s, p) == DecodeSymbol(cs, s[1..], Decode(p, EscapeShare(c))))
              && (code >= c.escapes && code >= c.total ==>
                 DecodeSymbol(cs, s, p) == if s == [] then Derailed else Stuck)
              && (c.escapes <= code < c.total ==>
                    && Locates(c, s == [], code)
                    && 0 <= Find(c.tree, 0, code - c.escapes, s == []) < 256
                    && var v := Find(c.tree, 0, code - c.escapes, s == []);
                    && Proper(SymbolShare(c, s == [], v)) && (s == [] || Count(c.tree, v) > 0)
                    && DecodeSymbol(cs, s, p) == Found(s, v, Decode(p, SymbolShare(c, s == [], v))))
  {
    hide Decode, ReadCode, Find, Sum, Count, Under, Ordered;
    var c := ContextOf(cs, s);
    ContextOfSound(cs, s);
    if s == [] || 0 < c.escapes < c.total {
      var code := ReadCode(p, c.total);
      if s != [] {
        EscapeShareProper(c);
      }
      if c.escapes <= code < c.total {
        var v := Locate(c, s == [], code);
      }
    }
  }

  lemma LocateFinds(c: Context, root: bool, code: int)
    requires Sound(c, root) && c.escapes <= code < c.total
    ensures Locates(c, root, code) && Locate(c, root, code) == Find(c.tree, 0, code - c.escapes, root)
    ensures Proper(SymbolShare(c, root, Locate(c, root, code)))
    ensures root || Count(c.tree, Locate(c, root, code)) > 0
  {
  }

  lemma LocatesIff(c: Context, root: bool, code: int)
    requires Sound(c, root) && c.escapes <= code
    ensures Located(c.tree, code - c.escapes, root) <==> code < c.total
    ensures Locates(c, root, code) <==> code < c.total
    ensures root && code < c.total ==> code - c.escapes < Sum(c.tree) + 256
  {
  }

  function Flatten(buffers: seq<seq<Byte>>): seq<Byte> {
    if buffers == [] then [] else buffers[0] + Flatten(buffers[1..])
  }

  lemma FlattenCons(buffers: seq<seq<Byte>>)
    ensures Flatten(buffers) == if buffers == [] then [] else buffers[0] + Flatten(buffers[1..])
  {
  }

  /** The output so far and what the rest of the message will add to it are the stream of the message. */
  ghost predicate Pending(m: Model, i: Interval, output: seq<Byte>, message: seq<Byte>, rest: seq<Byte>) {
    ValidModel(m) && Ready(i) && Stream(message) == output + EncodeAll(i, AllShares(m, rest))
  }

  lemma StartPending(message: seq<Byte>)
    ensures Pending(FRESH_MODEL, FULL_INTERVAL, [], message, message)
  {
    hide EncodeAll, AllShares;
    assert [] + Stream(message) == Stream(message);
  }

  lemma PendingStep(m: Model, i: Interval, output: seq<Byte>, message: seq<Byte>, v: Byte, rest: seq<Byte>)
    requires Pending(m, i, output, message, [v] + rest)
    ensures ValidModel(m) && Ready(i)
    ensures var xs := Shares(m.contexts, m.history, v);
            && AllProper(xs)
            && Pending(After(m, v), IntervalAfter(i, xs), output + Emitted(i, xs), message, rest)
            && |output| + |Emitted(i, xs)| <= |Stream(message)|
  {
    hide Shares, Stop, EncodeAll, Emitted, IntervalAfter, AllProper, Stream, Next;
    SharesProper(m.contexts, m.history, v);
    NextValid(m, Stop(m.contexts, m.history, v), v);
    assert ([v] + rest)[1..] == rest;
    EncodeAllSplit(i, Shares(m.contexts, m.history, v), AllShares(After(m, v), rest));
  }

  lemma PendingEnd(m: Model, i: Interval, output: seq<Byte>, message: seq<Byte>)
    requires Pending(m, i, output, message, [])
    ensures Stream(message) == output + Flush(i.low)
  {
  }

  /** Coding v from the context s: its own shares, and then what the rest of the contexts code. */
  lemma CodeStep(cs: Contexts, s: Name, v: Byte, i: Interval)
    requires AllSound(cs) && Ready(i) && AllProper(Shares(cs, s, v))
    ensures var c := ContextOf(cs, s);
            var own := OwnShares(c, s == [], v);
            var xs := Shares(cs, s, v);
            var cs' := LearnAt(cs, s, v);
            && AllProper(own) && AllSound(cs')
            && |Emitted(i, own)| <= |Emitted(i, xs)|
            && if s == [] || Count(c.tree, v) > 0 then
                 && Stop(cs, s, v) == s && xs == own && Learn(cs, s, s, v) == cs'
                 && Created(cs, s, s, v) == if Count(c.tree, v) > 0 then 0 else 1
               else
                 && Stop(cs', s[1..], v) == Stop(cs, s, v)
                 && AllProper(Shares(cs', s[1..], v))
                 && Emitted(i, xs) == Emitted(i, own) + Emitted(IntervalAfter(i, own), Shares(cs', s[1..], v))
                 && IntervalAfter(i, xs) == IntervalAfter(IntervalAfter(i, own), Shares(cs', s[1..], v))
                 && Learn(cs, s, Stop(cs, s, v), v) == Learn(cs', s[1..], Stop(cs, s, v), v)
                 && Created(cs, s, Stop(cs, s, v), v) == 1 + Created(cs', s[1..], Stop(cs, s, v), v)
  {
    hide Shares, Learn, Created, Stop, Sound, Learned, OwnShares, Emitted, IntervalAfter, Proper;
    var c := ContextOf(cs, s);
    ContextOfSound(cs, s);
    LearnedSound(c, s == [], v);
    OwnSharesProper(c, s == [], v);
    if s == [] || Count(c.tree, v) > 0 {
      StepStop(cs, s, v);
    } else {
      StepDown(cs, s, v);
      SharesProper(LearnAt(cs, s, v), s[1..], v);
      EmittedSplit(i, OwnShares(c, false, v), Shares(LearnAt(cs, s, v), s[1..], v));
    }
  }

  lemma SuffixAt(mem: seq<Symbol>, slots: Slots, next: nat, cs: Contexts, r: Name, pending: Name)
    requires Represents(mem, slots, next, cs) && SuffixLinks(mem, slots, pending) && r in slots && r != []
             && r != pending
    ensures Placed(mem, slots, r) && r[1..] in slots && mem[slots[r]].parent == slots[r[1..]]
  {
  }

  /** The contexts when v was looked for in the context of s, before its header is updated. */
  ghost function Looked(cs: Contexts, s: Name, v: Byte): Contexts {
    cs[s := ContextOf(cs, s).(tree := Insert(ContextOf(cs, s).tree, v, SymbolDelta(s == [])))]
  }

  lemma Overwrite(cs: Contexts, s: Name, c: Context, c': Context)
    ensures ContextOf(cs[s := c], s) == c && cs[s := c][s := c'] == cs[s := c']
  {
  }

  lemma LeafFacts(v: Byte)
    ensures !Has(Leaf, v) && Under(Leaf, v) == 0 && Count(Leaf, v) == 0
  {
  }

  lemma HeaderAt(mem: seq<Symbol>, slots: Slots, next: nat, cs: Contexts, s: Name)
    requires Represents(mem, slots, next, cs) && s in slots
    ensures Placed(mem, slots, s)
    ensures mem[slots[s]].escapes == ContextOf(cs, s).escapes && mem[slots[s]].total == ContextOf(cs, s).total
  {
    hide NodeIn, TreeIn, AllIn, NamesKnown, AllNamed;
    ContextAt(mem, slots, next, cs, s);
  }

  lemma RootSlot(mem: seq<Symbol>, slots: Slots, next: nat, cs: Contexts, s: Name)
    requires Represents(mem, slots, next, cs) && s in slots
    ensures slots[s] == 0 <==> s == []
  {
    hide NodeIn, TreeIn, AllIn, NamesKnown, AllNamed;
  }

  /** One more symbol fits in all fields of a sound context. */
  lemma AdaptBounds(c: Context, root: bool, v: Byte)
    requires Sound(c, root)
    ensures c.escapes + SUBCONTEXT_ESCAPE_DELTA <= 0xFFFF && c.total + SUBCONTEXT_ESCAPE_DELTA + 3 <= 0xFFFF
    ensures var t := Insert(c.tree, v, SymbolDelta(root));
            && t.Node? && Sum(t) == Sum(c.tree) + SymbolDelta(root)
            && Sum(c.tree) + c.escapes + Extra(256, root) == c.total
  {
    InsertSum(c.tree, v, SymbolDelta(root));
  }

  /** The 16-bit sums of one step do not wrap around. */
  lemma SearchFits(t: Tree, cur: Tree, lo: int, hi: int, max: int, code: int, under: int, root: bool, v: int)
    requires cur.Node? && Ordered(cur, lo, hi, max) && Searching(t, cur, lo, hi, code, under, root, v) && 0 <= under
    ensures var sum := under + Sum(cur.left) + cur.count;
            && U16(sum + Extra(cur.value + 1, root)) == sum + Extra(cur.value + 1, root)
            && U16(sum) == sum
  {
  }
}
