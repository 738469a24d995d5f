/**
  The coder's array of symbol records, as a sequence, and how it represents the
  contexts of the model.

  A record is a node in the frequency tree of one context and at the same time
  carries the context of the string that the node completes.  Links are offsets
  from a record to a later one.  The representation is described by a map from
  the strings to their slots.
 */
module SymbolStore {
  import opened Words
  import opened FrequencyTree
  import opened ContextModel

  datatype Symbol = Symbol(
    value: nat, count: nat, under: nat, left: nat, right: nat,
    symbols: nat, escapes: nat, total: nat, parent: nat)

  function NewSymbol(value: nat, count: nat): Symbol {
    Symbol(value, U8(count), U16(count), 0, 0, 0, 0, 0, 0)
  }

  type Slots = map<Name, nat>

  function Prefix(r: Name): Name
    requires r != []
  {
    r[..|r| - 1]
  }

  function Last(r: Name): Byte
    requires r != []
  {
    r[|r| - 1]
  }

  // ---------------------------------------------------------------- one tree

  ghost predicate Linked(slots: Slots, s: Name, base: nat, offset: nat, t: Tree) {
    if t.Leaf? then offset == 0
    else offset > 0 && s + [t.value] in slots && slots[s + [t.value]] == base + offset
  }

  ghost predicate NodeIn(mem: seq<Symbol>, slots: Slots, s: Name, t: Tree)
    requires t.Node?
  {
    s + [t.value] in slots &&
    var n := slots[s + [t.value]];
    && n < |mem|
    && mem[n].value == t.value && mem[n].count == t.count && mem[n].under == Sum(t.left) + t.count
    && Linked(slots, s, n, mem[n].left, t.left)
    && Linked(slots, s, n, mem[n].right, t.right)
  }

  /** The memory holds the tree t of the context named s. */
  ghost predicate TreeIn(mem: seq<Symbol>, slots: Slots, s: Name, t: Tree) {
    t.Node? ==>
      && NodeIn(mem, slots, s, t)
      && TreeIn(mem, slots, s, t.left)
      && TreeIn(mem, slots, s, t.right)
  }

  ghost predicate SameNode(a: Symbol, b: Symbol) {
    a.value == b.value && a.count == b.count && a.under == b.under && a.left == b.left && a.right == b.right
  }

  ghost predicate SameHeader(a: Symbol, b: Symbol) {
    a.symbols == b.symbols && a.escapes == b.escapes && a.total == b.total
  }

  ghost predicate Extends(slots: Slots, slots': Slots) {
    forall r :: r in slots ==> r in slots' && slots'[r] == slots[r]
  }

  /** A slot that a name has, and that lies in the memory. */
  ghost predicate Placed(mem: seq<Symbol>, slots: Slots, r: Name) {
    r in slots && slots[r] < |mem|
  }

  /** The names s + [v] with v in [lo, hi). */
  ghost predicate Within(r: Name, s: Name, lo: int, hi: int) {
    r != [] && Prefix(r) == s && lo <= Last(r) < hi
  }

  lemma ChildWithin(s: Name, v: Byte, lo: int, hi: int)
    ensures Within(s + [v], s, lo, hi) <==> lo <= v < hi
  {
    assert Prefix(s + [v]) == s;
  }

  /** A tree stays where it is while the records of its interval do not change. */
  lemma {:induction false} TreeFrame(mem: seq<Symbol>, mem': seq<Symbol>, slots: Slots, slots': Slots,
                                     s: Name, t: Tree, lo: int, hi: int, max: int)
    requires TreeIn(mem, slots, s, t) && Ordered(t, lo, hi, max)
    requires |mem'| == |mem| && Extends(slots, slots')
    requires forall r :: Placed(mem, slots, r) && Within(r, s, lo, hi) ==> SameNode(mem'[slots[r]], mem[slots[r]])
    ensures TreeIn(mem', slots', s, t)
    decreases t
  {
    if t.Node? {
      ChildWithin(s, t.value, lo, hi);
      assert Placed(mem, slots, s + [t.value]);
      TreeFrame(mem, mem', slots, slots', s, t.left, lo, t.value, max);
      TreeFrame(mem, mem', slots, slots', s, t.right, t.value + 1, hi, max);
    }
  }

  ghost predicate Distinct(slots: Slots) {
    forall q, r :: q in slots && r in slots && slots[q] == slots[r] ==> q == r
  }

  ghost predicate Below(slots: Slots, next: nat) {
    forall r :: r in slots ==> slots[r] < next
  }

  // ---------------------------------------------------------------- inserting in place

  /** All nodes of the tree have slots in a memory of the given size. */
  ghost predicate Named(slots: Slots, s: Name, t: Tree, size: nat) {
    t.Node? ==>
      && s + [t.value] in slots && slots[s + [t.value]] < size
      && Named(slots, s, t.left, size) && Named(slots, s, t.right, size)
  }

  /** The memory after the walk to v from the node of t: counters on the way are raised, a missing node is made. */
  ghost function InsertIn(mem: seq<Symbol>, slots: Slots, s: Name, t: Tree, v: Byte, d: nat,
                          next: nat): (mem': seq<Symbol>)
    requires t.Node? && Named(slots, s, t, |mem|) && next < |mem|
    ensures |mem'| == |mem|
    decreases t
  {
    var n := slots[s + [t.value]];
    if v < t.value then
      var mem1 := mem[n := mem[n].(under := U16(mem[n].under + d))];
      if t.left.Node? then InsertIn(mem1, slots, s, t.left, v, d, next)
      else
        var mem2 := mem1[next := NewSymbol(v, d)];
        mem2[n := mem2[n].(left := U16(next - n))]
    else if v > t.value then
      if t.right.Node? then InsertIn(mem, slots, s, t.right, v, d, next)
      else
        var mem1 := mem[next := NewSymbol(v, d)];
        mem1[n := mem1[n].(right := U16(next - n))]
    else
      mem[n := mem[n].(under := U16(mem[n].under + d), count := U8(mem[n].count + d))]
  }

  lemma {:induction false} TreeInNamed(mem: seq<Symbol>, slots: Slots, s: Name, t: Tree)
    requires TreeIn(mem, slots, s, t)
    ensures Named(slots, s, t, |mem|)
  {
    if t.Node? {
      TreeInNamed(mem, slots, s, t.left);
      TreeInNamed(mem, slots, s, t.right);
    }
  }

  ghost function WithSlot(slots: Slots, r: Name, next: nat): Slots {
    if r in slots then slots else slots[r := next]
  }

  /** Only counts and links of records in the interval change, and no context parts do. */
  ghost predicate ChangedWithin(mem: seq<Symbol>, mem': seq<Symbol>, slots: Slots, s: Name, lo: int, hi: int) {
    && |mem'| == |mem|
    && (forall r :: Placed(mem, slots, r) && !Within(r, s, lo, hi) ==> mem'[slots[r]] == mem[slots[r]])
    && (forall r :: Placed(mem, slots, r) ==> SameHeader(mem'[slots[r]], mem[slots[r]]))
    && (forall r :: Placed(mem, slots, r) ==> mem'[slots[r]].parent == mem[slots[r]].parent)
  }

  /** What inserting into the tree t of s needs of the memory. */
  ghost predicate CanWalk(mem: seq<Symbol>, slots: Slots, s: Name, t: Tree, lo: int, hi: int, d: nat, next: nat) {
    && t.Node? && TreeIn(mem, slots, s, t) && Named(slots, s, t, |mem|)
    && Ordered(t, lo, hi, 0xFF - d) && 1 <= d
    && Sum(t) + d <= 0xFFFF
    && Distinct(slots) && Below(slots, next) && next < |mem| <= SYMBOL_SLOTS
  }

  /** The same for one value: it belongs to the interval of the tree, and has a name just if it occurs. */
  ghost predicate CanInsert(mem: seq<Symbol>, slots: Slots, s: Name, t: Tree, lo: int, hi: int, v: Byte, d: nat,
                            next: nat) {
    && CanWalk(mem, slots, s, t, lo, hi, d, next)
    && lo <= v < hi && (s + [v] in slots <==> Has(t, v))
  }

  lemma {:induction false} InsertChanges(mem: seq<Symbol>, slots: Slots, s: Name, t: Tree, lo: int, hi: int,
                                         v: Byte, d: nat, next: nat)
    requires CanInsert(mem, slots, s, t, lo, hi, v, d, next)
    ensures var mem' := InsertIn(mem, slots, s, t, v, d, next);
            && ChangedWithin(mem, mem', slots, s, lo, hi)
            && (!Has(t, v) ==> mem'[next] == NewSymbol(v, d))
    decreases t
  {
    hide NodeIn, Linked;
    var n := slots[s + [t.value]];
    ChildWithin(s, t.value, lo, hi);
    HasBelow(t, lo, hi, 0xFF - d, v);
    if v < t.value && t.left.Node? {
      DownLeft(mem, slots, s, t, lo, hi, v, d, next);
      var mem1 := mem[n := mem[n].(under := U16(mem[n].under + d))];
      InsertChanges(mem1, slots, s, t.left, lo, t.value, v, d, next);
    } else if v > t.value && t.right.Node? {
      InsertChanges(mem, slots, s, t.right, t.value + 1, hi, v, d, next);
    }
  }

  /** Raising the count of the root's record leaves the left subtree ready for inserting. */
  lemma DownLeft(mem: seq<Symbol>, slots: Slots, s: Name, t: Tree, lo: int, hi: int, v: Byte, d: nat, next: nat)
    requires CanInsert(mem, slots, s, t, lo, hi, v, d, next) && v < t.value && t.left.Node?
    ensures var n := slots[s + [t.value]];
            CanInsert(mem[n := mem[n].(under := U16(mem[n].under + d))], slots, s, t.left, lo, t.value, v, d, next)
  {
    hide NodeIn, Linked;
    var n := slots[s + [t.value]];
    var mem1 := mem[n := mem[n].(under := U16(mem[n].under + d))];
    ChildWithin(s, t.value, lo, t.value);
    TreeFrame(mem, mem1, slots, slots, s, t.left, lo, t.value, 0xFF - d);
    TreeInNamed(mem1, slots, s, t.left);
    HasBelow(t, lo, hi, 0xFF - d, v);
  }

  /** Inserting in place builds the tree that inserting builds as a value. */
  lemma {:induction false} InsertInPlace(mem: seq<Symbol>, slots: Slots, s: Name, t: Tree, lo: int, hi: int,
                                         v: Byte, d: nat, next: nat)
    requires CanInsert(mem, slots, s, t, lo, hi, v, d, next)
    ensures TreeIn(InsertIn(mem, slots, s, t, v, d, next), WithSlot(slots, s + [v], next), s, Insert(t, v, d))
    decreases t, 1
  {
    if v < t.value {
      if t.left.Node? {
        InsertDownLeft(mem, slots, s, t, lo, hi, v, d, next);
      } else {
        InsertAtLeft(mem, slots, s, t, lo, hi, v, d, next);
      }
    } else if v > t.value {
      if t.right.Node? {
        InsertDownRight(mem, slots, s, t, lo, hi, v, d, next);
      } else {
        InsertAtRight(mem, slots, s, t, lo, hi, v, d, next);
      }
    } else {
      InsertHere(mem, slots, s, t, lo, hi, d, next);
    }
  }

  lemma InsertHere(mem: seq<Symbol>, slots: Slots, s: Name, t: Tree, lo: int, hi: int, d: nat, next: nat)
    requires t.Node? && CanInsert(mem, slots, s, t, lo, hi, t.value, d, next)
    ensures TreeIn(InsertIn(mem, slots, s, t, t.value, d, next), WithSlot(slots, s + [t.value], next),
                   s, Insert(t, t.value, d))
  {
    hide Ordered;
    var mem' := InsertIn(mem, slots, s, t, t.value, d, next);
    OrderedParts(t, lo, hi, 0xFF - d);
    SubtreeStays(mem, mem', slots, slots, s, t.left, lo, t.value, 0xFF - d, t.value, next);
    SubtreeStays(mem, mem', slots, slots, s, t.right, t.value + 1, hi, 0xFF - d, t.value, next);
  }

  /** A subtree stays where it is while only its parent's record and the next free one change. */
  lemma SubtreeStays(mem: seq<Symbol>, mem': seq<Symbol>, slots: Slots, slots': Slots, s: Name,
                     u: Tree, lo: int, hi: int, max: int, x: Byte, next: nat)
    requires TreeIn(mem, slots, s, u) && Ordered(u, lo, hi, max) && |mem'| == |mem|
    requires Extends(slots, slots') && Distinct(slots) && Below(slots, next)
    requires s + [x] in slots && !(lo <= x < hi)
    requires forall i :: 0 <= i < |mem| && i != slots[s + [x]] && i != next ==> mem'[i] == mem[i]
    ensures TreeIn(mem', slots', s, u)
  {
    hide TreeIn, Ordered;
    ChildWithin(s, x, lo, hi);
    TreeFrame(mem, mem', slots, slots', s, u, lo, hi, max);
  }

  lemma NewNodeIn(mem: seq<Symbol>, slots: Slots, s: Name, v: Byte, d: nat)
    requires Placed(mem, slots, s + [v]) && mem[slots[s + [v]]] == NewSymbol(v, d) && d <= 0xFF
    ensures TreeIn(mem, slots, s, Node(v, d, Leaf, Leaf))
  {
  }

  lemma {:induction t} InsertSum(t: Tree, v: Byte, d: nat)
    ensures Sum(Insert(t, v, d)) == Sum(t) + d
  {
  }

  lemma InsertAtLeft(mem: seq<Symbol>, slots: Slots, s: Name, t: Tree, lo: int, hi: int, v: Byte, d: nat, next: nat)
    requires CanInsert(mem, slots, s, t, lo, hi, v, d, next) && v < t.value && t.left.Leaf?
    ensures TreeIn(InsertIn(mem, slots, s, t, v, d, next), WithSlot(slots, s + [v], next), s, Insert(t, v, d))
  {
    hide Ordered;
    var mem' := InsertIn(mem, slots, s, t, v, d, next);
    HasBelow(t, lo, hi, 0xFF - d, v);
    var slots' := slots[s + [v] := next];
    OrderedParts(t, lo, hi, 0xFF - d);
    SubtreeStays(mem, mem', slots, slots', s, t.right, t.value + 1, hi, 0xFF - d, t.value, next);
    NewNodeIn(mem', slots', s, v, d);
  }

  lemma InsertAtRight(mem: seq<Symbol>, slots: Slots, s: Name, t: Tree, lo: int, hi: int, v: Byte, d: nat, next: nat)
    requires CanInsert(mem, slots, s, t, lo, hi, v, d, next) && v > t.value && t.right.Leaf?
    ensures TreeIn(InsertIn(mem, slots, s, t, v, d, next), WithSlot(slots, s + [v], next), s, Insert(t, v, d))
  {
    hide Ordered;
    var mem' := InsertIn(mem, slots, s, t, v, d, next);
    HasBelow(t, lo, hi, 0xFF - d, v);
    var slots' := slots[s + [v] := next];
    OrderedParts(t, lo, hi, 0xFF - d);
    SubtreeStays(mem, mem', slots, slots', s, t.left, lo, t.value, 0xFF - d, t.value, next);
    NewNodeIn(mem', slots', s, v, d);
  }

  ghost predicate SameRoot(t: Tree, u: Tree) {
    if t.Leaf? then u.Leaf? else u.Node? && u.value == t.value
  }

  /** A record still holds the root of a tree whose subtrees changed below their own roots. */
  lemma RootStays(mem: seq<Symbol>, mem': seq<Symbol>, slots: Slots, slots': Slots, s: Name, t: Tree, t': Tree)
    requires t.Node? && t'.Node? && NodeIn(mem, slots, s, t) && Extends(slots, slots')
    requires t'.value == t.value && t'.count == t.count && SameRoot(t.left, t'.left) && SameRoot(t.right, t'.right)
    requires var n := slots[s + [t.value]];
             && n < |mem'| && SameNode(mem'[n].(under := 0), mem[n].(under := 0))
             && mem'[n].under - mem[n].under == Sum(t'.left) - Sum(t.left)
    ensures NodeIn(mem', slots', s, t')
  {
  }

  lemma RootUnder(mem: seq<Symbol>, slots: Slots, s: Name, t: Tree)
    requires t.Node? && NodeIn(mem, slots, s, t)
    ensures mem[slots[s + [t.value]]].under <= Sum(t)
  {
  }

  lemma InsertDownLeft(mem: seq<Symbol>, slots: Slots, s: Name, t: Tree, lo: int, hi: int, v: Byte, d: nat, next: nat)
    requires CanInsert(mem, slots, s, t, lo, hi, v, d, next) && v < t.value && t.left.Node?
    ensures TreeIn(InsertIn(mem, slots, s, t, v, d, next), WithSlot(slots, s + [v], next), s, Insert(t, v, d))
    decreases t, 0
  {
    hide NodeIn, Linked, Ordered, Has;
    OrderedParts(t, lo, hi, 0xFF - d);
    var n := slots[s + [t.value]];
    var mem1 := mem[n := mem[n].(under := U16(mem[n].under + d))];
    ChildWithin(s, t.value, lo, hi);
    ChildWithin(s, t.value, lo, t.value);
    ChildWithin(s, t.value, t.value + 1, hi);
    DownLeft(mem, slots, s, t, lo, hi, v, d, next);
    HasBelow(t, lo, hi, 0xFF - d, v);
    InsertChanges(mem1, slots, s, t.left, lo, t.value, v, d, next);
    InsertInPlace(mem1, slots, s, t.left, lo, t.value, v, d, next);
    var mem' := InsertIn(mem1, slots, s, t.left, v, d, next);
    var slots' := WithSlot(slots, s + [v], next);
    TreeFrame(mem, mem', slots, slots', s, t.right, t.value + 1, hi, 0xFF - d);
    InsertSum(t.left, v, d);
    RootUnder(mem, slots, s, t);
    RootStays(mem, mem', slots, slots', s, t, Insert(t, v, d));
  }

  lemma InsertDownRight(mem: seq<Symbol>, slots: Slots, s: Name, t: Tree, lo: int, hi: int, v: Byte, d: nat, next: nat)
    requires CanInsert(mem, slots, s, t, lo, hi, v, d, next) && v > t.value && t.right.Node?
    ensures TreeIn(InsertIn(mem, slots, s, t, v, d, next), WithSlot(slots, s + [v], next), s, Insert(t, v, d))
    decreases t, 0
  {
    hide NodeIn, Linked, Ordered;
    OrderedParts(t, lo, hi, 0xFF - d);
    var n := slots[s + [t.value]];
    var mem1 := mem;
    ChildWithin(s, t.value, lo, hi);
    ChildWithin(s, t.value, t.value + 1, hi);
    ChildWithin(s, t.value, lo, t.value);
    HasBelow(t, lo, hi, 0xFF - d, v);
    InsertChanges(mem1, slots, s, t.right, t.value + 1, hi, v, d, next);
    InsertInPlace(mem1, slots, s, t.right, t.value + 1, hi, v, d, next);
    var mem' := InsertIn(mem1, slots, s, t.right, v, d, next);
    var slots' := WithSlot(slots, s + [v], next);
    TreeFrame(mem, mem', slots, slots', s, t.left, lo, t.value, 0xFF - d);
    RootStays(mem, mem', slots, slots', s, t, Insert(t, v, d));
  }

  // ---------------------------------------------------------------- rescaling in place

  /** Halves the count of a record, for now as if it had no left subtree. */
  function HalveRecord(mem: seq<Symbol>, n: nat): seq<Symbol>
    requires n < |mem|
  {
    var count := U8(mem[n].count - mem[n].count / 2);
    mem[n := mem[n].(count := count, under := count)]
  }

  /** Adds the total of the left subtree. */
  function Complete(mem: seq<Symbol>, n: nat, leftTotal: nat): seq<Symbol>
    requires n < |mem|
  {
    mem[n := mem[n].(under := U16(mem[n].under + leftTotal))]
  }

  /** The memory after rescaling the tree t: the root's count, the left subtree, the root's `under`, the right one. */
  ghost function HalveIn(mem: seq<Symbol>, slots: Slots, s: Name, t: Tree): (mem': seq<Symbol>)
    requires Named(slots, s, t, |mem|)
    ensures |mem'| == |mem|
    decreases t
  {
    if t.Leaf? then mem else HalveIn(HalveLeft(mem, slots, s, t), slots, s, t.right)
  }

  /** The same for everything but the right subtree. */
  ghost function HalveLeft(mem: seq<Symbol>, slots: Slots, s: Name, t: Tree): (mem': seq<Symbol>)
    requires t.Node? && Named(slots, s, t, |mem|)
    ensures |mem'| == |mem|
    decreases t, 0
  {
    var n := slots[s + [t.value]];
    Complete(HalveIn(HalveRecord(mem, n), slots, s, t.left), n, Sum(Halve(t.left)))
  }

  ghost predicate CanHalve(mem: seq<Symbol>, slots: Slots, s: Name, t: Tree, lo: int, hi: int) {
    && TreeIn(mem, slots, s, t) && Named(slots, s, t, |mem|)
    && Ordered(t, lo, hi, 0xFF) && Sum(t) <= 0xFFFF && Distinct(slots)
  }

  ghost predicate Halved(mem: seq<Symbol>, mem': seq<Symbol>, slots: Slots, s: Name, t: Tree, lo: int, hi: int) {
    TreeIn(mem', slots, s, Halve(t)) && ChangedWithin(mem, mem', slots, s, lo, hi)
  }

  /** Rescaling in place builds the tree with halved counts. */
  lemma {:induction false} HalveInPlace(mem: seq<Symbol>, slots: Slots, s: Name, t: Tree, lo: int, hi: int)
    requires CanHalve(mem, slots, s, t, lo, hi)
    ensures Halved(mem, HalveIn(mem, slots, s, t), slots, s, t, lo, hi)
    decreases t, 1
  {
    if t.Node? {
      HalveLeftInPlace(mem, slots, s, t, lo, hi);
      var mem1 := HalveLeft(mem, slots, s, t);
      HalveInPlace(mem1, slots, s, t.right, t.value + 1, hi);
      var mem2 := HalveIn(mem, slots, s, t);
      HalveJoin(mem, mem1, mem2, slots, s, t, lo, hi);
    }
  }

  lemma {:induction false} HalveSum(t: Tree, lo: int, hi: int)
    requires Ordered(t, lo, hi, 0xFF)
    ensures Sum(Halve(t)) <= Sum(t) && Ordered(Halve(t), lo, hi, 0xFF)
  {
    HalveCounts(t, lo, hi, 0xFF);
    Widen(Halve(t), lo, hi, 0xFF - 0xFF / 2, 0xFF);
    HalveSmaller(t);
  }

  lemma {:induction t} HalveSmaller(t: Tree)
    ensures Sum(Halve(t)) <= Sum(t)
  {
  }

  lemma HalveJoin(mem: seq<Symbol>, mem1: seq<Symbol>, mem2: seq<Symbol>, slots: Slots, s: Name, t: Tree, lo: int,
                  hi: int)
    requires t.Node? && CanHalve(mem, slots, s, t, lo, hi)
    requires TreeIn(mem1, slots, s, Halve(t.left)) && NodeIn(mem1, slots, s, Halve(t))
    requires ChangedWithin(mem, mem1, slots, s, lo, t.value + 1)
    requires TreeIn(mem2, slots, s, Halve(t.right)) && ChangedWithin(mem1, mem2, slots, s, t.value + 1, hi)
    ensures Halved(mem, mem2, slots, s, t, lo, hi)
  {
    ChildWithin(s, t.value, t.value + 1, hi);
    HalveSum(t.left, lo, t.value);
    TreeFrame(mem1, mem2, slots, slots, s, Halve(t.left), lo, t.value, 0xFF);
  }

  lemma HalveLeftInPlace(mem: seq<Symbol>, slots: Slots, s: Name, t: Tree, lo: int, hi: int)
    requires t.Node? && CanHalve(mem, slots, s, t, lo, hi)
    ensures var mem' := HalveLeft(mem, slots, s, t);
            && TreeIn(mem', slots, s, Halve(t.left)) && NodeIn(mem', slots, s, Halve(t))
            && ChangedWithin(mem, mem', slots, s, lo, t.value + 1)
            && CanHalve(mem', slots, s, t.right, t.value + 1, hi)
    decreases t, 0
  {
    hide NodeIn, Linked, Halve, Sum, Ordered, Within;
    var n := slots[s + [t.value]];
    HalveDown(mem, slots, s, t, lo, hi);
    HalveInPlace(HalveRecord(mem, n), slots, s, t.left, lo, t.value);
    var mem2 := HalveIn(HalveRecord(mem, n), slots, s, t.left);
    HalveUpRecord(mem, mem2, slots, s, t, lo, hi);
    HalveUpLeft(mem, mem2, slots, s, t, lo, hi);
    HalveUpRight(mem, HalveLeft(mem, slots, s, t), slots, s, t, lo, hi);
  }

  /** With the root's count halved, the left subtree is ready for rescaling. */
  lemma HalveDown(mem: seq<Symbol>, slots: Slots, s: Name, t: Tree, lo: int, hi: int)
    requires t.Node? && CanHalve(mem, slots, s, t, lo, hi)
    ensures CanHalve(HalveRecord(mem, slots[s + [t.value]]), slots, s, t.left, lo, t.value)
  {
    hide NodeIn, Linked;
    ChildWithin(s, t.value, lo, t.value);
    TreeFrame(mem, HalveRecord(mem, slots[s + [t.value]]), slots, slots, s, t.left, lo, t.value, 0xFF);
  }

  /** With the left subtree rescaled, the root's record is completed. */
  lemma HalveUpRecord(mem: seq<Symbol>, mem2: seq<Symbol>, slots: Slots, s: Name, t: Tree, lo: int, hi: int)
    requires t.Node? && CanHalve(mem, slots, s, t, lo, hi)
    requires ChangedWithin(HalveRecord(mem, slots[s + [t.value]]), mem2, slots, s, lo, t.value)
    ensures var mem3 := Complete(mem2, slots[s + [t.value]], Sum(Halve(t.left)));
            NodeIn(mem3, slots, s, Halve(t)) && ChangedWithin(mem, mem3, slots, s, lo, t.value + 1)
  {
    var n := slots[s + [t.value]];
    var mem3 := Complete(mem2, n, Sum(Halve(t.left)));
    ChildWithin(s, t.value, lo, t.value);
    assert mem2[n] == HalveRecord(mem, n)[n];
    HalveSum(t.left, lo, t.value);
    HalveUpRoot(mem, mem3, slots, s, t);
    assert ChangedWithin(mem, mem3, slots, s, lo, t.value + 1) by {
      hide NodeIn, Linked, Halve, Ordered, Sum;
      ChildWithin(s, t.value, lo, t.value + 1);
    }
  }

  lemma HalveUpRoot(mem: seq<Symbol>, mem3: seq<Symbol>, slots: Slots, s: Name, t: Tree)
    requires t.Node? && NodeIn(mem, slots, s, t) && t.count <= 0xFF && Sum(t) <= 0xFFFF
    requires Sum(Halve(t.left)) <= Sum(t.left) && |mem3| == |mem|
    requires var n := slots[s + [t.value]];
             mem3[n] == Complete(HalveRecord(mem, n), n, Sum(Halve(t.left)))[n]
    ensures NodeIn(mem3, slots, s, Halve(t))
  {
  }

  lemma HalveUpLeft(mem: seq<Symbol>, mem2: seq<Symbol>, slots: Slots, s: Name, t: Tree, lo: int, hi: int)
    requires t.Node? && CanHalve(mem, slots, s, t, lo, hi) && |mem2| == |mem|
    requires TreeIn(mem2, slots, s, Halve(t.left))
    ensures TreeIn(Complete(mem2, slots[s + [t.value]], Sum(Halve(t.left))), slots, s, Halve(t.left))
  {
    hide NodeIn, Linked;
    HalveSum(t.left, lo, t.value);
    ChildWithin(s, t.value, lo, t.value);
    TreeFrame(mem2, Complete(mem2, slots[s + [t.value]], Sum(Halve(t.left))), slots, slots,
              s, Halve(t.left), lo, t.value, 0xFF);
  }

  lemma HalveUpRight(mem: seq<Symbol>, mem3: seq<Symbol>, slots: Slots, s: Name, t: Tree, lo: int, hi: int)
    requires t.Node? && CanHalve(mem, slots, s, t, lo, hi)
    requires ChangedWithin(mem, mem3, slots, s, lo, t.value + 1)
    ensures CanHalve(mem3, slots, s, t.right, t.value + 1, hi)
  {
    hide NodeIn, Linked;
    TreeFrame(mem, mem3, slots, slots, s, t.right, t.value + 1, hi, 0xFF);
  }

  // ---------------------------------------------------------------- all contexts

  /** The record of s, and the tree it links to, hold the context c. */
  ghost predicate ContextIn(mem: seq<Symbol>, slots: Slots, s: Name, c: Context) {
    && Placed(mem, slots, s)
    && mem[slots[s]].escapes == c.escapes && mem[slots[s]].total == c.total
    && Linked(slots, s, slots[s], mem[slots[s]].symbols, c.tree)
    && TreeIn(mem, slots, s, c.tree)
  }

  /**
    The first `next` records hold exactly the contexts cs: the root at slot 0, and
    one record for each string s + [v] such that v occurs in the context of s.
   */
  ghost predicate Represents(mem: seq<Symbol>, slots: Slots, next: nat, cs: Contexts) {
    && next <= |mem| <= SYMBOL_SLOTS
    && RootFirst(slots) && Distinct(slots) && Below(slots, next)
    && AllIn(mem, slots, cs) && NamesKnown(slots, cs) && AllNamed(slots, cs)
  }

  ghost predicate RootFirst(slots: Slots) {
    [] in slots && slots[[]] == 0
  }

  ghost predicate AllIn(mem: seq<Symbol>, slots: Slots, cs: Contexts) {
    forall r :: r in slots ==> ContextIn(mem, slots, r, ContextOf(cs, r))
  }

  /** Only symbols that occur have records. */
  ghost predicate NamesKnown(slots: Slots, cs: Contexts) {
    forall r :: r in slots && r != [] ==> Prefix(r) in slots && Has(ContextOf(cs, Prefix(r)).tree, Last(r))
  }

  ghost predicate AllNamed(slots: Slots, cs: Contexts) {
    forall r :: r in cs ==> r in slots && Ordered(cs[r].tree, 0, 256, 0xFF)
  }

  /** Every record but the pending one leads to the record of its string without the first byte. */
  ghost predicate SuffixLinks(mem: seq<Symbol>, slots: Slots, pending: Name) {
    forall r :: r in slots && r != [] && r != pending ==>
      r[1..] in slots && slots[r] < |mem| && mem[slots[r]].parent == slots[r[1..]]
  }

  /** Only the context of s changes: its header, and the nodes of its tree. */
  ghost predicate ChangedOnlyAt(mem: seq<Symbol>, mem': seq<Symbol>, slots: Slots, s: Name) {
    && |mem'| == |mem|
    && forall r :: Placed(mem, slots, r) ==>
         && (r != s ==> SameHeader(mem'[slots[r]], mem[slots[r]]))
         && (!Within(r, s, 0, 256) ==> SameNode(mem'[slots[r]], mem[slots[r]]))
  }

  lemma ContextKept(mem: seq<Symbol>, mem': seq<Symbol>, slots: Slots, slots': Slots, s: Name, r: Name, c: Context)
    requires ContextIn(mem, slots, r, c) && Ordered(c.tree, 0, 256, 0xFF) && r != s
    requires ChangedOnlyAt(mem, mem', slots, s) && Extends(slots, slots')
    ensures ContextIn(mem', slots', r, c)
  {
    hide NodeIn, TreeIn, Ordered;
    TreeFrame(mem, mem', slots, slots', r, c.tree, 0, 256, 0xFF);
  }

  /** New names are those of s followed by a byte of its new tree, and they have empty contexts. */
  ghost predicate NewNames(mem': seq<Symbol>, slots: Slots, slots': Slots, s: Name, c': Context) {
    forall r :: r in slots' && r !in slots ==>
      r != [] && Prefix(r) == s && Has(c'.tree, Last(r)) && ContextIn(mem', slots', r, EmptyContext(false))
  }

  lemma ContextReplaced(mem: seq<Symbol>, mem': seq<Symbol>, slots: Slots, slots': Slots, next: nat, next': nat,
                        cs: Contexts, s: Name, c': Context)
    requires Represents(mem, slots, next, cs) && s in slots
    requires ChangedOnlyAt(mem, mem', slots, s) && NewNames(mem', slots, slots', s, c')
    requires Extends(slots, slots') && Distinct(slots') && Below(slots', next') && next' <= |mem'| == |mem|
    requires ContextIn(mem', slots', s, c') && Ordered(c'.tree, 0, 256, 0xFF)
    requires forall u :: Has(ContextOf(cs, s).tree, u) ==> Has(c'.tree, u)
    ensures Represents(mem', slots', next', cs[s := c'])
  {
    hide NodeIn, TreeIn, Ordered, Linked, ChangedOnlyAt, Has, ContextIn, Placed, NamesKnown, AllIn, NewNames;
    NamesKnownReplaced(mem', slots, slots', cs, s, c');
    AllInReplaced(mem, mem', slots, slots', next, cs, s, c');
  }

  lemma NamesKnownReplaced(mem': seq<Symbol>, slots: Slots, slots': Slots, cs: Contexts, s: Name, c': Context)
    requires NamesKnown(slots, cs) && s in slots && Extends(slots, slots') && NewNames(mem', slots, slots', s, c')
    requires forall u :: Has(ContextOf(cs, s).tree, u) ==> Has(c'.tree, u)
    ensures NamesKnown(slots', cs[s := c'])
  {
    hide NodeIn, TreeIn, Ordered, Linked, Has, ContextIn, Placed;
  }

  lemma AllInReplaced(mem: seq<Symbol>, mem': seq<Symbol>, slots: Slots, slots': Slots, next: nat,
                      cs: Contexts, s: Name, c': Context)
    requires Represents(mem, slots, next, cs)
    requires ChangedOnlyAt(mem, mem', slots, s) && NewNames(mem', slots, slots', s, c')
    requires Extends(slots, slots') && ContextIn(mem', slots', s, c')
    ensures AllIn(mem', slots', cs[s := c'])
  {
    hide NodeIn, TreeIn, Ordered, Linked, ChangedOnlyAt, Has, ContextIn, Placed, NamesKnown;
    var cs' := cs[s := c'];
    forall r | r in slots'
      ensures ContextIn(mem', slots', r, ContextOf(cs', r))
    {
      if r in slots && r != s {
        OrderedContext(mem, slots, next, cs, r);
        ContextKept(mem, mem', slots, slots', s, r, ContextOf(cs, r));
      } else if r !in slots {
        assert r !in cs;
      }
    }
  }

  lemma OrderedContext(mem: seq<Symbol>, slots: Slots, next: nat, cs: Contexts, r: Name)
    requires Represents(mem, slots, next, cs)
    ensures Ordered(ContextOf(cs, r).tree, 0, 256, 0xFF)
  {
  }

  // ---------------------------------------------------------------- steps on the whole memory

  /** The memory after looking for v in the context of s, whose tree is t. */
  ghost function InsertSymbol(mem: seq<Symbol>, slots: Slots, s: Name, t: Tree, v: Byte, d: nat,
                              next: nat): (mem': seq<Symbol>)
    requires Placed(mem, slots, s) && Named(slots, s, t, |mem|) && next < |mem|
    ensures |mem'| == |mem|
  {
    if t.Node? then InsertIn(mem, slots, s, t, v, d, next)
    else
      var mem1 := mem[next := NewSymbol(v, d)];
      mem1[slots[s] := mem1[slots[s]].(symbols := U16(next - slots[s]))]
  }

  /** A context with room for one more symbol of weight d. */
  ghost predicate HasRoom(c: Context, d: nat) {
    1 <= d <= 0xFF && Ordered(c.tree, 0, 256, 0xFF - d) && Sum(c.tree) + d <= 0xFFFF
  }

  lemma KnownNames(mem: seq<Symbol>, slots: Slots, next: nat, cs: Contexts, s: Name, v: Byte)
    requires Represents(mem, slots, next, cs) && s in slots
    ensures s + [v] in slots <==> Has(ContextOf(cs, s).tree, v)
    ensures Named(slots, s, ContextOf(cs, s).tree, |mem|)
  {
    var t := ContextOf(cs, s).tree;
    assert ContextIn(mem, slots, s, ContextOf(cs, s));
    assert Prefix(s + [v]) == s;
    TreeInNamed(mem, slots, s, t);
    if Has(t, v) {
      NamedHas(slots, s, t, |mem|, v);
    }
  }

  lemma {:induction false} NamedHas(slots: Slots, s: Name, t: Tree, size: nat, v: Byte)
    requires Named(slots, s, t, size) && Has(t, v)
    ensures s + [v] in slots
  {
    if Has(t.left, v) {
      NamedHas(slots, s, t.left, size, v);
    } else if Has(t.right, v) {
      NamedHas(slots, s, t.right, size, v);
    }
  }

  ghost predicate ParentsKept(mem: seq<Symbol>, mem': seq<Symbol>, slots: Slots) {
    |mem'| == |mem| && forall r :: Placed(mem, slots, r) ==> mem'[slots[r]].parent == mem[slots[r]].parent
  }

  /** The context of s has become c', with new records for its new symbols. */
  ghost predicate Reshaped(mem: seq<Symbol>, mem': seq<Symbol>, slots: Slots, slots': Slots, s: Name, c': Context) {
    && ChangedOnlyAt(mem, mem', slots, s) && ParentsKept(mem, mem', slots)
    && NewNames(mem', slots, slots', s, c') && ContextIn(mem', slots', s, c')
  }

  lemma FirstSymbol(mem: seq<Symbol>, slots: Slots, s: Name, c: Context, v: Byte, d: nat, next: nat)
    requires ContextIn(mem, slots, s, c) && c.tree.Leaf? && d <= 0xFF
    requires Distinct(slots) && Below(slots, next) && next < |mem| <= SYMBOL_SLOTS && s + [v] !in slots
    ensures Reshaped(mem, InsertSymbol(mem, slots, s, c.tree, v, d, next), slots, slots[s + [v] := next], s,
                     c.(tree := Insert(c.tree, v, d)))
    ensures InsertSymbol(mem, slots, s, c.tree, v, d, next)[next].parent == 0
  {
    var mem' := InsertSymbol(mem, slots, s, c.tree, v, d, next);
    var slots' := slots[s + [v] := next];
    var c' := c.(tree := Insert(c.tree, v, d));
    assert Prefix(s + [v]) == s && Last(s + [v]) == v;
    assert mem'[next] == NewSymbol(v, d);
    assert NodeIn(mem', slots', s, c'.tree);
    assert ContextIn(mem', slots', s + [v], EmptyContext(false));
  }

  lemma LaterSymbol(mem: seq<Symbol>, slots: Slots, s: Name, c: Context, v: Byte, d: nat, next: nat)
    requires ContextIn(mem, slots, s, c)
    requires CanInsert(mem, slots, s, c.tree, 0, 256, v, d, next)
    ensures Reshaped(mem, InsertSymbol(mem, slots, s, c.tree, v, d, next), slots, WithSlot(slots, s + [v], next), s,
                     c.(tree := Insert(c.tree, v, d)))
    ensures !Has(c.tree, v) ==> InsertSymbol(mem, slots, s, c.tree, v, d, next)[next].parent == 0
  {
    hide NodeIn, Named, Ordered, InsertIn;
    var mem' := InsertSymbol(mem, slots, s, c.tree, v, d, next);
    var slots' := WithSlot(slots, s + [v], next);
    InsertChanges(mem, slots, s, c.tree, 0, 256, v, d, next);
    InsertInPlace(mem, slots, s, c.tree, 0, 256, v, d, next);
    InsertHas(c.tree, v, d);
    assert Prefix(s + [v]) == s && Last(s + [v]) == v;
    assert ChangedOnlyAt(mem, mem', slots, s) && ParentsKept(mem, mem', slots);
    if !Has(c.tree, v) {
      assert ContextIn(mem', slots', s + [v], EmptyContext(false));
    }
  }

  lemma {:induction t} InsertHas(t: Tree, v: Byte, d: nat)
    ensures Has(Insert(t, v, d), v)
    ensures forall u :: Has(t, u) ==> Has(Insert(t, v, d), u)
  {
  }

  ghost function NextAfter(c: Context, v: Byte, next: nat): nat {
    if Has(c.tree, v) then next else next + 1
  }

  /** Looking for v in the context of s adds d to its count there, at a new record if v was not known. */
  lemma InsertRepresents(mem: seq<Symbol>, slots: Slots, next: nat, cs: Contexts, s: Name, v: Byte, d: nat)
    requires Represents(mem, slots, next, cs) && s in slots && next < |mem| && HasRoom(ContextOf(cs, s), d)
    requires Named(slots, s, ContextOf(cs, s).tree, |mem|)
    ensures var c := ContextOf(cs, s);
            var mem' := InsertSymbol(mem, slots, s, c.tree, v, d, next);
            && Represents(mem', WithSlot(slots, s + [v], next), NextAfter(c, v, next),
                          cs[s := c.(tree := Insert(c.tree, v, d))])
            && ParentsKept(mem, mem', slots)
            && (!Has(c.tree, v) ==> mem'[next].parent == 0)
  {
    hide NodeIn, TreeIn, Ordered, Linked, ChangedOnlyAt, ParentsKept, NewNames, InsertSymbol, Named;
    var c := ContextOf(cs, s);
    var c' := c.(tree := Insert(c.tree, v, d));
    var mem' := InsertSymbol(mem, slots, s, c.tree, v, d, next);
    var slots' := WithSlot(slots, s + [v], next);
    KnownNames(mem, slots, next, cs, s, v);
    if c.tree.Leaf? {
      FirstSymbol(mem, slots, s, c, v, d, next);
    } else {
      LaterSymbol(mem, slots, s, c, v, d, next);
    }
    InsertHas(c.tree, v, d);
    InsertOrdered(c.tree, v, d);
    ContextReplaced(mem, mem', slots, slots', next, NextAfter(c, v, next), cs, s, c');
  }

  lemma InsertOrdered(t: Tree, v: Byte, d: nat)
    requires Ordered(t, 0, 256, 0xFF - d) && 1 <= d <= 0xFF
    ensures Ordered(Insert(t, v, d), 0, 256, 0xFF)
  {
    HasIffCounted(t, 0, 256, 0xFF - d, v);
    Widen(t, 0, 256, 0xFF - d, 0xFF);
    InsertCounts(t, 0, 256, 0xFF, v, d);
  }

  /** New escapes and total for the context of s. */
  lemma HeaderRepresents(mem: seq<Symbol>, slots: Slots, next: nat, cs: Contexts, s: Name, escapes: nat, total: nat)
    requires Represents(mem, slots, next, cs) && s in slots
    requires Placed(mem, slots, s)
    ensures var mem' := mem[slots[s] := mem[slots[s]].(escapes := escapes, total := total)];
            && Represents(mem', slots, next, cs[s := ContextOf(cs, s).(escapes := escapes, total := total)])
            && ParentsKept(mem, mem', slots)
  {
    hide NodeIn, Ordered, Linked;
    var n := slots[s];
    var mem' := mem[n := mem[n].(escapes := escapes, total := total)];
    var c := ContextOf(cs, s);
    OrderedContext(mem, slots, next, cs, s);
    TreeFrame(mem, mem', slots, slots, s, c.tree, 0, 256, 0xFF);
    ContextReplaced(mem, mem', slots, slots, next, next, cs, s, c.(escapes := escapes, total := total));
  }

  /** Halved counts for the context of s. */
  lemma HalveRepresents(mem: seq<Symbol>, slots: Slots, next: nat, cs: Contexts, s: Name)
    requires Represents(mem, slots, next, cs) && s in slots && Sum(ContextOf(cs, s).tree) <= 0xFFFF
    requires Named(slots, s, ContextOf(cs, s).tree, |mem|)
    ensures var mem' := HalveIn(mem, slots, s, ContextOf(cs, s).tree);
            && Represents(mem', slots, next, cs[s := ContextOf(cs, s).(tree := Halve(ContextOf(cs, s).tree))])
            && ParentsKept(mem, mem', slots)
  {
    hide NodeIn, TreeIn, Linked, HalveIn, Named, NamesKnown, AllNamed, AllIn, Has, Sum, Halve, Ordered;
    var c := ContextOf(cs, s);
    var mem' := HalveIn(mem, slots, s, c.tree);
    OrderedContext(mem, slots, next, cs, s);
    ContextAt(mem, slots, next, cs, s);
    HalveInPlace(mem, slots, s, c.tree, 0, 256);
    HalveSum(c.tree, 0, 256);
    HalveCounts(c.tree, 0, 256, 0xFF);
    HalveRoot(mem, slots, s, c);
    HalveShape(mem, mem', slots, s, c);
    ContextReplaced(mem, mem', slots, slots, next, next, cs, s, c.(tree := Halve(c.tree)));
  }

  lemma HalveShape(mem: seq<Symbol>, mem': seq<Symbol>, slots: Slots, s: Name, c: Context)
    requires ContextIn(mem, slots, s, c) && TreeIn(mem', slots, s, Halve(c.tree))
    requires Linked(slots, s, slots[s], mem[slots[s]].symbols, Halve(c.tree))
    requires ChangedWithin(mem, mem', slots, s, 0, 256)
    ensures ChangedOnlyAt(mem, mem', slots, s) && ContextIn(mem', slots, s, c.(tree := Halve(c.tree)))
    ensures ParentsKept(mem, mem', slots)
  {
    hide NodeIn, TreeIn, Halve;
  }

  lemma HalveRoot(mem: seq<Symbol>, slots: Slots, s: Name, c: Context)
    requires ContextIn(mem, slots, s, c)
    ensures Linked(slots, s, slots[s], mem[slots[s]].symbols, Halve(c.tree))
  {
  }

  /** Suffix links are no part of the contexts. */
  lemma ParentRepresents(mem: seq<Symbol>, slots: Slots, next: nat, cs: Contexts, n: nat, parent: nat)
    requires Represents(mem, slots, next, cs) && n < |mem|
    ensures Represents(mem[n := mem[n].(parent := parent)], slots, next, cs)
  {
    hide NodeIn, Ordered, Linked, TreeIn;
    var mem' := mem[n := mem[n].(parent := parent)];
    forall r | r in slots
      ensures ContextIn(mem', slots, r, ContextOf(cs, r))
    {
      OrderedContext(mem, slots, next, cs, r);
      TreeFrame(mem, mem', slots, slots, r, ContextOf(cs, r).tree, 0, 256, 0xFF);
    }
  }

  // ---------------------------------------------------------------- suffix links

  /**
    After v was looked for in the context of s, the record that waits for its
    suffix link gets it, and the record of s + [v] waits if it is new.
   */
  lemma LinkSuffix(mem: seq<Symbol>, mem': seq<Symbol>, slots: Slots, next: nat, s: Name, v: Byte, pending: Name)
    requires SuffixLinks(mem, slots, pending) && ParentsKept(mem, mem', slots)
    requires Distinct(slots) && Below(slots, next) && next <= |mem| <= SYMBOL_SLOTS && [] in slots && slots[[]] == 0
    requires s + [v] !in slots ==> next < |mem'| && mem'[next].parent == 0
    requires pending == [] || (pending in slots && pending[1..] == s + [v])
    ensures var slots' := WithSlot(slots, s + [v], next);
            var mem'' := if pending == [] then mem'
                         else mem'[slots[pending] := mem'[slots[pending]].(parent := slots'[s + [v]])];
            SuffixLinks(mem'', slots', if s == [] || s + [v] in slots then [] else s + [v])
  {
    var slots' := WithSlot(slots, s + [v], next);
    var mem'' := if pending == [] then mem'
                 else mem'[slots[pending] := mem'[slots[pending]].(parent := slots'[s + [v]])];
    forall r | r in slots' && r != [] && (r == s + [v] && s != [] ==> r in slots)
      ensures r[1..] in slots' && slots'[r] < |mem''| && mem''[slots'[r]].parent == slots'[r[1..]]
    {
      if r !in slots {
        assert r == [v] && r[1..] == [];
      } else if r == pending {
        assert r[1..] == s + [v];
      } else {
        assert r[1..] in slots && mem[slots[r]].parent == slots[r[1..]];
      }
    }
  }

  // ---------------------------------------------------------------- one step of a walk

  /** What the record of the root of t tells a walk. */
  lemma AtNode(mem: seq<Symbol>, slots: Slots, s: Name, t: Tree, lo: int, hi: int, d: nat, next: nat)
    requires CanWalk(mem, slots, s, t, lo, hi, d, next)
    ensures t.Node? && Named(slots, s, t, |mem|) && s + [t.value] in slots
    ensures lo <= t.value < hi && Ordered(t, lo, hi, 0xFF - d)
    ensures var n := slots[s + [t.value]];
            && n < next < |mem| <= SYMBOL_SLOTS
            && mem[n].value == t.value && mem[n].count == t.count && mem[n].under == Sum(t.left) + t.count
            && mem[n].under + Sum(t.right) == Sum(t) <= 0xFFFF
            && (mem[n].left != 0 <==> t.left.Node?) && (mem[n].right != 0 <==> t.right.Node?)
            && (t.left.Node? ==> s + [t.left.value] in slots && n + mem[n].left == slots[s + [t.left.value]])
            && (t.right.Node? ==> s + [t.right.value] in slots && n + mem[n].right == slots[s + [t.right.value]])
            && (t.right.Node? ==> CanWalk(mem, slots, s, t.right, t.value + 1, hi, d, next))
    ensures (t.left.Leaf? ==> Sum(t.left) == 0) && (t.right.Leaf? ==> Sum(t.right) == 0)
    ensures Sum(t) == Sum(t.left) + t.count + Sum(t.right)
  {
  }

  lemma CanInsertAt(mem: seq<Symbol>, slots: Slots, s: Name, t: Tree, lo: int, hi: int, v: Byte, d: nat, next: nat)
    requires CanInsert(mem, slots, s, t, lo, hi, v, d, next)
    ensures CanWalk(mem, slots, s, t, lo, hi, d, next)
    ensures lo <= v < hi && (s + [v] in slots <==> Has(t, v))
  {
  }

  lemma CanInsertAll(mem: seq<Symbol>, slots: Slots, s: Name, t: Tree, v: Byte, d: nat, next: nat)
    requires CanWalk(mem, slots, s, t, 0, 256, d, next) && (s + [v] in slots <==> Has(t, v))
    ensures CanInsert(mem, slots, s, t, 0, 256, v, d, next)
  {
  }

  lemma StepLeft(mem: seq<Symbol>, slots: Slots, s: Name, t: Tree, lo: int, hi: int, v: Byte, d: nat, next: nat)
    requires CanInsert(mem, slots, s, t, lo, hi, v, d, next) && v < t.value
    ensures var n := slots[s + [t.value]];
            var mem1 := mem[n := mem[n].(under := U16(mem[n].under + d))];
            if t.left.Node? then
              && CanInsert(mem1, slots, s, t.left, lo, t.value, v, d, next) && Named(slots, s, t.left, |mem|)
              && InsertIn(mem, slots, s, t, v, d, next) == InsertIn(mem1, slots, s, t.left, v, d, next)
            else
              var mem2 := mem1[next := NewSymbol(v, d)];
              && InsertIn(mem, slots, s, t, v, d, next) == mem2[n := mem2[n].(left := U16(next - n))]
              && !Has(t, v) && Under(t, v) == 0 && Count(t, v) == 0
    ensures Under(t, v) == Under(t.left, v) && Count(t, v) == Count(t.left, v)
    ensures Has(t, v) <==> Has(t.left, v)
  {
    hide NodeIn, Linked, TreeIn;
    HasBelow(t, lo, hi, 0xFF - d, v);
    if t.left.Node? {
      DownLeft(mem, slots, s, t, lo, hi, v, d, next);
    }
  }

  lemma StepRight(mem: seq<Symbol>, slots: Slots, s: Name, t: Tree, lo: int, hi: int, v: Byte, d: nat, next: nat)
    requires CanInsert(mem, slots, s, t, lo, hi, v, d, next) && v > t.value
    ensures var n := slots[s + [t.value]];
            if t.right.Node? then
              && CanInsert(mem, slots, s, t.right, t.value + 1, hi, v, d, next) && Named(slots, s, t.right, |mem|)
              && InsertIn(mem, slots, s, t, v, d, next) == InsertIn(mem, slots, s, t.right, v, d, next)
            else
              var mem1 := mem[next := NewSymbol(v, d)];
              && InsertIn(mem, slots, s, t, v, d, next) == mem1[n := mem1[n].(right := U16(next - n))]
              && !Has(t, v) && Under(t, v) == mem[n].under && Count(t, v) == 0
    ensures Under(t, v) == mem[slots[s + [t.value]]].under + Under(t.right, v) && Count(t, v) == Count(t.right, v)
    ensures Has(t, v) <==> Has(t.right, v)
  {
    HasBelow(t, lo, hi, 0xFF - d, v);
  }

  lemma StepHere(mem: seq<Symbol>, slots: Slots, s: Name, t: Tree, lo: int, hi: int, d: nat, next: nat)
    requires t.Node? && CanInsert(mem, slots, s, t, lo, hi, t.value, d, next)
    ensures var n := slots[s + [t.value]];
            && InsertIn(mem, slots, s, t, t.value, d, next) ==
               mem[n := mem[n].(under := U16(mem[n].under + d), count := U8(mem[n].count + d))]
            && Has(t, t.value) && Under(t, t.value) == mem[n].under - mem[n].count && Count(t, t.value) == mem[n].count
  {
  }

  /** What the record of the root of t tells rescaling, before and after its left subtree is done. */
  lemma HalveAtNode(mem: seq<Symbol>, slots: Slots, s: Name, t: Tree, lo: int, hi: int)
    requires t.Node? && CanHalve(mem, slots, s, t, lo, hi)
    ensures Named(slots, s, t, |mem|) && s + [t.value] in slots && slots[s + [t.value]] < |mem|
    ensures var n := slots[s + [t.value]];
            && (mem[n].left != 0 <==> t.left.Node?)
            && (t.left.Node? ==> s + [t.left.value] in slots && n + mem[n].left == slots[s + [t.left.value]])
    ensures var n := slots[s + [t.value]];
            var mem1 := HalveRecord(mem, n);
            if t.left.Node? then
              && CanHalve(mem1, slots, s, t.left, lo, t.value) && Named(slots, s, t.left, |mem|)
              && HalveLeft(mem, slots, s, t) == Complete(HalveIn(mem1, slots, s, t.left), n, Sum(Halve(t.left)))
            else HalveLeft(mem, slots, s, t) == mem1
    ensures Sum(Halve(t)) <= 0xFFFF
  {
    hide Ordered, Halve, U8;
    HalveSmaller(t);
    HalveDown(mem, slots, s, t, lo, hi);
    if t.left.Leaf? {
      HalveLeaf(mem, slots, s, t);
    }
  }

  lemma HalveLeaf(mem: seq<Symbol>, slots: Slots, s: Name, t: Tree)
    requires t.Node? && t.left.Leaf? && Named(slots, s, t, |mem|)
    ensures HalveLeft(mem, slots, s, t) == HalveRecord(mem, slots[s + [t.value]])
  {
    var n := slots[s + [t.value]];
    assert Sum(Halve(t.left)) == 0;
    Fits16(HalveRecord(mem, n)[n].under);
    assert HalveLeft(mem, slots, s, t)[n] == HalveRecord(mem, n)[n];
  }

  lemma HalveAfterLeft(mem: seq<Symbol>, slots: Slots, s: Name, t: Tree, lo: int, hi: int)
    requires t.Node? && CanHalve(mem, slots, s, t, lo, hi) && Named(slots, s, t, |mem|)
    ensures var mem' := HalveLeft(mem, slots, s, t);
            var n := slots[s + [t.value]];
            && CanHalve(mem', slots, s, t.right, t.value + 1, hi) && Named(slots, s, t.right, |mem'|)
            && HalveIn(mem, slots, s, t) == HalveIn(mem', slots, s, t.right)
            && mem'[n].under + Sum(Halve(t.right)) == Sum(Halve(t))
            && (mem'[n].right != 0 <==> t.right.Node?)
            && (t.right.Node? ==> s + [t.right.value] in slots && n + mem'[n].right == slots[s + [t.right.value]])
            && (t.right.Leaf? ==> HalveIn(mem', slots, s, t.right) == mem' && Sum(Halve(t.right)) == 0)
  {
    HalveLeftInPlace(mem, slots, s, t, lo, hi);
  }

  // ---------------------------------------------------------------- visiting a context

  /** What looking for v in the context of s, whose tree is t, needs. */
  ghost predicate CanSearch(mem: seq<Symbol>, slots: Slots, next: nat, s: Name, t: Tree, v: Byte) {
    var d := SymbolDelta(s == []);
    && |mem| == SYMBOL_SLOTS && next < SYMBOL_SLOTS
    && Placed(mem, slots, s) && slots[s] < next
    && Linked(slots, s, slots[s], mem[slots[s]].symbols, t)
    && Named(slots, s, t, |mem|)
    && (if t.Node? then CanInsert(mem, slots, s, t, 0, 256, v, d, next) else s + [v] !in slots)
    && Sum(t) + Extra(256, s == []) <= 0xFFFF
  }

  lemma SearchReady(mem: seq<Symbol>, slots: Slots, next: nat, cs: Contexts, s: Name, v: Byte)
    requires Represents(mem, slots, next, cs) && s in slots && next < |mem| == SYMBOL_SLOTS
    requires Sound(ContextOf(cs, s), s == [])
    ensures CanSearch(mem, slots, next, s, ContextOf(cs, s).tree, v)
    ensures HasRoom(ContextOf(cs, s), SymbolDelta(s == []))
    ensures slots[s] == 0 <==> s == []
    ensures s + [v] in slots <==> Has(ContextOf(cs, s).tree, v)
    ensures Named(slots, s, ContextOf(cs, s).tree, |mem|)
  {
    hide NodeIn, TreeIn, Ordered, Named, NamesKnown, AllNamed, AllIn, Linked, Has, Sound, HasRoom, CanSearch;
    KnownNames(mem, slots, next, cs, s, v);
    ContextAt(mem, slots, next, cs, s);
    SearchReadyAt(mem, slots, next, s, ContextOf(cs, s), v);
  }

  lemma ContextAt(mem: seq<Symbol>, slots: Slots, next: nat, cs: Contexts, s: Name)
    requires Represents(mem, slots, next, cs) && s in slots
    ensures ContextIn(mem, slots, s, ContextOf(cs, s))
  {
  }

  lemma SearchReadyAt(mem: seq<Symbol>, slots: Slots, next: nat, s: Name, c: Context, v: Byte)
    requires ContextIn(mem, slots, s, c) && Sound(c, s == []) && Named(slots, s, c.tree, |mem|)
    requires s + [v] in slots <==> Has(c.tree, v)
    requires Distinct(slots) && Below(slots, next) && next < |mem| == SYMBOL_SLOTS
    ensures CanSearch(mem, slots, next, s, c.tree, v) && HasRoom(c, SymbolDelta(s == []))
  {
    hide NodeIn, TreeIn, Ordered, Named;
  }

  /** Writes the suffix link of the waiting record, if any. */
  ghost function WithLink(mem: seq<Symbol>, slots: Slots, pending: Name, r: Name): (mem': seq<Symbol>)
    ensures |mem'| == |mem|
  {
    if pending != [] && Placed(mem, slots, pending) && r in slots
    then mem[slots[pending] := mem[slots[pending]].(parent := slots[r])]
    else mem
  }

  /** Looking for v in the context of s, and linking the waiting record to it. */
  lemma VisitRepresents(mem: seq<Symbol>, slots: Slots, next: nat, cs: Contexts, s: Name, v: Byte, pending: Name)
    requires Represents(mem, slots, next, cs) && SuffixLinks(mem, slots, pending)
    requires s in slots && next < |mem| == SYMBOL_SLOTS && Sound(ContextOf(cs, s), s == [])
    requires pending == [] || (pending in slots && pending[1..] == s + [v])
    requires Named(slots, s, ContextOf(cs, s).tree, |mem|)
    ensures var c := ContextOf(cs, s);
            var d := SymbolDelta(s == []);
            var slots' := WithSlot(slots, s + [v], next);
            var mem' := WithLink(InsertSymbol(mem, slots, s, c.tree, v, d, next), slots', pending, s + [v]);
            && Represents(mem', slots', NextAfter(c, v, next), cs[s := c.(tree := Insert(c.tree, v, d))])
            && SuffixLinks(mem', slots', if s == [] || Has(c.tree, v) then [] else s + [v])
            && slots'[s + [v]] < SYMBOL_SLOTS
    ensures pending != [] ==> Placed(mem, slots, pending)
  {
    hide NodeIn, TreeIn, Ordered, Named, ContextIn, Sound, InsertSymbol, HasRoom, CanSearch, NamesKnown, AllNamed;
    hide AllIn, SuffixLinks, Has;
    var c := ContextOf(cs, s);
    var d := SymbolDelta(s == []);
    SearchReady(mem, slots, next, cs, s, v);
    InsertRepresents(mem, slots, next, cs, s, v, d);
    var mem1 := InsertSymbol(mem, slots, s, c.tree, v, d, next);
    var slots' := WithSlot(slots, s + [v], next);
    LinkSuffix(mem, mem1, slots, next, s, v, pending);
    if pending != [] {
      ParentRepresents(mem1, slots', NextAfter(c, v, next), cs[s := c.(tree := Insert(c.tree, v, d))],
                       slots'[pending], slots'[s + [v]]);
    }
  }

  lemma HalveReady(mem: seq<Symbol>, slots: Slots, next: nat, cs: Contexts, s: Name)
    requires Represents(mem, slots, next, cs) && s in slots && Sum(ContextOf(cs, s).tree) <= 0xFFFF
    ensures var t := ContextOf(cs, s).tree;
            && CanHalve(mem, slots, s, t, 0, 256) && Named(slots, s, t, |mem|)
            && Placed(mem, slots, s)
            && (mem[slots[s]].symbols != 0 <==> t.Node?)
            && (t.Node? ==> s + [t.value] in slots && slots[s] + mem[slots[s]].symbols == slots[s + [t.value]])
            && mem[slots[s]].escapes == ContextOf(cs, s).escapes && mem[slots[s]].total == ContextOf(cs, s).total
  {
    hide NodeIn, TreeIn, Ordered, Named, NamesKnown, AllNamed, AllIn, Has, Sum;
    OrderedContext(mem, slots, next, cs, s);
    KnownNames(mem, slots, next, cs, s, 0);
    ContextAt(mem, slots, next, cs, s);
  }

  /** What looking for a code in the context of s needs. */
  lemma DecodeReady(mem: seq<Symbol>, slots: Slots, next: nat, cs: Contexts, s: Name)
    requires Represents(mem, slots, next, cs) && s in slots && next < |mem| == SYMBOL_SLOTS
    requires Sound(ContextOf(cs, s), s == [])
    ensures var t := ContextOf(cs, s).tree;
            && Placed(mem, slots, s) && slots[s] < next
            && (mem[slots[s]].symbols != 0 <==> t.Node?)
            && Named(slots, s, t, |mem|)
            && Sum(t) + Extra(256, s == []) <= 0xFFFF
            && (t.Node? ==>
                  && CanWalk(mem, slots, s, t, 0, 256, SymbolDelta(s == []), next)
                  && s + [t.value] in slots && slots[s] + mem[slots[s]].symbols == slots[s + [t.value]])
    ensures forall v: Byte :: s + [v] in slots <==> Has(ContextOf(cs, s).tree, v)
  {
    hide NodeIn, TreeIn, Ordered, Named, NamesKnown, AllNamed, AllIn, Linked, Has, Sum;
    forall v: Byte
      ensures s + [v] in slots <==> Has(ContextOf(cs, s).tree, v)
    {
      KnownNames(mem, slots, next, cs, s, v);
    }
    KnownNames(mem, slots, next, cs, s, 0);
    ContextAt(mem, slots, next, cs, s);
    DecodeReadyAt(mem, slots, next, s, ContextOf(cs, s));
  }

  lemma DecodeReadyAt(mem: seq<Symbol>, slots: Slots, next: nat, s: Name, c: Context)
    requires ContextIn(mem, slots, s, c) && Sound(c, s == []) && Named(slots, s, c.tree, |mem|)
    requires Distinct(slots) && Below(slots, next) && next < |mem| == SYMBOL_SLOTS
    ensures Placed(mem, slots, s) && slots[s] < next && (mem[slots[s]].symbols != 0 <==> c.tree.Node?)
    ensures Sum(c.tree) + Extra(256, s == []) <= 0xFFFF
    ensures c.tree.Node? ==>
              && CanWalk(mem, slots, s, c.tree, 0, 256, SymbolDelta(s == []), next)
              && s + [c.tree.value] in slots && slots[s] + mem[slots[s]].symbols == slots[s + [c.tree.value]]
  {
    hide NodeIn, TreeIn, Ordered, Named;
  }
}
