/**
  The adaptive model: a frequency tree for each string of at most two preceding
  bytes, and what coding one byte does to these trees.
 */
module ContextModel {
  import opened Words
  import opened RangeCoding
  import opened FrequencyTree

  const SUBCONTEXT_ORDER := 2
  const SYMBOL_SLOTS := 4096
  const SUBCONTEXT_ESCAPE_DELTA := 5

  /** The statistics of one context.  The empty string names the root context. */
  datatype Context = Context(tree: Tree, escapes: nat, total: nat)

  type Name = seq<Byte>
  type Contexts = map<Name, Context>

  function SymbolDelta(root: bool): nat {
    if root then 3 else 2
  }

  function EmptyContext(root: bool): Context {
    if root then Context(Leaf, 1, 257) else Context(Leaf, 0, 0)
  }

  function ContextOf(cs: Contexts, s: Name): Context {
    if s in cs then cs[s] else EmptyContext(s == [])
  }

  // ---------------------------------------------------------------- one context

  function Rescaled(c: Context, root: bool): Context {
    var tree := Halve(c.tree);
    var escapes := c.escapes - c.escapes / 2;
    Context(tree, escapes, Sum(tree) + escapes + Extra(256, root))
  }

  /** One more v, and one more escape if v is new in a context other than the root. */
  function Counted(c: Context, root: bool, v: Byte): Context {
    var escaped := if root || Count(c.tree, v) > 0 then 0 else SUBCONTEXT_ESCAPE_DELTA;
    Context(Insert(c.tree, v, SymbolDelta(root)), c.escapes + escaped, c.total + escaped + SymbolDelta(root))
  }

  /** The context after v was coded in it, or was coded in a shorter context instead. */
  function Learned(c: Context, root: bool, v: Byte): Context {
    var c' := Counted(c, root, v);
    if Count(c.tree, v) > 0xFF - 2 * SymbolDelta(root) || c'.total > MAX_TOTAL then Rescaled(c', root) else c'
  }

  function SymbolShare(c: Context, root: bool, v: Byte): Share {
    Share(c.escapes + Under(c.tree, v) + Extra(v, root), Count(c.tree, v) + Extra(1, root), c.total)
  }

  function EscapeShare(c: Context): Share {
    Share(0, c.escapes, c.total)
  }

  /**
    What holds of a context between symbols.  Counts fit in 8 bits and totals in
    16 even after one more symbol, and only a context without symbols cannot escape.
   */
  ghost predicate Sound(c: Context, root: bool) {
    && Ordered(c.tree, 0, 256, 0xFF - SymbolDelta(root))
    && c.total == Sum(c.tree) + c.escapes + Extra(256, root)
    && c.total <= MAX_TOTAL
    && (if root then c.escapes == 1 else c.escapes == 0 <==> c.tree.Leaf?)
  }

  lemma LearnedSound(c: Context, root: bool, v: Byte)
    requires Sound(c, root)
    ensures Sound(Learned(c, root, v), root)
    ensures forall u :: Has(Learned(c, root, v).tree, u) <==> Has(c.tree, u) || u == v
  {
    var d := SymbolDelta(root);
    var tree := Insert(c.tree, v, d);
    HasIffCounted(c.tree, 0, 256, 0xFF - d, v);
    if Count(c.tree, v) + d <= 0xFF - d {
      InsertCounts(c.tree, 0, 256, 0xFF - d, v, d);
    }
    Widen(c.tree, 0, 256, 0xFF - d, 0xFF);
    InsertCounts(c.tree, 0, 256, 0xFF, v, d);
    RescaledSound(Counted(c, root, v), root);
  }

  /** What a context learns, count by count: v is raised, and everything is halved, rounding up, at a limit. */
  lemma LearnedCounts(c: Context, root: bool, v: Byte)
    requires Sound(c, root)
    ensures var d, c' := if root then 3 else 2, Learned(c, root, v);
            var unseen := !root && Count(c.tree, v) == 0;
            var halved := Count(c.tree, v) + 2 * d > 0xFF || c.total + d + (if unseen then 5 else 0) > 65280;
            && (forall u ::
                  var n := Count(c.tree, u) + if u == v then d else 0;
                  Count(c'.tree, u) == if halved then n - n / 2 else n)
            && var e := c.escapes + if unseen then 5 else 0;
               && c'.escapes == (if halved then e - e / 2 else e)
               && (!halved ==> c'.total == c.total + d + if unseen then 5 else 0)
  {
    var d := SymbolDelta(root);
    HasIffCounted(c.tree, 0, 256, 0xFF - d, v);
    Widen(c.tree, 0, 256, 0xFF - d, 0xFF);
    InsertCounts(c.tree, 0, 256, 0xFF, v, d);
    HalveCounts(Insert(c.tree, v, d), 0, 256, 0xFF);
  }

  lemma RescaledSound(c: Context, root: bool)
    requires Ordered(c.tree, 0, 256, 0xFF) && c.tree.Node?
    requires c.total == Sum(c.tree) + c.escapes + Extra(256, root) <= 0xFFFF
    requires if root then c.escapes == 1 else c.escapes > 0
    ensures Sound(Rescaled(c, root), root)
    ensures forall u :: Has(Rescaled(c, root).tree, u) <==> Has(c.tree, u)
  {
    HalveCounts(c.tree, 0, 256, 0xFF);
    SizeBound(c.tree, 0, 256, 0xFF);
    Widen(Halve(c.tree), 0, 256, 0xFF - 0xFF / 2, 0xFF - SymbolDelta(root));
  }

  lemma SymbolShareProper(c: Context, root: bool, v: Byte)
    requires Sound(c, root) && (root || Count(c.tree, v) > 0)
    ensures Proper(SymbolShare(c, root, v))
  {
    UnderBound(c.tree, v);
  }

  lemma EscapeShareProper(c: Context)
    requires Sound(c, false) && c.escapes > 0
    ensures Proper(EscapeShare(c)) && c.escapes < c.total
  {
    assert Sum(c.tree) >= c.tree.count;
  }

  // ---------------------------------------------------------------- from a context to its suffixes

  /** The longest suffix of s that has seen v, or the root. */
  function Stop(cs: Contexts, s: Name, v: Byte): Name {
    if s == [] || Count(ContextOf(cs, s).tree, v) > 0 then s else Stop(cs, s[1..], v)
  }

  /** The shares that code v: an escape from each context that has not seen it, then its own. */
  function Shares(cs: Contexts, s: Name, v: Byte): seq<Share> {
    var c := ContextOf(cs, s);
    if s == [] || Count(c.tree, v) > 0 then [SymbolShare(c, s == [], v)]
    else (if 0 < c.escapes < c.total then [EscapeShare(c)] else []) + Shares(cs, s[1..], v)
  }

  /** The shares coded in one context: that of v, or an escape if there can be one. */
  function OwnShares(c: Context, root: bool, v: Byte): seq<Share> {
    if root || Count(c.tree, v) > 0 then [SymbolShare(c, root, v)]
    else if 0 < c.escapes < c.total then [EscapeShare(c)] else []
  }

  lemma OwnSharesProper(c: Context, root: bool, v: Byte)
    requires Sound(c, root)
    ensures AllProper(OwnShares(c, root, v))
  {
    hide Under;
    if root || Count(c.tree, v) > 0 {
      SymbolShareProper(c, root, v);
    } else if 0 < c.escapes {
      EscapeShareProper(c);
    }
  }

  function LearnAt(cs: Contexts, s: Name, v: Byte): Contexts {
    cs[s := Learned(ContextOf(cs, s), s == [], v)]
  }

  /** All contexts from s down to stop learn v. */
  function Learn(cs: Contexts, s: Name, stop: Name, v: Byte): Contexts
    decreases |s|
  {
    var cs' := LearnAt(cs, s, v);
    if s == [] || s == stop then cs' else Learn(cs', s[1..], stop, v)
  }

  /** How many of these contexts have not seen v and so need a new symbol. */
  function Created(cs: Contexts, s: Name, stop: Name, v: Byte): nat
    decreases |s|
  {
    (if Count(ContextOf(cs, s).tree, v) > 0 then 0 else 1) +
    (if s == [] || s == stop then 0 else Created(cs, s[1..], stop, v))
  }

  // ---------------------------------------------------------------- the whole model

  /** All contexts, the bytes that select one, and the number of symbol slots in use. */
  datatype Model = Model(contexts: Contexts, history: Name, slots: nat)

  const FRESH_MODEL := Model(map[], [], 1)

  function Extend(h: Name, v: Byte): Name {
    if |h| >= SUBCONTEXT_ORDER then h[1..] + [v] else h + [v]
  }

  /** The model after v, coded in the context stop; it starts afresh when slots run out. */
  function Next(m: Model, stop: Name, v: Byte): Model {
    var slots := m.slots + Created(m.contexts, m.history, stop, v);
    if slots >= SYMBOL_SLOTS - SUBCONTEXT_ORDER then FRESH_MODEL
    else Model(Learn(m.contexts, m.history, stop, v), Extend(m.history, v), slots)
  }

  ghost predicate AllSound(cs: Contexts) {
    forall s :: s in cs ==> Sound(cs[s], s == [])
  }

  ghost predicate ValidModel(m: Model) {
    && AllSound(m.contexts)
    && |m.history| <= SUBCONTEXT_ORDER
    && (forall s :: s in m.contexts ==> |s| <= SUBCONTEXT_ORDER)
    && 1 <= m.slots < SYMBOL_SLOTS - SUBCONTEXT_ORDER
  }

  lemma ContextOfSound(cs: Contexts, s: Name)
    requires AllSound(cs)
    ensures Sound(ContextOf(cs, s), s == [])
  {
  }

  lemma {:induction false} LearnSound(cs: Contexts, s: Name, stop: Name, v: Byte)
    requires AllSound(cs)
    ensures AllSound(Learn(cs, s, stop, v))
    ensures forall t :: t in Learn(cs, s, stop, v) ==> t in cs || |t| <= |s|
    decreases |s|
  {
    ContextOfSound(cs, s);
    LearnedSound(ContextOf(cs, s), s == [], v);
    if s != [] && s != stop {
      LearnSound(LearnAt(cs, s, v), s[1..], stop, v);
    }
  }

  lemma {:induction false} CreatedBound(cs: Contexts, s: Name, stop: Name, v: Byte)
    ensures Created(cs, s, stop, v) <= |s| + 1
    decreases |s|
  {
    if s != [] && s != stop {
      CreatedBound(cs, s[1..], stop, v);
    }
  }

  /** A byte needs at most three new slots, and these are always there. */
  lemma NextValid(m: Model, stop: Name, v: Byte)
    requires ValidModel(m)
    ensures ValidModel(Next(m, stop, v))
    ensures m.slots + Created(m.contexts, m.history, stop, v) <= SYMBOL_SLOTS
  {
    LearnSound(m.contexts, m.history, stop, v);
    CreatedBound(m.contexts, m.history, stop, v);
  }

  // ---------------------------------------------------------------- one context at a time

  /** Contexts that are the same up to a length. */
  ghost predicate Agree(cs: Contexts, cs': Contexts, n: int) {
    forall s: Name :: |s| <= n ==> ContextOf(cs, s) == ContextOf(cs', s)
  }

  /** Coding from s on depends only on s and its suffixes. */
  lemma {:induction false} AgreeFrom(cs: Contexts, cs': Contexts, s: Name, stop: Name, v: Byte)
    requires Agree(cs, cs', |s|)
    ensures Shares(cs, s, v) == Shares(cs', s, v) && Stop(cs, s, v) == Stop(cs', s, v)
    ensures Created(cs, s, stop, v) == Created(cs', s, stop, v)
    decreases |s|
  {
    hide Under, Sum, Count;
    assert ContextOf(cs, s) == ContextOf(cs', s);
    if s != [] {
      AgreeFrom(cs, cs', s[1..], stop, v);
    }
  }

  lemma {:induction false} StopShorter(cs: Contexts, s: Name, v: Byte)
    ensures |Stop(cs, s, v)| <= |s|
    decreases |s|
  {
    if s != [] {
      StopShorter(cs, s[1..], v);
    }
  }

  /** A context that has seen v codes it. */
  lemma StepStop(cs: Contexts, s: Name, v: Byte)
    requires s == [] || Count(ContextOf(cs, s).tree, v) > 0
    ensures Stop(cs, s, v) == s && Shares(cs, s, v) == OwnShares(ContextOf(cs, s), s == [], v)
    ensures Learn(cs, s, s, v) == LearnAt(cs, s, v)
    ensures Created(cs, s, s, v) == if Count(ContextOf(cs, s).tree, v) > 0 then 0 else 1
  {
  }

  /** A context that has not seen v escapes, if it can, and learns v; the rest is left to its suffix. */
  lemma StepDown(cs: Contexts, s: Name, v: Byte)
    requires s != [] && Count(ContextOf(cs, s).tree, v) == 0
    ensures var c := ContextOf(cs, s);
            var cs' := LearnAt(cs, s, v);
            var stop := Stop(cs, s, v);
            && stop == Stop(cs', s[1..], v)
            && Shares(cs, s, v) == OwnShares(c, false, v) + Shares(cs', s[1..], v)
            && Learn(cs, s, stop, v) == Learn(cs', s[1..], stop, v)
            && Created(cs, s, stop, v) == 1 + Created(cs', s[1..], stop, v)
  {
    hide Under, Sum, Learned;
    var cs' := LearnAt(cs, s, v);
    assert Agree(cs, cs', |s[1..]|);
    StopShorter(cs, s[1..], v);
    AgreeFrom(cs, cs', s[1..], Stop(cs, s, v), v);
  }

  ghost predicate IsSuffix(t: Name, s: Name) {
    |t| <= |s| && s[|s| - |t|..] == t
  }

  lemma ShorterSuffix(t: Name, s: Name)
    requires IsSuffix(t, s) && s != t
    ensures s != [] && IsSuffix(t, s[1..]) && |s| > |t|
  {
    assert s[0..] == s;
    assert s[1..][|s[1..]| - |t|..] == s[|s| - |t|..];
  }

  lemma LearnCommutes(cs: Contexts, s: Name, t: Name, v: Byte)
    requires s != t
    ensures ContextOf(LearnAt(cs, s, v), t) == ContextOf(cs, t)
    ensures LearnAt(LearnAt(cs, t, v), s, v) == LearnAt(LearnAt(cs, s, v), t, v)
  {
    hide Learned;
  }

  /** Learning in a given context, and leaving the rest to its suffix. */
  lemma LearnDown(cs: Contexts, s: Name, stop: Name, v: Byte)
    requires s != [] && |s| > |stop|
    ensures var cs' := LearnAt(cs, s, v);
            && Learn(cs, s, stop, v) == Learn(cs', s[1..], stop, v)
            && Created(cs, s, stop, v) ==
               (if Count(ContextOf(cs, s).tree, v) > 0 then 0 else 1) + Created(cs', s[1..], stop, v)
  {
    hide Count, Learned, Shares, Stop;
    var cs' := LearnAt(cs, s, v);
    assert Agree(cs, cs', |s[1..]|);
    AgreeFrom(cs, cs', s[1..], stop, v);
  }

  lemma LearnStop(cs: Contexts, stop: Name, v: Byte)
    ensures Learn(cs, stop, stop, v) == LearnAt(cs, stop, v)
    ensures Created(cs, stop, stop, v) == if Count(ContextOf(cs, stop).tree, v) > 0 then 0 else 1
  {
  }

  lemma {:induction false} SharesProper(cs: Contexts, s: Name, v: Byte)
    requires AllSound(cs)
    ensures AllProper(Shares(cs, s, v)) && 1 <= |Shares(cs, s, v)| <= |s| + 1
  {
    hide Sum, Count, Under, Ordered, ContextOf;
    var c := ContextOf(cs, s);
    ContextOfSound(cs, s);
    if s == [] || Count(c.tree, v) > 0 {
      SymbolShareProper(c, s == [], v);
    } else {
      SharesProper(cs, s[1..], v);
      if 0 < c.escapes {
        EscapeShareProper(c);
      }
    }
  }
}
