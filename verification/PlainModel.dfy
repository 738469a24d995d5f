/**
  The adaptive model once more, without trees, slots and suffix links: for each string of at most two bytes a
  count for every byte, and a count of escapes.  The coder's model is proved to code every message with the
  same shares.
 */
module PlainModel {
  import opened Words
  import opened RangeCoding
  import opened FrequencyTree
  import opened ContextModel
  import opened PpmCoding

  /** 256 counts, and the escapes. */
  datatype Statistics = Statistics(counts: seq<nat>, escapes: nat)

  type Table = map<seq<Byte>, Statistics>

  predicate Proper256(p: Statistics) {
    |p.counts| == 256
  }

  function SumOf(s: seq<nat>): nat {
    if s == [] then 0 else SumOf(s[..|s| - 1]) + s[|s| - 1]
  }

  /** A string that was not met yet has no counts; the empty one starts with one escape. */
  function Lookup(table: Table, s: seq<Byte>): Statistics {
    if s in table then table[s] else Statistics(seq(256, _ => 0), if s == [] then 1 else 0)
  }

  /** Without any context each byte has one unit more. */
  function TotalOf(p: Statistics, root: bool): nat {
    p.escapes + SumOf(p.counts) + if root then 256 else 0
  }

  function ShareOf(p: Statistics, root: bool, v: Byte): Share
    requires Proper256(p)
  {
    Share(p.escapes + SumOf(p.counts[..v]) + (if root then v else 0),
          p.counts[v] + (if root then 1 else 0),
          TotalOf(p, root))
  }

  /** One more v: by 3 without any context and by 2 in one, where a byte that is new also makes 5 escapes. */
  function Raised(p: Statistics, root: bool, v: Byte): Statistics
    requires Proper256(p)
  {
    Statistics(p.counts[v := p.counts[v] + if root then 3 else 2], p.escapes + if root || p.counts[v] > 0 then 0 else 5)
  }

  function Halved(p: Statistics): Statistics {
    Statistics(seq(|p.counts|, i requires 0 <= i < |p.counts| => p.counts[i] - p.counts[i] / 2),
               p.escapes - p.escapes / 2)
  }

  /** All counts are halved when one has come near 255, or the total is above 65280. */
  function Taught(p: Statistics, root: bool, v: Byte): Statistics
    requires Proper256(p)
  {
    var r := Raised(p, root, v);
    if p.counts[v] > (if root then 249 else 251) || TotalOf(r, root) > 65280 then Halved(r) else r
  }

  ghost predicate ProperTable(table: Table) {
    forall s :: s in table ==> Proper256(table[s])
  }

  /** What coding one byte yields: its shares, the table after it, and how many strings met it for the first time. */
  datatype Step = Step(shares: seq<Share>, table: Table, met: nat)

  /** Codes v after the last n bytes of the past, escaping to fewer bytes as long as v was not met after them. */
  function CodeAfter(table: Table, past: seq<Byte>, n: nat, v: Byte): Step
    requires n <= |past| && ProperTable(table)
    decreases n
  {
    var s := past[|past| - n..];
    var p := Lookup(table, s);
    var table' := table[s := Taught(p, n == 0, v)];
    if n == 0 || p.counts[v] > 0 then
      Step([ShareOf(p, n == 0, v)], table', if p.counts[v] > 0 then 0 else 1)
    else
      var rest := CodeAfter(table', past, n - 1, v);
      var escape := if 0 < p.escapes < TotalOf(p, false) then [Share(0, p.escapes, TotalOf(p, false))] else [];
      Step(escape + rest.shares, rest.table, rest.met + 1)
  }

  lemma {:induction false} CodeAfterProper(table: Table, past: seq<Byte>, n: nat, v: Byte)
    requires n <= |past| && ProperTable(table)
    ensures ProperTable(CodeAfter(table, past, n, v).table)
    decreases n
  {
    hide TotalOf, SumOf;
    var s := past[|past| - n..];
    var p := Lookup(table, s);
    if n > 0 && p.counts[v] == 0 {
      CodeAfterProper(table[s := Taught(p, false, v)], past, n - 1, v);
    }
  }

  /** Codes a message; `past` has the bytes since the last fresh start, and `met` counts the slots that they take. */
  function PlainShares(table: Table, past: seq<Byte>, met: nat, message: seq<Byte>): seq<Share>
    requires ProperTable(table)
    decreases |message|
  {
    if message == [] then []
    else
      var v := message[0];
      var step := CodeAfter(table, past, if |past| < 2 then |past| else 2, v);
      CodeAfterProper(table, past, if |past| < 2 then |past| else 2, v);
      step.shares +
      if met + step.met >= 4094 then PlainShares(map[], [], 1, message[1..])
      else PlainShares(step.table, past + [v], met + step.met, message[1..])
  }

  // ---------------------------------------------------------------- one context

  ghost predicate Same(c: Context, p: Statistics, root: bool) {
    && Proper256(p)
    && (forall v: Byte :: Count(c.tree, v) == p.counts[v])
    && c.escapes == p.escapes && c.total == TotalOf(p, root)
  }

  lemma {:induction false} SameSums(t: Tree, counts: seq<nat>, v: nat)
    requires |counts| == 256 && v <= 256 && forall u: Byte :: Count(t, u) == counts[u]
    ensures CountsBelow(t, 0, v) == SumOf(counts[..v])
    decreases v
  {
    if v > 0 {
      SameSums(t, counts, v - 1);
      assert counts[..v][..v - 1] == counts[..v - 1];
    }
  }

  lemma SameShares(c: Context, p: Statistics, root: bool, v: Byte)
    requires Sound(c, root) && Same(c, p, root)
    ensures SymbolShare(c, root, v) == ShareOf(p, root, v)
  {
    hide Count, SumOf, Under, Ordered, CountsBelow;
    UnderIsCumulative(c.tree, 0, 256, 0xFF - SymbolDelta(root), v);
    SameSums(c.tree, p.counts, v);
  }

  lemma SameTotal(c: Context, p: Statistics, root: bool, max: int)
    requires Ordered(c.tree, 0, 256, max) && c.total == Sum(c.tree) + c.escapes + Extra(256, root)
    requires Proper256(p) && c.escapes == p.escapes && forall v: Byte :: Count(c.tree, v) == p.counts[v]
    ensures c.total == TotalOf(p, root)
  {
    hide Count, SumOf, Under, Ordered, CountsBelow;
    UnderIsCumulative(c.tree, 0, 256, max, 256);
    SameSums(c.tree, p.counts, 256);
    assert p.counts[..256] == p.counts;
  }

  lemma {:induction false} SumOfRaised(counts: seq<nat>, v: nat, d: nat)
    requires v < |counts|
    ensures SumOf(counts[v := counts[v] + d]) == SumOf(counts) + d
    decreases |counts|
  {
    var init, raised := counts[..|counts| - 1], counts[v := counts[v] + d];
    if v < |init| {
      SumOfRaised(init, v, d);
      assert raised[..|counts| - 1] == init[v := init[v] + d];
    } else {
      assert raised[..|counts| - 1] == init;
    }
  }

  /** A context learns what the counts learn. */
  lemma SameAfterByte(c: Context, p: Statistics, root: bool, v: Byte)
    requires Sound(c, root) && Same(c, p, root)
    ensures Same(Learned(c, root, v), Taught(p, root, v), root)
  {
    hide Learned, Sum, Under, Ordered, SumOf, Count;
    SumOfRaised(p.counts, v, if root then 3 else 2);
    LearnedCounts(c, root, v);
    LearnedSound(c, root, v);
    SameTotal(Learned(c, root, v), Taught(p, root, v), root, 0xFF - SymbolDelta(root));
  }

  // ---------------------------------------------------------------- the whole model

  ghost predicate SameTables(cs: Contexts, table: Table) {
    forall s: Name :: Same(ContextOf(cs, s), Lookup(table, s), s == [])
  }

  lemma SameStart()
    ensures SameTables(map[], map[])
  {
    var zeros := seq(256, _ => 0);
    assert SumOf(zeros) == 0 by {
      NoSum(256);
    }
  }

  lemma {:induction false} NoSum(n: nat)
    ensures SumOf(seq(n, _ => 0)) == 0
  {
    if n > 0 {
      var zeros := seq(n, _ => 0);
      assert zeros[..n - 1] == seq(n - 1, _ => 0);
      NoSum(n - 1);
    }
  }

  lemma SameTablesAfter(cs: Contexts, table: Table, s: Name, v: Byte)
    requires AllSound(cs) && SameTables(cs, table) && ProperTable(table)
    ensures AllSound(LearnAt(cs, s, v))
    ensures ProperTable(table[s := Taught(Lookup(table, s), s == [], v)])
    ensures SameTables(LearnAt(cs, s, v), table[s := Taught(Lookup(table, s), s == [], v)])
  {
    hide Learned, Taught, Sound, Same;
    ContextOfSound(cs, s);
    LearnedSound(ContextOf(cs, s), s == [], v);
    assert Same(ContextOf(cs, s), Lookup(table, s), s == []);
    assert Proper256(Lookup(table, s));
    SameAfterByte(ContextOf(cs, s), Lookup(table, s), s == [], v);
    TaughtProper(Lookup(table, s), s == [], v);
    forall t: Name
      ensures Same(ContextOf(LearnAt(cs, s, v), t),
                   Lookup(table[s := Taught(Lookup(table, s), s == [], v)], t), t == [])
    {
      assert Same(ContextOf(cs, t), Lookup(table, t), t == []);
    }
  }

  lemma TaughtProper(p: Statistics, root: bool, v: Byte)
    requires Proper256(p)
    ensures Proper256(Taught(p, root, v))
  {
  }

  /** What a context codes itself. */
  lemma SameOwnShares(c: Context, p: Statistics, root: bool, v: Byte)
    requires Sound(c, root) && Same(c, p, root)
    ensures OwnShares(c, root, v) ==
            if root || p.counts[v] > 0 then [ShareOf(p, root, v)]
            else if 0 < p.escapes < TotalOf(p, false) then [Share(0, p.escapes, TotalOf(p, false))] else []
  {
    hide SymbolShare, ShareOf, TotalOf;
    SameShares(c, p, root, v);
  }

  /** One byte has the same shares, takes the same slots, and leaves the same model. */
  lemma {:induction false} SameCoding(cs: Contexts, table: Table, past: seq<Byte>, n: nat, v: Byte)
    requires AllSound(cs) && SameTables(cs, table) && ProperTable(table) && n <= |past|
    ensures var s := past[|past| - n..];
            var stop, step := Stop(cs, s, v), CodeAfter(table, past, n, v);
            && Shares(cs, s, v) == step.shares
            && Created(cs, s, stop, v) == step.met
            && SameTables(Learn(cs, s, stop, v), step.table)
    decreases n
  {
    hide Learned, Taught, ShareOf, TotalOf, Sound, OwnShares, Shares, Stop, Learn, Created, AllSound, LearnAt;
    var s := past[|past| - n..];
    var c, p := ContextOf(cs, s), Lookup(table, s);
    assert Same(c, p, s == []);
    assert Count(c.tree, v) == p.counts[v];
    ContextOfSound(cs, s);
    SameOwnShares(c, p, n == 0, v);
    SameTablesAfter(cs, table, s, v);
    hide Same, SameTables;
    if n == 0 || p.counts[v] > 0 {
      StepStop(cs, s, v);
    } else {
      hide ShareOf, Lookup, ContextOf;
      StepDown(cs, s, v);
      assert s[1..] == past[|past| - (n - 1)..];
      SameCoding(LearnAt(cs, s, v), table[s := Taught(p, false, v)], past, n - 1, v);
    }
  }

  /** A model and the counts that it stands for. */
  ghost predicate Stands(m: Model, table: Table, past: seq<Byte>, met: nat) {
    && ValidModel(m) && ProperTable(table)
    && SameTables(m.contexts, table) && m.slots == met
    && m.history == past[if |past| < 2 then 0 else |past| - 2..]
  }

  lemma StandsAfter(m: Model, table: Table, past: seq<Byte>, met: nat, v: Byte)
    requires Stands(m, table, past, met)
    ensures var step := CodeAfter(table, past, if |past| < 2 then |past| else 2, v);
            && Shares(m.contexts, m.history, v) == step.shares
            && if met + step.met >= 4094 then Stands(After(m, v), map[], [], 1)
               else Stands(After(m, v), step.table, past + [v], met + step.met)
  {
    hide Shares, Stop, Learn, Created, CodeAfter, SameTables, AllSound;
    var n := if |past| < 2 then |past| else 2;
    SameCoding(m.contexts, table, past, n, v);
    CodeAfterProper(table, past, n, v);
    NextValid(m, Stop(m.contexts, m.history, v), v);
    SameStart();
    assert m.history == past[|past| - n..];
    var h := Extend(m.history, v);
    var past' := past + [v];
    assert h == past'[if |past'| < 2 then 0 else |past'| - 2..];
  }

  lemma PlainSharesStep(table: Table, past: seq<Byte>, met: nat, message: seq<Byte>)
    requires ProperTable(table) && message != []
    ensures var v := message[0];
            var step := CodeAfter(table, past, if |past| < 2 then |past| else 2, v);
            && ProperTable(step.table)
            && PlainShares(table, past, met, message) ==
               step.shares +
               if met + step.met >= 4094 then PlainShares(map[], [], 1, message[1..])
               else PlainShares(step.table, past + [v], met + step.met, message[1..])
  {
    hide CodeAfter, ProperTable;
    CodeAfterProper(table, past, if |past| < 2 then |past| else 2, message[0]);
  }

  /** Every message is coded with the shares of the plain model. */
  lemma {:induction false} MessageInPlainTerms(m: Model, table: Table, past: seq<Byte>, met: nat, message: seq<Byte>)
    requires Stands(m, table, past, met)
    ensures ValidModel(m) && ProperTable(table)
    ensures AllShares(m, message) == PlainShares(table, past, met, message)
    decreases |message|
  {
    hide Stands, Shares, CodeAfter, After, ValidModel, ProperTable, AllShares, AllProper, PlainShares;
    StandsProper(m, table, past, met);
    if message == [] {
      NoShares(m);
      NoPlainShares(table, past, met);
    } else {
      var v := message[0];
      var step := CodeAfter(table, past, if |past| < 2 then |past| else 2, v);
      AllSharesStep(m, message);
      PlainSharesStep(table, past, met, message);
      StandsAfter(m, table, past, met, v);
      if met + step.met >= 4094 {
        MessageInPlainTerms(After(m, v), map[], [], 1, message[1..]);
      } else {
        MessageInPlainTerms(After(m, v), step.table, past + [v], met + step.met, message[1..]);
      }
    }
  }

  lemma NoPlainShares(table: Table, past: seq<Byte>, met: nat)
    requires ProperTable(table)
    ensures PlainShares(table, past, met, []) == []
  {
  }

  lemma StandsProper(m: Model, table: Table, past: seq<Byte>, met: nat)
    requires Stands(m, table, past, met)
    ensures ValidModel(m) && ProperTable(table)
  {
  }

  /** The bytes that compressing a message produces, all of them or none. */
  lemma StreamInPlainTerms(message: seq<Byte>)
    ensures AllProper(PlainShares(map[], [], 1, message))
    ensures Stream(message) == EncodeAll(Interval(0, 0xFFFF_FFFF), PlainShares(map[], [], 1, message))
    ensures forall limit: nat ::
              Compressed(message, limit) == if |Stream(message)| <= limit then Stream(message) else []
  {
    hide PlainShares, AllShares, EncodeAll;
    SameStart();
    assert FRESH_MODEL.history == [];
    MessageInPlainTerms(FRESH_MODEL, map[], [], 1, message);
  }
}
