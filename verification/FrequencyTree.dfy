/**
  The binary search trees in which a context counts its symbols, as values.

  A node's `under` field in the coder is its own count plus the counts of its
  left subtree, so walking to a symbol adds up its cumulative frequency.
 */
module FrequencyTree {
  import opened Words

  datatype Tree = Leaf | Node(value: Byte, count: nat, left: Tree, right: Tree)

  function Sum(t: Tree): nat {
    if t.Leaf? then 0 else Sum(t.left) + t.count + Sum(t.right)
  }

  function Size(t: Tree): nat {
    if t.Leaf? then 0 else Size(t.left) + 1 + Size(t.right)
  }

  ghost predicate Has(t: Tree, v: int) {
    t.Node? && (t.value == v || Has(t.left, v) || Has(t.right, v))
  }

  /** Values lie in [lo, hi) in search order, and every count is in 1..max. */
  ghost predicate Ordered(t: Tree, lo: int, hi: int, max: int) {
    t.Node? ==>
      && lo <= t.value < hi && 1 <= t.count <= max
      && Ordered(t.left, lo, t.value, max)
      && Ordered(t.right, t.value + 1, hi, max)
  }

  // ---------------------------------------------------------------- lookup by value

  /** The count of v, or 0 if v does not occur. */
  function Count(t: Tree, v: int): nat {
    if t.Leaf? then 0
    else if v < t.value then Count(t.left, v)
    else if v > t.value then Count(t.right, v)
    else t.count
  }

  /** The counts that are passed on the walk to v. */
  function Under(t: Tree, v: int): nat {
    if t.Leaf? then 0
    else if v < t.value then Under(t.left, v)
    else if v > t.value then Sum(t.left) + t.count + Under(t.right, v)
    else Sum(t.left)
  }

  /** Adds d to the count of v, at a new leaf if v does not occur yet. */
  function Insert(t: Tree, v: Byte, d: nat): Tree {
    if t.Leaf? then Node(v, d, Leaf, Leaf)
    else if v < t.value then t.(left := Insert(t.left, v, d))
    else if v > t.value then t.(right := Insert(t.right, v, d))
    else t.(count := t.count + d)
  }

  /** Halves every count, rounding up. */
  function Halve(t: Tree): Tree {
    if t.Leaf? then Leaf else Node(t.value, t.count - t.count / 2, Halve(t.left), Halve(t.right))
  }

  // ---------------------------------------------------------------- lookup by code

  /** The extra units of n values: one each if values that do not occur have a share as well. */
  function Extra(n: int, gaps: bool): int {
    if gaps then n else 0
  }

  /** The value of [lo, ...) whose share contains the code. */
  function Find(t: Tree, lo: int, code: int, gaps: bool): int {
    if t.Leaf? then lo + code
    else
      var start := Sum(t.left) + Extra(t.value - lo, gaps);
      var end := start + t.count + Extra(1, gaps);
      if code >= end then Find(t.right, t.value + 1, code - end, gaps)
      else if code < start then Find(t.left, lo, code, gaps)
      else t.value
  }

  // ---------------------------------------------------------------- properties

  lemma {:induction false} Widen(t: Tree, lo: int, hi: int, max: int, max': int)
    requires Ordered(t, lo, hi, max) && max <= max'
    ensures Ordered(t, lo, hi, max')
  {
    if t.Node? {
      Widen(t.left, lo, t.value, max, max');
      Widen(t.right, t.value + 1, hi, max, max');
    }
  }

  lemma {:induction false} HasRange(t: Tree, lo: int, hi: int, max: int, v: int)
    requires Ordered(t, lo, hi, max) && Has(t, v)
    ensures lo <= v < hi
  {
    if Has(t.left, v) {
      HasRange(t.left, lo, t.value, max, v);
    } else if Has(t.right, v) {
      HasRange(t.right, t.value + 1, hi, max, v);
    }
  }

  /** The search finds exactly the values that occur. */
  lemma {:induction false} HasIffCounted(t: Tree, lo: int, hi: int, max: int, v: int)
    requires Ordered(t, lo, hi, max)
    ensures Has(t, v) <==> Count(t, v) > 0
    ensures Count(t, v) <= max || Count(t, v) == 0
  {
    if t.Node? {
      HasIffCounted(t.left, lo, t.value, max, v);
      HasIffCounted(t.right, t.value + 1, hi, max, v);
      if Has(t.left, v) {
        HasRange(t.left, lo, t.value, max, v);
      }
      if Has(t.right, v) {
        HasRange(t.right, t.value + 1, hi, max, v);
      }
    }
  }

  /** The counts of the values in [lo, v), added up one value at a time. */
  ghost function CountsBelow(t: Tree, lo: int, v: int): nat
    decreases v - lo
  {
    if v <= lo then 0 else CountsBelow(t, lo, v - 1) + Count(t, v - 1)
  }

  /** Below the root's value, only the left subtree counts. */
  lemma {:induction false} CountsBelowLeft(t: Tree, lo: int, v: int)
    requires t.Node? && v <= t.value
    ensures CountsBelow(t, lo, v) == CountsBelow(t.left, lo, v)
    decreases v - lo
  {
    if v > lo {
      CountsBelowLeft(t, lo, v - 1);
    }
  }

  lemma {:induction false} CountsBelowRight(t: Tree, lo: int, v: int)
    requires t.Node? && lo <= t.value < v
    ensures CountsBelow(t, lo, v) ==
            CountsBelow(t.left, lo, t.value) + t.count + CountsBelow(t.right, t.value + 1, v)
    decreases v - lo
  {
    if v == t.value + 1 {
      CountsBelowLeft(t, lo, t.value);
    } else {
      CountsBelowRight(t, lo, v - 1);
    }
  }

  /** The walk to v passes exactly the counts of the smaller values, and Sum is all of them. */
  lemma {:induction false} UnderIsCumulative(t: Tree, lo: int, hi: int, max: int, v: int)
    requires Ordered(t, lo, hi, max) && lo <= v <= hi
    ensures Under(t, v) == CountsBelow(t, lo, v)
    ensures Sum(t) == CountsBelow(t, lo, hi)
    decreases t
  {
    if t.Leaf? {
      LeafCounts(lo, v);
      LeafCounts(lo, hi);
    } else {
      UnderIsCumulative(t.left, lo, t.value, max, if v < t.value then v else t.value);
      UnderIsCumulative(t.right, t.value + 1, hi, max, if v > t.value then v else hi);
      CountsBelowRight(t, lo, hi);
      if v <= t.value {
        CountsBelowLeft(t, lo, v);
      } else {
        CountsBelowRight(t, lo, v);
      }
    }
  }

  lemma LeafCounts(lo: int, v: int)
    ensures CountsBelow(Leaf, lo, v) == 0
    decreases v - lo
  {
    if v > lo {
      LeafCounts(lo, v - 1);
    }
  }

  lemma {:induction t} UnderBound(t: Tree, v: int)
    ensures Under(t, v) + Count(t, v) <= Sum(t)
  {
  }

  /** Inserting changes the one count and keeps the order. */
  lemma {:induction false} InsertCounts(t: Tree, lo: int, hi: int, max: int, v: Byte, d: nat)
    requires Ordered(t, lo, hi, max) && lo <= v < hi && 1 <= d
    requires Count(t, v) + d <= max
    ensures Ordered(Insert(t, v, d), lo, hi, max)
    ensures Sum(Insert(t, v, d)) == Sum(t) + d
    ensures forall u :: Count(Insert(t, v, d), u) == Count(t, u) + if u == v then d else 0
    ensures forall u :: Has(Insert(t, v, d), u) <==> Has(t, u) || u == v
  {
    if t.Node? {
      if v < t.value {
        InsertCounts(t.left, lo, t.value, max, v, d);
      } else if v > t.value {
        InsertCounts(t.right, t.value + 1, hi, max, v, d);
      }
    }
  }

  /** Halving rounds each count up, so no symbol is forgotten, and keeps the order. */
  lemma {:induction false} HalveCounts(t: Tree, lo: int, hi: int, max: int)
    requires Ordered(t, lo, hi, max)
    ensures Ordered(Halve(t), lo, hi, max - max / 2)
    ensures forall u :: Count(Halve(t), u) == Count(t, u) - Count(t, u) / 2
    ensures forall u :: Has(Halve(t), u) <==> Has(t, u)
    ensures 2 * Sum(Halve(t)) <= Sum(t) + Size(t)
    ensures Sum(Halve(t)) >= Size(t)
  {
    if t.Node? {
      HalveCounts(t.left, lo, t.value, max);
      HalveCounts(t.right, t.value + 1, hi, max);
    }
  }

  lemma {:induction false} SizeBound(t: Tree, lo: int, hi: int, max: int)
    requires Ordered(t, lo, hi, max) && lo <= hi
    ensures Size(t) <= hi - lo
    ensures Size(t) <= Sum(t)
  {
    if t.Node? {
      SizeBound(t.left, lo, t.value, max);
      SizeBound(t.right, t.value + 1, hi, max);
    }
  }

  /**
    Inverse lookup: a code is in the share of v exactly if the search by code
    arrives at v, also for values that do not occur yet when there are gaps.
   */
  lemma {:induction false} FindIsInverse(t: Tree, lo: int, hi: int, max: int, code: int, gaps: bool, v: int)
    requires Ordered(t, lo, hi, max)
    requires lo <= v < hi && 0 <= code < Sum(t) + Extra(hi - lo, gaps)
    ensures var start := Under(t, v) + Extra(v - lo, gaps);
            start <= code < start + Count(t, v) + Extra(1, gaps) <==> Find(t, lo, code, gaps) == v
  {
    if t.Node? {
      var start := Sum(t.left) + Extra(t.value - lo, gaps);
      var end := start + t.count + Extra(1, gaps);
      UnderBound(t.left, v);
      if code >= end {
        FindRange(t.right, t.value + 1, hi, max, code - end, gaps);
        if v > t.value {
          FindIsInverse(t.right, t.value + 1, hi, max, code - end, gaps, v);
        }
      } else if code < start {
        FindRange(t.left, lo, t.value, max, code, gaps);
        if v < t.value {
          FindIsInverse(t.left, lo, t.value, max, code, gaps, v);
        }
      }
    } else {
    }
  }

  /** Every code of the scale is in some share. */
  lemma {:induction false} FindRange(t: Tree, lo: int, hi: int, max: int, code: int, gaps: bool)
    requires Ordered(t, lo, hi, max)
    requires 0 <= code < Sum(t) + Extra(hi - lo, gaps)
    ensures lo <= Find(t, lo, code, gaps) < hi
  {
    if t.Node? {
      var start := Sum(t.left) + Extra(t.value - lo, gaps);
      var end := start + t.count + Extra(1, gaps);
      if code >= end {
        FindRange(t.right, t.value + 1, hi, max, code - end, gaps);
      } else if code < start {
        FindRange(t.left, lo, t.value, max, code, gaps);
      }
    }
  }

  // ---------------------------------------------------------------- a search by code, step by step

  /** The code is in some share of t. */
  ghost predicate Located(t: Tree, code: int, gaps: bool) {
    code < Sum(t) + Extra(256, gaps)
  }

  /**
    A search for a code in t has come down to the subtree cur of [lo, hi), with
    counts adding up to `under` passed; if the code is located, it is v's.
   */
  ghost predicate Searching(t: Tree, cur: Tree, lo: int, hi: int, code: int, under: int, gaps: bool, v: int) {
    var rest := code - under - Extra(lo, gaps);
    && 0 <= lo <= hi <= 256 && 0 <= rest
    && under + Sum(cur) + Extra(hi, gaps) <= 0xFFFF
    && (Located(t, code, gaps) <==> rest < Sum(cur) + Extra(hi - lo, gaps))
    && (Located(t, code, gaps) ==>
          && Find(cur, lo, rest, gaps) == v
          && under + Under(cur, v) == Under(t, v) && Count(cur, v) == Count(t, v) && (Has(cur, v) <==> Has(t, v)))
  }

  lemma OrderedParts(t: Tree, lo: int, hi: int, max: int)
    requires t.Node? && Ordered(t, lo, hi, max)
    ensures lo <= t.value < hi && 1 <= t.count <= max
    ensures Ordered(t.left, lo, t.value, max) && Ordered(t.right, t.value + 1, hi, max)
  {
  }

  lemma SearchRight(t: Tree, cur: Tree, lo: int, hi: int, max: int, code: int, under: int, gaps: bool, v: int)
    requires cur.Node? && Ordered(cur, lo, hi, max) && Searching(t, cur, lo, hi, code, under, gaps, v)
    requires code >= under + Sum(cur.left) + cur.count + Extra(cur.value + 1, gaps)
    ensures var under' := under + Sum(cur.left) + cur.count;
            && Searching(t, cur.right, cur.value + 1, hi, code, under', gaps, v)
            && (Located(t, code, gaps) ==> v > cur.value)
            && (Located(t, code, gaps) && cur.right.Leaf? ==>
                  && gaps && Under(t, v) == under' && Count(t, v) == 0 && code == Under(t, v) + v
                  && v == cur.value + 1 + (code - (under' + cur.value + 1)))
  {
    hide Ordered, Located, Under, Count, Has, Find, Sum, Extra;
    OrderedParts(cur, lo, hi, max);
    var under' := under + Sum(cur.left) + cur.count;
    FindRight(cur, lo, hi, code - under, gaps);
    if Located(t, code, gaps) {
      SearchRightLocated(t, cur, lo, hi, max, code, under, gaps, v);
    }
    if cur.right.Leaf? {
      SearchLeaf(t, cur.value + 1, hi, code, under', gaps, v);
    }
  }

  /** Going right, in terms of the distance to the start of the interval. */
  lemma FindRight(t: Tree, lo: int, hi: int, code: int, gaps: bool)
    requires t.Node? && lo <= t.value && code >= Sum(t.left) + t.count + Extra(t.value + 1, gaps)
    ensures var passed := Sum(t.left) + t.count;
            && Find(t, lo, code - Extra(lo, gaps), gaps)
               == Find(t.right, t.value + 1, code - passed - Extra(t.value + 1, gaps), gaps)
            && Sum(t) == passed + Sum(t.right)
            && Extra(hi - lo, gaps) + Extra(lo, gaps) == Extra(hi - t.value - 1, gaps) + Extra(t.value + 1, gaps)
  {
  }

  /** A search that comes down to no subtree ends at a value that does not occur. */
  lemma SearchLeaf(t: Tree, lo: int, hi: int, code: int, under: int, gaps: bool, v: int)
    requires Searching(t, Leaf, lo, hi, code, under, gaps, v)
    ensures Located(t, code, gaps) ==>
              gaps && Under(t, v) == under && Count(t, v) == 0 && !Has(t, v) && code == under + v
  {
    hide Located;
  }

  lemma SearchRightLocated(t: Tree, cur: Tree, lo: int, hi: int, max: int, code: int, under: int, gaps: bool, v: int)
    requires cur.Node? && Ordered(cur, lo, hi, max) && Searching(t, cur, lo, hi, code, under, gaps, v)
    requires code >= under + Sum(cur.left) + cur.count + Extra(cur.value + 1, gaps) && Located(t, code, gaps)
    ensures cur.value < v < hi
    ensures Under(cur, v) == Sum(cur.left) + cur.count + Under(cur.right, v)
    ensures Count(cur, v) == Count(cur.right, v) && (Has(cur, v) <==> Has(cur.right, v))
  {
    hide Located;
    var end := Sum(cur.left) + Extra(cur.value - lo, gaps) + cur.count + Extra(1, gaps);
    var rest := code - under - Extra(lo, gaps);
    FindRange(cur.right, cur.value + 1, hi, max, rest - end, gaps);
    HasBelow(cur, lo, hi, max, v);
  }

  lemma SearchLeft(t: Tree, cur: Tree, lo: int, hi: int, max: int, code: int, under: int, gaps: bool, v: int)
    requires cur.Node? && Ordered(cur, lo, hi, max) && Searching(t, cur, lo, hi, code, under, gaps, v)
    requires code < under + Sum(cur.left) + Extra(cur.value, gaps)
    ensures Located(t, code, gaps) && v < cur.value
    ensures Searching(t, cur.left, lo, cur.value, code, under, gaps, v)
    ensures cur.left.Leaf? ==>
              && gaps && Under(t, v) == under && Count(t, v) == 0 && code == Under(t, v) + v
              && v == cur.value - 1 - (under + cur.value - code - 1)
  {
    hide Ordered, Located;
    OrderedParts(cur, lo, hi, max);
    var rest := code - under - Extra(lo, gaps);
    FindRange(cur.left, lo, cur.value, max, rest, gaps);
    HasBelow(cur, lo, hi, max, v);
  }

  lemma SearchHere(t: Tree, cur: Tree, lo: int, hi: int, max: int, code: int, under: int, gaps: bool, v: int)
    requires cur.Node? && Ordered(cur, lo, hi, max) && Searching(t, cur, lo, hi, code, under, gaps, v)
    requires under + Sum(cur.left) + Extra(cur.value, gaps) <= code
    requires code < under + Sum(cur.left) + cur.count + Extra(cur.value + 1, gaps)
    ensures Located(t, code, gaps) && v == cur.value
    ensures Under(t, v) == under + Sum(cur.left) && Count(t, v) == cur.count && Has(t, v)
  {
  }

  /** In an ordered tree v can only be on its own side of the root. */
  lemma HasBelow(t: Tree, lo: int, hi: int, max: int, v: int)
    requires t.Node? && Ordered(t, lo, hi, max)
    ensures v < t.value ==> (Has(t, v) <==> Has(t.left, v))
    ensures v > t.value ==> (Has(t, v) <==> Has(t.right, v))
  {
    if Has(t.left, v) {
      HasRange(t.left, lo, t.value, max, v);
    }
    if Has(t.right, v) {
      HasRange(t.right, t.value + 1, hi, max, v);
    }
  }
}
