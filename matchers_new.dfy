/**
  The `matchers_new.rs` matcher: recursive combinator trees.  An `Alt`
  matches one value; a `Seq` matches an ordered list, backtracking over the
  split point of a concatenation and over the count and chunk sizes of a
  repetition.  The element pattern's own `is_match` is the parameter `m`;
  `num_elmts_range`, which this code calls but does not define, is the
  parameter `nr`, so every result below holds whatever range it reports.
 */
module MatchersNew {
  import opened Wrappers
  import Repeats
  import opened Candidates

  datatype Alt<T> =
    | Any
    | Elmt(e: T)
    | Named(inner: Alt<T>, name: string)
    | Alt(left: Alt<T>, right: Alt<T>)

  datatype Seq<T> =
    | Any
    | Elmt(e: T)
    | Named(inner: Seq<T>, name: string)
    | Alt(left: Seq<T>, right: Seq<T>)
    | Empty
    | Repeat(elmt: Seq<T>, range: Repeats.RepeatRange)
    | Seq(left: Seq<T>, right: Seq<T>)

  // ---------------------------------------------------------------- Alt

  /** Whether an `Any` is reachable through `Named` and `Alt` nodes. */
  predicate HasAny<T>(p: Alt<T>)
  {
    match p
    case Any => true
    case Elmt(_) => false
    case Named(e, _) => HasAny(e)
    case Alt(a, b) => HasAny(a) || HasAny(b)
  }

  /** The element patterns at the leaves, left to right. */
  function Leaves<T>(p: Alt<T>): seq<T>
  {
    match p
    case Any => []
    case Elmt(e) => [e]
    case Named(e, _) => Leaves(e)
    case Alt(a, b) => Leaves(a) + Leaves(b)
  }

  /**
    `Alt::is_match`.  Its contract reads the tree as a flat alternative
    list: it matches when it contains an `Any` or when one of its element
    leaves matches; names play no part.
   */
  function AltIsMatch<T, U>(p: Alt<T>, other: U, m: (T, U) -> bool): (r: bool)
    ensures r <==> HasAny(p) || exists i :: 0 <= i < |Leaves(p)| && m(Leaves(p)[i], other)
  {
    match p
    case Any => true
    case Elmt(e) => assert Leaves(p)[0] == e; m(e, other)
    case Named(e, _) => assert Leaves(p) == Leaves(e); AltIsMatch(e, other, m)
    case Alt(a, b) =>
      var ra := AltIsMatch(a, other, m);
      var rb := AltIsMatch(b, other, m);
      var leaves := Leaves(p);
      assert leaves == Leaves(a) + Leaves(b);
      assert (ra || rb) && !HasAny(p) ==> exists i :: 0 <= i < |leaves| && m(leaves[i], other) by {
        if ra && !HasAny(a) {
          var i :| 0 <= i < |Leaves(a)| && m(Leaves(a)[i], other);
          assert leaves[i] == Leaves(a)[i];
        } else if rb && !HasAny(b) {
          var i :| 0 <= i < |Leaves(b)| && m(Leaves(b)[i], other);
          assert leaves[|Leaves(a)| + i] == Leaves(b)[i];
        }
      }
      assert (exists i :: 0 <= i < |leaves| && m(leaves[i], other)) ==> ra || rb by {
        if i :| 0 <= i < |leaves| && m(leaves[i], other) {
          if i < |Leaves(a)| {
            assert Leaves(a)[i] == leaves[i];
          } else {
            assert Leaves(b)[i - |Leaves(a)|] == leaves[i];
          }
        }
      }
      ra || rb
  }

  /** The name of a `Named` node is ignored. */
  lemma AltNamedIgnoresName<T, U>(e: Alt<T>, n1: string, n2: string, other: U, m: (T, U) -> bool)
    ensures AltIsMatch(Alt.Named(e, n1), other, m) == AltIsMatch(e, other, m)
    ensures AltIsMatch(Alt.Named(e, n1), other, m) == AltIsMatch(Alt.Named(e, n2), other, m)
  {
  }

  // ---------------------------------------------------------------- Seq

  /**
    When a `Seq` pattern matches a list.  Each arm states what the search in
    `IsMatch` looks for; the two searching arms name their witnesses.
   */
  ghost predicate Matches<T, U>(p: Seq<T>, s: seq<U>, m: (T, U) -> bool, nr: Seq<T> -> Repeats.RepeatRange)
    decreases p, 1
  {
    match p
    case Any => |s| == 1
    case Elmt(e) => |s| == 1 && m(e, s[0])
    case Named(e, _) => Matches(e, s, m, nr)
    case Alt(a, b) => Matches(a, s, m, nr) || Matches(b, s, m, nr)
    case Empty => |s| == 0
    case Repeat(e, r) =>
      (r.start == 0 && |s| == 0) || exists sizes :: RepeatWitness(e, r, s, sizes, m, nr)
    case Seq(a, b) => exists i :: SplitWitness(a, b, s, i, m, nr)
  }

  /**
    A witness for `Repeat(e, r)` on `s`: a count `|sizes|` inside `r` (an
    unbounded end read as `|s| + 1`), chunk sizes inside `e`'s reported range
    (likewise), summing to `|s|`, and every consecutive chunk matched by `e`
    as a whole.
   */
  ghost predicate RepeatWitness<T, U>(e: Seq<T>, r: Repeats.RepeatRange, s: seq<U>, sizes: seq<nat>,
                                      m: (T, U) -> bool, nr: Seq<T> -> Repeats.RepeatRange)
    decreases Repeat(e, r), 0
  {
    && r.start <= |sizes| < r.UpperOr(|s|)
    && (forall j :: 0 <= j < |sizes| ==> nr(e).start <= sizes[j] < nr(e).UpperOr(|s|))
    && Sum(sizes) == |s|
    && (forall j :: 0 <= j < |sizes| ==> Matches(e, Chunk(s, sizes, j), m, nr))
  }

  /**
    A witness for `Seq(a, b)` on `s`: a split point inside `a`'s reported
    range and no further than `|s|`, `a` matching the prefix and `b` the rest.
   */
  ghost predicate SplitWitness<T, U>(a: Seq<T>, b: Seq<T>, s: seq<U>, i: int,
                                     m: (T, U) -> bool, nr: Seq<T> -> Repeats.RepeatRange)
    decreases Seq(a, b), 0
  {
    && nr(a).start <= i < nr(a).UpperOr(|s|)
    && i <= |s|
    && Matches(a, s[..i], m, nr)
    && Matches(b, s[i..], m, nr)
  }

  /** `Seq::is_match` on a slice. */
  method IsMatch<T, U>(p: Seq<T>, other: seq<U>, m: (T, U) -> bool, nr: Seq<T> -> Repeats.RepeatRange)
    returns (b: bool)
    ensures b == Matches(p, other, m, nr)
    decreases p, 2
  {
    match p
    case Any =>
      b := |other| == 1;
    case Elmt(e) =>
      b := |other| == 1 && m(e, other[0]);
    case Named(e, _) =>
      b := IsMatch(e, other, m, nr);
    case Alt(x, y) =>
      b := IsMatch(x, other, m, nr);
      if !b {
        b := IsMatch(y, other, m, nr);
      }
    case Empty =>
      b := |other| == 0;
    case Repeat(e, r) =>
      b := RepeatIsMatch(e, r, other, m, nr);
    case Seq(x, y) =>
      b := SeqIsMatch(x, y, other, m, nr);
  }

  /**
    The `Repeat` arm: the empty shortcut, then for each count `i` the size
    tuples (products of `e`'s range, filtered on their sum), each chunk
    `other[skip..skip+v]` matched by `e`, and the first tuple whose chunks
    all match wins.
   */
  method RepeatIsMatch<T, U>(e: Seq<T>, r: Repeats.RepeatRange, other: seq<U>,
                             m: (T, U) -> bool, nr: Seq<T> -> Repeats.RepeatRange)
    returns (b: bool)
    ensures b == Matches(Repeat(e, r), other, m, nr)
    decreases Repeat(e, r), 1
  {
    var eRange := nr(e);
    var lo, hi := eRange.start, eRange.UpperOr(|other|);
    if r.start == 0 && |other| == 0 {
      return true;
    }
    var i := r.start;
    var top := r.UpperOr(|other|);
    while i < top
      invariant r.start <= i
      invariant forall sizes :: r.start <= |sizes| < i ==> !RepeatWitness(e, r, other, sizes, m, nr)
    {
      var iterators := SizeTuples(lo, hi, i, |other|);
      var found := SearchSizes(e, r, other, iterators, m, nr);
      if found {
        ghost var k :| 0 <= k < |iterators| && ChunksMatch(e, other, iterators[k], m, nr);
        PassingTupleIsWitness(e, r, other, i, iterators, k, m, nr);
        return true;
      }
      NoPassingTupleNoWitness(e, r, other, i, iterators, m, nr);
      i := i + 1;
    }
    assert !Matches(Repeat(e, r), other, m, nr);
    return false;
  }

  /** A passing size tuple of an admitted count is a witness, so the repeat matches. */
  lemma PassingTupleIsWitness<T, U>(e: Seq<T>, r: Repeats.RepeatRange, other: seq<U>, i: nat,
                                   iterators: seq<seq<nat>>, k: nat,
                                   m: (T, U) -> bool, nr: Seq<T> -> Repeats.RepeatRange)
    requires r.start <= i < r.UpperOr(|other|)
    requires iterators == SizeTuples(nr(e).start, nr(e).UpperOr(|other|), i, |other|)
    requires k < |iterators|
    requires Sum(iterators[k]) == |other| && ChunksMatch(e, other, iterators[k], m, nr)
    ensures RepeatWitness(e, r, other, iterators[k], m, nr)
    ensures Matches(Repeat(e, r), other, m, nr)
  {
    var t := iterators[k];
    assert t in iterators;
    assert RepeatWitness(e, r, other, t, m, nr);
  }

  /** When no size tuple of count `i` passes, no witness has `i` chunks. */
  lemma NoPassingTupleNoWitness<T, U>(e: Seq<T>, r: Repeats.RepeatRange, other: seq<U>, i: nat,
                                     iterators: seq<seq<nat>>,
                                     m: (T, U) -> bool, nr: Seq<T> -> Repeats.RepeatRange)
    requires iterators == SizeTuples(nr(e).start, nr(e).UpperOr(|other|), i, |other|)
    requires forall k :: 0 <= k < |iterators| ==> Sum(iterators[k]) == |other|
    requires forall k :: 0 <= k < |iterators| ==> !ChunksMatch(e, other, iterators[k], m, nr)
    ensures forall sizes :: |sizes| == i ==> !RepeatWitness(e, r, other, sizes, m, nr)
  {
    forall sizes | |sizes| == i
      ensures !RepeatWitness(e, r, other, sizes, m, nr)
    {
      WitnessIsCandidate(e, r, other, sizes, m, nr);
    }
  }

  /** A witness tuple is among the candidates of its count, and its chunks all match. */
  lemma WitnessIsCandidate<T, U>(e: Seq<T>, r: Repeats.RepeatRange, other: seq<U>, sizes: seq<nat>,
                                 m: (T, U) -> bool, nr: Seq<T> -> Repeats.RepeatRange)
    ensures RepeatWitness(e, r, other, sizes, m, nr) ==>
      sizes in SizeTuples(nr(e).start, nr(e).UpperOr(|other|), |sizes|, |other|) &&
      ChunksMatch(e, other, sizes, m, nr)
  {
  }

  /** `repeat_n(e_range, i).multi_cartesian_product().filter(sum == len)` */
  function SizeTuples(lo: nat, hi: nat, i: nat, len: nat): (ts: seq<seq<nat>>)
    ensures forall t :: t in ts <==> |t| == i && Sum(t) == len && forall j :: 0 <= j < i ==> lo <= t[j] < hi
  {
    var ts := WithSum(Product(Repeated(lo, hi, i)), len);
    assert forall t :: t in ts <==> t in Product(Repeated(lo, hi, i)) && Sum(t) == len;
    forall t ensures t in Product(Repeated(lo, hi, i)) <==> Within(t, Repeated(lo, hi, i)) {
      ProductMembers(Repeated(lo, hi, i), t);
    }
    ts
  }

  /**
    The `'outer` loop of the `Repeat` arm for one count: for each size tuple
    advance `skip` chunk by chunk, abandon the tuple at the first chunk `e`
    rejects, and succeed on the first tuple whose chunks all match.
   */
  method SearchSizes<T, U>(e: Seq<T>, r: Repeats.RepeatRange, other: seq<U>, iterators: seq<seq<nat>>,
                           m: (T, U) -> bool, nr: Seq<T> -> Repeats.RepeatRange)
    returns (b: bool)
    requires forall k :: 0 <= k < |iterators| ==> Sum(iterators[k]) == |other|
    ensures b ==> exists k :: 0 <= k < |iterators| && ChunksMatch(e, other, iterators[k], m, nr)
    ensures !b ==> forall k :: 0 <= k < |iterators| ==> !ChunksMatch(e, other, iterators[k], m, nr)
    decreases Repeat(e, r), 0
  {
    label Outer:
    for n := 0 to |iterators|
      invariant forall k :: 0 <= k < n ==> !ChunksMatch(e, other, iterators[k], m, nr)
    {
      var vals := iterators[n];
      var skip := 0;
      for j := 0 to |vals|
        invariant skip == Offset(vals, j)
        invariant forall j' :: 0 <= j' < j ==> Matches(e, Chunk(other, vals, j'), m, nr)
      {
        var v := vals[j];
        BlocksWithin(vals, j);
        var ok := IsMatch(e, other[skip..skip + v], m, nr);
        if !ok {
          assert Chunk(other, vals, j) == other[skip..skip + v];
          assert !ChunksMatch(e, other, iterators[n], m, nr);
          continue Outer;
        }
        OffsetStep(vals, j);
        skip := skip + v;
      }
      assert ChunksMatch(e, other, vals, m, nr);
      return true;
    }
    return false;
  }

  /** Every chunk of `s` under `sizes` is matched by `e` as a whole. */
  ghost predicate ChunksMatch<T, U>(e: Seq<T>, s: seq<U>, sizes: seq<nat>,
                                    m: (T, U) -> bool, nr: Seq<T> -> Repeats.RepeatRange)
    requires Sum(sizes) == |s|
  {
    forall j :: 0 <= j < |sizes| ==> Matches(e, Chunk(s, sizes, j), m, nr)
  }

  /**
    The `Seq` arm: try each split point in `a`'s reported range, stopping
    once it passes the end of the list; succeed on the first split where `a`
    matches the prefix and `b` the rest.
   */
  method SeqIsMatch<T, U>(a: Seq<T>, c: Seq<T>, other: seq<U>,
                          m: (T, U) -> bool, nr: Seq<T> -> Repeats.RepeatRange)
    returns (b: bool)
    ensures b == Matches(Seq(a, c), other, m, nr)
    decreases Seq(a, c), 1
  {
    var range := nr(a);
    var i := range.start;
    var top := range.UpperOr(|other|);
    while i < top
      invariant range.start <= i
      invariant forall k :: range.start <= k < i ==> !SplitWitness(a, c, other, k, m, nr)
    {
      if i > |other| {
        break;
      }
      var l, r := other[..i], other[i..];
      var left := IsMatch(a, l, m, nr);
      if left {
        var right := IsMatch(c, r, m, nr);
        if right {
          assert SplitWitness(a, c, other, i, m, nr);
          return true;
        }
      }
      i := i + 1;
    }
    return false;
  }

  /** `Seq::is_match` on a `Vec`: the same as on its slice. */
  method IsMatchVec<T, U>(p: Seq<T>, other: seq<U>, m: (T, U) -> bool, nr: Seq<T> -> Repeats.RepeatRange)
    returns (b: bool)
    ensures b == Matches(p, other, m, nr)
  {
    b := IsMatch(p, other, m, nr);
  }

  // ---------------------------------------------------------------- properties

  /** A repeat whose range admits zero matches the empty list, whatever its element. */
  lemma RepeatZeroMatchesEmpty<T, U>(e: Seq<T>, r: Repeats.RepeatRange, s: seq<U>, m: (T, U) -> bool,
                                     nr: Seq<T> -> Repeats.RepeatRange)
    requires r.start == 0 && |s| == 0
    ensures Matches(Repeat(e, r), s, m, nr)
  {
  }

  /** The name of a `Named` sequence node is ignored. */
  lemma SeqNamedIgnoresName<T, U>(e: Seq<T>, n: string, s: seq<U>, m: (T, U) -> bool,
                                  nr: Seq<T> -> Repeats.RepeatRange)
    ensures Matches(Seq.Named(e, n), s, m, nr) == Matches(e, s, m, nr)
  {
  }

  /**
    Over single-item elements (an `Elmt` whose reported range admits one
    item), a repeat means what it says: the list is empty and the range
    starts at zero, or the range admits the list's length and every item
    matches the element.
   */
  lemma RepeatOfItems<T, U>(x: T, r: Repeats.RepeatRange, s: seq<U>, m: (T, U) -> bool,
                            nr: Seq<T> -> Repeats.RepeatRange)
    requires nr(Seq.Elmt(x)).Contains(1)
    ensures Matches(Repeat(Seq.Elmt(x), r), s, m, nr) <==>
      (r.start == 0 && |s| == 0) || (r.Contains(|s|) && forall k :: 0 <= k < |s| ==> m(x, s[k]))
  {
    var e := Seq.Elmt(x);
    if sizes :| RepeatWitness(e, r, s, sizes, m, nr) {
      UnitWitnessCoversItems(x, r, s, sizes, m, nr);
    }
    if r.Contains(|s|) && forall k :: 0 <= k < |s| ==> m(x, s[k]) {
      ItemsGiveUnitWitness(x, r, s, m, nr);
    }
  }

  /** A repeat witness over single-item elements has one chunk per item, each matching. */
  lemma UnitWitnessCoversItems<T, U>(x: T, r: Repeats.RepeatRange, s: seq<U>, sizes: seq<nat>, m: (T, U) -> bool,
                                     nr: Seq<T> -> Repeats.RepeatRange)
    requires nr(Seq.Elmt(x)).Contains(1)
    requires RepeatWitness(Seq.Elmt(x), r, s, sizes, m, nr)
    ensures r.Contains(|s|) && forall k :: 0 <= k < |s| ==> m(x, s[k])
  {
    var e := Seq.Elmt(x);
    forall j | 0 <= j < |sizes| ensures sizes[j] == 1 {
      assert Matches(e, Chunk(s, sizes, j), m, nr);
      assert |Chunk(s, sizes, j)| == sizes[j];
    }
    UnitOffsets(sizes, |sizes|);
    OffsetFull(sizes);
    assert |sizes| == |s|;
    forall k | 0 <= k < |s| ensures m(x, s[k]) {
      UnitOffsets(sizes, k);
      assert Chunk(s, sizes, k) == [s[k]];
      assert Matches(e, Chunk(s, sizes, k), m, nr);
    }
  }

  /** Items that all match a single-item element, in an admitted number, form a witness of unit chunks. */
  lemma ItemsGiveUnitWitness<T, U>(x: T, r: Repeats.RepeatRange, s: seq<U>, m: (T, U) -> bool,
                                   nr: Seq<T> -> Repeats.RepeatRange)
    requires nr(Seq.Elmt(x)).Contains(1)
    requires r.Contains(|s|) && forall k :: 0 <= k < |s| ==> m(x, s[k])
    ensures RepeatWitness(Seq.Elmt(x), r, s, seq(|s|, _ => 1), m, nr)
  {
    var e := Seq.Elmt(x);
    var sizes: seq<nat> := seq(|s|, _ => 1);
    if |s| > 0 {
      Repeats.UpperOrAgreesWithContains(nr(e), |s|, 1);
    }
    Repeats.UpperOrAgreesWithContains(r, |s|, |s|);
    UnitOffsets(sizes, |sizes|);
    OffsetFull(sizes);
    forall k | 0 <= k < |s| ensures Matches(e, Chunk(s, sizes, k), m, nr) {
      UnitOffsets(sizes, k);
      assert Chunk(s, sizes, k) == [s[k]];
    }
  }

  /**
    `Repeat(x, 1..3)` over items that all match `x` accepts lengths 1 and 2
    and rejects every other length, the empty list included.
   */
  lemma RepeatCountBoundaries<T, U>(x: T, s: seq<U>, m: (T, U) -> bool, nr: Seq<T> -> Repeats.RepeatRange)
    requires nr(Seq.Elmt(x)).Contains(1)
    requires forall k :: 0 <= k < |s| ==> m(x, s[k])
    ensures Matches(Repeat(Seq.Elmt(x), Repeats.FromRange(1, 3)), s, m, nr) <==> 1 <= |s| <= 2
  {
    RepeatOfItems(x, Repeats.FromRange(1, 3), s, m, nr);
  }

  /**
    The `Seq(a, b)` arm of `Matches` with `SplitWitness` unfolded: a
    concatenation splits no further than the end of the list, with `a`
    before `b`.
   */
  lemma SeqSplitsWithinList<T, U>(a: Seq<T>, b: Seq<T>, s: seq<U>, m: (T, U) -> bool,
                                  nr: Seq<T> -> Repeats.RepeatRange)
    ensures Matches(Seq(a, b), s, m, nr) <==>
      exists i :: nr(a).start <= i < nr(a).UpperOr(|s|) && i <= |s| &&
        Matches(a, s[..i], m, nr) && Matches(b, s[i..], m, nr)
  {
    assert Matches(Seq(a, b), s, m, nr) == exists i :: SplitWitness(a, b, s, i, m, nr);
    forall i
      ensures SplitWitness(a, b, s, i, m, nr) <==>
        (nr(a).start <= i < nr(a).UpperOr(|s|) && i <= |s| &&
         Matches(a, s[..i], m, nr) && Matches(b, s[i..], m, nr))
    {
    }
  }
}
