/**
  The `new2.rs` matcher.  Patterns are flat containers:
  an `Alternative` is a list of options (the empty list matches anything),
  a `Sequence` is a list of repeated elements whose counts must partition the
  input list, an `Optional` matches a present value only.  `Alt`, `Seq` and
  `Opt` wrap them as the pattern-tree node types use them.  Every container
  is generic in its element pattern; `m` is the element pattern's own
  `is_match`.
 */
module New2 {
  import opened Wrappers
  import opened Repeats
  import opened Candidates

  /** An empty option list matches everything. */
  datatype Alternative<T> = Alternative(options: seq<T>)

  datatype Sequence<T> = Sequence(repeats: seq<Repeat<T>>)

  datatype Optional<T> = Optional(pattern: Option<T>)

  datatype Alt<T> = Alt(alternative: Alternative<T>)

  datatype Seq<T> = Seq(alternative: Alternative<Sequence<Alternative<T>>>)

  datatype Opt<T> = Opt(alternative: Alternative<Optional<Alternative<T>>>)

  /** `Alternative::is_match`: the list is empty, or some option matches. */
  function AlternativeIsMatch<T, U>(p: Alternative<T>, other: U, m: (T, U) -> bool): (r: bool)
    ensures |p.options| == 0 ==> r
    ensures |p.options| > 0 ==> (r <==> exists i :: 0 <= i < |p.options| && m(p.options[i], other))
  {
    |p.options| == 0 || exists i :: 0 <= i < |p.options| && m(p.options[i], other)
  }

  /** `is_match` of an `Alternative` of element patterns, as a matcher in its own right. */
  function AlternativeMatcher<T, U>(m: (T, U) -> bool): (T2: (Alternative<T>, U) -> bool)
  {
    (a: Alternative<T>, u: U) => AlternativeIsMatch(a, u, m)
  }

  // ---------------------------------------------------------------- Sequence

  /** The count range of each repeat, its unbounded end replaced by `len + 1`. */
  function Bounds<T>(reps: seq<Repeat<T>>, len: nat): (b: seq<(nat, nat)>)
    ensures |b| == |reps|
    ensures forall i :: 0 <= i < |reps| ==> b[i] == (reps[i].range.start, reps[i].range.UpperOr(len))
  {
    seq(|reps|, i requires 0 <= i < |reps| => (reps[i].range.start, reps[i].range.UpperOr(len)))
  }

  /** The collected candidates: count tuples over the repeats' ranges summing to `len`. */
  function SequenceCandidates<T>(reps: seq<Repeat<T>>, len: nat): (cs: seq<seq<nat>>)
    ensures forall c :: c in cs ==> |c| == |reps| && Sum(c) == len
  {
    ProductLengths(Bounds(reps, len));
    WithSum(Product(Bounds(reps, len)), len)
  }

  /** `other.iter().skip(skip).take(v)`: both adapters stop at the end of the list. */
  function SkipTake<U>(s: seq<U>, skip: nat, v: nat): (r: seq<U>)
    ensures skip + v <= |s| ==> r == s[skip..skip + v]
    ensures |r| <= v
  {
    var lo := if skip <= |s| then skip else |s|;
    var hi := if skip + v <= |s| then skip + v else |s|;
    s[lo..hi]
  }

  /** `.all(|x| elmt.is_match(x))` */
  predicate AllMatch<T, U>(elmt: T, items: seq<U>, m: (T, U) -> bool): (r: bool)
    ensures |items| == 0 ==> r
  {
    forall k :: 0 <= k < |items| ==> m(elmt, items[k])
  }

  /** `.all(..)` holds exactly when every member of the list is matched, wherever it occurs. */
  lemma AllMatchMembers<T, U>(elmt: T, items: seq<U>, m: (T, U) -> bool)
    ensures AllMatch(elmt, items, m) <==> forall x :: x in items ==> m(elmt, x)
  {
    if AllMatch(elmt, items, m) {
      forall x | x in items ensures m(elmt, x) {
        var k :| 0 <= k < |items| && items[k] == x;
      }
    }
  }

  /** A candidate passes when each block, in repeat order, matches that repeat's element. */
  predicate BlocksMatch<T, U>(reps: seq<Repeat<T>>, other: seq<U>, c: seq<nat>, m: (T, U) -> bool)
  {
    && |c| == |reps|
    && forall i :: 0 <= i < |c| ==> AllMatch(reps[i].elmt, SkipTake(other, Offset(c, i), c[i]), m)
  }

  /** The value `Sequence::is_match` computes: some collected candidate passes. */
  predicate SequenceMatches<T, U>(p: Sequence<T>, other: seq<U>, m: (T, U) -> bool)
  {
    exists c :: c in SequenceCandidates(p.repeats, |other|) && BlocksMatch(p.repeats, other, c, m)
  }

  /** `Sequence::is_match`: collect the candidates, then search them. */
  method SequenceIsMatch<T, U>(p: Sequence<T>, other: seq<U>, m: (T, U) -> bool) returns (b: bool)
    ensures b == SequenceMatches(p, other, m)
  {
    var iterators := SequenceCandidates(p.repeats, |other|);
    b := SearchCandidates(p.repeats, other, iterators, m);
    CandidateIndices(p.repeats, other, iterators, m);
  }

  /**
    The `'outer` loop of `Sequence::is_match`: try the candidates in order and
    succeed on the first one whose blocks all match.
   */
  method SearchCandidates<T, U>(reps: seq<Repeat<T>>, other: seq<U>, iterators: seq<seq<nat>>, m: (T, U) -> bool)
    returns (b: bool)
    requires forall k :: 0 <= k < |iterators| ==> |iterators[k]| == |reps|
    ensures b <==> exists k :: 0 <= k < |iterators| && BlocksMatch(reps, other, iterators[k], m)
  {
    for n := 0 to |iterators|
      invariant forall k :: 0 <= k < n ==> !BlocksMatch(reps, other, iterators[k], m)
    {
      var ok := CheckBlocks(reps, other, iterators[n], m);
      if ok {
        return true;
      }
    }
    return false;
  }

  /** Some member of the list passes exactly when the member at some index does. */
  lemma CandidateIndices<T, U>(reps: seq<Repeat<T>>, other: seq<U>, iterators: seq<seq<nat>>, m: (T, U) -> bool)
    ensures (exists c :: c in iterators && BlocksMatch(reps, other, c, m)) <==>
      exists k :: 0 <= k < |iterators| && BlocksMatch(reps, other, iterators[k], m)
  {
    if c :| c in iterators && BlocksMatch(reps, other, c, m) {
      var k :| 0 <= k < |iterators| && iterators[k] == c;
    }
    if k :| 0 <= k < |iterators| && BlocksMatch(reps, other, iterators[k], m) {
      assert iterators[k] in iterators;
    }
  }

  /**
    The body of the `'outer` loop for one candidate: advance `skip` block by
    block and give up at the first block that fails (`continue 'outer`).
   */
  method CheckBlocks<T, U>(reps: seq<Repeat<T>>, other: seq<U>, vals: seq<nat>, m: (T, U) -> bool)
    returns (ok: bool)
    requires |vals| == |reps|
    ensures ok == BlocksMatch(reps, other, vals, m)
  {
    var skip := 0;
    for i := 0 to |vals|
      invariant skip == Offset(vals, i)
      invariant forall j :: 0 <= j < i ==>
        AllMatch(reps[j].elmt, SkipTake(other, Offset(vals, j), vals[j]), m)
    {
      if !AllMatch(reps[i].elmt, SkipTake(other, skip, vals[i]), m) {
        assert !AllMatch(reps[i].elmt, SkipTake(other, Offset(vals, i), vals[i]), m);
        return false;
      }
      assert AllMatch(reps[i].elmt, SkipTake(other, Offset(vals, i), vals[i]), m);
      OffsetStep(vals, i);
      skip := skip + vals[i];
    }
    return true;
  }

  /**
    A witness for a `Sequence` match: one count per repeat inside that
    repeat's range, the counts summing to the list length, and every item of
    block `i` matching repeat `i`'s element.
   */
  ghost predicate SequenceWitness<T, U>(reps: seq<Repeat<T>>, other: seq<U>, c: seq<nat>, m: (T, U) -> bool)
  {
    && |c| == |reps|
    && (forall i :: 0 <= i < |c| ==> reps[i].range.start <= c[i] < reps[i].range.UpperOr(|other|))
    && Sum(c) == |other|
    && (forall i :: 0 <= i < |c| ==> AllMatch(reps[i].elmt, Chunk(other, c, i), m))
  }

  /** The search succeeds exactly when a witness partition exists. */
  lemma SequenceMatchesIffWitness<T, U>(p: Sequence<T>, other: seq<U>, m: (T, U) -> bool)
    ensures SequenceMatches(p, other, m) <==> exists c :: SequenceWitness(p.repeats, other, c, m)
  {
    if SequenceMatches(p, other, m) {
      var c :| c in SequenceCandidates(p.repeats, |other|) && BlocksMatch(p.repeats, other, c, m);
      CandidateIsWitness(p.repeats, other, c, m);
    }
    if c :| SequenceWitness(p.repeats, other, c, m) {
      WitnessIsCandidate(p.repeats, other, c, m);
    }
  }

  lemma CandidateIsWitness<T, U>(reps: seq<Repeat<T>>, other: seq<U>, c: seq<nat>, m: (T, U) -> bool)
    requires c in SequenceCandidates(reps, |other|) && BlocksMatch(reps, other, c, m)
    ensures SequenceWitness(reps, other, c, m)
  {
    var bounds := Bounds(reps, |other|);
    assert c in Product(bounds) && Sum(c) == |other|;
    ProductMembers(bounds, c);
    forall j | 0 <= j < |c| ensures reps[j].range.start <= c[j] < reps[j].range.UpperOr(|other|) {
      assert bounds[j].0 <= c[j] < bounds[j].1;
    }
    SameBlocks(reps, other, c, m);
  }

  lemma WitnessIsCandidate<T, U>(reps: seq<Repeat<T>>, other: seq<U>, c: seq<nat>, m: (T, U) -> bool)
    requires SequenceWitness(reps, other, c, m)
    ensures c in SequenceCandidates(reps, |other|) && BlocksMatch(reps, other, c, m)
  {
    var bounds := Bounds(reps, |other|);
    assert Within(c, bounds) by {
      forall j | 0 <= j < |c| ensures bounds[j].0 <= c[j] < bounds[j].1 {
        assert bounds[j] == (reps[j].range.start, reps[j].range.UpperOr(|other|));
      }
    }
    ProductMembers(bounds, c);
    assert c in WithSum(Product(bounds), |other|);
    SameBlocks(reps, other, c, m);
  }

  /** With counts summing to the length, the saturating `skip`/`take` blocks are exactly the chunks. */
  lemma SameBlocks<T, U>(reps: seq<Repeat<T>>, other: seq<U>, c: seq<nat>, m: (T, U) -> bool)
    requires |c| == |reps| && Sum(c) == |other|
    ensures BlocksMatch(reps, other, c, m) <==>
      forall i :: 0 <= i < |c| ==> AllMatch(reps[i].elmt, Chunk(other, c, i), m)
  {
    forall i | 0 <= i < |c|
      ensures SkipTake(other, Offset(c, i), c[i]) == Chunk(other, c, i)
    {
      BlocksWithin(c, i);
    }
  }

  // ---------------------------------------------------------------- Optional

  /** `Optional::is_match`: only a present pattern against a present value, by the inner pattern. */
  function OptionalIsMatch<T, U>(p: Optional<T>, other: Option<U>, m: (T, U) -> bool): (r: bool)
    ensures r <==> p.pattern.Some? && other.Some? && m(p.pattern.value, other.value)
  {
    match (p.pattern, other)
    case (Some(i), Some(j)) => m(i, j)
    case _ => false
  }

  /** `Optional(None)` matches nothing, not even an absent value. */
  lemma AbsentOptionalNeverMatches<T, U>(other: Option<U>, m: (T, U) -> bool)
    ensures !OptionalIsMatch(Optional(None), other, m)
  {
  }

  // ---------------------------------------------------------------- wrappers

  /** `Alt::is_match` is its `Alternative`'s. */
  function AltIsMatch<T, U>(p: Alt<T>, other: U, m: (T, U) -> bool): (r: bool)
    ensures r <==> (|p.alternative.options| == 0 ||
      exists i :: 0 <= i < |p.alternative.options| && m(p.alternative.options[i], other))
  {
    AlternativeIsMatch(p.alternative, other, m)
  }

  /** The matcher of the `Sequence`s inside a `Seq`, whose elements are `Alternative`s. */
  function SequenceMatcher<T, U>(m: (T, U) -> bool): (S: (Sequence<Alternative<T>>, seq<U>) -> bool)
  {
    (q: Sequence<Alternative<T>>, v: seq<U>) => SequenceMatches(q, v, AlternativeMatcher(m))
  }

  /** The matcher of the `Optional`s inside an `Opt`. */
  function OptionalMatcher<T, U>(m: (T, U) -> bool): (O: (Optional<Alternative<T>>, Option<U>) -> bool)
  {
    (o: Optional<Alternative<T>>, v: Option<U>) => OptionalIsMatch(o, v, AlternativeMatcher(m))
  }

  /** `Seq::is_match` is its `Alternative`'s: no sequences at all, or one of them matches the list. */
  function SeqIsMatch<T, U>(p: Seq<T>, other: seq<U>, m: (T, U) -> bool): (r: bool)
    ensures r <==> (|p.alternative.options| == 0 ||
      exists i :: 0 <= i < |p.alternative.options| &&
        SequenceMatches(p.alternative.options[i], other, AlternativeMatcher(m)))
  {
    AlternativeIsMatch(p.alternative, other, SequenceMatcher(m))
  }

  /** `Opt::is_match` is its `Alternative`'s: no optionals at all, or one of them matches. */
  function OptIsMatch<T, U>(p: Opt<T>, other: Option<U>, m: (T, U) -> bool): (r: bool)
    ensures r <==> (|p.alternative.options| == 0 ||
      exists i :: 0 <= i < |p.alternative.options| &&
        OptionalIsMatch(p.alternative.options[i], other, AlternativeMatcher(m)))
  {
    AlternativeIsMatch(p.alternative, other, OptionalMatcher(m))
  }

  /** An absent value is matched only by an `Opt` with an empty outer list, which matches anything. */
  lemma OptAbsent<T, U>(p: Opt<T>, m: (T, U) -> bool)
    ensures OptIsMatch(p, None, m) <==> |p.alternative.options| == 0
    ensures |p.alternative.options| == 0 ==> forall v: Option<U> :: OptIsMatch(p, v, m)
  {
  }

  /**
    A `Seq` match in terms of positions: some option's repeats admit counts
    partitioning the list so that every item matches its block's alternative.
   */
  lemma SeqIsMatchIffWitness<T, U>(p: Seq<T>, other: seq<U>, m: (T, U) -> bool)
    ensures SeqIsMatch(p, other, m) <==> (|p.alternative.options| == 0 ||
      exists i, c :: 0 <= i < |p.alternative.options| &&
        SequenceWitness(p.alternative.options[i].repeats, other, c, AlternativeMatcher(m)))
  {
    var opts := p.alternative.options;
    forall i | 0 <= i < |opts| {
      SequenceMatchesIffWitness(opts[i], other, AlternativeMatcher(m));
    }
  }
}
