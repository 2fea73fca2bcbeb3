/**
  Repetition ranges: count intervals `[start, end)` whose end may be absent
  (unbounded), built from the seven Rust range notations.  The conversions
  store what they are given and validate nothing.  Counts are `nat`, so the
  `+ 1` of the inclusive notations cannot overflow here.
 */
module Repeats {
  import opened Wrappers

  /** `end` is exclusive; `None` means unbounded above. */
  datatype RepeatRange = RepeatRange(start: nat, end: Option<nat>) {

    /** Whether count `k` is admitted by the range. */
    predicate Contains(k: nat) {
      start <= k && (end.None? || k < end.value)
    }

    /**
      The finite exclusive bound the matchers iterate up to: `end`, or
      `len + 1` when unbounded (`end.unwrap_or(len + 1)`).
     */
    function UpperOr(len: nat): (hi: nat)
      ensures end.Some? ==> hi == end.value
      ensures end.None? ==> hi == len + 1
    {
      end.GetOr(len + 1)
    }
  }

  /** A repeated element with its count range. */
  datatype Repeat<T> = Repeat(elmt: T, range: RepeatRange)

  /** `a..b` */
  function FromRange(a: nat, b: nat): (r: RepeatRange)
    ensures r.start == a && r.end == Some(b)
    ensures forall k: nat :: r.Contains(k) <==> a <= k < b
  {
    RepeatRange(a, Some(b))
  }

  /** `a..` */
  function FromRangeFrom(a: nat): (r: RepeatRange)
    ensures r.start == a && r.end == None
    ensures forall k: nat :: r.Contains(k) <==> a <= k
  {
    RepeatRange(a, None)
  }

  /** `..` */
  function FromRangeFull(): (r: RepeatRange)
    ensures r.start == 0 && r.end == None
    ensures forall k: nat :: r.Contains(k)
  {
    RepeatRange(0, None)
  }

  /** `a..=b`: the inclusive end is stored as `b + 1`. */
  function FromRangeInclusive(a: nat, b: nat): (r: RepeatRange)
    ensures r.start == a && r.end == Some(b + 1)
    ensures forall k: nat :: r.Contains(k) <==> a <= k <= b
  {
    RepeatRange(a, Some(b + 1))
  }

  /** `..b` */
  function FromRangeTo(b: nat): (r: RepeatRange)
    ensures r.start == 0 && r.end == Some(b)
    ensures forall k: nat :: r.Contains(k) <==> k < b
  {
    RepeatRange(0, Some(b))
  }

  /** `..=b` */
  function FromRangeToInclusive(b: nat): (r: RepeatRange)
    ensures r.start == 0 && r.end == Some(b + 1)
    ensures forall k: nat :: r.Contains(k) <==> k <= b
  {
    RepeatRange(0, Some(b + 1))
  }

  /** A bare count `n`: exactly `n` repetitions. */
  function FromCount(n: nat): (r: RepeatRange)
    ensures r.start == n && r.end == Some(n + 1)
    ensures forall k: nat :: r.Contains(k) <==> k == n
  {
    RepeatRange(n, Some(n + 1))
  }

  /** The seven notations `RepeatRange::from` accepts, one per `From` impl. */
  datatype Notation =
    | Range(lo: nat, hi: nat)
    | RangeFrom(lo: nat)
    | RangeFull
    | RangeInclusive(lo: nat, hi: nat)
    | RangeTo(hi: nat)
    | RangeToInclusive(hi: nat)
    | Count(n: nat)

  /** `RepeatRange::from`, dispatched on the notation as Rust dispatches on the argument's type. */
  function From(n: Notation): (r: RepeatRange)
    ensures n.Range? ==> r == FromRange(n.lo, n.hi)
    ensures n.RangeFrom? ==> r == FromRangeFrom(n.lo)
    ensures n.RangeFull? ==> r == FromRangeFull()
    ensures n.RangeInclusive? ==> r == FromRangeInclusive(n.lo, n.hi)
    ensures n.RangeTo? ==> r == FromRangeTo(n.hi)
    ensures n.RangeToInclusive? ==> r == FromRangeToInclusive(n.hi)
    ensures n.Count? ==> r == FromCount(n.n)
  {
    match n
    case Range(a, b) => FromRange(a, b)
    case RangeFrom(a) => FromRangeFrom(a)
    case RangeFull => FromRangeFull()
    case RangeInclusive(a, b) => FromRangeInclusive(a, b)
    case RangeTo(b) => FromRangeTo(b)
    case RangeToInclusive(b) => FromRangeToInclusive(b)
    case Count(c) => FromCount(c)
  }

  /** `a..=b` and `a..b+1` admit exactly the same counts (and are the same value). */
  lemma InclusiveIsExclusivePlusOne(a: nat, b: nat)
    ensures FromRangeInclusive(a, b) == FromRange(a, b + 1)
    ensures forall k: nat :: FromRangeInclusive(a, b).Contains(k) <==> FromRange(a, b + 1).Contains(k)
  {
  }

  /** `..=b` is `..b+1`. */
  lemma ToInclusiveIsToPlusOne(b: nat)
    ensures FromRangeToInclusive(b) == FromRangeTo(b + 1)
  {
  }

  /** No validation: a reversed `a..b` is stored as given and admits no count. */
  lemma ReversedRangeAdmitsNothing(a: nat, b: nat)
    requires b <= a
    ensures FromRange(a, b) == RepeatRange(a, Some(b))
    ensures forall k: nat :: !FromRange(a, b).Contains(k)
  {
  }

  /**
    Substituting `len + 1` for an unbounded end loses no count that a list of
    length `len` could use: for `k <= len`, the finite loop bound agrees with
    `Contains`.
   */
  lemma UpperOrAgreesWithContains(r: RepeatRange, len: nat, k: nat)
    requires k <= len
    ensures r.Contains(k) <==> r.start <= k < r.UpperOr(len)
  {
  }
}
