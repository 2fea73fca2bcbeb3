/**
  The builder macros.  `any!` builds a value alternative (`None`: anything;
  `Some(list)`: one of these); `seq!` builds an ordered list of repeated
  elements, converting each range with `RepeatRange::from`.  The two
  records they build are declared here from the macros' own use.
 */
module Macros {
  import opened Wrappers
  import opened Repeats

  datatype MatchValues<T> = MatchValues(values: Option<seq<T>>)

  datatype MatchSequences<T> = MatchSequences(entries: seq<Repeat<T>>)

  /** `any!()`: the match-anything form. */
  function AnyAll<T>(): (v: MatchValues<T>)
    ensures v.values == None
  {
    MatchValues(None)
  }

  /** `any!(x1, ..., xn)` with at least one value (the second arm): the listed values, in argument order. */
  function AnyOf<T>(xs: seq<T>): (v: MatchValues<T>)
    requires |xs| > 0
    ensures v.values.Some? && |v.values.value| == |xs|
    ensures forall i :: 0 <= i < |xs| ==> v.values.value[i] == xs[i]
  {
    MatchValues(Some(xs))
  }

  /**
    `any!(...)` as a whole: an empty call takes the first arm and allows
    anything; any other call lists its values.
   */
  function AnyMacro<T>(xs: seq<T>): (v: MatchValues<T>)
    ensures |xs| == 0 ==> v.values.None?
    ensures |xs| > 0 ==> v.values == Some(xs)
  {
    if |xs| == 0 then AnyAll() else AnyOf(xs)
  }

  /** `seq!()`: one entry, any value, any number of times. */
  function SeqAll<T>(): (s: MatchSequences<MatchValues<T>>)
    ensures |s.entries| == 1
    ensures s.entries[0].elmt == AnyAll() && s.entries[0].elmt.values == None
    ensures s.entries[0].range == RepeatRange(0, None)
    ensures forall k: nat :: s.entries[0].range.Contains(k)
  {
    MatchSequences([Repeat(AnyAll(), From(RangeFull))])
  }

  /** `seq!(e1; r1, ..., en; rn)` with at least one pair (the second arm): pushes one entry per pair, in order. */
  method SeqOf<T>(args: seq<(T, Notation)>) returns (s: MatchSequences<T>)
    requires |args| > 0
    ensures |s.entries| == |args|
    ensures forall i :: 0 <= i < |args| ==>
      s.entries[i].elmt == args[i].0 && s.entries[i].range == From(args[i].1)
  {
    var v: seq<Repeat<T>> := [];
    for i := 0 to |args|
      invariant |v| == i
      invariant forall j :: 0 <= j < i ==> v[j].elmt == args[j].0 && v[j].range == From(args[j].1)
    {
      v := v + [Repeat(args[i].0, From(args[i].1))];
    }
    s := MatchSequences(v);
  }

  /**
    `seq!(...)` as a whole, over value alternatives: an empty call takes the
    first arm (one entry allowing anything, any number of times); any other
    call pushes its pairs in order.
   */
  method SeqMacro<T>(args: seq<(MatchValues<T>, Notation)>) returns (s: MatchSequences<MatchValues<T>>)
    ensures |args| == 0 ==>
      (|s.entries| == 1 && s.entries[0].elmt.values.None? && s.entries[0].range == RepeatRange(0, None))
    ensures |args| > 0 ==> |s.entries| == |args|
    ensures |args| > 0 ==>
      (forall i :: 0 <= i < |args| ==> s.entries[i].elmt == args[i].0 && s.entries[i].range == From(args[i].1))
  {
    if |args| == 0 {
      s := SeqAll();
    } else {
      s := SeqOf(args);
    }
  }
}
