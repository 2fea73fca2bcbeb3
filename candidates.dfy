/**
  The candidate count tuples both matchers (`new2.rs` and `matchers_new.rs`)
  search, and the way a
  tuple cuts a list into consecutive blocks.

  Both build their candidates with itertools'
  `multi_cartesian_product` over one count range per factor and keep the
  tuples whose sum is the list length; then they walk the list with a `skip`
  cursor that advances by each count in turn.  Here the product is an
  explicit, ordered sequence of tuples (first factor varying slowest), the
  filter a function on it, and the cursor the prefix sum `Offset`.
 */
module Candidates {

  /** The sum of a tuple (`iter().sum()`), peeled from the back so that a prefix sum grows by one entry. */
  function Sum(t: seq<nat>): (r: nat)
    ensures |t| == 0 ==> r == 0
    ensures |t| > 0 ==> t[|t| - 1] <= r
  {
    if |t| == 0 then 0 else Sum(t[..|t| - 1]) + t[|t| - 1]
  }

  /** The sum peeled from the front agrees with the sum peeled from the back. */
  lemma {:induction false} SumFront(t: seq<nat>)
    requires |t| > 0
    ensures Sum(t) == t[0] + Sum(t[1..])
    decreases |t|
  {
    var n := |t|;
    if n > 1 {
      SumFront(t[..n - 1]);
      assert t[..n - 1][1..] == t[1..][..n - 2];
    }
  }

  /** No entry of a tuple exceeds its sum. */
  lemma {:induction false} EntryBelowSum(t: seq<nat>, j: nat)
    requires j < |t|
    ensures t[j] <= Sum(t)
  {
    if j < |t| - 1 {
      EntryBelowSum(t[..|t| - 1], j);
    }
  }

  /** Where block `j` starts: the sum of the counts before it, i.e. the value of `skip` when block `j` is visited. */
  function Offset(c: seq<nat>, j: nat): (r: nat)
    requires j <= |c|
    ensures j == 0 ==> r == 0
    ensures j == |c| ==> r == Sum(c)
  {
    assert c[..|c|] == c;
    Sum(c[..j])
  }

  lemma OffsetStep(c: seq<nat>, j: nat)
    requires j < |c|
    ensures Offset(c, j + 1) == Offset(c, j) + c[j]
  {
    assert c[..j + 1][..j] == c[..j];
  }

  lemma OffsetFull(c: seq<nat>)
    ensures Offset(c, |c|) == Sum(c)
  {
    assert c[..|c|] == c;
  }

  lemma {:induction false} OffsetMonotone(c: seq<nat>, i: nat, j: nat)
    requires i <= j <= |c|
    ensures Offset(c, i) <= Offset(c, j)
    decreases j - i
  {
    if i < j {
      OffsetMonotone(c, i, j - 1);
      OffsetStep(c, j - 1);
    }
  }

  /**
    Slice bounds: once the counts sum to the length of the list, every block
    `skip..skip+v` ends inside the list.
   */
  lemma BlocksWithin(c: seq<nat>, j: nat)
    requires j < |c|
    ensures Offset(c, j) + c[j] <= Sum(c)
  {
    OffsetStep(c, j);
    OffsetMonotone(c, j + 1, |c|);
    OffsetFull(c);
  }

  /** Counts that are all 1 cut the list into single items: block `j` starts at `j`. */
  lemma {:induction false} UnitOffsets(c: seq<nat>, j: nat)
    requires forall i :: 0 <= i < |c| ==> c[i] == 1
    requires j <= |c|
    ensures Offset(c, j) == j
  {
    if j > 0 {
      UnitOffsets(c, j - 1);
      OffsetStep(c, j - 1);
    }
  }

  /** Block `j` of `s` under the counts `c`: `s[skip..skip+c[j]]`. */
  function Chunk<U>(s: seq<U>, c: seq<nat>, j: nat): (r: seq<U>)
    requires Sum(c) == |s| && j < |c|
    ensures Offset(c, j) + c[j] <= |s|
    ensures r == s[Offset(c, j)..Offset(c, j) + c[j]]
  {
    BlocksWithin(c, j);
    s[Offset(c, j)..Offset(c, j) + c[j]]
  }

  /** Position `k` lies in block `j`. */
  predicate InBlock(c: seq<nat>, j: int, k: nat)
  {
    0 <= j < |c| && Offset(c, j) <= k < Offset(c, j) + c[j]
  }

  /**
    The blocks partition the list: every position below the total lies in
    exactly one block.
   */
  lemma {:induction false} EveryItemInOneBlock(c: seq<nat>, k: nat)
    requires k < Sum(c)
    ensures exists j :: InBlock(c, j, k)
    ensures forall i, j :: InBlock(c, i, k) && InBlock(c, j, k) ==> i == j
  {
    InSomeBlock(c, k);
    forall i, j | InBlock(c, i, k) && InBlock(c, j, k)
      ensures i == j
    {
      if i < j {
        OffsetStep(c, i);
        OffsetMonotone(c, i + 1, j);
      } else if j < i {
        OffsetStep(c, j);
        OffsetMonotone(c, j + 1, i);
      }
    }
  }

  lemma {:induction false} InSomeBlock(c: seq<nat>, k: nat)
    requires k < Sum(c)
    ensures exists j :: InBlock(c, j, k)
  {
    var n := |c| - 1;
    var front := c[..n];
    if k < Sum(front) {
      InSomeBlock(front, k);
      var j :| InBlock(front, j, k);
      assert front[..j] == c[..j];
      assert InBlock(c, j, k);
    } else {
      assert Offset(c, n) == Sum(front);
      assert InBlock(c, n, k);
    }
  }

  /** `multi_cartesian_product` over the half-open ranges `bounds[j].0 .. bounds[j].1`, in its order. */
  function Product(bounds: seq<(nat, nat)>): (r: seq<seq<nat>>)
    ensures |bounds| == 0 ==> r == [[]]
    ensures (exists j :: 0 <= j < |bounds| && bounds[j].1 <= bounds[j].0) ==> r == []
    decreases |bounds|
  {
    if |bounds| == 0 then [[]]
    else
      SpreadOfNothing(bounds[0].0, bounds[0].1);
      assert forall j :: 0 < j < |bounds| ==> bounds[1..][j - 1] == bounds[j];
      Spread(bounds[0].0, bounds[0].1, Product(bounds[1..]))
  }

  /** Spreading a factor over no tuples gives no tuples. */
  lemma {:induction false} SpreadOfNothing(x: nat, hi: nat)
    ensures Spread(x, hi, []) == []
    decreases hi - x
  {
    if x < hi {
      SpreadOfNothing(x + 1, hi);
    }
  }

  /** The first factor running from `x` up to `hi`, each value prefixed to every tuple of `rest`. */
  function Spread(x: nat, hi: nat, rest: seq<seq<nat>>): seq<seq<nat>>
    decreases hi - x
  {
    if hi <= x then [] else Prefixed(x, rest) + Spread(x + 1, hi, rest)
  }

  function Prefixed(x: nat, rest: seq<seq<nat>>): seq<seq<nat>>
  {
    seq(|rest|, i requires 0 <= i < |rest| => [x] + rest[i])
  }

  lemma PrefixedMembers(x: nat, rest: seq<seq<nat>>, u: seq<nat>)
    ensures u in Prefixed(x, rest) <==> |u| > 0 && u[0] == x && u[1..] in rest
  {
    var r := Prefixed(x, rest);
    if u in r {
      var i :| 0 <= i < |r| && r[i] == u;
      assert u[1..] == rest[i];
    }
    if |u| > 0 && u[0] == x && u[1..] in rest {
      var i :| 0 <= i < |rest| && rest[i] == u[1..];
      assert r[i] == u;
    }
  }

  lemma {:induction false} SpreadMembers(x: nat, hi: nat, rest: seq<seq<nat>>, u: seq<nat>)
    ensures u in Spread(x, hi, rest) <==> |u| > 0 && x <= u[0] < hi && u[1..] in rest
    decreases hi - x
  {
    if x < hi {
      PrefixedMembers(x, rest, u);
      SpreadMembers(x + 1, hi, rest, u);
    }
  }

  /** Every entry lies in its factor's range. */
  predicate Within(t: seq<nat>, bounds: seq<(nat, nat)>)
  {
    |t| == |bounds| && forall j :: 0 <= j < |t| ==> bounds[j].0 <= t[j] < bounds[j].1
  }

  /** The product holds exactly the tuples whose entries lie in their ranges. */
  lemma {:induction false} ProductMembers(bounds: seq<(nat, nat)>, t: seq<nat>)
    ensures t in Product(bounds) <==> Within(t, bounds)
    decreases |bounds|
  {
    if |bounds| > 0 {
      SpreadMembers(bounds[0].0, bounds[0].1, Product(bounds[1..]), t);
      if |t| > 0 {
        ProductMembers(bounds[1..], t[1..]);
        if Within(t[1..], bounds[1..]) && bounds[0].0 <= t[0] < bounds[0].1 {
          forall j | 0 <= j < |t| ensures bounds[j].0 <= t[j] < bounds[j].1 {
            if j > 0 { assert t[1..][j - 1] == t[j]; }
          }
        }
        if Within(t, bounds) {
          forall j | 0 <= j < |t| - 1 ensures bounds[1..][j].0 <= t[1..][j] < bounds[1..][j].1 {
            assert t[1..][j] == t[j + 1];
          }
        }
      }
    }
  }

  /** Every tuple of the product has one entry per factor. */
  lemma ProductLengths(bounds: seq<(nat, nat)>)
    ensures forall t :: t in Product(bounds) ==> |t| == |bounds|
  {
    forall t | t in Product(bounds) ensures |t| == |bounds| {
      ProductMembers(bounds, t);
    }
  }

  /** `repeat_n(range, n)`: the same range as every one of `n` factors. */
  function Repeated(lo: nat, hi: nat, n: nat): (b: seq<(nat, nat)>)
    ensures |b| == n && forall j :: 0 <= j < n ==> b[j] == (lo, hi)
  {
    seq(n, _ => (lo, hi))
  }

  /** `.filter(|x| x.iter().sum() == total)`, keeping the order. */
  function WithSum(ts: seq<seq<nat>>, total: nat): (r: seq<seq<nat>>)
    ensures forall t :: t in r <==> t in ts && Sum(t) == total
  {
    if |ts| == 0 then []
    else (if Sum(ts[0]) == total then [ts[0]] else []) + WithSum(ts[1..], total)
  }
}
