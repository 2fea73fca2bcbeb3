# Pattern matching over syntax trees: a Dafny model of the matching core

The repository is a prototype of a pattern language for Rust syntax trees.
A pattern node tells whether it matches a value of the tree it is compared
with. The matching core is:

- A **repeat range** (`RepeatRange`). It says how many times a sub-pattern
  may occur: a start, plus an exclusive end that may be absent. It is built
  from every Rust range notation (`a..b`, `a..`, `..`, `a..=b`, `..b`,
  `..=b`) and from a plain count `n`.
- **Leaf equality matching** (`IsMatch` for types compared with `==`).
- The **`any!` / `seq!` macros**, which build `MatchValues` and
  `MatchSequences` values.
- **The `new2.rs` matcher**. Here a pattern is an `Alternative` (an
  empty list of options matches everything), a `Sequence` of repeats, or an
  `Optional`. A sequence is matched by enumerating every choice of repeat
  counts, in cartesian-product order, whose sum is the list's length. Each
  count-tuple is then tried block by block.
- **The newer enum patterns** (`matchers_new.rs`). An `Alt` tree has `Any`,
  `Elmt`, `Named` and `Alt` (or). A `Seq` tree also has `Empty`,
  `Repeat(e, range)` and `Seq(a, b)` (concatenation). A repeat tries every
  repetition count, and then every tuple of chunk sizes with the right sum.
  A concatenation tries every split point inside the range of element
  counts that its left part reports.

## How the model is built

- The element matcher `T: IsMatch<U>` is a function parameter
  `m: (T, U) -> bool`. Every result holds for every such matcher.
- `num_elmts_range`, the number of elements a `Seq` pattern can cover, is
  declared outside this core. It is the parameter `nr: Seq<T> -> RepeatRange`.
  Every result about `MatchersNew` holds for every such function.
- `multi_cartesian_product` is `Candidates.Product`: the ordered product of
  half-open bounds, as an explicit sequence of tuples. The sum filter is
  `Candidates.WithSum`. `repeat_n` is `Candidates.Repeated`.
- The running `skip` cursor is `Candidates.Offset`, the sum of the counts
  before a block. `Candidates.Chunk` is the block itself.
- The looping `is_match` implementations are methods with `for` / `while`
  loops and a labelled `continue`. Each method is proved against a
  specification:
  - `SequenceMatches` for the `new2.rs` matcher;
  - the mutually recursive `Matches`, `RepeatWitness` and `SplitWitness`
    for the enum patterns.

  The witness predicates say what a successful search has found. This lets
  lemmas state a match's meaning without mentioning the enumeration.
- The code compares each chunk of a repeat as a whole (`e.is_match` on the
  slice), not item by item. The model does the same.
- When `r.start == 0` and the list is empty, a `Repeat` returns `true`
  before it looks at `r.end`. So `Repeat(e, 0..0)` matches the empty list,
  even though the range `0..0` admits no count. The model keeps this order
  of checks (`MatchersNew.RepeatZeroMatchesEmpty`).

## Model

| member | source | states |
|---|---|---|
| Repeats.FromRange | src/repeat.rs:10-17 | `a..b` keeps start `a` and exclusive end `b`; it admits exactly the counts `a <= k < b` |
| Repeats.FromRangeFrom | src/repeat.rs:19-26 | `a..` has no end and admits every count from `a` |
| Repeats.FromRangeFull | src/repeat.rs:28-35 | `..` is start 0, no end, and admits every count |
| Repeats.FromRangeInclusive | src/repeat.rs:37-44 | `a..=b` stores end `b + 1` and admits exactly `a <= k <= b` |
| Repeats.FromRangeTo | src/repeat.rs:46-53 | `..b` is start 0, end `b`, and admits exactly `k < b` |
| Repeats.FromRangeToInclusive | src/repeat.rs:56-63 | `..=b` is start 0, end `b + 1`, and admits exactly `k <= b` |
| Repeats.FromCount | src/repeat.rs:65-72 | a count `n` is `n..n+1` and admits exactly `n` |
| Repeats.From | src/repeat.rs:10-72 | each range notation converts through its own `From` implementation |
| Wrappers.Option.GetOr | src/matchers_new.rs:34 | `unwrap_or`: the carried value when present, the default when absent |
| Repeats.RepeatRange.UpperOr | src/matchers_new.rs:34 | an absent end is read as the list length plus one; a present end is kept |
| Repeats.InclusiveIsExclusivePlusOne | src/repeat.rs:37-44 | `a..=b` and `a..b+1` are the same range and admit the same counts |
| Repeats.ToInclusiveIsToPlusOne | src/repeat.rs:56-63 | `..=b` equals `..b+1` |
| Repeats.ReversedRangeAdmitsNothing | src/repeat.rs:10-17 | a range `a..b` with `b <= a` is stored unchanged and admits no count |
| Repeats.UpperOrAgreesWithContains | src/matchers_new.rs:40 | for counts up to the list length, the loop bound `start..end.unwrap_or(len+1)` visits exactly the counts the range admits |
| Matchers.IsMatch | src/matchers.rs:10-14 | equality matching holds exactly when the two values are equal |
| Matchers.MatchReflexive | src/matchers.rs:10-14 | every value matches itself |
| Matchers.MatchSymmetric | src/matchers.rs:10-14 | equality matching is symmetric |
| Matchers.PrimitiveLeaves | src/new2.rs:134-144 | on `char`, `bool` and `u128`, leaf matching is equality |
| Macros.AnyAll | src/macros.rs:4-6 | `any!()` holds no value list (`values` is `None`) |
| Macros.AnyOf | src/macros.rs:7-13 | the second arm, reached with at least one value: `any!(x, ..)` holds exactly the listed values, in order |
| Macros.AnyMacro | src/macros.rs:3-14 | `any!` as a whole: an empty call takes the first arm and allows anything; any other call holds exactly its values |
| Macros.SeqAll | src/macros.rs:18-27 | `seq!()` is one repeat of `any!()` with range `0..`, which admits every count |
| Macros.SeqOf | src/macros.rs:28-41 | the second arm, reached with at least one pair: `seq!(e; r, ..)` pushes one repeat per pair, in order, each with that pair's element and the range converted from its notation |
| Macros.SeqMacro | src/macros.rs:17-42 | `seq!` as a whole: an empty call takes the first arm (one repeat allowing anything over `0..`); any other call pushes its pairs in order |
| Candidates.Sum | src/new2.rs:74 | `iter().sum()`: the empty tuple sums to 0 and the last entry does not exceed the sum |
| Candidates.SumFront | src/new2.rs:74 | the sum is also the first entry plus the sum of the rest |
| Candidates.EntryBelowSum | src/new2.rs:74 | no entry of a tuple exceeds its sum |
| Candidates.Offset | src/new2.rs:78-83 | the `skip` cursor before block `j`: 0 before the first block and the sum of all counts after the last |
| Candidates.OffsetFull | src/new2.rs:78-84 | after the last block the cursor equals the sum of all counts |
| Candidates.OffsetMonotone | src/new2.rs:78-84 | the cursor never moves backwards |
| Candidates.BlocksWithin | src/matchers_new.rs:48-53 | every block ends no later than the sum of the counts |
| Candidates.UnitOffsets | src/matchers_new.rs:48-53 | with all counts equal to one, block `j` starts at item `j` |
| Candidates.Chunk | src/matchers_new.rs:50 | block `j` is the slice `[skip..skip+v]` and lies inside the list when the counts sum to its length |
| Candidates.EveryItemInOneBlock | src/new2.rs:78-84 | when the counts sum to the length, every item lies in exactly one block |
| Candidates.Product | src/new2.rs:71-73 | `multi_cartesian_product`: zero factors give one empty tuple, and a factor with an empty range empties the product (its members are characterised by `ProductMembers`) |
| Candidates.SpreadOfNothing | src/matchers_new.rs:42-43 | spreading a factor over an empty product gives an empty product |
| Candidates.PrefixedMembers | src/new2.rs:71-73 | the tuples with a fixed first value are that value followed by a tuple of the rest |
| Candidates.SpreadMembers | src/new2.rs:71-73 | the tuples for one factor are a first value in its bounds followed by a tuple of the rest |
| Candidates.ProductMembers | src/new2.rs:71-73 | a tuple is in the cartesian product exactly when each coordinate lies within its factor's bounds |
| Candidates.ProductLengths | src/new2.rs:71-73 | every tuple in the product has one coordinate per factor |
| Candidates.Repeated | src/matchers_new.rs:42 | `repeat_n(r, n)` is `n` copies of the same bounds |
| Candidates.WithSum | src/new2.rs:74 | the filter keeps exactly the tuples whose sum is the given total |
| New2.AlternativeIsMatch | src/new2.rs:61-66 | an empty alternative matches everything; otherwise it matches exactly when some option matches |
| New2.Bounds | src/new2.rs:71-72 | each repeat contributes the bounds `start..end.unwrap_or(len+1)` |
| New2.SequenceCandidates | src/new2.rs:71-75 | every candidate has one count per repeat and sums to the list length |
| New2.SkipTake | src/new2.rs:80 | `skip(s).take(v)` is the slice `[s..s+v]` whenever that slice is in range, and is never longer than `v` |
| New2.AllMatch | src/new2.rs:80 | `.all(..)`: true on no items |
| New2.AllMatchMembers | src/new2.rs:80 | `.all(..)` holds exactly when every member of the list is matched by the element |
| New2.SequenceIsMatch | src/new2.rs:68-90 | the result is true exactly when some candidate count-tuple has every block matched by its repeat's element |
| New2.SearchCandidates | src/new2.rs:77-88 | the `'outer` loop returns true exactly when the candidate at some index passes every block |
| New2.CheckBlocks | src/new2.rs:78-86 | the pass over one candidate's blocks, advancing `skip` and abandoning the candidate at the first failing block, succeeds exactly when every block matches |
| New2.CandidateIndices | src/new2.rs:77-88 | some collected candidate passes exactly when the candidate at some index passes |
| New2.SequenceMatchesIffWitness | src/new2.rs:68-90 | a sequence matches exactly when some count-tuple puts each count in its repeat's range, sums to the length, and has every item of each block matched |
| New2.CandidateIsWitness | src/new2.rs:71-85 | a passing candidate is a witness |
| New2.WitnessIsCandidate | src/new2.rs:71-85 | a witness is among the candidates and passes |
| New2.SameBlocks | src/new2.rs:78-84 | the skip/take blocks are exactly the consecutive chunks of the list |
| New2.OptionalIsMatch | src/new2.rs:92-102 | an optional matches exactly when both sides are present and the inner values match |
| New2.AbsentOptionalNeverMatches | src/new2.rs:92-102 | an absent optional pattern matches nothing, not even an absent value |
| New2.AltIsMatch | src/new2.rs:104-109 | `Alt` matches exactly when its option list is empty or some option matches |
| New2.SeqIsMatch | src/new2.rs:112-117 | `Seq` matches exactly when its option list is empty or some sequence option matches |
| New2.OptIsMatch | src/new2.rs:119-124 | `Opt` matches exactly when its option list is empty or some optional option matches |
| New2.OptAbsent | src/new2.rs:119-124 | `Opt` matches an absent value exactly when its option list is empty, and an empty `Opt` matches every value |
| New2.SeqIsMatchIffWitness | src/new2.rs:112-117 | `Seq` matches exactly when its option list is empty or some sequence option has a witness count-tuple |
| MatchersNew.AltIsMatch | src/matchers_new.rs:10-20 | an `Alt` tree matches exactly when it contains `Any` or one of its element leaves matches |
| MatchersNew.AltNamedIgnoresName | src/matchers_new.rs:16 | a name never changes whether an `Alt` tree matches |
| MatchersNew.IsMatch | src/matchers_new.rs:22-79 | the search on a slice returns exactly whether the pattern matches, as defined arm by arm by `Matches` |
| MatchersNew.RepeatIsMatch | src/matchers_new.rs:32-60 | the repeat arm returns true exactly when the empty shortcut applies, or some count in the range has chunk sizes, each within the element's range, summing to the length, with every chunk matched |
| MatchersNew.PassingTupleIsWitness | src/matchers_new.rs:46-56 | a passing size tuple of an admitted count is a repeat witness, so the repeat matches |
| MatchersNew.NoPassingTupleNoWitness | src/matchers_new.rs:40-57 | when no enumerated tuple of count `i` passes, no witness has `i` chunks |
| MatchersNew.WitnessIsCandidate | src/matchers_new.rs:42-44 | the sizes of a repeat witness are among the tuples enumerated for its count |
| MatchersNew.SizeTuples | src/matchers_new.rs:42-44 | the enumerated tuples for count `i` are exactly the length-`i` tuples within the element's bounds that sum to the length |
| MatchersNew.SearchSizes | src/matchers_new.rs:46-56 | the labelled loop finds a tuple whose every chunk matches if one exists, and otherwise reports that none does |
| MatchersNew.SeqIsMatch | src/matchers_new.rs:61-75 | the concatenation arm returns true exactly when some split point in `a`'s range and within the list has `a` matching the prefix and `b` the rest |
| MatchersNew.IsMatchVec | src/matchers_new.rs:81-85 | matching a vector is matching its slice |
| MatchersNew.RepeatZeroMatchesEmpty | src/matchers_new.rs:36-38 | a repeat whose range starts at 0 matches the empty list, whatever its end |
| MatchersNew.SeqNamedIgnoresName | src/matchers_new.rs:29 | a name never changes whether a `Seq` tree matches |
| MatchersNew.RepeatOfItems | src/matchers_new.rs:32-60 | a repeat of an `Elmt` whose reported range admits one item matches a list exactly when the shortcut applies, or the range admits the list's length and every item matches |
| MatchersNew.UnitWitnessCoversItems | src/matchers_new.rs:32-60 | a repeat witness over single-item elements has one chunk per item, so the range admits the length and every item matches |
| MatchersNew.ItemsGiveUnitWitness | src/matchers_new.rs:32-60 | items that all match a single-item element, in an admitted number, form a witness of unit chunks |
| MatchersNew.RepeatCountBoundaries | src/matchers_new.rs:32-60 | a repeat `1..3` of matching items accepts lists of length 1 and 2 only; the empty list is rejected |
| MatchersNew.SeqSplitsWithinList | src/matchers_new.rs:61-75 | unfolding lemma for the `Seq(a, b)` arm of `Matches`: a concatenation matches exactly when some split point in `a`'s range and within the list lets `a` match the prefix and `b` the suffix |

## Left out

- The `println!` calls in the `Seq::Seq` arm are output only, and the model leaves them out.
- `num_elmts_range` is declared outside this core and is not part of this model. It is the parameter `nr`, so every statement about `MatchersNew` is relative to whatever ranges it reports.
- The `Alt`/`Seq` enums and `num_elmts_range` of `matchers_new.rs` come from the external `pattern_tree::matchers` crate (imported at `src/matchers_new.rs:8`), which is not part of this model. The two datatypes are declared from how `src/matchers_new.rs:13-31` uses them.
- The `PatternTreeNode` marker traits and the `Expr`/`Lit`/`Stmt`/`Block` types (`src/pattern_tree.rs`, `src/new2.rs:24-53`) are declarations only. They are matched against rustc syntax nodes only by the adapter impls at `src/new2.rs:148-225`. Those adapters lie outside this core and are not part of this model.
- `MatchValues`/`MatchSequences`: only their construction by the macros is modelled. Their own `is_match` is not among the modelled matchers, and the two types are declared next to the macros.
- Captures and the binding of `Named` patterns are left out, because the matcher ignores names.
- `usize` overflow is left out. `end + 1` and `len + 1` are unbounded naturals, so `..=usize::MAX` does not wrap.
- Candidates.Product: with zero factors, the cartesian product is one empty tuple. Versions of `multi_cartesian_product` disagree on this case. It matters only for a `new2.rs` `Sequence` with no repeats. In `matchers_new.rs` the count 0 is reached only with a non-empty list, whose length no empty tuple sums to.
- New2.SequenceIsMatch and MatchersNew.RepeatIsMatch enumerate the candidate tuples into a sequence before the loop, as `collect()` does in `new2.rs`. The lazy iterator of `matchers_new.rs` is not modelled. In the `new2.rs` search, the body of the `'outer` loop for one candidate is the method `CheckBlocks`, and `continue 'outer` is its early `return false`. In the `Repeat` arm the labelled loop for one repetition count is the method `SearchSizes`, which keeps the labelled `continue`.
- Laziness and short-circuit evaluation in the Rust code affect only how much work is done, not the result. The model follows the same order of checks.
