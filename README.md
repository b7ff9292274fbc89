# sortn line pipeline, modelled in Dafny

`sortn` reads every line of its standard input into memory, optionally
drops blank lines, then either shuffles the lines or sorts them in
"natural" order (`natord::compare`, optionally on lower-cased keys and
optionally reversed), optionally drops every line whose comparison key
was already seen, and prints the result. This project models the part of
`main` between reading and printing (src/main.rs:53-101) and proves what
each stage does and what the whole run does.

Files and modules:

- `orderings.dfy`, module `Orderings`: Rust's `Ordering` and its
  `reverse`, comparators as total preorders, sortedness, reversal.
- `text.dfy`, module `Text`: `str::trim` (with Rust's `char::is_whitespace`
  character set) and the ASCII part of `str::to_lowercase`.
- `retain.dfy`, module `Retain`: `Vec::retain`, given the closure's answers
  as a sequence of flags.
- `sorting.dfy`, module `Sorting`: the shuffle (Fisher-Yates with the
  random choice left open) and a comparison sort against a comparator,
  and the uniqueness of a sorted permutation.
- `pipeline.dfy`, module `Pipeline`: the `Config` flags, comparison keys,
  the three stages as methods with loops, and `Run`, the whole pipeline.

The `Vec<String>` that `main` changes in place is a `seq<string>` local of
`Pipeline.Run` that each stage replaces. The blank filter and the dedupe
are methods with their own `while` loops; the ordering stage hands its
loops to `Sorting.Shuffle` and to `Sorting.Sort`/`Sorting.Insert`. The dedupe loop keeps the set of keys already seen, as the
`HashSet` does. `natord::compare` lives in another crate and is the
parameter `natord`. The model assumes only that it is a total preorder
(`Orderings.TotalPreorder`). Sorting and dedupe use one key function,
`Pipeline.Key`, so they fold case the same way.

## Model

| member | source | states |
|---|---|---|
| `Text.TrimStart` | src/main.rs:55 | the result is a suffix of the line; everything dropped is whitespace; it does not start with whitespace |
| `Text.TrimEnd` | src/main.rs:55 | the result is a prefix of the line; everything dropped is whitespace; it does not end with whitespace |
| `Text.Trim` | src/main.rs:55 | `trim()` is empty exactly when every character of the line is whitespace; otherwise it neither starts nor ends with whitespace |
| `Text.TrimMiddle` | src/main.rs:55 | `trim` returns the stretch of the line that starts after the leading whitespace; everything before and after it is whitespace |
| `Text.IsWhitespace` | src/main.rs:55 | the character set `char::is_whitespace` accepts and `trim` strips: Unicode White_Space (no contract; a definition) |
| `Text.IsBlank` | src/main.rs:55 | `l.trim().is_empty()` holds exactly when the line consists of whitespace only, the empty line included |
| `Text.ToLowerChar` | src/main.rs:68 | an upper-case ASCII letter becomes its lower-case partner; the result is never upper-case ASCII; other characters are unchanged |
| `Text.ToLowerCharAgree` | src/main.rs:68 | two characters lower to the same character exactly when they agree up to ASCII case |
| `Text.ToLowerAgree` | src/main.rs:67-68 | two lines lower to the same string exactly when they have the same length and agree up to ASCII case at every position, so "A" and "a" share a key |
| `Text.ToLower` | src/main.rs:91 | lowering keeps the length and lowers character by character |
| `Retain.Retained` | src/main.rs:55 | `retain` keeps one element per `true` answer of the closure |
| `Retain.RetainedSubmultiset` | src/main.rs:55 | `retain` never adds or duplicates an element |
| `Retain.RetainedAll` | src/main.rs:55 | when the closure answers `true` everywhere, `retain` changes nothing |
| `Retain.RetainedMember` | src/main.rs:86-99 | every kept element stands at a position the closure answered `true` for |
| `Retain.RetainedSorted` | src/main.rs:84-86 | a `retain` applied after the sort leaves the lines sorted |
| `Retain.RetainedStep` | src/main.rs:86 | each call of the closure extends the kept prefix by at most the current element |
| `Pipeline.NonBlankMask` | src/main.rs:55 | the answers of the blank-filter closure, one per line |
| `Pipeline.NonBlankMaskMeaning` | src/main.rs:55 | the closure keeps a line exactly when it holds a character that is not whitespace |
| `Pipeline.SkipBlankLines` | src/main.rs:54-56 | the result is exactly the subsequence of non-blank lines, with order and content unchanged; there are no blank lines left; kept lines plus blank lines make up the input; input with no blank line is returned unchanged |
| `Pipeline.NoBlankUnchanged` | src/main.rs:55 | the blank filter is the identity on input without blank lines |
| `Sorting.Shuffle` | src/main.rs:59-61 | the shuffle returns a permutation of its input: same length, same multiset |
| `Sorting.Insert` | src/main.rs:64 | inserting into a sorted sequence keeps it sorted and adds exactly the one element |
| `Sorting.InsertedSorted` | src/main.rs:64 | placing an element after everything that may precede it keeps the order |
| `Sorting.Sort` | src/main.rs:64-78 | `sort_by` returns a permutation of its input that is sorted by the comparator |
| `Sorting.SortedHeads` | src/main.rs:64-78 | two sorted arrangements of the same lines start with lines that compare `Equal` |
| `Sorting.TailMultiset` | src/main.rs:64-78 | removing equal first elements from two permutations leaves permutations |
| `Sorting.SortedUnique` | src/main.rs:64-78 | when no two distinct lines compare `Equal`, the sorted permutation is unique, so sorting sorted input gives it back |
| `Orderings.Ordering.Reverse` | src/main.rs:74 | `cmp.reverse()` swaps `Less` and `Greater` and keeps `Equal` |
| `Orderings.Reversed` | src/main.rs:73-77 | reading a sequence back to front: not in the source, it is the vocabulary of the reversal law; its facts are `Orderings.ReversedMultiset` and `Orderings.ReversedSorted` |
| `Orderings.FlippedTotalPreorder` | src/main.rs:73-77 | reversing every result of a total preorder gives a total preorder |
| `Orderings.ReversedSorted` | src/main.rs:73-77 | a sequence sorted by a comparator, read backwards, is sorted by the reversed comparator |
| `Orderings.ReversedMultiset` | src/main.rs:73-77 | reading backwards is a permutation |
| `Pipeline.Config` | src/main.rs:15-35 | the five flags of `Args` that the pipeline reads (a datatype, no contract) |
| `Pipeline.Key` | src/main.rs:65-68 | the key of a line has the line's length and differs from it at most in ASCII case; under `ignore_case` it holds no upper-case ASCII letter; without `ignore_case` it is the line itself. The dedupe key built at src/main.rs:88-92 is the same function |
| `Pipeline.LineOrder` | src/main.rs:64-78 | the `sort_by` closure calls two lines `Equal` exactly when `natord` calls their keys `Equal`, and `Less` exactly when `natord` calls their keys `Less`, or `Greater` under `reverse` |
| `Pipeline.LineOrderTotalPreorder` | src/main.rs:64-78 | the `sort_by` closure (natord on the keys, reversed under `reverse`) is a total preorder for every flag setting |
| `Pipeline.OrderLines` | src/main.rs:58-79 | the result is always a permutation. Under `randomize` it is any permutation, whatever `reverse` and `ignore_case` say. Otherwise it is sorted: keys never decrease by `natord`, or under `reverse` never increase |
| `Pipeline.ReversalLaw` | src/main.rs:73-77 | when `natord` calls no two distinct lines' keys `Equal`, the reversed sort is the plain sort read backwards |
| `Pipeline.EqualKeysAdjacent` | src/main.rs:65-71 | in sorted output, every line between two lines with the same key has a key that `natord` calls `Equal` to theirs |
| `Pipeline.SameKeyAdjacent` | src/main.rs:65-71 | when `natord` calls only equal keys `Equal`, every line between two lines with the same key has that key too, so under `ignore_case` the case variants of a line are adjacent |
| `Pipeline.KeysMember` | src/main.rs:94-97 | a key is among the seen keys exactly when some line has it |
| `Pipeline.KeysSnoc` | src/main.rs:97 | `seen.insert(key)` adds the one key of the line just kept |
| `Pipeline.KeysOfPermutation` | src/main.rs:59-64 | the set of lines' keys does not depend on the order the ordering stage chose |
| `Pipeline.DistinctKeysSnoc` | src/main.rs:94-98 | appending a line whose key is not yet seen keeps the keys distinct |
| `Pipeline.DistinctKeysCount` | src/main.rs:94-99 | lines with distinct keys have as many keys as lines |
| `Pipeline.FirstOccurrenceMask` | src/main.rs:86-99 | the answers of the dedupe closure, one per line |
| `Pipeline.FirstOccurrenceMaskMeaning` | src/main.rs:86-99 | the closure keeps a line exactly when no earlier line has its key |
| `Pipeline.FirstOccurrencesStep` | src/main.rs:94-99 | one step of the dedupe walk: the key joins `seen`; the line is kept exactly when its key was not yet seen |
| `Pipeline.FirstOccurrencesKeys` | src/main.rs:84-100 | the kept lines have distinct keys and carry every key of the input |
| `Pipeline.FirstOccurrencesRetained` | src/main.rs:86-99 | the walk with `seen` keeps exactly the lines that are the first of their key |
| `Pipeline.FirstOccurrenceMaskPrefix` | src/main.rs:86-99 | whether a line is the first of its key depends only on the lines before it |
| `Pipeline.Dedupe` | src/main.rs:84-100 | the dedupe result is exactly the subsequence of first occurrences of each key, in the current order. No two kept lines share a key, every input key is kept, and as many lines are kept as there are keys. Lines whose keys are already distinct come back unchanged |
| `Pipeline.DistinctUnchanged` | src/main.rs:86-99 | dedupe is the identity on lines whose keys are distinct |
| `Pipeline.Run` | src/main.rs:53-101 | every output line is an input line. Without `skip_blank_lines` and `unique`, the output is a permutation of the input, with the same length. Without `randomize`, the output is sorted. With `skip_blank_lines`, no output line is blank. With `unique`, the output holds each key of the filtered lines exactly once. Output, blank lines dropped and duplicates dropped add up to the input length |
| `Pipeline.BlankExampleMask` | src/main.rs:55 | in `["", "  ", "x", "\t"]` only `"x"` is not blank |
| `Pipeline.BlankExampleRetained` | src/main.rs:55 | retaining only the third of those four lines gives `["x"]` |
| `Pipeline.SkipBlankExample` | src/main.rs:54-56 | skipping blank lines in `["", "  ", "x", "\t"]` leaves `["x"]` |
| `Pipeline.DedupeExample` | src/main.rs:84-100 | case-insensitive dedupe of `["A", "a", "B"]` keeps `["A", "B"]` |

## Left out

- Argument parsing with clap (src/main.rs:8-36, 39): the flags arrive as a ready `Pipeline.Config`.
- Reading standard input and the panic on a read error (src/main.rs:47-51): the input is a ready `seq<string>`.
- Writing standard output, the silent stop on a broken pipe and the panic on other write errors (src/main.rs:104-113): this is I/O, and the model ends with the output sequence.
- The internals of `natord::compare`: it belongs to another crate, which is not part of this model. It is the parameter `natord`, assumed to be a total preorder. That is all sorting needs, and it is weaker than a total order, which natural-sort comparators are usually taken to be. So natural-order facts such as "2" before "10" are not stated.
- The claim in the help text that leading whitespace is ignored when sorting (src/main.rs:12): the comparator closure itself does not trim. Whatever `natord` does with whitespace is part of the abstract comparator.
- Unicode case mapping: `Text.ToLower` lowers ASCII `A`-`Z` only. Rust's `to_lowercase` maps all of Unicode, and for some characters the result has a different length.
- The algorithm of `slice::sort_by` and of `SliceRandom::shuffle`: neither is in the modelled source. `Sorting.Sort` is an insertion sort. `Sorting.Shuffle` is the Fisher-Yates loop with the random index left unconstrained.
- Sorting.Sort: does not promise stability, which Rust's `sort_by` guarantees. So the model allows any order among lines whose keys `natord` calls `Equal`, and under `unique` any one of them may be the line kept, where the program keeps the one earliest in the filtered input (with `-i -u`, `["a", "A"]` prints `a`; the model also allows `A`). The contract states sortedness and permutation only.
- Sorting.Shuffle: says nothing of the uniform distribution of permutations, because the random number generator is outside the model; only the permutation property is stated.
- Updating the vector in place: each stage returns a new sequence. Nothing else holds the vector, so no aliasing is lost.
