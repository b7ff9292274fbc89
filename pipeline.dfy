/**
  The line pipeline of `sortn`: once every input line is in memory, drop
  blank lines (optional), shuffle or natural-sort the lines, and drop lines
  whose comparison key was already seen (optional).

  `natord::compare` belongs to another crate; it is the parameter `natord`,
  of which only that it is a total preorder is assumed.
 */
module Pipeline {
  import opened Orderings
  import opened Text
  import opened Retain
  import Sorting

  /** The five command-line flags, resolved before any line is processed. */
  datatype Config = Config(
    reverse: bool,
    ignoreCase: bool,
    randomize: bool,
    skipBlankLines: bool,
    unique: bool)

  // ---------------------------------------------------------------------
  // Comparison keys
  // ---------------------------------------------------------------------

  /**
    The comparison key of a line: its lower-cased form under `ignore_case`,
    the line itself otherwise. Sorting and deduplication both use it. The
    key differs from the line at most in the case of ASCII letters; two
    lines share a case-insensitive key exactly when they agree up to ASCII
    case (`Text.ToLowerAgree`).
   */
  function Key(ignoreCase: bool, line: string): (k: string)
    ensures |k| == |line|
    ensures forall i :: 0 <= i < |line| ==> SameIgnoringAsciiCase(k[i], line[i])
    ensures !ignoreCase ==> k == line
    ensures ignoreCase ==> forall i :: 0 <= i < |k| ==> !('A' <= k[i] <= 'Z')
  {
    if ignoreCase then ToLower(line) else line
  }

  /** The keys of all the lines. */
  function Keys(ignoreCase: bool, lines: seq<string>): set<string> {
    if lines == [] then {}
    else Keys(ignoreCase, lines[..|lines| - 1]) + {Key(ignoreCase, lines[|lines| - 1])}
  }

  lemma {:induction false} KeysMember(ignoreCase: bool, lines: seq<string>, k: string)
    ensures k in Keys(ignoreCase, lines) <==>
            exists i :: 0 <= i < |lines| && Key(ignoreCase, lines[i]) == k
  {
    if lines != [] {
      var n := |lines| - 1;
      KeysMember(ignoreCase, lines[..n], k);
      if k in Keys(ignoreCase, lines[..n]) {
        var i :| 0 <= i < n && Key(ignoreCase, lines[..n][i]) == k;
        assert Key(ignoreCase, lines[i]) == k;
      }
      if exists i :: 0 <= i < |lines| && Key(ignoreCase, lines[i]) == k {
        var i :| 0 <= i < |lines| && Key(ignoreCase, lines[i]) == k;
        if i < n { assert Key(ignoreCase, lines[..n][i]) == k; }
      }
    }
  }

  /** The set of keys does not depend on the order of the lines. */
  lemma KeysOfPermutation(ignoreCase: bool, a: seq<string>, b: seq<string>)
    requires multiset(a) == multiset(b)
    ensures Keys(ignoreCase, a) == Keys(ignoreCase, b)
  {
    forall k | k in Keys(ignoreCase, a) ensures k in Keys(ignoreCase, b) {
      KeysMember(ignoreCase, a, k);
      var i :| 0 <= i < |a| && Key(ignoreCase, a[i]) == k;
      assert a[i] in multiset(b);
      var j :| 0 <= j < |b| && b[j] == a[i];
      KeysMember(ignoreCase, b, k);
    }
    forall k | k in Keys(ignoreCase, b) ensures k in Keys(ignoreCase, a) {
      KeysMember(ignoreCase, b, k);
      var j :| 0 <= j < |b| && Key(ignoreCase, b[j]) == k;
      assert b[j] in multiset(a);
      var i :| 0 <= i < |a| && a[i] == b[j];
      KeysMember(ignoreCase, a, k);
    }
  }

  lemma KeysSnoc(ignoreCase: bool, lines: seq<string>, line: string)
    ensures Keys(ignoreCase, lines + [line]) == Keys(ignoreCase, lines) + {Key(ignoreCase, line)}
  {
    assert (lines + [line])[..|lines|] == lines;
  }

  /** No two lines share a key. */
  predicate DistinctKeys(ignoreCase: bool, lines: seq<string>) {
    forall i, j :: 0 <= i < j < |lines| ==> Key(ignoreCase, lines[i]) != Key(ignoreCase, lines[j])
  }

  lemma DistinctKeysSnoc(ignoreCase: bool, lines: seq<string>, line: string)
    requires DistinctKeys(ignoreCase, lines)
    requires Key(ignoreCase, line) !in Keys(ignoreCase, lines)
    ensures DistinctKeys(ignoreCase, lines + [line])
  {
    forall j | 0 <= j < |lines| ensures Key(ignoreCase, lines[j]) != Key(ignoreCase, line) {
      KeysMember(ignoreCase, lines, Key(ignoreCase, lines[j]));
    }
  }

  /** Lines with distinct keys have as many keys as lines. */
  lemma {:induction false} DistinctKeysCount(ignoreCase: bool, lines: seq<string>)
    requires DistinctKeys(ignoreCase, lines)
    ensures |Keys(ignoreCase, lines)| == |lines|
  {
    if lines != [] {
      var n := |lines| - 1;
      assert DistinctKeys(ignoreCase, lines[..n]);
      DistinctKeysCount(ignoreCase, lines[..n]);
      KeysMember(ignoreCase, lines[..n], Key(ignoreCase, lines[n]));
    }
  }

  /**
    The comparator handed to `sort_by`: `natord` on the two keys, with the
    result reversed under `reverse`.
   */
  function LineOrder(cfg: Config, natord: (string, string) -> Ordering): (cmp: (string, string) -> Ordering)
    ensures forall a, b :: cmp(a, b) == Equal <==>
              natord(Key(cfg.ignoreCase, a), Key(cfg.ignoreCase, b)) == Equal
    ensures forall a, b :: cmp(a, b) == Less <==>
              natord(Key(cfg.ignoreCase, a), Key(cfg.ignoreCase, b)) == (if cfg.reverse then Greater else Less)
  {
    (a: string, b: string) =>
      var o := natord(Key(cfg.ignoreCase, a), Key(cfg.ignoreCase, b));
      if cfg.reverse then o.Reverse() else o
  }

  /**
    Whatever the flags, the line comparator is a total preorder when `natord`
    is: it is `natord`, or under `reverse` its flipped form, applied to keys.
   */
  lemma LineOrderTotalPreorder(cfg: Config, natord: (string, string) -> Ordering)
    requires TotalPreorder(natord)
    ensures TotalPreorder(LineOrder(cfg, natord))
  {
    var cmp, ic := LineOrder(cfg, natord), cfg.ignoreCase;
    var base := if cfg.reverse then Flipped(natord) else natord;
    if cfg.reverse {
      FlippedTotalPreorder(natord);
    }
    forall a, b ensures cmp(b, a) == cmp(a, b).Reverse() {
      assert natord(Key(ic, b), Key(ic, a)) == natord(Key(ic, a), Key(ic, b)).Reverse();
    }
    forall a, b, c | Le(cmp, a, b) && Le(cmp, b, c) ensures Le(cmp, a, c) {
      assert Le(base, Key(ic, a), Key(ic, b)) && Le(base, Key(ic, b), Key(ic, c));
    }
  }

  // ---------------------------------------------------------------------
  // Stage 1: blank filter
  // ---------------------------------------------------------------------

  /** The answers of the blank-filter closure: keep the lines that are not blank. */
  function NonBlankMask(lines: seq<string>): (keep: seq<bool>)
    ensures |keep| == |lines|
  {
    seq(|lines|, i requires 0 <= i < |lines| => !IsBlank(lines[i]))
  }

  /** The blank filter keeps a line exactly when it holds a character that is not whitespace. */
  lemma NonBlankMaskMeaning(lines: seq<string>, i: nat)
    requires i < |lines|
    ensures NonBlankMask(lines)[i] <==> exists j :: 0 <= j < |lines[i]| && !IsWhitespace(lines[i][j])
  {
  }

  /** How many of the lines are blank. */
  function BlankCount(lines: seq<string>): nat {
    if lines == [] then 0
    else BlankCount(lines[..|lines| - 1]) + (if IsBlank(lines[|lines| - 1]) then 1 else 0)
  }

  /**
    `lines.retain(|l| !l.trim().is_empty())`: exactly the subsequence of the
    lines that are not blank; the kept lines plus the blank ones make up
    the input.
   */
  method SkipBlankLines(lines: seq<string>) returns (kept: seq<string>)
    ensures kept == Retained(lines, NonBlankMask(lines))
    ensures multiset(kept) <= multiset(lines)
    ensures forall l :: l in kept ==> !IsBlank(l)
    ensures |kept| + BlankCount(lines) == |lines|
    ensures (forall i :: 0 <= i < |lines| ==> !IsBlank(lines[i])) ==> kept == lines
  {
    ghost var mask := NonBlankMask(lines);
    kept := [];
    var i := 0;
    while i < |lines|
      invariant 0 <= i <= |lines|
      invariant kept == Retained(lines[..i], mask[..i])
      invariant forall l :: l in kept ==> !IsBlank(l)
      invariant |kept| + BlankCount(lines[..i]) == i
    {
      RetainedStep(lines, mask, i);
      assert lines[..i + 1][..i] == lines[..i];
      if !IsBlank(lines[i]) {
        kept := kept + [lines[i]];
      }
      i := i + 1;
    }
    assert lines[..i] == lines && mask[..i] == mask;
    RetainedSubmultiset(lines, mask);
    NoBlankUnchanged(lines);
  }

  /** Input without blank lines passes the blank filter unchanged. */
  lemma NoBlankUnchanged(lines: seq<string>)
    ensures (forall i :: 0 <= i < |lines| ==> !IsBlank(lines[i])) ==>
            Retained(lines, NonBlankMask(lines)) == lines
  {
    if forall i :: 0 <= i < |lines| ==> !IsBlank(lines[i]) {
      RetainedAll(lines, NonBlankMask(lines));
    }
  }

  // ---------------------------------------------------------------------
  // Stage 2: ordering
  // ---------------------------------------------------------------------

  /**
    Shuffles the lines under `randomize`, otherwise sorts them with
    `LineOrder`. Either way the result is a permutation of the input. When
    sorting, the keys ascend by `natord`, or descend under `reverse`.
    The shuffle branch ignores `reverse` and `ignore_case`.
   */
  method OrderLines(cfg: Config, natord: (string, string) -> Ordering, lines: seq<string>)
    returns (ordered: seq<string>)
    requires TotalPreorder(natord)
    ensures multiset(ordered) == multiset(lines)
    ensures !cfg.randomize ==> SortedBy(ordered, LineOrder(cfg, natord))
    ensures !cfg.randomize && !cfg.reverse ==>
      forall i, j :: 0 <= i < j < |ordered| ==>
        natord(Key(cfg.ignoreCase, ordered[i]), Key(cfg.ignoreCase, ordered[j])) != Greater
    ensures !cfg.randomize && cfg.reverse ==>
      forall i, j :: 0 <= i < j < |ordered| ==>
        natord(Key(cfg.ignoreCase, ordered[i]), Key(cfg.ignoreCase, ordered[j])) != Less
  {
    if cfg.randomize {
      ordered := Sorting.Shuffle(lines);
    } else {
      var cmp := LineOrder(cfg, natord);
      LineOrderTotalPreorder(cfg, natord);
      ordered := Sorting.Sort(lines, cmp);
      forall i, j | 0 <= i < j < |ordered|
        ensures var o := natord(Key(cfg.ignoreCase, ordered[i]), Key(cfg.ignoreCase, ordered[j]));
                if cfg.reverse then o != Less else o != Greater
      {
        assert Le(cmp, ordered[i], ordered[j]);
      }
    }
  }

  /**
    The reversal law. When `natord` never calls two distinct lines' keys
    `Equal`, the sort under `reverse` is exactly the plain sort read
    backwards.
   */
  lemma ReversalLaw(cfg: Config, natord: (string, string) -> Ordering,
                    lines: seq<string>, up: seq<string>, down: seq<string>)
    requires TotalPreorder(natord)
    requires forall x, y ::
               (x in lines && y in lines && natord(Key(cfg.ignoreCase, x), Key(cfg.ignoreCase, y)) == Equal)
               ==> x == y
    requires multiset(up) == multiset(lines) && SortedBy(up, LineOrder(cfg.(reverse := false), natord))
    requires multiset(down) == multiset(lines) && SortedBy(down, LineOrder(cfg.(reverse := true), natord))
    ensures down == Reversed(up)
  {
    var asc, desc := LineOrder(cfg.(reverse := false), natord), LineOrder(cfg.(reverse := true), natord);
    LineOrderTotalPreorder(cfg.(reverse := false), natord);
    ReversedSorted(up, asc);
    ReversedMultiset(up);
    var back := Reversed(up);
    forall i, j | 0 <= i < j < |back| ensures Le(desc, back[i], back[j]) {
      assert Le(Flipped(asc), back[i], back[j]);
    }
    LineOrderTotalPreorder(cfg.(reverse := true), natord);
    forall x, y | x in down && y in down && desc(x, y) == Equal ensures x == y {
      assert x in multiset(lines) && y in multiset(lines);
    }
    Sorting.SortedUnique(down, back, desc);
  }

  /**
    Sorting groups equal keys: between two lines with the same key, every
    line has a key that `natord` calls `Equal` to theirs.
   */
  lemma EqualKeysAdjacent(cfg: Config, natord: (string, string) -> Ordering,
                          sorted: seq<string>, i: nat, k: nat, j: nat)
    requires TotalPreorder(natord)
    requires SortedBy(sorted, LineOrder(cfg, natord))
    requires i < k < j < |sorted|
    requires Key(cfg.ignoreCase, sorted[i]) == Key(cfg.ignoreCase, sorted[j])
    ensures natord(Key(cfg.ignoreCase, sorted[k]), Key(cfg.ignoreCase, sorted[i])) == Equal
  {
    var cmp := LineOrder(cfg, natord);
    assert Le(cmp, sorted[i], sorted[k]) && Le(cmp, sorted[k], sorted[j]);
  }

  /**
    When `natord` calls only equal keys `Equal`, lines with the same key end
    up adjacent: every line between two of them has that key too. Under
    `ignore_case`, the case variants of a line sit next to each other.
   */
  lemma SameKeyAdjacent(cfg: Config, natord: (string, string) -> Ordering,
                        sorted: seq<string>, i: nat, k: nat, j: nat)
    requires TotalPreorder(natord)
    requires forall x, y :: natord(x, y) == Equal ==> x == y
    requires SortedBy(sorted, LineOrder(cfg, natord))
    requires i < k < j < |sorted|
    requires Key(cfg.ignoreCase, sorted[i]) == Key(cfg.ignoreCase, sorted[j])
    ensures Key(cfg.ignoreCase, sorted[k]) == Key(cfg.ignoreCase, sorted[i])
  {
    EqualKeysAdjacent(cfg, natord, sorted, i, k, j);
  }

  // ---------------------------------------------------------------------
  // Stage 3: dedupe
  // ---------------------------------------------------------------------

  /** Line `i` is the first line with its key: the key is not among the earlier lines' keys. */
  predicate IsFirstOccurrence(ignoreCase: bool, lines: seq<string>, i: nat)
    requires i < |lines|
  {
    Key(ignoreCase, lines[i]) !in Keys(ignoreCase, lines[..i])
  }

  /** The answers of the dedupe closure: keep each key's first line. */
  function FirstOccurrenceMask(ignoreCase: bool, lines: seq<string>): (keep: seq<bool>)
    ensures |keep| == |lines|
  {
    seq(|lines|, i requires 0 <= i < |lines| => IsFirstOccurrence(ignoreCase, lines, i))
  }

  /** The dedupe closure keeps a line exactly when no earlier line has its key. */
  lemma FirstOccurrenceMaskMeaning(ignoreCase: bool, lines: seq<string>, i: nat)
    requires i < |lines|
    ensures FirstOccurrenceMask(ignoreCase, lines)[i] <==>
            forall j :: 0 <= j < i ==> Key(ignoreCase, lines[j]) != Key(ignoreCase, lines[i])
  {
    KeysMember(ignoreCase, lines[..i], Key(ignoreCase, lines[i]));
  }

  /** How many lines repeat a key of another line: those `unique` drops. */
  function DuplicateCount(ignoreCase: bool, lines: seq<string>): int {
    |lines| - |Keys(ignoreCase, lines)|
  }

  /** The first line of each key, front to back, grown one line at a time. */
  function FirstOccurrences(ignoreCase: bool, lines: seq<string>): seq<string> {
    if lines == [] then []
    else
      var n := |lines| - 1;
      FirstOccurrences(ignoreCase, lines[..n])
        + (if Key(ignoreCase, lines[n]) in Keys(ignoreCase, lines[..n]) then [] else [lines[n]])
  }

  /** The first occurrences carry every key of the lines, each exactly once. */
  lemma {:induction false} FirstOccurrencesKeys(ignoreCase: bool, lines: seq<string>)
    ensures DistinctKeys(ignoreCase, FirstOccurrences(ignoreCase, lines))
    ensures Keys(ignoreCase, FirstOccurrences(ignoreCase, lines)) == Keys(ignoreCase, lines)
  {
    if lines != [] {
      var n := |lines| - 1;
      var front := FirstOccurrences(ignoreCase, lines[..n]);
      FirstOccurrencesKeys(ignoreCase, lines[..n]);
      FirstOccurrencesStep(ignoreCase, lines, n);
      assert lines[..n + 1] == lines;
      if Key(ignoreCase, lines[n]) !in Keys(ignoreCase, lines[..n]) {
        DistinctKeysSnoc(ignoreCase, front, lines[n]);
        KeysSnoc(ignoreCase, front, lines[n]);
      } else {
        assert FirstOccurrences(ignoreCase, lines) == front;
        assert Keys(ignoreCase, lines) == Keys(ignoreCase, lines[..n]);
      }
    }
  }

  /** One more line: its key joins the keys, and the line joins the result if its key is new. */
  lemma FirstOccurrencesStep(ignoreCase: bool, lines: seq<string>, i: nat)
    requires i < |lines|
    ensures Keys(ignoreCase, lines[..i + 1]) == Keys(ignoreCase, lines[..i]) + {Key(ignoreCase, lines[i])}
    ensures FirstOccurrences(ignoreCase, lines[..i + 1])
         == FirstOccurrences(ignoreCase, lines[..i])
            + (if Key(ignoreCase, lines[i]) in Keys(ignoreCase, lines[..i]) then [] else [lines[i]])
  {
    assert lines[..i + 1][..i] == lines[..i];
  }

  /** Growing the result line by line is retaining exactly the first occurrences. */
  lemma {:induction false} FirstOccurrencesRetained(ignoreCase: bool, lines: seq<string>)
    ensures FirstOccurrences(ignoreCase, lines) == Retained(lines, FirstOccurrenceMask(ignoreCase, lines))
  {
    if lines != [] {
      var n := |lines| - 1;
      FirstOccurrencesRetained(ignoreCase, lines[..n]);
      FirstOccurrenceMaskPrefix(ignoreCase, lines, n);
    }
  }

  /** Whether a line is the first of its key depends only on the lines before it. */
  lemma FirstOccurrenceMaskPrefix(ignoreCase: bool, lines: seq<string>, n: nat)
    requires n <= |lines|
    ensures FirstOccurrenceMask(ignoreCase, lines)[..n] == FirstOccurrenceMask(ignoreCase, lines[..n])
  {
    var mask := FirstOccurrenceMask(ignoreCase, lines);
    forall j | 0 <= j < n ensures mask[..n][j] == FirstOccurrenceMask(ignoreCase, lines[..n])[j] {
      assert lines[..n][..j] == lines[..j];
    }
  }

  /**
    The `retain` with a `HashSet` of keys already seen: keeps exactly the
    first line of each key, in the current order. No two kept lines share
    a key, and every key of the input is kept, so as many lines are kept as
    there are keys.
   */
  method Dedupe(ignoreCase: bool, lines: seq<string>) returns (kept: seq<string>)
    ensures kept == Retained(lines, FirstOccurrenceMask(ignoreCase, lines))
    ensures multiset(kept) <= multiset(lines)
    ensures DistinctKeys(ignoreCase, kept)
    ensures Keys(ignoreCase, kept) == Keys(ignoreCase, lines)
    ensures |kept| == |Keys(ignoreCase, lines)|
    ensures DistinctKeys(ignoreCase, lines) ==> kept == lines
  {
    var seen: set<string> := {};
    kept := [];
    var i := 0;
    while i < |lines|
      invariant 0 <= i <= |lines|
      invariant seen == Keys(ignoreCase, lines[..i])
      invariant kept == FirstOccurrences(ignoreCase, lines[..i])
    {
      FirstOccurrencesStep(ignoreCase, lines, i);
      var key := lines[i];
      if ignoreCase {
        key := ToLower(key);
      }
      assert key == Key(ignoreCase, lines[i]);
      if key in seen {
      } else {
        seen := seen + {key};
        kept := kept + [lines[i]];
      }
      i := i + 1;
    }
    assert lines[..i] == lines;
    FirstOccurrencesKeys(ignoreCase, lines);
    FirstOccurrencesRetained(ignoreCase, lines);
    RetainedSubmultiset(lines, FirstOccurrenceMask(ignoreCase, lines));
    DistinctKeysCount(ignoreCase, kept);
    DistinctUnchanged(ignoreCase, lines);
  }

  /** Lines whose keys are already distinct pass the dedupe unchanged. */
  lemma DistinctUnchanged(ignoreCase: bool, lines: seq<string>)
    ensures DistinctKeys(ignoreCase, lines) ==>
            Retained(lines, FirstOccurrenceMask(ignoreCase, lines)) == lines
  {
    if DistinctKeys(ignoreCase, lines) {
      var mask := FirstOccurrenceMask(ignoreCase, lines);
      forall j | 0 <= j < |lines| ensures mask[j] {
        KeysMember(ignoreCase, lines[..j], Key(ignoreCase, lines[j]));
      }
      RetainedAll(lines, mask);
    }
  }

  // ---------------------------------------------------------------------
  // The whole pipeline
  // ---------------------------------------------------------------------

  /** The lines after stage 1. */
  function BlankFiltered(cfg: Config, input: seq<string>): seq<string> {
    if cfg.skipBlankLines then Retained(input, NonBlankMask(input)) else input
  }

  /**
    `main` between reading stdin and writing stdout. Every output line is
    an input line; without `skip_blank_lines` and `unique` the output is a
    permutation of the input. The output is sorted unless `randomize`,
    holds no blank line under `skip_blank_lines`, and under `unique` holds
    each key of the filtered lines exactly once. The output, the blank
    lines dropped and the duplicates dropped add up to the input.
   */
  method Run(cfg: Config, natord: (string, string) -> Ordering, input: seq<string>)
    returns (output: seq<string>)
    requires TotalPreorder(natord)
    ensures multiset(output) <= multiset(input)
    ensures !cfg.unique ==> multiset(output) == multiset(BlankFiltered(cfg, input))
    ensures !cfg.skipBlankLines && !cfg.unique ==>
      |output| == |input| && multiset(output) == multiset(input)
    ensures cfg.skipBlankLines ==> forall l :: l in output ==> !IsBlank(l)
    ensures !cfg.randomize ==> SortedBy(output, LineOrder(cfg, natord))
    ensures cfg.unique ==> DistinctKeys(cfg.ignoreCase, output)
    ensures cfg.unique ==>
      Keys(cfg.ignoreCase, output) == Keys(cfg.ignoreCase, BlankFiltered(cfg, input))
    ensures |output|
            + (if cfg.skipBlankLines then BlankCount(input) else 0)
            + (if cfg.unique then DuplicateCount(cfg.ignoreCase, BlankFiltered(cfg, input)) else 0)
            == |input|
  {
    var lines := input;
    if cfg.skipBlankLines {
      lines := SkipBlankLines(lines);
    }
    ghost var filtered := lines;
    assert filtered == BlankFiltered(cfg, input);
    lines := OrderLines(cfg, natord, lines);
    ghost var ordered := lines;
    if cfg.unique {
      lines := Dedupe(cfg.ignoreCase, lines);
      KeysOfPermutation(cfg.ignoreCase, ordered, filtered);
      if !cfg.randomize {
        RetainedSorted(ordered, FirstOccurrenceMask(cfg.ignoreCase, ordered), LineOrder(cfg, natord));
      }
    }
    forall l | l in lines ensures l in filtered {
      assert l in multiset(lines);
    }
    output := lines;
  }

  // ---------------------------------------------------------------------
  // Worked examples
  // ---------------------------------------------------------------------

  lemma BlankExampleMask()
    ensures NonBlankMask(["", "  ", "x", "\t"]) == [false, false, true, false]
  {
    var lines := ["", "  ", "x", "\t"];
    assert IsWhitespace(lines[1][0]) && IsWhitespace(lines[1][1]) && IsWhitespace(lines[3][0]);
    assert !IsWhitespace(lines[2][0]);
  }

  /** Skipping blank lines in ["", "  ", "x", "\t"] leaves ["x"]. */
  lemma SkipBlankExample()
    ensures Retained(["", "  ", "x", "\t"], NonBlankMask(["", "  ", "x", "\t"])) == ["x"]
  {
    BlankExampleMask();
    BlankExampleRetained();
  }

  lemma BlankExampleRetained()
    ensures Retained(["", "  ", "x", "\t"], [false, false, true, false]) == ["x"]
  {
    var lines, mask := ["", "  ", "x", "\t"], [false, false, true, false];
    assert Retained(lines[..1], mask[..1]) == [];
    assert Retained(lines[..2], mask[..2]) == [];
    assert Retained(lines[..3], mask[..3]) == ["x"];
    assert lines[..3] == lines[..|lines| - 1];
  }

  /** Deduplicating ["A", "a", "B"] case-insensitively keeps ["A", "B"]. */
  lemma DedupeExample()
    ensures Retained(["A", "a", "B"], FirstOccurrenceMask(true, ["A", "a", "B"])) == ["A", "B"]
  {
    var lines := ["A", "a", "B"];
    assert Key(true, "A") == "a" && Key(true, "a") == "a" && Key(true, "B") == "b";
    assert lines[..1] == ["A"] && lines[..2] == ["A", "a"];
    assert Keys(true, lines[..1]) == {"a"};
    assert Keys(true, lines[..2]) == {"a"};
    assert FirstOccurrenceMask(true, lines) == [true, false, true];
    assert lines[..2][..1] == ["A"];
  }
}
