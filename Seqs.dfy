/**
 * Generic searches and groupings over sequences, shared by the text
 * helpers (Python's str.split() with no argument) and by the letter
 * structurer (paragraphs as runs of non-blank lines).
 */
module Seqs {

  /**
   * Index of the first element at or after `i` that satisfies `p`, or `|s|`
   * when none does (that none before it does is `FindFromFirst`).
   */
  function FindFrom<T>(s: seq<T>, p: T -> bool, i: nat): (r: nat)
    requires i <= |s|
    ensures i <= r <= |s|
    ensures r < |s| ==> p(s[r])
    decreases |s| - i
  {
    if i == |s| || p(s[i]) then i else FindFrom(s, p, i + 1)
  }

  /** No element between `i` and the search result satisfies `p`: the result is the first match. */
  lemma {:induction false} FindFromFirst<T>(s: seq<T>, p: T -> bool, i: nat)
    requires i <= |s|
    ensures forall j :: i <= j < FindFrom(s, p, i) ==> !p(s[j])
    decreases |s| - i
  {
    if i < |s| && !p(s[i]) {
      FindFromFirst(s, p, i + 1);
    }
  }

  /** True when `s` ends with an element that does not satisfy `sep`, i.e. inside a run. */
  predicate EndsInRun<T>(s: seq<T>, sep: T -> bool)
  {
    s != [] && !sep(s[|s| - 1])
  }

  /**
   * The maximal runs of consecutive elements of `s` that do not satisfy
   * `sep`, in their order in `s`. Separators are never part of a run.
   */
  function Chunks<T>(s: seq<T>, sep: T -> bool): seq<seq<T>>
    decreases |s|
  {
    if s == [] then []
    else if sep(s[0]) then Chunks(s[1..], sep)
    else
      var n := FindFrom(s, sep, 0);
      [s[..n]] + Chunks(s[n..], sep)
  }

  /** The elements of `s` that do not satisfy `sep`, in order. */
  function Drop<T>(s: seq<T>, sep: T -> bool): (r: seq<T>)
    ensures |r| <= |s|
    ensures forall i :: 0 <= i < |r| ==> !sep(r[i])
  {
    if s == [] then []
    else Drop(s[..|s| - 1], sep) + (if sep(s[|s| - 1]) then [] else [s[|s| - 1]])
  }

  /** The runs of `runs` laid end to end. */
  function Flatten<T>(runs: seq<seq<T>>): seq<T>
  {
    if runs == [] then [] else Flatten(runs[..|runs| - 1]) + runs[|runs| - 1]
  }

  /**
   * Number of positions of `s` where a run begins: an element that does not
   * satisfy `sep` and is either first or follows one that does.
   */
  function RunStarts<T>(s: seq<T>, sep: T -> bool): nat
  {
    if s == [] then 0
    else
      var n := |s| - 1;
      RunStarts(s[..n], sep) + (if !sep(s[n]) && (n == 0 || sep(s[n - 1])) then 1 else 0)
  }

  /** Every run is non-empty and holds no separator. */
  lemma {:induction false} ChunksShape<T>(s: seq<T>, sep: T -> bool)
    ensures forall k :: 0 <= k < |Chunks(s, sep)| ==> Chunks(s, sep)[k] != []
    ensures forall k, i :: 0 <= k < |Chunks(s, sep)| && 0 <= i < |Chunks(s, sep)[k]| ==> !sep(Chunks(s, sep)[k][i])
    decreases |s|
  {
    if s != [] {
      if sep(s[0]) {
        ChunksShape(s[1..], sep);
      } else {
        var n := FindFrom(s, sep, 0);
        FindFromFirst(s, sep, 0);
        ChunksShape(s[n..], sep);
        var runs := Chunks(s, sep);
        assert runs == [s[..n]] + Chunks(s[n..], sep);
        forall k | 1 <= k < |runs| ensures runs[k] == Chunks(s[n..], sep)[k - 1] { }
      }
    }
  }

  /** The search result is determined by its contract. */
  lemma FindFromUnique<T>(s: seq<T>, p: T -> bool, i: nat, r: nat)
    requires i <= r <= |s|
    requires r < |s| ==> p(s[r])
    requires forall j :: i <= j < r ==> !p(s[j])
    ensures FindFrom(s, p, i) == r
  {
    FindFromFirst(s, p, i);
  }

  /** How the runs change when one element is appended: the step of a single left-to-right pass. */
  lemma {:induction false} ChunksSnoc<T>(s: seq<T>, x: T, sep: T -> bool)
    ensures sep(x) ==> Chunks(s + [x], sep) == Chunks(s, sep)
    ensures !sep(x) && !EndsInRun(s, sep) ==> Chunks(s + [x], sep) == Chunks(s, sep) + [[x]]
    ensures !sep(x) && EndsInRun(s, sep) ==>
      var runs := Chunks(s, sep);
      runs != [] && Chunks(s + [x], sep) == runs[..|runs| - 1] + [runs[|runs| - 1] + [x]]
    decreases |s|
  {
    var t := s + [x];
    if s == [] {
      assert t == [x] && t[1..] == [];
      if !sep(x) {
        FindFromUnique(t, sep, 0, 1);
        assert t[..1] == [x];
      }
    } else if sep(s[0]) {
      assert t[1..] == s[1..] + [x];
      assert EndsInRun(s, sep) == EndsInRun(s[1..], sep);
      ChunksSnoc(s[1..], x, sep);
    } else {
      var n := FindFrom(s, sep, 0);
      FindFromFirst(s, sep, 0);
      if n < |s| {
        ChunksSnoc(s[n..], x, sep);
        SnocAfterFirstRun(s, x, sep, n);
      } else {
        SnocOneRun(s, x, sep);
      }
    }
  }

  /** `ChunksSnoc` for `s` from `ChunksSnoc` for the part after its first run, which ends at `n`. */
  lemma SnocAfterFirstRun<T>(s: seq<T>, x: T, sep: T -> bool, n: nat)
    requires n < |s| && !sep(s[0]) && n == FindFrom(s, sep, 0)
    requires var r := s[n..];
      && (sep(x) ==> Chunks(r + [x], sep) == Chunks(r, sep))
      && (!sep(x) && !EndsInRun(r, sep) ==> Chunks(r + [x], sep) == Chunks(r, sep) + [[x]])
      && (!sep(x) && EndsInRun(r, sep) ==>
        var runs := Chunks(r, sep);
        runs != [] && Chunks(r + [x], sep) == runs[..|runs| - 1] + [runs[|runs| - 1] + [x]])
    ensures sep(x) ==> Chunks(s + [x], sep) == Chunks(s, sep)
    ensures !sep(x) && !EndsInRun(s, sep) ==> Chunks(s + [x], sep) == Chunks(s, sep) + [[x]]
    ensures !sep(x) && EndsInRun(s, sep) ==>
      var runs := Chunks(s, sep);
      runs != [] && Chunks(s + [x], sep) == runs[..|runs| - 1] + [runs[|runs| - 1] + [x]]
  {
    var t, r := s + [x], s[n..];
    FindFromFirst(s, sep, 0);
    FindFromUnique(t, sep, 0, n);
    assert t[..n] == s[..n];
    assert t[n..] == r + [x];
    assert EndsInRun(s, sep) == EndsInRun(r, sep);
    var rest := Chunks(r, sep);
    assert Chunks(s, sep) == [s[..n]] + rest;
    assert Chunks(t, sep) == [s[..n]] + Chunks(r + [x], sep);
    if !sep(x) && EndsInRun(s, sep) {
      ExtendLastCons(s[..n], rest, x);
    }
  }

  /** `ChunksSnoc` for a sequence that is one run. */
  lemma SnocOneRun<T>(s: seq<T>, x: T, sep: T -> bool)
    requires s != [] && FindFrom(s, sep, 0) == |s|
    ensures sep(x) ==> Chunks(s + [x], sep) == [s]
    ensures !sep(x) ==> Chunks(s + [x], sep) == [s + [x]]
    ensures Chunks(s, sep) == [s] && EndsInRun(s, sep)
  {
    var t, n := s + [x], |s|;
    FindFromFirst(s, sep, 0);
    assert forall j :: 0 <= j < n ==> t[j] == s[j] && !sep(t[j]);
    assert s[..n] == s && s[n..] == [];
    assert Chunks(s, sep) == [s];
    if sep(x) {
      FindFromUnique(t, sep, 0, n);
      assert t[..n] == s && t[n..] == [x];
      assert [x][1..] == [];
    } else {
      FindFromUnique(t, sep, 0, n + 1);
      assert t[..n + 1] == t && t[n + 1..] == [];
    }
  }

  /** Extending the last run of a non-empty list of runs does not touch a run in front of them. */
  lemma ExtendLastCons<T>(first: seq<T>, runs: seq<seq<T>>, x: T)
    requires runs != []
    ensures var all := [first] + runs;
      all[..|all| - 1] + [all[|all| - 1] + [x]] == [first] + (runs[..|runs| - 1] + [runs[|runs| - 1] + [x]])
  {
    var all := [first] + runs;
    assert all[|all| - 1] == runs[|runs| - 1];
    assert all[..|all| - 1] == [first] + runs[..|runs| - 1];
  }

  /** The number of runs is the number of positions where a run begins. */
  lemma {:induction false} ChunksCount<T>(s: seq<T>, sep: T -> bool)
    ensures |Chunks(s, sep)| == RunStarts(s, sep)
    decreases |s|
  {
    if s != [] {
      var n := |s| - 1;
      assert s == s[..n] + [s[n]];
      ChunksCount(s[..n], sep);
      ChunksSnoc(s[..n], s[n], sep);
      assert n > 0 ==> (EndsInRun(s[..n], sep) <==> !sep(s[n - 1]));
    }
  }

  /** Laid end to end, the runs are exactly the non-separator elements, in order: nothing is lost or reordered. */
  lemma {:induction false} ChunksFlatten<T>(s: seq<T>, sep: T -> bool)
    ensures Flatten(Chunks(s, sep)) == Drop(s, sep)
    decreases |s|
  {
    if s != [] {
      var n := |s| - 1;
      var x := s[n];
      assert s == s[..n] + [x];
      ChunksFlatten(s[..n], sep);
      ChunksSnoc(s[..n], x, sep);
      var runs := Chunks(s[..n], sep);
      if !sep(x) {
        if EndsInRun(s[..n], sep) {
          var m := |runs| - 1;
          var runs' := runs[..m] + [runs[m] + [x]];
          assert runs'[..m] == runs[..m];
          assert runs[..m] + [runs[m]] == runs;
          assert Flatten(runs) == Flatten(runs[..m]) + runs[m];
        } else {
          assert (runs + [[x]])[..|runs|] == runs;
        }
      }
    }
  }

  /** There are no runs exactly when every element is a separator. */
  lemma {:induction false} ChunksEmptyIff<T>(s: seq<T>, sep: T -> bool)
    ensures Chunks(s, sep) == [] <==> forall i :: 0 <= i < |s| ==> sep(s[i])
    decreases |s|
  {
    if s != [] && sep(s[0]) {
      ChunksEmptyIff(s[1..], sep);
      assert forall i :: 1 <= i < |s| ==> s[i] == s[1..][i - 1];
    }
  }

  /** Appending one element to `s` appends it to `Drop(s, sep)` unless it is a separator. */
  lemma DropSnoc<T>(s: seq<T>, x: T, sep: T -> bool)
    ensures Drop(s + [x], sep) == Drop(s, sep) + if sep(x) then [] else [x]
  {
    assert (s + [x])[..|s|] == s;
  }

  /** Every element of every run is an element of `s`. */
  lemma {:induction false} ChunksElements<T>(s: seq<T>, sep: T -> bool)
    ensures forall k, i :: 0 <= k < |Chunks(s, sep)| && 0 <= i < |Chunks(s, sep)[k]| ==> Chunks(s, sep)[k][i] in s
    decreases |s|
  {
    if s != [] {
      if sep(s[0]) {
        ChunksElements(s[1..], sep);
      } else {
        var n := FindFrom(s, sep, 0);
        ChunksElements(s[n..], sep);
        var runs := Chunks(s, sep);
        assert runs == [s[..n]] + Chunks(s[n..], sep);
        forall k | 1 <= k < |runs| ensures runs[k] == Chunks(s[n..], sep)[k - 1] { }
      }
    }
  }

  /** `Drop` keeps exactly the elements of `s` that are not separators. */
  lemma {:induction false} DropIn<T>(s: seq<T>, sep: T -> bool, x: T)
    ensures x in Drop(s, sep) <==> x in s && !sep(x)
    decreases |s|
  {
    if s != [] {
      var n := |s| - 1;
      DropIn(s[..n], sep, x);
      assert s == s[..n] + [s[n]];
    }
  }

  /** A sequence is the part before index `k`, the element at `k` and the part after it. */
  lemma SplitAtIndex<T>(s: seq<T>, k: nat)
    requires k < |s|
    ensures s == s[..k] + ([s[k]] + s[k + 1..])
    ensures s[..k + 1] == s[..k] + [s[k]]
  {
  }

  /** Dropping the first part of a concatenation leaves the second. */
  lemma DropPrefix<T>(a: seq<T>, b: seq<T>)
    ensures (a + b)[|a|..] == b
  {
  }

  /** Concatenation is associative. */
  lemma AppendAssoc<T>(a: seq<T>, b: seq<T>, c: seq<T>)
    ensures a + (b + c) == a + b + c
  {
  }

  /** Leading separators do not change the runs. */
  lemma {:induction false} ChunksSkipLeading<T>(s: seq<T>, sep: T -> bool, k: nat)
    requires k <= |s|
    requires forall i :: 0 <= i < k ==> sep(s[i])
    ensures Chunks(s, sep) == Chunks(s[k..], sep)
    decreases k
  {
    if k > 0 {
      ChunksSkipLeading(s[1..], sep, k - 1);
      assert s[1..][k - 1..] == s[k..];
    }
  }

  /** Trailing separators do not change the runs. */
  lemma {:induction false} ChunksSkipTrailing<T>(s: seq<T>, sep: T -> bool, k: nat)
    requires k <= |s|
    requires forall i :: k <= i < |s| ==> sep(s[i])
    ensures Chunks(s, sep) == Chunks(s[..k], sep)
    decreases |s| - k
  {
    if k < |s| {
      var n := |s| - 1;
      assert s == s[..n] + [s[n]] && sep(s[n]);
      ChunksSnoc(s[..n], s[n], sep);
      ChunksSkipTrailing(s[..n], sep, k);
      assert s[..n][..k] == s[..k];
    } else {
      assert s[..k] == s;
    }
  }

  /**
   * `s[i..j]` is a maximal stretch of non-separators: it is non-empty, a
   * separator or the start of `s` comes before it, and a separator or the
   * end of `s` comes after it.
   */
  predicate RunAt<T>(s: seq<T>, sep: T -> bool, i: nat, j: nat)
  {
    i < j <= |s| && (forall m :: i <= m < j ==> !sep(s[m])) &&
    (i == 0 || sep(s[i - 1])) && (j == |s| || sep(s[j]))
  }

  /** Every run is a maximal stretch of non-separators, at positions `i` to `j` of `s`. */
  lemma {:induction false} ChunkBounds<T>(s: seq<T>, sep: T -> bool, k: nat) returns (i: nat, j: nat)
    requires k < |Chunks(s, sep)|
    ensures RunAt(s, sep, i, j) && Chunks(s, sep)[k] == s[i..j]
    ensures RunStarts(s[..i], sep) == k
    decreases |s|
  {
    var d, k' := RunsAfter(s, sep, k);
    if d == 0 {
      i, j := 0, FindFrom(s, sep, 0);
      assert s[..i] == [];
    } else {
      var i', j' := ChunkBounds(s[d..], sep, k');
      ShiftRun(s, sep, d, i', j');
      StartsShift(s, sep, d, i');
      i, j := i' + d, j' + d;
    }
  }

  /** The runs beginning before position `d + m` of `s`, when `s[d - 1]` is a separator: those before `d`, then those in the first `m` elements after it. */
  lemma StartsShift<T>(s: seq<T>, sep: T -> bool, d: nat, m: nat)
    requires 0 < d <= |s| && m <= |s| - d && sep(s[d - 1])
    ensures RunStarts(s[..m + d], sep) == RunStarts(s[..d], sep) + RunStarts(s[d..][..m], sep)
  {
    assert s[..m + d] == s[..d] + s[d..][..m];
    StartsAppend(s[..d], s[d..][..m], sep);
  }

  /**
   * Where run `k` lies: at the very start (`d == 0`, when `s` starts with a
   * non-separator and `k` is its first run), or as run `k'` of the suffix
   * after the separator at `d - 1`.
   */
  lemma RunsAfter<T>(s: seq<T>, sep: T -> bool, k: nat) returns (d: nat, k': nat)
    requires k < |Chunks(s, sep)|
    ensures d <= |s|
    ensures d == 0 ==> k == 0 && RunAt(s, sep, 0, FindFrom(s, sep, 0)) && Chunks(s, sep)[k] == s[0..FindFrom(s, sep, 0)]
    ensures d > 0 ==> sep(s[d - 1]) && k' < |Chunks(s[d..], sep)| && Chunks(s, sep)[k] == Chunks(s[d..], sep)[k']
    ensures d > 0 ==> RunStarts(s[..d], sep) + k' == k
  {
    if sep(s[0]) {
      d, k' := 1, k;
      assert Chunks(s, sep) == Chunks(s[1..], sep);
      StartsSnocSeparator([], s[0], sep);
      assert [] + [s[0]] == s[..1];
    } else {
      var n := FirstRun(s, sep);
      if k == 0 {
        d, k' := 0, 0;
      } else {
        d, k' := n + 1, k - 1;
        var runs := Chunks(s, sep);
        assert runs[k] == runs[1..][k - 1];
        StartsOfRun(s, sep, n);
        StartsSnocSeparator(s[..n], s[n], sep);
        assert s[..n] + [s[n]] == s[..n + 1];
      }
    }
  }

  /** A trailing separator begins no run. */
  lemma StartsSnocSeparator<T>(a: seq<T>, x: T, sep: T -> bool)
    requires sep(x)
    ensures RunStarts(a + [x], sep) == RunStarts(a, sep)
  {
    assert (a + [x])[..|a|] == a;
  }

  /** A non-empty prefix free of separators holds exactly one run start, at its front. */
  lemma {:induction false} StartsOfRun<T>(s: seq<T>, sep: T -> bool, m: nat)
    requires 0 < m <= |s| && forall j :: 0 <= j < m ==> !sep(s[j])
    ensures RunStarts(s[..m], sep) == 1
    decreases m
  {
    var t := s[..m];
    assert t[..m - 1] == s[..m - 1];
    if m == 1 {
      assert t[..0] == [];
    } else {
      StartsOfRun(s, sep, m - 1);
    }
  }

  /** Behind a separator, run starts add up: the front part ends where no run is open. */
  lemma {:induction false} StartsAppend<T>(a: seq<T>, b: seq<T>, sep: T -> bool)
    requires a != [] && sep(a[|a| - 1])
    ensures RunStarts(a + b, sep) == RunStarts(a, sep) + RunStarts(b, sep)
    decreases |b|
  {
    if b == [] {
      assert a + b == a;
    } else {
      var n := |b| - 1;
      var c := a + b;
      StartsAppend(a, b[..n], sep);
      assert c[..|c| - 1] == a + b[..n];
      assert c[|c| - 1] == b[n];
      assert c[|c| - 2] == if n == 0 then a[|a| - 1] else b[n - 1];
    }
  }

  /** The first run of a sequence that starts with a non-separator: `s[..n]`, followed by the runs after the separator at `n`. */
  lemma FirstRun<T>(s: seq<T>, sep: T -> bool) returns (n: nat)
    requires s != [] && !sep(s[0])
    ensures n == FindFrom(s, sep, 0)
    ensures RunAt(s, sep, 0, n) && Chunks(s, sep)[0] == s[0..n]
    ensures |Chunks(s, sep)| > 1 ==> n < |s| && Chunks(s, sep)[1..] == Chunks(s[n + 1..], sep)
  {
    n := FindFrom(s, sep, 0);
    FindFromFirst(s, sep, 0);
    var runs := Chunks(s, sep);
    assert runs == [s[..n]] + Chunks(s[n..], sep);
    assert runs[1..] == Chunks(s[n..], sep);
    if n < |s| {
      var rest := s[n..];
      assert rest[0] == s[n] && rest[1..] == s[n + 1..];
    }
  }

  /** A maximal stretch of a suffix that follows a separator is a maximal stretch of the whole sequence. */
  lemma ShiftRun<T>(s: seq<T>, sep: T -> bool, d: nat, i: nat, j: nat)
    requires 1 <= d <= |s| && sep(s[d - 1])
    requires RunAt(s[d..], sep, i, j)
    ensures RunAt(s, sep, i + d, j + d) && s[d..][i..j] == s[i + d..j + d]
  {
    var t := s[d..];
    assert forall m :: i + d <= m < j + d ==> s[m] == t[m - d];
    assert i > 0 ==> s[i + d - 1] == t[i - 1];
    assert j < |t| ==> s[j + d] == t[j];
  }
}
