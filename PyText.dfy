/**
 * The few Python string operations the cover-letter code relies on:
 * str.isspace, str.split(sep), str.split(), str.join, str.strip and the
 * substring test `pat in s`. Strings are sequences of Unicode scalar values.
 */
module PyText {
  import opened Seqs

  /** Python's str.isspace() for one character (the characters str.strip(), str.split() and `\s` treat as whitespace). */
  predicate IsSpace(c: char)
  {
    c == ' ' || '\t' <= c <= '\r' || '\U{1C}' <= c <= '\U{1F}' ||
    c == '\U{85}' || c == '\U{A0}' || c == '\U{1680}' || '\U{2000}' <= c <= '\U{200A}' ||
    c == '\U{2028}' || c == '\U{2029}' || c == '\U{202F}' || c == '\U{205F}' || c == '\U{3000}'
  }

  /** Python's s.split(sep) for a one-character separator: the pieces between separators, at least one. */
  function Split(s: string, sep: char): (parts: seq<string>)
    ensures |parts| >= 1
  {
    if s == [] then [""]
    else
      var rest := Split(s[1..], sep);
      if s[0] == sep then [""] + rest else [[s[0]] + rest[0]] + rest[1..]
  }

  /** No piece of a split contains the separator. */
  lemma {:induction false} SplitPiecesFree(s: string, sep: char)
    ensures forall i :: 0 <= i < |Split(s, sep)| ==> sep !in Split(s, sep)[i]
    decreases |s|
  {
    if s != [] {
      SplitPiecesFree(s[1..], sep);
      var rest := Split(s[1..], sep);
      var parts := Split(s, sep);
      if s[0] == sep {
        assert forall i :: 1 <= i < |parts| ==> parts[i] == rest[i - 1];
      } else {
        assert forall i :: 1 <= i < |parts| ==> parts[i] == rest[i];
      }
    }
  }

  /** A text without the separator splits into itself alone. */
  lemma {:induction false} SplitWithoutSeparator(s: string, sep: char)
    requires sep !in s
    ensures Split(s, sep) == [s]
    decreases |s|
  {
    if s != [] {
      SplitWithoutSeparator(s[1..], sep);
      assert [s[0]] + s[1..] == s;
    }
  }

  /** Python's sep.join(parts). */
  function Join(sep: string, parts: seq<string>): string
  {
    if parts == [] then ""
    else if |parts| == 1 then parts[0]
    else parts[0] + sep + Join(sep, parts[1..])
  }

  /** Python's s.split() with no argument: the maximal runs of non-whitespace characters. */
  function Words(s: string): seq<string>
  {
    Chunks(s, IsSpace)
  }

  /** Python's s.lstrip(). */
  function TrimStart(s: string): string
  {
    if s != [] && IsSpace(s[0]) then TrimStart(s[1..]) else s
  }

  /** Python's s.rstrip(). */
  function TrimEnd(s: string): string
  {
    if s != [] && IsSpace(s[|s| - 1]) then TrimEnd(s[..|s| - 1]) else s
  }

  /** Python's s.strip(): `s` without its leading and trailing whitespace. */
  function Strip(s: string): (r: string)
  {
    TrimEnd(TrimStart(s))
  }

  /** `pat` occurs in `s` starting at index `i`. */
  predicate OccursAt(s: string, pat: string, i: nat)
  {
    i + |pat| <= |s| && s[i..i + |pat|] == pat
  }

  /** Python's `pat in s`. */
  predicate Contains(s: string, pat: string)
  {
    exists i: nat :: i <= |s| && OccursAt(s, pat, i)
  }

  /** Joining the pieces of a split with the separator gives back the original text. */
  lemma {:induction false} JoinSplit(s: string, sep: char)
    ensures Join([sep], Split(s, sep)) == s
    decreases |s|
  {
    if s != [] {
      var c, tail := s[0], s[1..];
      var rest := Split(tail, sep);
      JoinSplit(tail, sep);
      assert [c] + tail == s;
      if c == sep {
        JoinCons([sep], "", rest);
      } else if |rest| > 1 {
        JoinCons([sep], rest[0], rest[1..]);
        JoinCons([sep], [c] + rest[0], rest[1..]);
        AppendAssoc([c], rest[0], [sep] + Join([sep], rest[1..]));
        AppendAssoc([c] + rest[0], [sep], Join([sep], rest[1..]));
        AppendAssoc(rest[0], [sep], Join([sep], rest[1..]));
      }
    }
  }

  /** Joining a first piece in front of at least one more piece puts the separator between them. */
  lemma JoinCons(sep: string, first: string, more: seq<string>)
    requires more != []
    ensures Join(sep, [first] + more) == first + sep + Join(sep, more)
  {
    var parts := [first] + more;
    assert parts[0] == first && parts[1..] == more;
  }

  /** Splitting text that has a separator in the middle splits each side independently. */
  lemma {:induction false} SplitAround(a: string, b: string, sep: char)
    ensures Split(a + [sep] + b, sep) == Split(a, sep) + Split(b, sep)
    decreases |a|
  {
    if a == [] {
      SplitCons(sep, b, sep);
      assert [sep] + b == a + [sep] + b;
    } else {
      var c, rest := a[0], a[1..];
      SplitAround(rest, b, sep);
      SplitAroundStep(c, rest, b, sep);
      assert [c] + rest == a;
      assert [c] + (rest + [sep] + b) == a + [sep] + b;
    }
  }

  /** One character in front of the left side goes to the same piece on both sides of the equation of `SplitAround`. */
  lemma SplitAroundStep(c: char, rest: string, b: string, sep: char)
    requires Split(rest + [sep] + b, sep) == Split(rest, sep) + Split(b, sep)
    ensures Split([c] + (rest + [sep] + b), sep) == Split([c] + rest, sep) + Split(b, sep)
  {
    var whole := rest + [sep] + b;
    var left, right := Split(rest, sep), Split(b, sep);
    SplitCons(c, whole, sep);
    SplitCons(c, rest, sep);
    if c != sep {
      ExtendFirst([c], left, right);
    } else {
      AppendAssoc([""], left, right);
    }
  }

  /** Extending the first piece of a list of pieces commutes with appending further pieces. */
  lemma ExtendFirst(prefix: string, left: seq<string>, right: seq<string>)
    requires left != []
    ensures [prefix + (left + right)[0]] + (left + right)[1..] == ([prefix + left[0]] + left[1..]) + right
  {
    assert (left + right)[1..] == left[1..] + right;
  }

  /** Splitting a text that starts with character `c`: a separator opens an empty first piece, any other character joins the first piece. */
  lemma SplitCons(c: char, s: string, sep: char)
    ensures Split([c] + s, sep) ==
      if c == sep then [""] + Split(s, sep) else [[c] + Split(s, sep)[0]] + Split(s, sep)[1..]
  {
    assert ([c] + s)[1..] == s;
  }

  /** lstrip removes a whitespace prefix and leaves a text that does not start with whitespace. */
  lemma {:induction false} TrimStartShape(s: string)
    ensures var r := TrimStart(s);
      && |r| <= |s| && r == s[|s| - |r|..]
      && (forall i :: 0 <= i < |s| - |r| ==> IsSpace(s[i]))
      && (r == [] || !IsSpace(r[0]))
    decreases |s|
  {
    if s != [] && IsSpace(s[0]) {
      TrimStartShape(s[1..]);
    }
  }

  /** rstrip removes a whitespace suffix and leaves a text that does not end with whitespace. */
  lemma {:induction false} TrimEndShape(s: string)
    ensures var r := TrimEnd(s);
      && |r| <= |s| && r == s[..|r|]
      && (forall i :: |r| <= i < |s| ==> IsSpace(s[i]))
      && (r == [] || !IsSpace(r[|r| - 1]))
    decreases |s|
  {
    if s != [] && IsSpace(s[|s| - 1]) {
      TrimEndShape(s[..|s| - 1]);
    }
  }

  /**
   * The stripped text is the slice of `s` left after removing whitespace
   * from both ends (the leading part being what lstrip removes). It is
   * empty exactly when the text is all whitespace; otherwise it neither
   * starts nor ends with whitespace.
   */
  lemma StripShape(s: string)
    ensures var a, r := |s| - |TrimStart(s)|, Strip(s);
      && 0 <= a && a + |r| <= |s| && r == s[a..a + |r|]
      && (forall i :: 0 <= i < a ==> IsSpace(s[i]))
      && (forall i :: a + |r| <= i < |s| ==> IsSpace(s[i]))
    ensures Strip(s) == [] <==> forall i :: 0 <= i < |s| ==> IsSpace(s[i])
    ensures Strip(s) != [] ==> !IsSpace(Strip(s)[0]) && !IsSpace(Strip(s)[|Strip(s)| - 1])
  {
    var t := TrimStart(s);
    TrimStartShape(s);
    TrimEndShape(t);
    var a, r := |s| - |t|, Strip(s);
    assert r == t[..|r|] && t == s[a..];
    assert forall i :: a + |r| <= i < |s| ==> s[i] == t[i - a];
    if Strip(s) == [] {
      assert t == [];
    } else {
      assert Strip(s)[0] == t[0];
    }
  }

  /** Stripping keeps a middle part of the text, so it adds no character. */
  lemma StripSubset(s: string, c: char)
    requires c !in s
    ensures c !in Strip(s)
  {
    var t := TrimStart(s);
    TrimStartShape(s);
    TrimEndShape(t);
    assert forall i :: 0 <= i < |t| ==> t[i] == s[|s| - |t| + i];
    assert forall i :: 0 <= i < |Strip(s)| ==> Strip(s)[i] == t[i];
  }

  /** A character found neither in the separator nor in any part is not in the joined text. */
  lemma {:induction false} JoinAvoids(sep: string, parts: seq<string>, c: char)
    requires c !in sep
    requires forall i :: 0 <= i < |parts| ==> c !in parts[i]
    ensures c !in Join(sep, parts)
    decreases |parts|
  {
    if |parts| > 1 {
      JoinAvoids(sep, parts[1..], c);
    }
  }

  /** The joined text starts with the first part, so it is non-empty when that part is. */
  lemma {:induction false} JoinStartsWithFirst(sep: string, parts: seq<string>)
    requires parts != []
    ensures parts[0] <= Join(sep, parts)
  {
  }

  /** Stripping a text does not change its words. */
  lemma WordsStrip(s: string)
    ensures Words(Strip(s)) == Words(s)
  {
    var t := TrimStart(s);
    TrimStartShape(s);
    TrimEndShape(t);
    ChunksSkipLeading(s, IsSpace, |s| - |t|);
    ChunksSkipTrailing(t, IsSpace, |Strip(s)|);
  }

  /** A text has no words exactly when it is all whitespace, i.e. when it strips to nothing. */
  lemma WordsEmptyIff(s: string)
    ensures Words(s) == [] <==> Strip(s) == []
  {
    ChunksEmptyIff(s, IsSpace);
    StripShape(s);
  }
}
