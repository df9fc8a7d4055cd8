/**
 * extract_name_from_resume: the first of the first five lines of a résumé
 * that looks like a bare name (one to three words, letters, whitespace,
 * dots and hyphens only) is taken as the applicant's name, stripped; when
 * none does, the placeholder "Your Name" is used.
 */
module ResumeName {
  import opened Seqs
  import opened PyText

  /** The placeholder returned when no line looks like a name. */
  const DefaultName: string := "Your Name"

  /** How many leading lines are examined (`lines[:5]`). */
  const ScannedLines: nat := 5

  /** One character of the class `[A-Za-z\s\.\-]`. */
  predicate InNameClass(c: char)
  {
    'A' <= c <= 'Z' || 'a' <= c <= 'z' || IsSpace(c) || c == '.' || c == '-'
  }

  /** `re.match(r'^[A-Za-z\s\.\-]+$', t)`: at least one character, all of them in the class. */
  predicate MatchesName(t: string)
  {
    t != [] && forall i :: 0 <= i < |t| ==> InNameClass(t[i])
  }

  /** A line that is taken as a name: one to three words, and its stripped text matches the name pattern. */
  predicate IsNameLine(line: string)
  {
    1 <= |Words(line)| <= 3 && MatchesName(Strip(line))
  }

  /** The lines the search looks at: at most the first five lines of the text. */
  function Candidates(text: string): (lines: seq<string>)
    ensures 1 <= |lines| <= ScannedLines
    ensures |lines| == if |Split(text, '\n')| < ScannedLines then |Split(text, '\n')| else ScannedLines
    ensures lines <= Split(text, '\n')
  {
    var all := Split(text, '\n');
    if |all| <= ScannedLines then all else all[..ScannedLines]
  }

  /** The search with early return: the stripped first name line, or the placeholder. */
  function FirstName(lines: seq<string>): string
  {
    if lines == [] then DefaultName
    else if IsNameLine(lines[0]) then Strip(lines[0])
    else FirstName(lines[1..])
  }

  /** The name extracted from a résumé text. */
  function ExtractName(text: string): string
  {
    FirstName(Candidates(text))
  }

  /** Line `i` is the first name line of `lines`. */
  predicate FirstNameLineAt(lines: seq<string>, i: nat)
  {
    i < |lines| && IsNameLine(lines[i]) && forall j :: 0 <= j < i ==> !IsNameLine(lines[j])
  }

  /** No line of `lines` is a name line. */
  predicate NoNameLine(lines: seq<string>)
  {
    forall j :: 0 <= j < |lines| ==> !IsNameLine(lines[j])
  }

  /**
   * What the search finds: the index `i` of the first name line, or `|lines|`
   * when there is none, together with the result in each case.
   */
  lemma {:induction false} FirstNameSearch(lines: seq<string>) returns (i: nat)
    ensures i <= |lines|
    ensures i < |lines| ==> FirstNameLineAt(lines, i) && FirstName(lines) == Strip(lines[i])
    ensures i == |lines| ==> NoNameLine(lines) && FirstName(lines) == DefaultName
    decreases |lines|
  {
    if lines == [] {
      i := 0;
    } else if IsNameLine(lines[0]) {
      i := 0;
    } else {
      var rest := lines[1..];
      var k := FirstNameSearch(rest);
      i := k + 1;
      assert forall j :: 1 <= j < |lines| ==> lines[j] == rest[j - 1];
    }
  }

  /** The first name line is unique. */
  lemma FirstNameLineUnique(lines: seq<string>, i: nat, j: nat)
    requires FirstNameLineAt(lines, i) && FirstNameLineAt(lines, j)
    ensures i == j
  {
  }

  /** Match: when line `i` of the first five is the first name line, the result is that line stripped. */
  lemma NameIsFirstMatch(text: string, i: nat)
    requires FirstNameLineAt(Candidates(text), i)
    ensures ExtractName(text) == Strip(Candidates(text)[i])
  {
    var k := FirstNameSearch(Candidates(text));
    FirstNameLineUnique(Candidates(text), i, k);
  }

  /** Default: when none of the first five lines is a name line, the result is the placeholder. */
  lemma NoMatchGivesDefault(text: string)
    requires NoNameLine(Candidates(text))
    ensures ExtractName(text) == DefaultName
  {
    var k := FirstNameSearch(Candidates(text));
  }

  /**
   * The result is the placeholder exactly when no line qualifies or when the
   * first line that qualifies reads "Your Name" itself.
   */
  lemma DefaultIff(text: string)
    ensures ExtractName(text) == DefaultName <==>
      NoNameLine(Candidates(text)) ||
      exists i: nat :: FirstNameLineAt(Candidates(text), i) && Strip(Candidates(text)[i]) == DefaultName
  {
    var lines := Candidates(text);
    var k := FirstNameSearch(lines);
    if k < |lines| {
      assert !NoNameLine(lines) by {
        assert IsNameLine(lines[k]);
      }
      forall i: nat | FirstNameLineAt(lines, i)
        ensures i == k
      {
        FirstNameLineUnique(lines, i, k);
      }
    }
  }

  /** Any result other than the placeholder is a name: non-empty, name characters only, one to three words. */
  lemma ExtractedNameShape(text: string)
    ensures var name := ExtractName(text);
      name == DefaultName ||
      (MatchesName(name) && 1 <= |Words(name)| <= 3 &&
       exists i: nat :: i < |Candidates(text)| && name == Strip(Candidates(text)[i]))
  {
    var lines := Candidates(text);
    var k := FirstNameSearch(lines);
    if k < |lines| {
      WordsStrip(lines[k]);
    }
  }

  /** A résumé with at least five lines: whatever is appended after them is never examined. */
  lemma LaterLinesIgnored(text: string, rest: string)
    requires |Split(text, '\n')| >= ScannedLines
    ensures ExtractName(text + "\n" + rest) == ExtractName(text)
  {
    var front := Split(text, '\n');
    assert text + "\n" + rest == text + ['\n'] + rest;
    SplitAround(text, rest, '\n');
    assert (front + Split(rest, '\n'))[..ScannedLines] == front[..ScannedLines];
  }

  /** The placeholder text is itself a name line: the only-if half of "placeholder exactly when no line qualifies" fails for it. */
  lemma PlaceholderIsAName()
    ensures IsNameLine(DefaultName)
    ensures ExtractName(DefaultName) == DefaultName
    ensures !NoNameLine(Candidates(DefaultName))
  {
    PlaceholderStrips();
    PlaceholderWords();
    PlaceholderMatches();
    SplitWithoutSeparator(DefaultName, '\n');
    assert Candidates(DefaultName) == [DefaultName];
  }

  /** The placeholder has no surrounding whitespace. */
  lemma PlaceholderStrips()
    ensures Strip(DefaultName) == DefaultName
  {
    var t := DefaultName;
    assert !IsSpace(t[0]) && !IsSpace(t[|t| - 1]);
    assert TrimStart(t) == t;
  }

  /** The placeholder consists of name characters only. */
  lemma PlaceholderMatches()
    ensures MatchesName(DefaultName)
  {
    var t := DefaultName;
    forall i | 0 <= i < |t|
      ensures InNameClass(t[i])
    {
      assert t[i] == ' ' || 'A' <= t[i] <= 'Z' || 'a' <= t[i] <= 'z';
    }
  }

  /** The placeholder is two words. */
  lemma PlaceholderWords()
    ensures Words(DefaultName) == ["Your", "Name"]
  {
    var t, name := DefaultName, "Name";
    FindFromUnique(t, IsSpace, 0, 4);
    FindFromUnique(name, IsSpace, 0, 4);
    assert t[..4] == "Your" && t[4..][1..] == name;
    assert Chunks(t[4..], IsSpace) == Chunks(name, IsSpace);
    assert name[..4] == name && name[4..] == [];
  }
}
