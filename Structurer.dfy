/**
 * The line-classification pass of create_html_cover_letter: it splits the
 * generated letter into lines and sorts each line into the date line, body
 * paragraph content or signature content, collapsing each run of non-blank
 * body lines into one paragraph.
 *
 * `Structure` states the outcome declaratively, one role per line;
 * `StructureLetter` is the single forward pass with its mutable flags and
 * buffers, proved to compute `Structure`.
 */
module Structurer {
  import opened Seqs
  import opened PyText

  /** The structured letter: the date line ("" if none), the body paragraphs and the signature lines. */
  datatype Letter = Letter(dateLine: string, paragraphs: seq<string>, signatureLines: seq<string>)

  predicate IsUpper(c: char) { 'A' <= c <= 'Z' }
  predicate IsLower(c: char) { 'a' <= c <= 'z' }
  predicate NotLower(c: char) { !IsLower(c) }

  /** `\d`, restricted to the ASCII digits. */
  predicate IsDigit(c: char) { '0' <= c <= '9' }

  /** `t[i..i + n]` exists and is made of digits. */
  predicate DigitsAt(t: string, i: nat, n: nat)
  {
    i + n <= |t| && forall k :: i <= k < i + n ==> IsDigit(t[k])
  }

  /** `\d{m}, \d{4}` matches `t` at index `i`. */
  predicate DayYearAt(t: string, i: nat, m: nat)
  {
    DigitsAt(t, i, m) && i + m + 6 <= |t| && t[i + m] == ',' && t[i + m + 1] == ' ' && DigitsAt(t, i + m + 2, 4)
  }

  /**
   * re.match(r'[A-Z][a-z]+ \d{1,2}, \d{4}', t), decided left to right: a
   * capital, the whole run of lower-case letters after it (at least one),
   * a space, a one- or two-digit day, ", " and four digits. Only the start
   * of `t` is examined; anything may follow.
   */
  predicate MatchesDate(t: string)
  {
    |t| >= 1 && IsUpper(t[0]) &&
    var e := FindFrom(t, NotLower, 1);
    e >= 2 && e < |t| && t[e] == ' ' && (DayYearAt(t, e + 1, 1) || DayYearAt(t, e + 1, 2))
  }

  /** The pattern split into its parts: `n` lower-case letters and an `m`-digit day. */
  predicate DateShape(t: string, n: nat, m: nat)
  {
    1 + n < |t| && IsUpper(t[0]) && (forall k :: 1 <= k < 1 + n ==> IsLower(t[k])) &&
    t[1 + n] == ' ' && DayYearAt(t, n + 2, m)
  }

  /** The regular expression's meaning: some choice of its repetitions matches a prefix of `t`. */
  ghost predicate DatePattern(t: string)
  {
    exists n: nat, m: nat :: 1 <= n && 1 <= m <= 2 && DateShape(t, n, m)
  }

  /** The left-to-right test accepts exactly the texts the regular expression matches at their start. */
  lemma MatchesDateIff(t: string)
    ensures MatchesDate(t) <==> DatePattern(t)
  {
    if MatchesDate(t) {
      var e := FindFrom(t, NotLower, 1);
      FindFromFirst(t, NotLower, 1);
      var m := if DayYearAt(t, e + 1, 1) then 1 else 2;
      assert DateShape(t, e - 1, m);
    }
    if DatePattern(t) {
      var n: nat, m: nat :| 1 <= n && 1 <= m <= 2 && DateShape(t, n, m);
      FindFromUnique(t, NotLower, 1, 1 + n);
    }
  }

  /** The date test of the loop, applied to the stripped line. */
  predicate IsDateLine(line: string)
  {
    MatchesDate(Strip(line))
  }

  /** The signature test of the loop, applied to the raw line. */
  predicate IsClosingLine(line: string)
  {
    Contains(line, "Sincerely") || Contains(line, "Regards")
  }

  /**
   * Index of the first closing line other than the date line `d`, or
   * `|lines|` when there is none: where signature mode begins.
   */
  function SignatureStart(lines: seq<string>, d: nat): nat
  {
    var first := FindFrom(lines, IsClosingLine, 0);
    if first == d && d < |lines| then FindFrom(lines, IsClosingLine, d + 1) else first
  }

  /** Where the regions of a letter begin; an index equal to the number of lines means "absent". */
  datatype Layout = Layout(date: nat, signature: nat)

  /** The date line is the first date-pattern line anywhere; signature mode begins at the first closing line that is not the date line. */
  function LayoutOf(lines: seq<string>): Layout
  {
    var d := FindFrom(lines, IsDateLine, 0);
    Layout(d, SignatureStart(lines, d))
  }

  /**
   * The layout's two indices, characterised: the date line is the first
   * line whose stripped text matches the date pattern, and signature mode
   * begins at the first closing line other than the date line.
   */
  lemma LayoutFacts(lines: seq<string>)
    ensures var layout := LayoutOf(lines);
      && layout.date <= |lines|
      && (layout.date < |lines| ==> IsDateLine(lines[layout.date]))
      && (forall j :: 0 <= j < layout.date ==> !IsDateLine(lines[j]))
      && layout.signature <= |lines|
      && (layout.signature < |lines| ==> layout.signature != layout.date && IsClosingLine(lines[layout.signature]))
      && (forall j :: 0 <= j < layout.signature && j != layout.date ==> !IsClosingLine(lines[j]))
  {
    var d := FindFrom(lines, IsDateLine, 0);
    FindFromFirst(lines, IsDateLine, 0);
    FindFromFirst(lines, IsClosingLine, 0);
    if d < |lines| {
      FindFromFirst(lines, IsClosingLine, d + 1);
    }
  }

  datatype Role = Date | Body | Signature

  /** Every line has exactly one role. */
  function RoleOf(layout: Layout, i: nat): Role
  {
    if i == layout.date then Date
    else if layout.signature <= i then Signature
    else Body
  }

  /** The stripped lines among the first `k` whose role is `role`, in order. */
  function Gather(lines: seq<string>, layout: Layout, role: Role, k: nat): seq<string>
    requires k <= |lines|
  {
    if k == 0 then []
    else Gather(lines, layout, role, k - 1) + (if RoleOf(layout, k - 1) == role then [Strip(lines[k - 1])] else [])
  }

  /** A stripped line that is empty: a blank line. */
  predicate Blank(t: string)
  {
    t == ""
  }

  /** Each run of lines joined with a single space. */
  function Paragraphs(runs: seq<seq<string>>): (ps: seq<string>)
    ensures |ps| == |runs|
  {
    if runs == [] then []
    else Paragraphs(runs[..|runs| - 1]) + [Join(" ", runs[|runs| - 1])]
  }

  /** Appending a run appends its paragraph. */
  lemma ParagraphsSnoc(runs: seq<seq<string>>, run: seq<string>)
    ensures Paragraphs(runs + [run]) == Paragraphs(runs) + [Join(" ", run)]
  {
    assert (runs + [run])[..|runs|] == runs;
  }

  /** The stripped lines of the body region, blank ones included: lines before signature mode other than the date line. */
  function BodyLines(text: string): seq<string>
  {
    var lines := Split(text, '\n');
    Gather(lines, LayoutOf(lines), Body, |lines|)
  }

  /**
   * What the structuring pass produces: the stripped date line, one
   * paragraph per maximal run of non-blank body lines, and the non-blank
   * stripped lines of the signature region.
   */
  function Structure(text: string): Letter
  {
    var lines := Split(text, '\n');
    var layout := LayoutOf(lines);
    Letter(
      if layout.date < |lines| then Strip(lines[layout.date]) else "",
      Paragraphs(Chunks(BodyLines(text), Blank)),
      Drop(Gather(lines, layout, Signature, |lines|), Blank))
  }

  /** A captured date line is never empty, so an empty `dateLine` means no date has been seen. */
  lemma DateLineFilled(lines: seq<string>)
    ensures var d := LayoutOf(lines).date; d < |lines| ==> Strip(lines[d]) != ""
  {
    LayoutFacts(lines);
  }

  /** While no date is held, the date test fires exactly on the date line. */
  lemma DateTestPicksDate(lines: seq<string>, k: nat)
    requires k < |lines|
    ensures RoleOf(LayoutOf(lines), k) == Date <==> k <= LayoutOf(lines).date && IsDateLine(lines[k])
  {
    LayoutFacts(lines);
  }

  /** On any other line, the signature test (closing token, or signature mode already on) fires exactly on signature lines. */
  lemma SignatureTestPicksSignature(lines: seq<string>, k: nat)
    requires k < |lines| && k != LayoutOf(lines).date
    ensures RoleOf(LayoutOf(lines), k) == Signature <==> IsClosingLine(lines[k]) || LayoutOf(lines).signature < k
  {
    LayoutFacts(lines);
  }

  /** The variables of the pass between two lines: the date held, the signature flag and lines, the paragraph buffer and the paragraphs flushed. */
  datatype Pass = Pass(dateLine: string, inSignature: bool, signatureLines: seq<string>, current: seq<string>, paragraphs: seq<string>)

  /** What the loop body does with one line, branch for branch. */
  function Step(p: Pass, line: string): Pass
  {
    var stripped := Strip(line);
    if p.dateLine == "" && MatchesDate(stripped) then
      p.(dateLine := stripped)
    else if Contains(line, "Sincerely") || Contains(line, "Regards") || p.inSignature then
      p.(inSignature := true, signatureLines := if stripped != "" then p.signatureLines + [stripped] else p.signatureLines)
    else if stripped != "" then
      p.(current := p.current + [stripped])
    else if p.current != [] then
      p.(paragraphs := p.paragraphs + [Join(" ", p.current)], current := [])
    else
      p
  }

  /** The variables after the loop body has run on the first `k` lines. */
  function Fold(lines: seq<string>, k: nat): Pass
    requires k <= |lines|
  {
    if k == 0 then Pass("", false, [], [], []) else Step(Fold(lines, k - 1), lines[k - 1])
  }

  /**
   * What the pass has built after reading the first `k` lines, in terms of
   * `Structure`: the date held, the signature flag, the signature lines,
   * the paragraphs flushed so far (ghost `done` holds their runs) and the
   * open paragraph buffer.
   */
  ghost predicate Scanned(lines: seq<string>, layout: Layout, k: nat, p: Pass, done: seq<seq<string>>)
    requires k <= |lines|
  {
    && p.dateLine == (if layout.date < k then Strip(lines[layout.date]) else "")
    && (p.inSignature <==> layout.signature < k)
    && p.signatureLines == Drop(Gather(lines, layout, Signature, k), Blank)
    && (p.current == [] ==> Chunks(Gather(lines, layout, Body, k), Blank) == done)
    && (p.current != [] ==> Chunks(Gather(lines, layout, Body, k), Blank) == done + [p.current])
    && (p.current != [] <==> EndsInRun(Gather(lines, layout, Body, k), Blank))
    && p.paragraphs == Paragraphs(done)
  }

  /** Reading the date line: it is held and nothing else changes. */
  lemma ScanDate(lines: seq<string>, layout: Layout, k: nat, p: Pass, done: seq<seq<string>>)
    requires layout == LayoutOf(lines)
    requires k < |lines| && Scanned(lines, layout, k, p, done)
    requires p.dateLine == "" && IsDateLine(lines[k])
    ensures Scanned(lines, layout, k + 1, p.(dateLine := Strip(lines[k])), done)
  {
    DateLineFilled(lines);
    DateTestPicksDate(lines, k);
    assert Gather(lines, layout, Signature, k + 1) == Gather(lines, layout, Signature, k);
    assert Gather(lines, layout, Body, k + 1) == Gather(lines, layout, Body, k);
  }

  /** Reading a signature line: signature mode is on and the line, if not blank, is appended stripped. */
  lemma ScanSignature(lines: seq<string>, layout: Layout, k: nat, p: Pass, done: seq<seq<string>>)
    requires layout == LayoutOf(lines)
    requires k < |lines| && Scanned(lines, layout, k, p, done)
    requires !(p.dateLine == "" && IsDateLine(lines[k]))
    requires IsClosingLine(lines[k]) || p.inSignature
    ensures Strip(lines[k]) != "" ==>
      Scanned(lines, layout, k + 1, p.(inSignature := true, signatureLines := p.signatureLines + [Strip(lines[k])]), done)
    ensures Strip(lines[k]) == "" ==>
      Scanned(lines, layout, k + 1, p.(inSignature := true), done)
  {
    var signature := Gather(lines, layout, Signature, k);
    DateLineFilled(lines);
    DateTestPicksDate(lines, k);
    SignatureTestPicksSignature(lines, k);
    assert Gather(lines, layout, Signature, k + 1) == signature + [Strip(lines[k])];
    assert Gather(lines, layout, Body, k + 1) == Gather(lines, layout, Body, k);
    DropSnoc(signature, Strip(lines[k]), Blank);
  }

  /** A line that passes neither the date test nor the signature test is a body line. */
  lemma BodyRole(lines: seq<string>, layout: Layout, k: nat, p: Pass, done: seq<seq<string>>)
    requires layout == LayoutOf(lines)
    requires k < |lines| && Scanned(lines, layout, k, p, done)
    requires !(p.dateLine == "" && IsDateLine(lines[k]))
    requires !(IsClosingLine(lines[k]) || p.inSignature)
    ensures RoleOf(layout, k) == Body
  {
    DateLineFilled(lines);
    DateTestPicksDate(lines, k);
    SignatureTestPicksSignature(lines, k);
  }

  /** Reading a non-blank body line: it is added, stripped, to the paragraph buffer. */
  lemma ScanText(lines: seq<string>, layout: Layout, k: nat, p: Pass, done: seq<seq<string>>)
    requires layout == LayoutOf(lines)
    requires k < |lines| && Scanned(lines, layout, k, p, done)
    requires RoleOf(layout, k) == Body && Strip(lines[k]) != ""
    ensures Scanned(lines, layout, k + 1, p.(current := p.current + [Strip(lines[k])]), done)
  {
    var body := Gather(lines, layout, Body, k);
    var stripped := Strip(lines[k]);
    var body', current := body + [stripped], p.current;
    assert k != layout.date && k < layout.signature;
    assert Gather(lines, layout, Signature, k + 1) == Gather(lines, layout, Signature, k);
    assert Gather(lines, layout, Body, k + 1) == body';
    assert !Blank(stripped) && EndsInRun(body', Blank);
    ChunksSnoc(body, stripped, Blank);
    if current != [] {
      var runs := done + [current];
      assert EndsInRun(body, Blank) && Chunks(body, Blank) == runs;
      assert runs[..|runs| - 1] == done && runs[|runs| - 1] == current;
    } else {
      assert Chunks(body, Blank) == done;
      assert current + [stripped] == [stripped];
    }
  }

  /** Reading a blank body line: a non-empty buffer is flushed as one paragraph, its lines joined by spaces. */
  lemma ScanBlank(lines: seq<string>, layout: Layout, k: nat, p: Pass, done: seq<seq<string>>)
    requires layout == LayoutOf(lines)
    requires k < |lines| && Scanned(lines, layout, k, p, done)
    requires RoleOf(layout, k) == Body && Strip(lines[k]) == ""
    ensures p.current != [] ==>
      Scanned(lines, layout, k + 1, p.(paragraphs := p.paragraphs + [Join(" ", p.current)], current := []), done + [p.current])
    ensures p.current == [] ==> Scanned(lines, layout, k + 1, p, done)
  {
    var body := Gather(lines, layout, Body, k);
    var stripped := Strip(lines[k]);
    assert Gather(lines, layout, Signature, k + 1) == Gather(lines, layout, Signature, k);
    assert Gather(lines, layout, Body, k + 1) == body + [stripped];
    assert Blank(stripped);
    ChunksSnoc(body, stripped, Blank);
    assert Chunks(Gather(lines, layout, Body, k + 1), Blank) == Chunks(body, Blank);
    assert !EndsInRun(Gather(lines, layout, Body, k + 1), Blank);
    if p.current != [] {
      ParagraphsSnoc(done, p.current);
    }
  }

  /** One run of the loop body keeps `Scanned`, with the ghost runs `done` updated to `done'`. */
  lemma FoldStep(lines: seq<string>, k: nat, p: Pass, done: seq<seq<string>>) returns (done': seq<seq<string>>)
    requires 0 < k <= |lines| && p == Fold(lines, k - 1)
    requires Scanned(lines, LayoutOf(lines), k - 1, p, done)
    ensures Scanned(lines, LayoutOf(lines), k, Fold(lines, k), done')
  {
    var i := k - 1;
    var layout := LayoutOf(lines);
    var line, stripped := lines[i], Strip(lines[i]);
    var next := Step(p, line);
    FoldNext(lines, k);
    done' := done;
    if p.dateLine == "" && IsDateLine(line) {
      ScanDate(lines, layout, i, p, done);
      assert next == p.(dateLine := stripped);
    } else if IsClosingLine(line) || p.inSignature {
      ScanSignature(lines, layout, i, p, done);
      assert next == p.(inSignature := true, signatureLines := if stripped != "" then p.signatureLines + [stripped] else p.signatureLines);
    } else {
      BodyRole(lines, layout, i, p, done);
      if stripped != "" {
        ScanText(lines, layout, i, p, done);
        assert next == p.(current := p.current + [stripped]);
      } else {
        ScanBlank(lines, layout, i, p, done);
        if p.current != [] {
          done' := done + [p.current];
          assert next == p.(paragraphs := p.paragraphs + [Join(" ", p.current)], current := []);
        } else {
          assert next == p;
        }
      }
    }
  }

  /** Reading one more line runs the loop body once more. */
  lemma FoldNext(lines: seq<string>, k: nat)
    requires 0 < k <= |lines|
    ensures Fold(lines, k) == Step(Fold(lines, k - 1), lines[k - 1])
  {
  }

  /** After any number of lines, the variables are what `Structure` says of those lines, for the runs `done` flushed so far. */
  lemma {:induction false} FoldScanned(lines: seq<string>, k: nat) returns (done: seq<seq<string>>)
    requires k <= |lines|
    ensures Scanned(lines, LayoutOf(lines), k, Fold(lines, k), done)
  {
    if k == 0 {
      done := [];
    } else {
      var p := Fold(lines, k - 1);
      var before := FoldScanned(lines, k - 1);
      var layout := LayoutOf(lines);
      assert Scanned(lines, layout, k - 1, p, before);
      done := FoldStep(lines, k, p, before);
    }
  }

  /** After the last line, flushing a non-empty buffer completes the letter `Structure` describes. */
  lemma FoldIsStructure(text: string)
    ensures var p := Fold(Split(text, '\n'), |Split(text, '\n')|);
      Structure(text) == Letter(p.dateLine, if p.current != [] then p.paragraphs + [Join(" ", p.current)] else p.paragraphs, p.signatureLines)
  {
    var lines := Split(text, '\n');
    var done := FoldScanned(lines, |lines|);
    var p := Fold(lines, |lines|);
    if p.current != [] {
      ParagraphsSnoc(done, p.current);
    }
  }

  /** The forward pass over the lines, with the date, signature flag and paragraph buffer of create_html_cover_letter. */
  method StructureLetter(text: string) returns (letter: Letter)
    ensures letter == Structure(text)
  {
    var lines := Split(text, '\n');
    var paragraphs: seq<string> := [];
    var dateLine := "";
    var signatureLines: seq<string> := [];
    var current: seq<string> := [];
    var inSignature := false;
    for k := 0 to |lines|
      invariant Pass(dateLine, inSignature, signatureLines, current, paragraphs) == Fold(lines, k)
    {
      var line := lines[k];
      if dateLine == "" && MatchesDate(Strip(line)) {
        dateLine := Strip(line);
        continue;
      }
      if Contains(line, "Sincerely") || Contains(line, "Regards") || inSignature {
        inSignature := true;
        if Strip(line) != "" {
          signatureLines := signatureLines + [Strip(line)];
        }
        continue;
      }
      if Strip(line) != "" {
        current := current + [Strip(line)];
      } else if current != [] {
        paragraphs := paragraphs + [Join(" ", current)];
        current := [];
      }
    }
    FoldIsStructure(text);
    if current != [] {
      paragraphs := paragraphs + [Join(" ", current)];
    }
    letter := Letter(dateLine, paragraphs, signatureLines);
  }

  // Properties of the structured letter, stated in terms of the input lines.

  /** Line `i` is the first line whose stripped text passes the date test: the line the pass holds as the date. */
  predicate IsFirstDateLine(lines: seq<string>, i: nat)
    requires i < |lines|
  {
    IsDateLine(lines[i]) && forall j :: 0 <= j < i ==> !IsDateLine(lines[j])
  }

  /** Some line at or before `j` contains a closing token and is not the date line: signature mode is on at line `j`. */
  predicate SignatureOpenAt(lines: seq<string>, j: nat)
    requires j < |lines|
  {
    exists i :: 0 <= i <= j && IsClosingLine(lines[i]) && !IsFirstDateLine(lines, i)
  }

  /**
   * The roles, in the terms of the loop: the date is the first date-test
   * line, signature lines are the other lines from the first closing line
   * other than the date line on, and body lines are all remaining lines.
   */
  lemma Roles(lines: seq<string>, j: nat)
    requires j < |lines|
    ensures RoleOf(LayoutOf(lines), j) == Date <==> IsFirstDateLine(lines, j)
    ensures RoleOf(LayoutOf(lines), j) == Signature <==> !IsFirstDateLine(lines, j) && SignatureOpenAt(lines, j)
    ensures RoleOf(LayoutOf(lines), j) == Body <==> !IsFirstDateLine(lines, j) && !SignatureOpenAt(lines, j)
  {
    var layout := LayoutOf(lines);
    LayoutFacts(lines);
    assert IsFirstDateLine(lines, j) <==> j == layout.date;
    if layout.signature <= j {
      assert IsClosingLine(lines[layout.signature]) && !IsFirstDateLine(lines, layout.signature);
    }
    if SignatureOpenAt(lines, j) {
      var i :| 0 <= i <= j && IsClosingLine(lines[i]) && !IsFirstDateLine(lines, i);
      assert layout.signature <= i;
    }
  }

  /** A stripped line is gathered for a role exactly when some line of that role among the first `k` strips to it. */
  lemma {:induction false} GatherIff(lines: seq<string>, layout: Layout, role: Role, k: nat, x: string)
    requires k <= |lines|
    ensures x in Gather(lines, layout, role, k) <==> exists j :: 0 <= j < k && RoleOf(layout, j) == role && x == Strip(lines[j])
    decreases k
  {
    if k > 0 {
      GatherIff(lines, layout, role, k - 1, x);
    }
  }

  /** No line before index `i` strips to a text the date pattern matches. */
  ghost predicate NoDateBefore(lines: seq<string>, i: nat)
    requires i <= |lines|
  {
    forall j :: 0 <= j < i ==> !DatePattern(Strip(lines[j]))
  }

  /** Line `i` is the first line whose stripped text the date pattern matches. */
  ghost predicate FirstDateAt(lines: seq<string>, i: nat)
  {
    i < |lines| && DatePattern(Strip(lines[i])) && NoDateBefore(lines, i)
  }

  /**
   * The date line is the stripped text of the first line whose stripped
   * text the date pattern matches, wherever it stands, and "" when no line
   * matches.
   */
  lemma DateLineIsFirstMatch(text: string)
    ensures Structure(text).dateLine == "" <==> NoDateBefore(Split(text, '\n'), |Split(text, '\n')|)
    ensures Structure(text).dateLine != "" ==>
      exists i: nat :: FirstDateAt(Split(text, '\n'), i) && Structure(text).dateLine == Strip(Split(text, '\n')[i])
  {
    var lines := Split(text, '\n');
    var layout := LayoutOf(lines);
    var d := Structure(text).dateLine;
    assert d == if layout.date < |lines| then Strip(lines[layout.date]) else "";
    LayoutFacts(lines);
    DateLineFilled(lines);
    forall i | 0 <= i < layout.date
      ensures !DatePattern(Strip(lines[i]))
    {
      MatchesDateIff(Strip(lines[i]));
    }
    if layout.date < |lines| {
      MatchesDateIff(d);
      assert FirstDateAt(lines, layout.date);
    }
  }

  /**
   * Signature mode is sticky: from any closing line other than the date
   * line on, every non-blank line other than the date line is in the
   * signature, stripped, whatever it looks like.
   */
  lemma SignatureIsSticky(text: string, i: nat, j: nat)
    requires var lines := Split(text, '\n');
      && i <= j < |lines| && IsClosingLine(lines[i]) && !IsFirstDateLine(lines, i)
      && !IsFirstDateLine(lines, j) && Strip(lines[j]) != ""
    ensures Strip(Split(text, '\n')[j]) in Structure(text).signatureLines
  {
    var lines := Split(text, '\n');
    var layout := LayoutOf(lines);
    Roles(lines, j);
    GatherIff(lines, layout, Signature, |lines|, Strip(lines[j]));
    DropIn(Gather(lines, layout, Signature, |lines|), Blank, Strip(lines[j]));
  }

  /** Some line whose role is `role` strips to `x`. */
  ghost predicate LineWithRole(lines: seq<string>, role: Role, x: string)
  {
    exists j :: 0 <= j < |lines| && RoleOf(LayoutOf(lines), j) == role && x == Strip(lines[j])
  }

  /**
   * The signature lines are exactly the non-blank stripped lines whose role
   * is `Signature` (which `Roles` explains in the terms of the loop).
   */
  lemma SignatureLinesAre(text: string, x: string)
    ensures x in Structure(text).signatureLines <==> x != "" && LineWithRole(Split(text, '\n'), Signature, x)
  {
    var lines := Split(text, '\n');
    var layout := LayoutOf(lines);
    var signature := Gather(lines, layout, Signature, |lines|);
    assert Structure(text).signatureLines == Drop(signature, Blank);
    DropIn(signature, Blank, x);
    GatherIff(lines, layout, Signature, |lines|, x);
  }

  /**
   * The body lines are exactly the stripped lines whose role is `Body`:
   * neither the date line nor in signature mode.
   */
  lemma BodyLinesAre(text: string, x: string)
    ensures x in BodyLines(text) <==> LineWithRole(Split(text, '\n'), Body, x)
  {
    var lines := Split(text, '\n');
    GatherIff(lines, LayoutOf(lines), Body, |lines|, x);
  }

  /** The `k`th paragraph is the `k`th run joined with single spaces. */
  lemma {:induction false} ParagraphsAt(runs: seq<seq<string>>, k: nat)
    requires k < |runs|
    ensures Paragraphs(runs)[k] == Join(" ", runs[k])
    decreases |runs|
  {
    if k < |runs| - 1 {
      ParagraphsAt(runs[..|runs| - 1], k);
    }
  }

  /**
   * One paragraph per maximal run of non-blank body lines, in order: the
   * count is the number of places where such a run begins, each paragraph
   * is its run joined with single spaces, and the runs laid end to end are
   * exactly the non-blank body lines.
   */
  lemma ParagraphsAreRuns(text: string)
    ensures var body, l := BodyLines(text), Structure(text);
      && |l.paragraphs| == RunStarts(body, Blank)
      && (forall k :: 0 <= k < |l.paragraphs| ==> l.paragraphs[k] == Join(" ", Chunks(body, Blank)[k]))
      && Flatten(Chunks(body, Blank)) == Drop(body, Blank)
  {
    var body := BodyLines(text);
    ChunksCount(body, Blank);
    ChunksFlatten(body, Blank);
    forall k | 0 <= k < |Chunks(body, Blank)|
      ensures Paragraphs(Chunks(body, Blank))[k] == Join(" ", Chunks(body, Blank)[k])
    {
      ParagraphsAt(Chunks(body, Blank), k);
    }
  }

  /**
   * Where each paragraph comes from: paragraph `k` is the body lines `i`
   * to `j` joined with single spaces, none of them blank, with a blank
   * line or the end of the body on either side; exactly `k` runs of
   * non-blank lines begin before line `i`, so paragraphs keep the order
   * of the text.
   */
  lemma ParagraphsAreMaximalRuns(text: string, k: nat) returns (i: nat, j: nat)
    requires k < |Structure(text).paragraphs|
    ensures var body := BodyLines(text);
      RunAt(body, Blank, i, j) && Structure(text).paragraphs[k] == Join(" ", body[i..j])
    ensures RunStarts(BodyLines(text)[..i], Blank) == k
  {
    var runs := Chunks(BodyLines(text), Blank);
    i, j := ChunkBounds(BodyLines(text), Blank, k);
    ParagraphsAt(runs, k);
  }

  /** Every stripped line is free of line breaks, since it comes from one piece of the split. */
  lemma GatheredLinesFree(text: string, role: Role, x: string)
    requires var lines := Split(text, '\n'); x in Gather(lines, LayoutOf(lines), role, |lines|)
    ensures '\n' !in x
  {
    var lines := Split(text, '\n');
    GatherIff(lines, LayoutOf(lines), role, |lines|, x);
    var j :| 0 <= j < |lines| && RoleOf(LayoutOf(lines), j) == role && x == Strip(lines[j]);
    SplitPiecesFree(text, '\n');
    StripSubset(lines[j], '\n');
  }

  /**
   * Shape of the result: the date line, every paragraph and every signature
   * line are single lines; paragraphs and signature lines are never empty.
   */
  lemma LetterShape(text: string)
    ensures var l := Structure(text);
      && '\n' !in l.dateLine
      && (forall k :: 0 <= k < |l.paragraphs| ==> l.paragraphs[k] != "" && '\n' !in l.paragraphs[k])
      && (forall k :: 0 <= k < |l.signatureLines| ==> l.signatureLines[k] != "" && '\n' !in l.signatureLines[k])
  {
    var lines := Split(text, '\n');
    var layout := LayoutOf(lines);
    var l := Structure(text);
    SplitPiecesFree(text, '\n');
    if layout.date < |lines| {
      StripSubset(lines[layout.date], '\n');
    }
    var body := BodyLines(text);
    var runs := Chunks(body, Blank);
    ChunksShape(body, Blank);
    ChunksElements(body, Blank);
    forall k | 0 <= k < |runs|
      ensures Paragraphs(runs)[k] != "" && '\n' !in Paragraphs(runs)[k]
    {
      ParagraphsAt(runs, k);
      JoinStartsWithFirst(" ", runs[k]);
      forall i | 0 <= i < |runs[k]| ensures '\n' !in runs[k][i]
      {
        GatheredLinesFree(text, Body, runs[k][i]);
      }
      JoinAvoids(" ", runs[k], '\n');
    }
    var signature := Gather(lines, layout, Signature, |lines|);
    forall k | 0 <= k < |l.signatureLines|
      ensures '\n' !in l.signatureLines[k]
    {
      DropIn(signature, Blank, l.signatureLines[k]);
      GatheredLinesFree(text, Signature, l.signatureLines[k]);
    }
  }

  /** An empty text is one blank line: no date, no paragraphs, no signature. */
  lemma EmptyText()
    ensures Structure("") == Letter("", [], [])
  {
    var lines := Split("", '\n');
    assert lines == [""];
    assert !Contains("", "Sincerely") && !Contains("", "Regards");
    var layout := LayoutOf(lines);
    assert layout == Layout(1, 1);
    assert Gather(lines, layout, Body, 1) == [""];
    assert Chunks([""], Blank) == [];
  }
}
