/**
 * The HTML assembly of create_html_cover_letter: a fixed head carrying the
 * role, the company and the date line, one `<p>` block per paragraph, a
 * signature `<div>` with one `<p>` block per signature line, and a fixed
 * tail with the print button. Text is inserted verbatim, without escaping.
 */
module Renderer {
  import opened Seqs
  import opened PyText
  import opened Structurer

  datatype Option<T> = None | Some(value: T)

  /** The document up to the title text. */
  const TitleOpen: string :=
    "\n" +
    "        <!DOCTYPE html>\n" +
    "        <html>\n" +
    "        <head>\n" +
    "            <title>Cover Letter - "

  /** Between the role and the company in the title. */
  const TitleAt: string := " at "

  /** From the end of the title to the opening of the date `<div>`, the style sheet included. */
  const StyleAndDateOpen: string :=
    "</title>\n" +
    "            <style>\n" +
    "                @media print {\n" +
    "                    @page { size: letter; margin: 1in; }\n" +
    "                }\n" +
    "                body {\n" +
    "                    font-family: Arial, sans-serif;\n" +
    "                    line-height: 1.5;\n" +
    "                    font-size: 10pt;\n" +
    "                    color: #000;\n" +
    "                    max-width: 8.5in;\n" +
    "                    margin: 0 auto;\n" +
    "                    padding: 1in;\n" +
    "                }\n" +
    "                .date {\n" +
    "                    text-align: right;\n" +
    "                    margin-bottom: 20px;\n" +
    "                }\n" +
    "                .content p {\n" +
    "                    margin-bottom: 15px;\n" +
    "                    text-align: justify;\n" +
    "                }\n" +
    "                .signature {\n" +
    "                    margin-top: 30px;\n" +
    "                }\n" +
    "                .print-button {\n" +
    "                    display: block;\n" +
    "                    text-align: center;\n" +
    "                    margin: 20px auto;\n" +
    "                    padding: 10px 20px;\n" +
    "                    background-color: #4CAF50;\n" +
    "                    color: white;\n" +
    "                    border: none;\n" +
    "                    border-radius: 4px;\n" +
    "                    font-size: 16px;\n" +
    "                    cursor: pointer;\n" +
    "                }\n" +
    "                @media print {\n" +
    "                    .print-button {\n" +
    "                        display: none;\n" +
    "                    }\n" +
    "                }\n" +
    "            </style>\n" +
    "        </head>\n" +
    "        <body>\n" +
    "            <div class=\"date\">"

  /** From the end of the date to the start of the paragraphs. */
  const ContentOpen: string :=
    "</div>\n" +
    "            \n" +
    "            <div class=\"content\">\n" +
    "        "

  /** The line that opens the signature region, and its closing line. */
  const SignatureOpenLine: string := "<div class=\"signature\">"
  const SignatureCloseLine: string := "</div>"

  /** The fixed tail: end of the content `<div>`, the print button and its script. */
  const Tail: string :=
    "\n" +
    "            </div>\n" +
    "            \n" +
    "            <button class=\"print-button\" onclick=\"window.print()\">Print / Save as PDF</button>\n" +
    "            \n" +
    "            <script>\n" +
    "                document.querySelector('.print-button').addEventListener('click', function() {\n" +
    "                    window.print();\n" +
    "                });\n" +
    "            </script>\n" +
    "        </body>\n" +
    "        </html>\n" +
    "        "

  /** The head of the document, everything before the first paragraph. */
  function Head(date: string, company: string, role: string): string
  {
    TitleOpen + role + TitleAt + company + StyleAndDateOpen + date + ContentOpen
  }

  /** The `<p>` line of one item, without its line break. */
  function Tagged(x: string): string
  {
    "<p>" + x + "</p>"
  }

  /** One paragraph or signature line as a `<p>` element on its own line. */
  function Block(x: string): string
  {
    Tagged(x) + "\n"
  }

  /** The blocks of `items`, in order. */
  function Blocks(items: seq<string>): string
  {
    if items == [] then "" else Block(items[0]) + Blocks(items[1..])
  }

  /** Everything between the head and the tail: the paragraph blocks, then the signature region. */
  function Body(paragraphs: seq<string>, signatureLines: seq<string>): string
  {
    Blocks(paragraphs) + SignatureOpenLine + "\n" + Blocks(signatureLines) + SignatureCloseLine + "\n"
  }

  /** The document for a structured letter: head, body, tail. */
  function Render(letter: Letter, company: string, role: string): string
  {
    Head(letter.dateLine, company, role) + Body(letter.paragraphs, letter.signatureLines) + Tail
  }

  /** The head is built once; the blocks and the fixed parts are then appended in order, as create_html_cover_letter grows its string. */
  method RenderHtml(letter: Letter, company: string, role: string) returns (html: string)
    ensures html == Render(letter, company, role)
  {
    html := Head(letter.dateLine, company, role);
    html := AppendBlocks(html, letter.paragraphs);
    html := html + SignatureOpenLine + "\n";
    html := AppendBlocks(html, letter.signatureLines);
    html := html + SignatureCloseLine + "\n";
    html := html + Tail;
    InOrder(Head(letter.dateLine, company, role), letter.paragraphs, letter.signatureLines, Tail);
  }

  /** One `html += f"<p>{item}</p>\n"` per item, in order. */
  method AppendBlocks(html: string, items: seq<string>) returns (r: string)
    ensures r == html + Blocks(items)
  {
    r := html;
    NoBlocks(html, items);
    for i := 0 to |items|
      invariant r == html + Blocks(items[..i])
    {
      BlocksSnoc(items, i);
      AppendAssoc(html, Blocks(items[..i]), Block(items[i]));
      r := r + Block(items[i]);
    }
    TakeAll(items);
  }

  /** The blocks of two lists laid end to end are the blocks of the joined list. */
  lemma {:induction false} BlocksAppend(a: seq<string>, b: seq<string>)
    ensures Blocks(a + b) == Blocks(a) + Blocks(b)
    decreases |a|
  {
    if a == [] {
      assert a + b == b;
    } else {
      assert (a + b)[1..] == a[1..] + b;
      BlocksAppend(a[1..], b);
      assert Block(a[0]) + (Blocks(a[1..]) + Blocks(b)) == (Block(a[0]) + Blocks(a[1..])) + Blocks(b);
    }
  }

  /** Appending one more block: the step of the rendering loops. */
  lemma BlocksSnoc(items: seq<string>, i: nat)
    requires i < |items|
    ensures Blocks(items[..i + 1]) == Blocks(items[..i]) + Block(items[i])
  {
    SplitAtIndex(items, i);
    BlocksAppend(items[..i], [items[i]]);
    assert Blocks([items[i]]) == Block(items[i]) + "";
  }

  /** Item `k` appears verbatim, as its block, after the blocks of the items before it and before those of the items after it. */
  lemma BlockAt(items: seq<string>, k: nat)
    requires k < |items|
    ensures Blocks(items) == Blocks(items[..k]) + Block(items[k]) + Blocks(items[k + 1..])
  {
    var rest := items[k + 1..];
    SplitAtIndex(items, k);
    BlocksAppend(items[..k], [items[k]] + rest);
    BlocksCons(items[k], rest);
    AppendAssoc(Blocks(items[..k]), Block(items[k]), Blocks(rest));
  }

  /** The blocks of a list with a first item. */
  lemma BlocksCons(x: string, rest: seq<string>)
    ensures Blocks([x] + rest) == Block(x) + Blocks(rest)
  {
    assert ([x] + rest)[0] == x && ([x] + rest)[1..] == rest;
  }

  /** Before the first item, nothing has been appended. */
  lemma NoBlocks(s: string, items: seq<string>)
    ensures s + Blocks(items[..0]) == s
  {
    assert items[..0] == [];
  }

  /** Taking every element gives the sequence back. */
  lemma TakeAll(s: seq<string>)
    ensures s[..|s|] == s
  {
  }

  /** A head, a body and a tail make the concatenation of their parts in the order create_html_cover_letter appends them. */
  lemma InOrder(head: string, paragraphs: seq<string>, signatureLines: seq<string>, tail: string)
    ensures head + Body(paragraphs, signatureLines) + tail ==
      head + Blocks(paragraphs) + SignatureOpenLine + "\n" + Blocks(signatureLines) + SignatureCloseLine + "\n" + tail
  {
    var p1 := Blocks(paragraphs);
    var p2 := p1 + SignatureOpenLine;
    var p3 := p2 + "\n";
    var p4 := p3 + Blocks(signatureLines);
    var p5 := p4 + SignatureCloseLine;
    AppendAssoc(head, p5, "\n");
    AppendAssoc(head, p4, SignatureCloseLine);
    AppendAssoc(head, p3, Blocks(signatureLines));
    AppendAssoc(head, p2, "\n");
    AppendAssoc(head, p1, SignatureOpenLine);
  }

  /** A letter with no paragraphs and no signature lines still gets the signature region, empty. */
  lemma EmptyBody(head: string, tail: string)
    ensures head + Body([], []) + tail == head + SignatureOpenLine + "\n" + SignatureCloseLine + "\n" + tail
  {
    assert Blocks([]) == "";
  }

  /** The `<p>` lines of the items, in order. */
  function TaggedLines(items: seq<string>): seq<string>
  {
    if items == [] then [] else [Tagged(items[0])] + TaggedLines(items[1..])
  }

  /** The text of a `<p>` line, if the line has that form. */
  function Untag(line: string): Option<string>
  {
    if |line| >= 7 && line[..3] == "<p>" && line[|line| - 4..] == "</p>" then Some(line[3..|line| - 4]) else None
  }

  /** Reads the leading `<p>` lines back as items; the lines after them are returned untouched. */
  function ReadItems(lines: seq<string>): (seq<string>, seq<string>)
  {
    if lines != [] && Untag(lines[0]).Some? then
      var (items, rest) := ReadItems(lines[1..]);
      ([Untag(lines[0]).value] + items, rest)
    else
      ([], lines)
  }

  /** Reads the paragraphs and the signature lines back from the lines of the body (anything may follow it). */
  function ReadBody(lines: seq<string>): Option<(seq<string>, seq<string>)>
  {
    var (paragraphs, rest) := ReadItems(lines);
    if rest != [] && rest[0] == SignatureOpenLine then
      var (signatureLines, rest') := ReadItems(rest[1..]);
      if rest' != [] && rest'[0] == SignatureCloseLine then Some((paragraphs, signatureLines)) else None
    else
      None
  }

  /** Items that are single lines: the ones whose blocks can be told apart line by line. */
  predicate SingleLines(items: seq<string>)
  {
    forall i :: 0 <= i < |items| ==> '\n' !in items[i]
  }

  /** A tagged item reads back as itself. */
  lemma UntagTagged(x: string)
    ensures Untag(Tagged(x)) == Some(x)
  {
    var t := Tagged(x);
    assert t[..3] == "<p>" && t[|t| - 4..] == "</p>" && t[3..|t| - 4] == x;
  }

  /** Split into lines, the blocks of single-line items are their `<p>` lines. */
  lemma {:induction false} BlocksLines(items: seq<string>, rest: string)
    requires SingleLines(items)
    ensures Split(Blocks(items) + rest, '\n') == TaggedLines(items) + Split(rest, '\n')
    decreases |items|
  {
    if items == [] {
      assert Blocks(items) + rest == rest;
    } else {
      BlocksLines(items[1..], rest);
      BlocksLinesStep(items, rest);
    }
  }

  /** The induction step of `BlocksLines`: the first block is one line of its own. */
  lemma BlocksLinesStep(items: seq<string>, rest: string)
    requires items != [] && '\n' !in items[0]
    requires Split(Blocks(items[1..]) + rest, '\n') == TaggedLines(items[1..]) + Split(rest, '\n')
    ensures Split(Blocks(items) + rest, '\n') == TaggedLines(items) + Split(rest, '\n')
  {
    var line, after := Tagged(items[0]), Blocks(items[1..]) + rest;
    FirstBlock(items, rest);
    FirstTaggedLine(items);
    TaggedSingle(items[0]);
    LineThen(line, after);
    AppendAssoc([line], TaggedLines(items[1..]), Split(rest, '\n'));
  }

  /** The first block is the first `<p>` line and its line break. */
  lemma FirstBlock(items: seq<string>, rest: string)
    requires items != []
    ensures Blocks(items) + rest == Tagged(items[0]) + "\n" + (Blocks(items[1..]) + rest)
  {
  }

  /** The first `<p>` line is that of the first item. */
  lemma FirstTaggedLine(items: seq<string>)
    requires items != []
    ensures TaggedLines(items) == [Tagged(items[0])] + TaggedLines(items[1..])
  {
  }

  /** Tagging adds no line break. */
  lemma TaggedSingle(x: string)
    requires '\n' !in x
    ensures '\n' !in Tagged(x)
  {
  }

  /** Reading `<p>` lines gives the items back, when the next line is not a `<p>` line. */
  lemma {:induction false} ReadTaggedLines(items: seq<string>, rest: seq<string>)
    requires rest == [] || Untag(rest[0]) == None
    ensures ReadItems(TaggedLines(items) + rest) == (items, rest)
    decreases |items|
  {
    if items == [] {
      assert TaggedLines(items) + rest == rest;
    } else {
      ReadTaggedLines(items[1..], rest);
      ReadTaggedLinesStep(items, rest);
    }
  }

  /** The induction step of `ReadTaggedLines`: the first `<p>` line reads back as the first item. */
  lemma ReadTaggedLinesStep(items: seq<string>, rest: seq<string>)
    requires items != []
    requires ReadItems(TaggedLines(items[1..]) + rest) == (items[1..], rest)
    ensures ReadItems(TaggedLines(items) + rest) == (items, rest)
  {
    var x, xs := items[0], items[1..];
    var line, more := Tagged(x), TaggedLines(xs) + rest;
    FirstTaggedLine(items);
    AppendAssoc([line], TaggedLines(xs), rest);
    UntagTagged(x);
    ReadItemsCons(line, more);
    assert [x] + xs == items;
  }

  /** A leading `<p>` line is read as the first item. */
  lemma ReadItemsCons(line: string, more: seq<string>)
    requires Untag(line).Some?
    ensures ReadItems([line] + more) == ([Untag(line).value] + ReadItems(more).0, ReadItems(more).1)
  {
    assert ([line] + more)[0] == line && ([line] + more)[1..] == more;
  }

  /** A line without a line break, then a line break: the split starts with that line. */
  lemma LineThen(line: string, rest: string)
    requires '\n' !in line
    ensures Split(line + "\n" + rest, '\n') == [line] + Split(rest, '\n')
  {
    assert line + "\n" + rest == line + ['\n'] + rest;
    SplitAround(line, rest, '\n');
    SplitWithoutSeparator(line, '\n');
  }

  /** The lines of the signature region, and of whatever follows it. */
  lemma SignatureLinesSplit(signatureLines: seq<string>, after: string)
    requires SingleLines(signatureLines)
    ensures Split(SignatureOpenLine + "\n" + (Blocks(signatureLines) + (SignatureCloseLine + "\n" + after)), '\n') ==
      [SignatureOpenLine] + (TaggedLines(signatureLines) + ([SignatureCloseLine] + Split(after, '\n')))
  {
    LineThen(SignatureCloseLine, after);
    BlocksLines(signatureLines, SignatureCloseLine + "\n" + after);
    LineThen(SignatureOpenLine, Blocks(signatureLines) + (SignatureCloseLine + "\n" + after));
  }

  /** The body, joined to what follows, regrouped from the right. */
  lemma BodyRegrouped(paragraphs: seq<string>, signatureLines: seq<string>, after: string)
    ensures Body(paragraphs, signatureLines) + after ==
      Blocks(paragraphs) + (SignatureOpenLine + "\n" + (Blocks(signatureLines) + (SignatureCloseLine + "\n" + after)))
  {
  }

  /** The paragraphs and signature lines read back from the rendered body, whatever follows it. */
  lemma BodyRoundTrip(paragraphs: seq<string>, signatureLines: seq<string>, after: string)
    requires SingleLines(paragraphs) && SingleLines(signatureLines)
    ensures ReadBody(Split(Body(paragraphs, signatureLines) + after, '\n')) == Some((paragraphs, signatureLines))
  {
    var region := SignatureOpenLine + "\n" + (Blocks(signatureLines) + (SignatureCloseLine + "\n" + after));
    BodyRegrouped(paragraphs, signatureLines, after);
    BlocksLines(paragraphs, region);
    SignatureLinesSplit(signatureLines, after);
    var tail := [SignatureCloseLine] + Split(after, '\n');
    ReadTaggedLines(signatureLines, tail);
    var lines := [SignatureOpenLine] + (TaggedLines(signatureLines) + tail);
    ReadTaggedLines(paragraphs, lines);
    assert lines[1..] == TaggedLines(signatureLines) + tail;
  }

  /** Whatever head and tail surround the body, the body reads back from the text after the head. */
  lemma BodyAfterHead(head: string, paragraphs: seq<string>, signatureLines: seq<string>, tail: string)
    requires SingleLines(paragraphs) && SingleLines(signatureLines)
    ensures var html := head + Body(paragraphs, signatureLines) + tail;
      |head| <= |html| && ReadBody(Split(html[|head|..], '\n')) == Some((paragraphs, signatureLines))
  {
    var body := Body(paragraphs, signatureLines);
    AppendAssoc(head, body, tail);
    DropPrefix(head, body + tail);
    BodyRoundTrip(paragraphs, signatureLines, tail);
  }

  /**
   * No escaping, and nothing lost: the paragraphs and the signature lines,
   * when each is a single line, read back unchanged from the document after
   * its head.
   */
  lemma RenderRoundTrip(letter: Letter, company: string, role: string)
    requires SingleLines(letter.paragraphs) && SingleLines(letter.signatureLines)
    ensures var html, head := Render(letter, company, role), Head(letter.dateLine, company, role);
      |head| <= |html| && ReadBody(Split(html[|head|..], '\n')) == Some((letter.paragraphs, letter.signatureLines))
  {
    var head := Head(letter.dateLine, company, role);
    BodyAfterHead(head, letter.paragraphs, letter.signatureLines, Tail);
    assert Render(letter, company, role) == head + Body(letter.paragraphs, letter.signatureLines) + Tail;
  }
}
