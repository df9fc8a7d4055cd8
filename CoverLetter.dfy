/**
 * create_html_cover_letter: the letter text is structured into a date line,
 * paragraphs and signature lines, which are then rendered as a printable
 * HTML document.
 */
module CoverLetter {
  import opened PyText
  import opened Structurer
  import opened Renderer

  /** Structure the text in one pass, then build the document; the result is the document of the structured letter. */
  method CreateHtmlCoverLetter(text: string, company: string, role: string) returns (html: string)
    ensures html == Render(Structure(text), company, role)
  {
    var letter := StructureLetter(text);
    html := RenderHtml(letter, company, role);
  }

  /**
   * Whatever the text, the paragraphs and signature lines it is structured
   * into read back unchanged from the document after its head. Structuring
   * only produces single-line items, so each item is exactly one `<p>` line
   * and the line reader never confuses an item with the signature `<div>`
   * lines around it. Items are not escaped: an item may itself hold markup.
   */
  lemma DocumentReadsBack(text: string, company: string, role: string)
    ensures var letter := Structure(text);
      var html, head := Render(letter, company, role), Head(letter.dateLine, company, role);
      |head| <= |html| && ReadBody(Split(html[|head|..], '\n')) == Some((letter.paragraphs, letter.signatureLines))
  {
    StructuredItemsAreLines(text);
    RenderRoundTrip(Structure(text), company, role);
  }

  /** Every paragraph and signature line of a structured letter is a single line. */
  lemma StructuredItemsAreLines(text: string)
    ensures SingleLines(Structure(text).paragraphs) && SingleLines(Structure(text).signatureLines)
  {
    LetterShape(text);
  }

  /** An empty text still gives a document: an empty date, no paragraphs and an empty signature region. */
  lemma EmptyTextDocument(company: string, role: string)
    ensures Render(Structure(""), company, role) ==
      Head("", company, role) + SignatureOpenLine + "\n" + SignatureCloseLine + "\n" + Tail
  {
    EmptyText();
    EmptyBody(Head("", company, role), Tail);
  }
}
