/** What a prepared row says about the row it came from: its text holds the mapped fields and nothing else,
    and whether it passes, and why not, is read off the row and the filter. */
module DatasetRendering {
  import opened Outcomes
  import opened Splits
  import opened DatasetPipeline
  import opened DatasetRecords
  import opened DatasetImport

  // ---------------------------------------------------------------- the text of a row

  const INSTRUCTION_HEADER := "### Instruction\n"
  const CONTEXT_HEADER := "\n### Context\n"
  const RESPONSE_HEADER := "\n### Response\n"

  /** A text field of a row. */
  ghost predicate TextAt(row: Row, field: string, text: string) {
    field in row && row[field] == Text(text)
  }

  /** The context a row gives: the text of the mapped field, or none where no field is mapped or it is null. */
  ghost predicate ContextAt(row: Row, field: Option<string>, context: string) {
    match field
    case None => context == ""
    case Some(name) => name in row && (row[name] == Text(context) || (row[name] == Null && context == ""))
  }

  /** The sections of a text: the instruction, a context if there is any, and the response. */
  ghost predicate Sections(text: string, instruction: string, context: string, response: string) {
    text == INSTRUCTION_HEADER + instruction + (if context == "" then "" else CONTEXT_HEADER + context)
            + RESPONSE_HEADER + response
  }

  /** What a row must give to be rendered at all: text for instruction and response, neither blank, and text
      or null for a mapped context. */
  ghost predicate Usable(row: Row, mapping: FieldMapping, instruction: string, context: string, response: string) {
    && TextAt(row, mapping.instruction, instruction) && !Blank(instruction)
    && TextAt(row, mapping.response, response) && !Blank(response)
    && ContextAt(row, mapping.context, context)
  }

  /** The text a row is rendered to. */
  ghost predicate Renders(row: Row, mapping: FieldMapping, text: string) {
    exists instruction, context, response ::
      Usable(row, mapping, instruction, context, response) && Sections(text, instruction, context, response)
  }

  lemma MappedRenders(row: Row, mapping: FieldMapping, text: string)
    ensures Renders(row, mapping, text) <==> MapRow(row, mapping).Mapped? && text == Render(MapRow(row, mapping))
  {
    var mapped := MapRow(row, mapping);
    if mapped.Mapped? {
      var context := if mapped.context.Some? then mapped.context.value else "";
      assert Usable(row, mapping, mapped.instruction, context, mapped.response);
      RenderedInSections(mapped, context);
      if Renders(row, mapping, text) { OneRendering(row, mapping, mapped, context, text); }
    }
  }

  lemma OneRendering(row: Row, mapping: FieldMapping, mapped: Mapped, context: string, text: string)
    requires mapped == MapRow(row, mapping) && mapped.Mapped? && Renders(row, mapping, text)
    requires context == if mapped.context.Some? then mapped.context.value else ""
    requires Sections(Render(mapped), mapped.instruction, context, mapped.response)
    ensures text == Render(mapped)
  {
    var i, c, r :| Usable(row, mapping, i, c, r) && Sections(text, i, c, r);
    assert i == mapped.instruction && r == mapped.response && c == context;
  }

  lemma RenderedInSections(m: Mapped, context: string)
    requires m.Mapped? && context == if m.context.Some? then m.context.value else ""
    ensures Sections(Render(m), m.instruction, context, m.response)
  {
    var middle := if context == "" then "" else NEWLINE + "### Context" + NEWLINE + context;
    assert "### Instruction" + NEWLINE == INSTRUCTION_HEADER;
    assert NEWLINE + "### Context" + NEWLINE == CONTEXT_HEADER;
    assert NEWLINE + "### Response" + NEWLINE == RESPONSE_HEADER;
    var before := INSTRUCTION_HEADER + m.instruction + middle;
    assert Render(m) == before + NEWLINE + "### Response" + NEWLINE + m.response;
    assert before + NEWLINE + "### Response" + NEWLINE + m.response == before + RESPONSE_HEADER + m.response;
  }

  /** The white space that does not count as text: the ASCII separators and the spaces of Unicode. */
  lemma SpacesAre(c: char)
    ensures IsSpace(c) <==>
              c as int in {0x09, 0x0A, 0x0B, 0x0C, 0x0D, 0x1C, 0x1D, 0x1E, 0x1F, 0x20, 0x85, 0xA0, 0x1680, 0x2000,
                           0x2001, 0x2002, 0x2003, 0x2004, 0x2005, 0x2006, 0x2007, 0x2008, 0x2009, 0x200A, 0x2028,
                           0x2029, 0x202F, 0x205F, 0x3000}
  {
  }

  // ---------------------------------------------------------------- what a row comes to by itself

  /** Inside the character bounds. */
  ghost predicate RightLength(filter: FilterRule, text: string) {
    filter.minimum <= |text| && (filter.maximum.Some? ==> |text| <= filter.maximum.value)
  }

  /** The tokenizer gives this count, twice. */
  ghost predicate Counted(q: Request, text: string, tokens: int) {
    tokens >= 0 && q.tokenizer(text) == Counts(tokens, tokens)
  }

  ghost predicate Uncountable(q: Request, text: string) {
    forall tokens :: !Counted(q, text, tokens)
  }

  lemma CountingIs(q: Request, text: string)
    ensures match CountTokens(q.tokenizer, text)
            case Ok(tokens) => forall n :: Counted(q, text, n) <==> n == tokens
            case Err(_) => Uncountable(q, text)
  {
  }

  /** A row passes exactly when it renders to a text of the right length whose token count is certain and not
      too high, and it passes with that text and that count. */
  lemma PassesExactly(row: Row, q: Request, text: string, tokens: nat)
    ensures Judge(row, q) == Passes(text, tokens) <==>
              && Renders(row, q.mapping, text) && RightLength(q.filter, text) && Counted(q, text, tokens)
              && (q.filter.maximumTokens.Some? ==> tokens <= q.filter.maximumTokens.value)
  {
    MappedRenders(row, q.mapping, text);
    CountingIs(q, text);
  }

  ghost predicate Renderable(row: Row, mapping: FieldMapping) {
    exists text :: Renders(row, mapping, text)
  }

  lemma RenderableIsMapped(row: Row, mapping: FieldMapping)
    ensures Renderable(row, mapping) <==> MapRow(row, mapping).Mapped?
  {
    var mapped := MapRow(row, mapping);
    if mapped.Mapped? { MappedRenders(row, mapping, Render(mapped)); }
    if Renderable(row, mapping) {
      var text :| Renders(row, mapping, text);
      MappedRenders(row, mapping, text);
    }
  }

  /** A row that cannot be rendered is rejected for the first thing wrong with it: a field that is missing, not
      text, or blank. */
  lemma UnusableRowsAre(row: Row, q: Request, reason: string)
    ensures Judge(row, q) == Rejected(Validation, reason) <==>
              && !Renderable(row, q.mapping)
              && var missing := q.mapping.instruction !in row || q.mapping.response !in row
                                || (q.mapping.context.Some? && q.mapping.context.value !in row);
                 reason ==
                 if missing then "missing_mapped_field"
                 else if !row[q.mapping.instruction].Text? || !row[q.mapping.response].Text?
                         || (q.mapping.context.Some? && row[q.mapping.context.value] == Other)
                 then "mapped_value_not_text"
                 else "required_text_empty"
  {
    RenderableIsMapped(row, q.mapping);
  }

  /** A row that can be rendered is rejected for its text: too short, too long, or too many tokens. */
  lemma FilteredTextsAre(row: Row, q: Request, text: string, reason: string)
    requires Renders(row, q.mapping, text)
    ensures Judge(row, q) == Rejected(Filtering, reason) <==> FilteredFor(q, text, reason)
    ensures Judge(row, q) != Rejected(Validation, reason)
  {
    MappedRenders(row, q.mapping, text);
    CountingIs(q, text);
    match CountTokens(q.tokenizer, text) {
      case Ok(tokens) => assert Counted(q, text, tokens);
      case Err(_) =>
    }
  }

  /** Why the filter drops a text. */
  ghost predicate FilteredFor(q: Request, text: string, reason: string) {
    if |text| < q.filter.minimum then reason == "below_minimum_characters"
    else if !RightLength(q.filter, text) then reason == "above_maximum_characters"
    else
      reason == "above_maximum_tokens" && q.filter.maximumTokens.Some?
      && exists tokens :: Counted(q, text, tokens) && tokens > q.filter.maximumTokens.value
  }

  /** The tokenizer stops the import exactly on a text of the right length it fails on or counts differently the
      second time, or below zero. */
  lemma FaultsAre(row: Row, q: Request, text: string)
    requires Renders(row, q.mapping, text)
    ensures Judge(row, q).TokenizerFault? <==> RightLength(q.filter, text) && Uncountable(q, text)
  {
    MappedRenders(row, q.mapping, text);
    CountingIs(q, text);
    match CountTokens(q.tokenizer, text) {
      case Ok(tokens) => assert Counted(q, text, tokens);
      case Err(_) =>
    }
  }

  // ---------------------------------------------------------------- candidates and receipts

  /** Every candidate of a prepared source holds the fields of its own row and is within every bound. */
  lemma CandidateHoldsItsRow(rows: seq<Row>, q: Request, cs: seq<Candidate>, es: seq<Exclusion>, c: Candidate)
    requires WellFormed(q.rule) && Prepared(rows, q, |rows|, cs, es) && c in cs
    ensures 1 <= c.ordinal <= |rows| && Renders(rows[c.ordinal - 1], q.mapping, c.text)
    ensures RightLength(q.filter, c.text) && Counted(q, c.text, c.tokens)
    ensures q.filter.maximumTokens.Some? ==> c.tokens <= q.filter.maximumTokens.value
    ensures c.identity == q.identify(c.text)
  {
    var i :| 0 <= i < |cs| && cs[i] == c;
    assert IsCandidate(rows, q, cs[i]);
    PassesExactly(rows[c.ordinal - 1], q, c.text, c.tokens);
  }

  /** And so does every accepted example of the version: its row renders to the text it is identified by, measured
      in bytes and counted in tokens. */
  lemma AcceptedTellsItsRow(rows: seq<Row>, q: Request, cs: seq<Candidate>, es: seq<Exclusion>, i: nat)
    returns (text: string)
    requires WellFormed(q.rule) && Prepared(rows, q, |rows|, cs, es) && i < |cs|
    ensures var a := AcceptedOf(cs)[i];
            && 1 <= a.ordinal <= |rows| && Renders(rows[a.ordinal - 1], q.mapping, text)
            && a.identity == q.identify(text) && a.bytes == Utf8Length(text) && Counted(q, text, a.tokens)
  {
    text := cs[i].text;
    assert cs[i] in cs;
    CandidateHoldsItsRow(rows, q, cs, es, cs[i]);
  }

  /** A row is left out as a duplicate only if an earlier row, the one named, renders to the same text. */
  lemma DuplicatesRenderAlike(rows: seq<Row>, q: Request, cs: seq<Candidate>, es: seq<Exclusion>, e: Exclusion)
    returns (text: string)
    requires WellFormed(q.rule) && Prepared(rows, q, |rows|, cs, es) && e in es && e.phase == Deduplication
    ensures 1 <= e.ordinal <= |rows| && e.retained.Some? && 1 <= e.retained.value < e.ordinal
    ensures Renders(rows[e.ordinal - 1], q.mapping, text) && Renders(rows[e.retained.value - 1], q.mapping, text)
  {
    var i :| 0 <= i < |es| && es[i] == e;
    assert IsExclusion(rows, q, es[i]);
    text := DuplicateText(rows, q, e);
  }

  lemma DuplicateText(rows: seq<Row>, q: Request, e: Exclusion) returns (text: string)
    requires IsExclusion(rows, q, e) && e.phase == Deduplication
    ensures e.retained.Some? && 1 <= e.retained.value < e.ordinal
    ensures Renders(rows[e.ordinal - 1], q.mapping, text) && Renders(rows[e.retained.value - 1], q.mapping, text)
  {
    NeverRejectedAsDuplicate(rows[e.ordinal - 1], q);
    var verdict := Judge(rows[e.ordinal - 1], q);
    text := verdict.text;
    var first := Judge(rows[e.retained.value - 1], q);
    PassesExactly(rows[e.ordinal - 1], q, text, verdict.tokens);
    PassesExactly(rows[e.retained.value - 1], q, text, first.tokens);
  }

  lemma NeverRejectedAsDuplicate(row: Row, q: Request)
    ensures Judge(row, q).Rejected? ==> Judge(row, q).phase != Deduplication
  {
  }

  // ---------------------------------------------------------------- when two rows render alike

  ghost predicate HeaderAt(text: string, k: int) {
    0 <= k && k + 5 <= |text| && text[k..k + 5] == "\n### "
  }

  ghost predicate HoldsHeader(text: string) {
    exists k :: HeaderAt(text, k)
  }

  /** Two texts with a header line right behind them, neither holding one itself: if what follows makes them the
      same, they are the same. */
  lemma HeaderEndsText(a: string, b: string, x: string, y: string)
    requires !HoldsHeader(a) && !HoldsHeader(b) && a + x == b + y
    requires |x| >= 5 && x[..5] == "\n### " && |y| >= 5 && y[..5] == "\n### "
    ensures a == b && x == y
  {
    if |a| < |b| { HeaderBehindShorter(a, b, x, y); }
    if |b| < |a| { HeaderBehindShorter(b, a, y, x); }
    assert (a + x)[..|a|] == a && (b + y)[..|b|] == b;
    assert (a + x)[|a|..] == x && (b + y)[|b|..] == y;
  }

  lemma HeaderBehindShorter(a: string, b: string, x: string, y: string)
    requires |a| < |b| && a + x == b + y
    requires |x| >= 5 && x[..5] == "\n### " && |y| >= 5 && y[..5] == "\n### "
    ensures HeaderAt(b, |a|)
  {
    var s, n := a + x, |a|;
    assert forall k | 0 <= k < 5 :: s[n + k] == x[..5][k];
    assert s[|b|] == y[..5][0] == '\n';
    assert |b| >= n + 5;
    assert b[n..n + 5] == s[n..n + 5] == x[..5];
  }

  /** Where neither instruction nor context holds a header line, only rows with the same fields render alike. */
  lemma RenderingTellsApart(text: string, i: string, c: string, r: string, j: string, d: string, s: string)
    requires Sections(text, i, c, r) && Sections(text, j, d, s)
    requires !HoldsHeader(i) && !HoldsHeader(c) && !HoldsHeader(j) && !HoldsHeader(d)
    ensures i == j && c == d && r == s
  {
    var x := (if c == "" then "" else CONTEXT_HEADER + c) + RESPONSE_HEADER + r;
    var y := (if d == "" then "" else CONTEXT_HEADER + d) + RESPONSE_HEADER + s;
    AfterHeader(text, i, c, r, x);
    AfterHeader(text, j, d, s, y);
    HeaderEndsText(i, j, x, y);
    ContextsAgree(x, c, r, d, s);
  }

  lemma AfterHeader(text: string, i: string, c: string, r: string, x: string)
    requires Sections(text, i, c, r) && x == (if c == "" then "" else CONTEXT_HEADER + c) + RESPONSE_HEADER + r
    ensures |text| >= |INSTRUCTION_HEADER| && text[|INSTRUCTION_HEADER|..] == i + x
    ensures |x| >= 5 && x[..5] == "\n### "
  {
    assert text == INSTRUCTION_HEADER + (i + x);
  }

  lemma ContextsAgree(x: string, c: string, r: string, d: string, s: string)
    requires x == (if c == "" then "" else CONTEXT_HEADER + c) + RESPONSE_HEADER + r
    requires x == (if d == "" then "" else CONTEXT_HEADER + d) + RESPONSE_HEADER + s
    requires !HoldsHeader(c) && !HoldsHeader(d)
    ensures c == d && r == s
  {
    assert x[5] == if c == "" then 'R' else 'C';
    assert x[5] == if d == "" then 'R' else 'C';
    if c == "" {
      assert x[|RESPONSE_HEADER|..] == r && x[|RESPONSE_HEADER|..] == s;
    } else {
      var v, w := RESPONSE_HEADER + r, RESPONSE_HEADER + s;
      assert x == CONTEXT_HEADER + (c + v) && x == CONTEXT_HEADER + (d + w);
      assert x[|CONTEXT_HEADER|..] == c + v && x[|CONTEXT_HEADER|..] == d + w;
      HeaderEndsText(c, d, v, w);
      assert v[|RESPONSE_HEADER|..] == r && w[|RESPONSE_HEADER|..] == s;
    }
  }

  /** In general rows with different fields can render alike, and the later one is then left out as a
      duplicate: a header line inside an instruction reads as a context. */
  lemma DifferentRowsRenderAlike()
    ensures exists text :: Sections(text, "a\n### Context\nb", "", "c") && Sections(text, "a", "b", "c")
  {
    var text := INSTRUCTION_HEADER + "a\n### Context\nb" + "" + RESPONSE_HEADER + "c";
    assert Sections(text, "a\n### Context\nb", "", "c");
    assert Sections(text, "a", "b", "c");
  }
}
