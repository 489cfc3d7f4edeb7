/** The one-pass preparation of a dataset: validate, render, filter, count tokens, deduplicate by rendered
    text, assign a split. Its result is stated row by row, with no reference to the pass. */
module DatasetPipeline {
  import opened Outcomes
  import opened Splits

  datatype Value = Text(text: string) | Null | Other

  type Row = map<string, Value>

  datatype FieldMapping = FieldMapping(instruction: string, response: string, context: Option<string>)

  datatype FilterRule = FilterRule(minimum: nat, maximum: Option<nat>, maximumTokens: Option<nat>)

  /** The tokenizer is asked twice; a good one answers twice alike and not below zero. */
  datatype TokenReply = Counts(first: int, second: int) | Raises

  type Tokenizer = string -> TokenReply

  /** The digest behind a split: a number for an identity under a seed. */
  type Digest = (string, nat) -> nat

  /** The identity of a rendered text. */
  type Identify = string -> string

  datatype Request = Request(mapping: FieldMapping, filter: FilterRule, rule: SplitRule, tokenizer: Tokenizer,
                             identify: Identify, digest: Digest, previewLimit: nat)

  datatype Phase = Validation | Filtering | Deduplication

  datatype Exclusion = Exclusion(ordinal: nat, phase: Phase, reason: string, retained: Option<nat>)

  datatype Candidate = Candidate(ordinal: nat, identity: string, text: string, tokens: nat, split: string)

  // ---------------------------------------------------------------- one row

  /** The white space that stripping removes. */
  predicate IsSpace(c: char) {
    var n := c as int;
    || 9 <= n <= 13 || 28 <= n <= 32 || n == 0x85 || n == 0xA0 || n == 0x1680 || 0x2000 <= n <= 0x200A
    || n == 0x2028 || n == 0x2029 || n == 0x202F || n == 0x205F || n == 0x3000
  }

  predicate Blank(s: string) { forall i | 0 <= i < |s| :: IsSpace(s[i]) }

  datatype Mapped = Mapped(instruction: string, context: Option<string>, response: string) | Unmapped(reason: string)

  function MapRow(row: Row, mapping: FieldMapping): Mapped {
    if mapping.instruction !in row || mapping.response !in row
       || (mapping.context.Some? && mapping.context.value !in row) then
      Unmapped("missing_mapped_field")
    else
      var instruction, response := row[mapping.instruction], row[mapping.response];
      var context := if mapping.context.Some? then row[mapping.context.value] else Null;
      if !instruction.Text? || !response.Text? || context.Other? then Unmapped("mapped_value_not_text")
      else if Blank(instruction.text) || Blank(response.text) then Unmapped("required_text_empty")
      else Mapped(instruction.text, if context.Text? then Some(context.text) else None, response.text)
  }

  const NEWLINE := "\n"

  function Render(m: Mapped): string
    requires m.Mapped?
  {
    "### Instruction" + NEWLINE + m.instruction
    + (if m.context.Some? && m.context.value != "" then NEWLINE + "### Context" + NEWLINE + m.context.value else "")
    + NEWLINE + "### Response" + NEWLINE + m.response
  }

  /** What a row comes to by itself, before any comparison with other rows. */
  datatype Verdict =
    | Rejected(phase: Phase, reason: string)
    | TokenizerFault(code: string)
    | Passes(text: string, tokens: nat)

  function CountTokens(tokenizer: Tokenizer, text: string): Result<nat> {
    match tokenizer(text)
    case Raises => Err("tokenizer_failed")
    case Counts(first, second) =>
      if first < 0 || second < 0 || first != second then Err("tokenizer_nondeterministic") else Ok(first)
  }

  function Judge(row: Row, q: Request): Verdict {
    var mapped := MapRow(row, q.mapping);
    if mapped.Unmapped? then Rejected(Validation, mapped.reason)
    else
      var text := Render(mapped);
      if |text| < q.filter.minimum then Rejected(Filtering, "below_minimum_characters")
      else if q.filter.maximum.Some? && |text| > q.filter.maximum.value then
        Rejected(Filtering, "above_maximum_characters")
      else
        match CountTokens(q.tokenizer, text)
        case Err(code) => TokenizerFault(code)
        case Ok(tokens) =>
          if q.filter.maximumTokens.Some? && tokens > q.filter.maximumTokens.value then
            Rejected(Filtering, "above_maximum_tokens")
          else Passes(text, tokens)
  }

  // ---------------------------------------------------------------- all rows, declaratively

  ghost predicate PassesWith(rows: seq<Row>, q: Request, i: nat, text: string) {
    i < |rows| && Judge(rows[i], q).Passes? && Judge(rows[i], q).text == text
  }

  /** Row `i` is the first to pass with its text. */
  ghost predicate FirstWith(rows: seq<Row>, q: Request, i: nat, text: string) {
    PassesWith(rows, q, i, text) && forall j | 0 <= j < i :: !PassesWith(rows, q, j, text)
  }

  ghost predicate Accepts(rows: seq<Row>, q: Request, i: nat) {
    i < |rows| && Judge(rows[i], q).Passes? && FirstWith(rows, q, i, Judge(rows[i], q).text)
  }

  /** The name of the part whose interval holds the bucket of an identity. */
  ghost function SplitOf(q: Request, identity: string): string
    requires WellFormed(q.rule)
  {
    BeforeGrows(q.rule.parts, 0, |q.rule.parts|);
    q.rule.parts[PartOf(q.rule.parts, q.digest(identity, q.rule.seed) % Weight(q.rule.parts))].name
  }

  /** The candidate an accepted row becomes. */
  ghost predicate IsCandidate(rows: seq<Row>, q: Request, c: Candidate)
    requires WellFormed(q.rule)
  {
    c.ordinal >= 1 && Accepts(rows, q, c.ordinal - 1) &&
    var verdict := Judge(rows[c.ordinal - 1], q);
    c.text == verdict.text && c.tokens == verdict.tokens && c.identity == q.identify(c.text)
    && c.split == SplitOf(q, c.identity)
  }

  /** The receipt an excluded row gets: its own reason, or the first row with its text. */
  ghost predicate IsExclusion(rows: seq<Row>, q: Request, e: Exclusion) {
    1 <= e.ordinal <= |rows| && ReceiptFor(rows, q, Judge(rows[e.ordinal - 1], q), e)
  }

  ghost predicate ReceiptFor(rows: seq<Row>, q: Request, verdict: Verdict, e: Exclusion) {
    match verdict
    case Rejected(phase, reason) => e.phase == phase && e.reason == reason && e.retained == None
    case TokenizerFault(_) => false
    case Passes(text, _) =>
      && e.phase == Deduplication && e.reason == "duplicate_rendered_text" && e.retained.Some?
      && 1 <= e.retained.value < e.ordinal && FirstWith(rows, q, e.retained.value - 1, text)
  }

  ghost predicate Rising<T>(s: seq<T>, ordinal: T -> nat) {
    forall i, j | 0 <= i < j < |s| :: ordinal(s[i]) < ordinal(s[j])
  }

  function CandidateOrdinal(): Candidate -> nat { (c: Candidate) => c.ordinal }
  function ExclusionOrdinal(): Exclusion -> nat { (e: Exclusion) => e.ordinal }

  ghost predicate Has<T>(s: seq<T>, ordinal: T -> nat, n: nat) {
    exists x :: x in s && ordinal(x) == n
  }

  /** What the first rows come to: accepted and excluded rows in order, each row in exactly one place. */
  ghost predicate Prepared(rows: seq<Row>, q: Request, n: nat, candidates: seq<Candidate>, exclusions: seq<Exclusion>)
    requires WellFormed(q.rule)
  {
    && n <= |rows|
    && (forall i | 0 <= i < |candidates| :: IsCandidate(rows, q, candidates[i]) && candidates[i].ordinal <= n)
    && (forall i | 0 <= i < |exclusions| :: IsExclusion(rows, q, exclusions[i]) && exclusions[i].ordinal <= n)
    && Rising(candidates, CandidateOrdinal()) && Rising(exclusions, ExclusionOrdinal())
    && (forall k | 1 <= k <= n :: Has(candidates, CandidateOrdinal(), k) || Has(exclusions, ExclusionOrdinal(), k))
  }

  /** Some of the first rows makes the tokenizer fail. */
  ghost predicate Faulty(rows: seq<Row>, q: Request, n: nat) {
    exists i :: 0 <= i < n && i < |rows| && Judge(rows[i], q).TokenizerFault?
  }

  // ---------------------------------------------------------------- the pass

  /** The texts kept so far, each with the first row that had it. */
  ghost predicate Retains(rows: seq<Row>, q: Request, n: nat, retained: map<string, nat>) {
    && (forall text | text in retained :: 1 <= retained[text] <= n && FirstWith(rows, q, retained[text] - 1, text))
    && (forall j | 0 <= j < n :: KeptAt(rows, q, j, retained))
  }

  ghost predicate KeptAt(rows: seq<Row>, q: Request, j: nat, retained: map<string, nat>) {
    j < |rows| && Judge(rows[j], q).Passes? ==> Judge(rows[j], q).text in retained
  }

  lemma AddExclusion(rows: seq<Row>, q: Request, n: nat, candidates: seq<Candidate>, exclusions: seq<Exclusion>,
                     e: Exclusion)
    requires WellFormed(q.rule) && Prepared(rows, q, n, candidates, exclusions) && n < |rows|
    requires e.ordinal == n + 1 && IsExclusion(rows, q, e)
    ensures Prepared(rows, q, n + 1, candidates, exclusions + [e])
  {
    var more := exclusions + [e];
    assert more[|exclusions|] == e;
    forall k | 1 <= k <= n + 1 ensures Has(candidates, CandidateOrdinal(), k) || Has(more, ExclusionOrdinal(), k) {
      if k <= n && Has(exclusions, ExclusionOrdinal(), k) {
        var x :| x in exclusions && ExclusionOrdinal()(x) == k;
        assert x in more;
      } else if k == n + 1 {
        assert e in more && ExclusionOrdinal()(e) == k;
      }
    }
  }

  lemma AddCandidate(rows: seq<Row>, q: Request, n: nat, candidates: seq<Candidate>, exclusions: seq<Exclusion>,
                     c: Candidate)
    requires WellFormed(q.rule) && Prepared(rows, q, n, candidates, exclusions) && n < |rows|
    requires c.ordinal == n + 1 && IsCandidate(rows, q, c)
    ensures Prepared(rows, q, n + 1, candidates + [c], exclusions)
  {
    var more := candidates + [c];
    assert more[|candidates|] == c;
    forall k | 1 <= k <= n + 1 ensures Has(more, CandidateOrdinal(), k) || Has(exclusions, ExclusionOrdinal(), k) {
      if k <= n && Has(candidates, CandidateOrdinal(), k) {
        var x :| x in candidates && CandidateOrdinal()(x) == k;
        assert x in more;
      } else if k == n + 1 {
        assert c in more && CandidateOrdinal()(c) == k;
      }
    }
  }

  lemma NextIsSound(rows: seq<Row>, q: Request, n: nat)
    requires n < |rows| && !Faulty(rows, q, n) && !Judge(rows[n], q).TokenizerFault?
    ensures !Faulty(rows, q, n + 1)
  {
  }

  lemma FirstFault(rows: seq<Row>, q: Request, n: nat)
    requires n < |rows| && !Faulty(rows, q, n) && Judge(rows[n], q).TokenizerFault?
    ensures Faulty(rows, q, |rows|) && FaultyAt(rows, q, Judge(rows[n], q).code)
  {
    assert FailsWith(rows[n], q, Judge(rows[n], q).code);
  }

  /** The code is that of the first row the tokenizer fails on. */
  ghost predicate FaultyAt(rows: seq<Row>, q: Request, code: string) {
    exists i :: 0 <= i < |rows| && FailsWith(rows[i], q, code) && !Faulty(rows, q, i)
  }

  ghost predicate FailsWith(row: Row, q: Request, code: string) {
    Judge(row, q) == TokenizerFault(code)
  }

  lemma RetainsSame(rows: seq<Row>, q: Request, n: nat, retained: map<string, nat>)
    requires n < |rows| && Retains(rows, q, n, retained)
    requires KeptAt(rows, q, n, retained)
    ensures Retains(rows, q, n + 1, retained)
  {
  }

  lemma RetainsMore(rows: seq<Row>, q: Request, n: nat, retained: map<string, nat>)
    requires n < |rows| && Retains(rows, q, n, retained)
    requires Judge(rows[n], q).Passes? && Judge(rows[n], q).text !in retained
    ensures FirstWith(rows, q, n, Judge(rows[n], q).text)
    ensures Retains(rows, q, n + 1, retained[Judge(rows[n], q).text := n + 1])
  {
    var text := Judge(rows[n], q).text;
    forall j | 0 <= j < n ensures !PassesWith(rows, q, j, text) { assert KeptAt(rows, q, j, retained); }
    var more: map<string, nat> := retained[text := n + 1];
    forall j | 0 <= j < n + 1 ensures KeptAt(rows, q, j, more) {
      assert j < n ==> KeptAt(rows, q, j, retained);
    }
  }

  lemma RetainedIsFirst(rows: seq<Row>, q: Request, n: nat, retained: map<string, nat>, text: string)
    requires Retains(rows, q, n, retained) && text in retained
    ensures 1 <= retained[text] <= n && FirstWith(rows, q, retained[text] - 1, text)
  {
  }

  /** One pass over the rows. It fails exactly when the tokenizer does on some row that reaches it. */
  method PrepareCandidates(rows: seq<Row>, q: Request) returns (r: Result<(seq<Candidate>, seq<Exclusion>)>)
    requires WellFormed(q.rule)
    ensures r.Err? <==> Faulty(rows, q, |rows|)
    ensures r.Err? ==> FaultyAt(rows, q, r.code)
    ensures r.Ok? ==> Prepared(rows, q, |rows|, r.value.0, r.value.1)
  {
    var candidates, exclusions := [], [];
    var retained: map<string, nat> := map[];
    for n := 0 to |rows|
      invariant !Faulty(rows, q, n)
      invariant Prepared(rows, q, n, candidates, exclusions) && Retains(rows, q, n, retained)
    {
      var verdict := JudgeRow(rows[n], q);
      if verdict.TokenizerFault? {
        FirstFault(rows, q, n);
        return Err(verdict.code);
      }
      NextIsSound(rows, q, n);
      if verdict.Passes? && verdict.text !in retained {
        RetainsMore(rows, q, n, retained);
        var candidate := MakeCandidate(rows, q, n, verdict);
        AddCandidate(rows, q, n, candidates, exclusions, candidate);
        candidates := candidates + [candidate];
        retained := retained[verdict.text := n + 1];
      } else {
        RetainsSame(rows, q, n, retained);
        var receipt := MakeReceipt(rows, q, n, verdict, retained);
        AddExclusion(rows, q, n, candidates, exclusions, receipt);
        exclusions := exclusions + [receipt];
      }
    }
    return Ok((candidates, exclusions));
  }

  method MakeReceipt(rows: seq<Row>, q: Request, n: nat, verdict: Verdict, retained: map<string, nat>)
    returns (e: Exclusion)
    requires n < |rows| && verdict == Judge(rows[n], q) && !verdict.TokenizerFault? && Retains(rows, q, n, retained)
    requires verdict.Passes? ==> verdict.text in retained
    ensures e.ordinal == n + 1 && IsExclusion(rows, q, e)
  {
    if verdict.Rejected? {
      return Exclusion(n + 1, verdict.phase, verdict.reason, None);
    }
    RetainedIsFirst(rows, q, n, retained, verdict.text);
    return Exclusion(n + 1, Deduplication, "duplicate_rendered_text", Some(retained[verdict.text]));
  }

  method MakeCandidate(rows: seq<Row>, q: Request, n: nat, verdict: Verdict) returns (c: Candidate)
    requires WellFormed(q.rule) && n < |rows| && verdict == Judge(rows[n], q) && verdict.Passes?
    requires FirstWith(rows, q, n, verdict.text)
    ensures c.ordinal == n + 1 && IsCandidate(rows, q, c)
  {
    var identity := q.identify(verdict.text);
    var split := AssignSplit(q.rule, q.digest(identity, q.rule.seed));
    return Candidate(n + 1, identity, verdict.text, verdict.tokens, split);
  }

  /** Validation, rendering, the character filters, the token count and its filter, in that order. */
  method JudgeRow(row: Row, q: Request) returns (verdict: Verdict)
    ensures verdict == Judge(row, q)
  {
    var mapped := MapRow(row, q.mapping);
    if mapped.Unmapped? {
      return Rejected(Validation, mapped.reason);
    }
    var text := Render(mapped);
    if |text| < q.filter.minimum {
      return Rejected(Filtering, "below_minimum_characters");
    }
    if q.filter.maximum.Some? && |text| > q.filter.maximum.value {
      return Rejected(Filtering, "above_maximum_characters");
    }
    var tokens := CountTokens(q.tokenizer, text);
    if tokens.Err? {
      return TokenizerFault(tokens.code);
    }
    if q.filter.maximumTokens.Some? && tokens.value > q.filter.maximumTokens.value {
      return Rejected(Filtering, "above_maximum_tokens");
    }
    return Passes(text, tokens.value);
  }
}
