/** `TXTIngestor.parse`: one quote per non-blank line of a text file, each
    line written `"body" - author`. The file is given as the list of its
    lines, as `readlines()` returns them. */
module TxtIngestor {
  import opened Exceptions
  import opened Text
  import opened Paths
  import opened QuoteModel
  import opened QuoteCollect
  import opened IngestorInterface

  const Allowed: seq<string> := ["txt"]

  /** What `split` cuts a line at. */
  const Separator: string := " - "

  const LineEnds: set<char> := {'\n', '\r'}

  /** `line.strip('\n\r').strip()`. */
  function CleanLine(line: string): string {
    Strip(Strip(line, LineEnds), Whitespace)
  }

  /** What the loop body does with one line: a blank line is skipped; any
      other loses its double quotes and is split at ` - `; the first field
      is the body and the second the author, and a line without a second
      field raises IndexError. */
  function Step(line: string): LineOutcome {
    var clean := CleanLine(line);
    if |clean| == 0 then Skip else Fields(clean)
  }

  /** A cleaned, non-blank line without its double quotes, split at ` - `. */
  function Fields(clean: string): (r: LineOutcome)
    ensures !r.Skip?
  {
    var parse := Split(RemoveAll(clean, '"'), Separator);
    if |parse| < 2 then Fail(IndexError) else Emit(Quote(parse[0], parse[1]))
  }

  /** The result of `parse(path)` on a file whose lines are `lines`. */
  function ParseSpec(path: string, lines: seq<string>): Result<seq<Quote>> {
    if !CanIngest(Allowed, path) then Err(CannotIngest(path))
    else Collect(lines, Step)
  }

  /** `parse`: check the extension, then walk the lines. */
  method Parse(path: string, lines: seq<string>) returns (r: Result<seq<Quote>>)
    ensures r == ParseSpec(path, lines)
  {
    if !CanIngest(Allowed, path) {
      return Err(CannotIngest(path));
    }
    r := ReadLines(lines);
  }

  /** The loop of `parse`, appending one quote per non-blank line. */
  method ReadLines(lines: seq<string>) returns (r: Result<seq<Quote>>)
    ensures r == Collect(lines, Step)
  {
    var quoteModels: seq<Quote> := [];
    var i := 0;
    while i < |lines|
      invariant 0 <= i <= |lines|
      invariant CollectedUpTo(lines, i, Step, quoteModels)
    {
      var line := Strip(Strip(lines[i], LineEnds), Whitespace);
      if |line| > 0 {
        var parse := Split(RemoveAll(line, '"'), Separator);
        if |parse| < 2 {
          FailAt(lines, i, quoteModels, parse);
          return Err(IndexError);
        }
        EmitAt(lines, i, quoteModels, parse);
        quoteModels := quoteModels + [Quote(parse[0], parse[1])];
      } else {
        SkipAt(lines, i, quoteModels);
      }
      i := i + 1;
    }
    Finished(lines, quoteModels);
    r := Ok(quoteModels);
  }

  lemma Finished(lines: seq<string>, qs: seq<Quote>)
    requires CollectedUpTo(lines, |lines|, Step, qs)
    ensures Collect(lines, Step) == Ok(qs)
  {
    assert lines[..|lines|] == lines;
  }

  /** One turn of the loop of `Parse`, for each way a line can go. */
  lemma SkipAt(lines: seq<string>, i: nat, qs: seq<Quote>)
    requires i < |lines| && |CleanLine(lines[i])| == 0
    requires CollectedUpTo(lines, i, Step, qs)
    ensures CollectedUpTo(lines, i + 1, Step, qs)
  {
    CollectSnoc(lines, i, Step);
  }

  lemma EmitAt(lines: seq<string>, i: nat, qs: seq<Quote>, parse: seq<string>)
    requires i < |lines| && |CleanLine(lines[i])| > 0
    requires parse == Split(RemoveAll(CleanLine(lines[i]), '"'), Separator) && |parse| >= 2
    requires CollectedUpTo(lines, i, Step, qs)
    ensures CollectedUpTo(lines, i + 1, Step, qs + [Quote(parse[0], parse[1])])
  {
    CollectSnoc(lines, i, Step);
  }

  lemma FailAt(lines: seq<string>, i: nat, qs: seq<Quote>, parse: seq<string>)
    requires i < |lines| && |CleanLine(lines[i])| > 0
    requires parse == Split(RemoveAll(CleanLine(lines[i]), '"'), Separator) && |parse| < 2
    requires CollectedUpTo(lines, i, Step, qs)
    ensures Collect(lines, Step) == Err(IndexError)
  {
    CollectSnoc(lines, i, Step);
    CollectPrefixErr(lines, i + 1, Step);
  }

  /** Stripping line ends first changes nothing: the cleaned line is the
      line with its surrounding whitespace removed. */
  lemma CleanLineIsStrip(line: string)
    ensures CleanLine(line) == Strip(line, Whitespace)
  {
    LineEndsAreWhitespace();
    StripAbsorbs(line, LineEnds, Whitespace);
  }

  lemma LineEndsAreWhitespace()
    ensures LineEnds <= Whitespace
  {
    assert '\n' in Whitespace && '\r' in Whitespace;
  }

  /** A line is skipped exactly when it is empty or all whitespace. */
  lemma StepSkipIff(line: string)
    ensures Step(line).Skip? <==> AllIn(line, 0, |line|, Whitespace)
  {
    CleanLineIsStrip(line);
    StripEmptyIff(line, Whitespace);
  }

  /** A line that is not blank raises exactly when, with its double quotes
      removed, it holds no ` - `; the error is IndexError. */
  lemma StepFailIff(line: string)
    ensures Step(line).Fail? <==>
      !AllIn(line, 0, |line|, Whitespace) &&
      !Contains(RemoveAll(Strip(line, Whitespace), '"'), Separator)
    ensures Step(line).Fail? ==> Step(line).error == IndexError
  {
    StepSkipIff(line);
    CleanLineIsStrip(line);
    SplitFields(RemoveAll(Strip(line, Whitespace), '"'), Separator);
  }

  /** The fields of a quote read from a line: the body is the text before
      the first ` - ` of the line stripped and without double quotes, the
      author the text from there to the next ` - ` or the end; neither holds
      a double quote. */
  lemma StepFields(line: string)
    requires Step(line).Emit?
    ensures
      var s := RemoveAll(Strip(line, Whitespace), '"');
      var q := Step(line).quote;
      IndexOf(s, Separator).Some? &&
      var k := IndexOf(s, Separator).value;
      var rest := s[k + |Separator|..];
      q.body == s[..k] &&
      q.author == (match IndexOf(rest, Separator) case None => rest case Some(k2) => rest[..k2])
    ensures '"' !in Step(line).quote.body && '"' !in Step(line).quote.author
  {
    StepQuote(line);
    LeadingFields(RemoveAll(Strip(line, Whitespace), '"'));
  }

  lemma StepQuote(line: string)
    requires Step(line).Emit?
    ensures
      var parse := Split(RemoveAll(Strip(line, Whitespace), '"'), Separator);
      |parse| >= 2 && Step(line).quote == Quote(parse[0], parse[1])
  {
    CleanLineIsStrip(line);
  }

  /** The first two fields of a text cut at ` - `, and what they hold. */
  lemma LeadingFields(s: string)
    requires |Split(s, Separator)| >= 2 && '"' !in s
    ensures
      var parse := Split(s, Separator);
      IndexOf(s, Separator).Some? &&
      var k := IndexOf(s, Separator).value;
      var rest := s[k + |Separator|..];
      parse[0] == s[..k] &&
      parse[1] == (match IndexOf(rest, Separator) case None => rest case Some(k2) => rest[..k2])
    ensures '"' !in Split(s, Separator)[0] && '"' !in Split(s, Separator)[1]
  {
    SplitFields(s, Separator);
    var k := IndexOf(s, Separator).value;
    var rest := s[k + |Separator|..];
    SplitFields(rest, Separator);
    forall x | x in s[..k] ensures x in s { }
    forall x | x in rest ensures x in s { }
    if IndexOf(rest, Separator).Some? {
      var k2 := IndexOf(rest, Separator).value;
      forall x | x in rest[..k2] ensures x in rest { }
    }
  }

  /** `parse` succeeds exactly when the path ends in `.txt` and every line
      is blank or holds ` - ` once its double quotes are gone. It then
      returns, in order, one quote per non-blank line, the one that line
      yields. */
  lemma ParseResult(path: string, lines: seq<string>)
    ensures ParseSpec(path, lines).Ok? <==>
      CanIngest(Allowed, path) &&
      forall k | 0 <= k < |lines| ::
        AllIn(lines[k], 0, |lines[k]|, Whitespace) ||
        Contains(RemoveAll(Strip(lines[k], Whitespace), '"'), Separator)
    ensures ParseSpec(path, lines).Ok? ==>
      var qs := ParseSpec(path, lines).value;
      var kept := Kept(lines, Step);
      |qs| == |kept| &&
      (forall k | 0 <= k < |kept| :: !AllIn(kept[k], 0, |kept[k]|, Whitespace)) &&
      forall k | 0 <= k < |qs| :: Step(kept[k]) == Emit(qs[k])
  {
    CollectOk(lines, Step);
    forall k | 0 <= k < |lines| {
      StepFailIff(lines[k]);
    }
    var kept := Kept(lines, Step);
    forall k | 0 <= k < |kept| {
      StepSkipIff(kept[k]);
    }
  }

  /** A path whose text after the last dot is not `txt` is refused before
      any line is read, whatever the lines. */
  lemma ParseRejects(path: string, lines: seq<string>, other: seq<string>)
    requires DotField(path) != "txt"
    ensures ParseSpec(path, lines) == ParseSpec(path, other) == Err(CannotIngest(path))
  {
  }

  /** A quote is a well-formed line when its `__repr__` is one line of the
      file (no line break, at which `readlines` would cut it) that reads back
      as itself. */
  predicate WellFormed(q: Quote) {
    (forall c | c in LineEnds :: c !in q.body && c !in q.author) &&
    '"' !in q.body && '"' !in q.author &&
    !Contains(q.body, Separator) && !Contains(q.author, Separator) &&
    !(|q.body| >= 2 && q.body[|q.body| - 2..] == " -") &&
    |q.author| > 0 && q.author[|q.author| - 1] !in Whitespace
  }

  /** The line `repr(q)`, followed by any whitespace such as the line end,
      reads back as `q`. */
  lemma StepRepr(q: Quote, eol: string)
    requires WellFormed(q) && AllIn(eol, 0, |eol|, Whitespace)
    ensures Step(Repr(q) + eol) == Emit(q)
  {
    CleanRepr(q, eol);
    FieldsRepr(q);
  }

  lemma FieldsRepr(q: Quote)
    requires WellFormed(q)
    ensures Fields(Repr(q)) == Emit(q)
  {
    var unquoted := RemoveAll(Repr(q), '"');
    assert unquoted == q.body + Separator + q.author by { UnquoteRepr(q); }
    NoStraddle(q.body);
    SplitPair(q.body, q.author, Separator);
    assert Split(unquoted, Separator) == [q.body, q.author];
  }

  lemma CleanRepr(q: Quote, eol: string)
    requires |q.author| > 0 && q.author[|q.author| - 1] !in Whitespace
    requires AllIn(eol, 0, |eol|, Whitespace)
    ensures CleanLine(Repr(q) + eol) == Repr(q)
  {
    var r := Repr(q);
    var line := r + eol;
    assert line[0] == '"' && line[|r| - 1] == q.author[|q.author| - 1];
    assert AllIn(line, |r|, |line|, Whitespace) by {
      forall k | |r| <= k < |line| ensures line[k] in Whitespace {
        assert line[k] == eol[k - |r|];
      }
    }
    StripAt(line, 0, |r|, Whitespace);
    assert line[0..|r|] == r;
    CleanLineIsStrip(line);
  }

  /** Removing the double quotes from `repr(q)` leaves `body - author`. */
  lemma UnquoteRepr(q: Quote)
    requires '"' !in q.body && '"' !in q.author
    ensures RemoveAll(Repr(q), '"') == q.body + Separator + q.author
  {
    var rest := Separator + q.author;
    assert Repr(q) == ("\"" + q.body) + ("\"" + rest);
    RemoveAllAppend("\"" + q.body, "\"" + rest, '"');
    UnquoteLead(q.body);
    UnquoteLead(rest);
  }

  lemma UnquoteLead(x: string)
    requires '"' !in x
    ensures RemoveAll("\"" + x, '"') == x
  {
    assert ("\"" + x)[1..] == x;
    RemoveAllAbsent(x, '"');
  }

  /** No ` - ` starts inside a body that does not end in ` -` and ends in
      the separator that follows it. */
  lemma NoStraddle(b: string)
    requires !(|b| >= 2 && b[|b| - 2..] == " -")
    ensures forall j | 0 <= j < |b| && |b| < j + |Separator| :: !OccursAt(b + Separator, Separator, j)
  {
    forall j | 0 <= j < |b| && |b| < j + |Separator|
      ensures !OccursAt(b + Separator, Separator, j)
    {
      if j == |b| - 1 {
        MismatchAt(b + Separator, Separator, j, 1);
      } else if b[|b| - 2] != ' ' {
        MismatchAt(b + Separator, Separator, j, 0);
      } else {
        assert b[|b| - 2..] == [b[|b| - 2], b[|b| - 1]];
        MismatchAt(b + Separator, Separator, j, 1);
      }
    }
  }

  /** A file written as one `repr` per line reads back as the quotes it was
      written from. */
  lemma ParseRoundTrip(path: string, qs: seq<Quote>)
    requires CanIngest(Allowed, path)
    requires forall k | 0 <= k < |qs| :: WellFormed(qs[k])
    ensures ParseSpec(path, seq(|qs|, k requires 0 <= k < |qs| => Repr(qs[k]) + "\n")) == Ok(qs)
  {
    var lines := seq(|qs|, k requires 0 <= k < |qs| => Repr(qs[k]) + "\n");
    forall k | 0 <= k < |qs| ensures Step(lines[k]) == Emit(qs[k]) {
      StepRepr(qs[k], "\n");
    }
    CollectAllEmit(lines, Step, qs);
  }
}
