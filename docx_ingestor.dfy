/** `DocxIngestor.parse`: one quote per non-empty paragraph of a Word
    document, each written `"body" - author`. The document is given as the
    texts of its paragraphs, in order. */
module DocxIngestor {
  import opened Exceptions
  import opened Text
  import opened Paths
  import opened QuoteModel
  import opened QuoteCollect
  import opened IngestorInterface

  const Allowed: seq<string> := ["docx"]

  /** What `split` cuts a paragraph at. */
  const Separator: string := " - "

  /** What the loop body does with one paragraph: the empty text is skipped;
      any other text, unstripped, is split at ` - `; the first field without
      its double quotes is the body, the second field as it stands is the
      author, and a paragraph without a second field raises IndexError. */
  function Step(text: string): LineOutcome {
    if text == "" then Skip else Fields(text)
  }

  function Fields(text: string): (r: LineOutcome)
    ensures !r.Skip?
  {
    var parse := Split(text, Separator);
    if |parse| < 2 then Fail(IndexError) else Emit(Quote(RemoveAll(parse[0], '"'), parse[1]))
  }

  /** The result of `parse(path)` on a document whose paragraphs hold
      `paragraphs`. */
  function ParseSpec(path: string, paragraphs: seq<string>): Result<seq<Quote>> {
    if !CanIngest(Allowed, path) then Err(CannotIngest(path))
    else Collect(paragraphs, Step)
  }

  /** `parse`: check the extension, then walk the paragraphs. */
  method Parse(path: string, paragraphs: seq<string>) returns (r: Result<seq<Quote>>)
    ensures r == ParseSpec(path, paragraphs)
  {
    if !CanIngest(Allowed, path) {
      return Err(CannotIngest(path));
    }
    r := ReadParagraphs(paragraphs);
  }

  /** The loop of `parse`, appending one quote per non-empty paragraph. */
  method ReadParagraphs(paragraphs: seq<string>) returns (r: Result<seq<Quote>>)
    ensures r == Collect(paragraphs, Step)
  {
    var quoteModels: seq<Quote> := [];
    var i := 0;
    while i < |paragraphs|
      invariant 0 <= i <= |paragraphs|
      invariant CollectedUpTo(paragraphs, i, Step, quoteModels)
    {
      var text := paragraphs[i];
      if text != "" {
        var parse := Split(text, Separator);
        if |parse| < 2 {
          FailAt(paragraphs, i, quoteModels, parse);
          return Err(IndexError);
        }
        EmitAt(paragraphs, i, quoteModels, parse);
        quoteModels := quoteModels + [Quote(RemoveAll(parse[0], '"'), parse[1])];
      } else {
        SkipAt(paragraphs, i, quoteModels);
      }
      i := i + 1;
    }
    Finished(paragraphs, quoteModels);
    r := Ok(quoteModels);
  }

  lemma Finished(paragraphs: seq<string>, qs: seq<Quote>)
    requires CollectedUpTo(paragraphs, |paragraphs|, Step, qs)
    ensures Collect(paragraphs, Step) == Ok(qs)
  {
    assert paragraphs[..|paragraphs|] == paragraphs;
  }

  /** One turn of the loop of `Parse`, for each way a paragraph can go. */
  lemma SkipAt(paragraphs: seq<string>, i: nat, qs: seq<Quote>)
    requires i < |paragraphs| && paragraphs[i] == ""
    requires CollectedUpTo(paragraphs, i, Step, qs)
    ensures CollectedUpTo(paragraphs, i + 1, Step, qs)
  {
    CollectSnoc(paragraphs, i, Step);
  }

  lemma EmitAt(paragraphs: seq<string>, i: nat, qs: seq<Quote>, parse: seq<string>)
    requires i < |paragraphs| && paragraphs[i] != ""
    requires parse == Split(paragraphs[i], Separator) && |parse| >= 2
    requires CollectedUpTo(paragraphs, i, Step, qs)
    ensures CollectedUpTo(paragraphs, i + 1, Step, qs + [Quote(RemoveAll(parse[0], '"'), parse[1])])
  {
    CollectSnoc(paragraphs, i, Step);
  }

  lemma FailAt(paragraphs: seq<string>, i: nat, qs: seq<Quote>, parse: seq<string>)
    requires i < |paragraphs| && paragraphs[i] != ""
    requires parse == Split(paragraphs[i], Separator) && |parse| < 2
    requires CollectedUpTo(paragraphs, i, Step, qs)
    ensures Collect(paragraphs, Step) == Err(IndexError)
  {
    CollectSnoc(paragraphs, i, Step);
    CollectPrefixErr(paragraphs, i + 1, Step);
  }

  /** A paragraph is skipped exactly when its text is empty; it raises
      exactly when it is not empty and holds no ` - `, with IndexError. */
  lemma StepCases(text: string)
    ensures Step(text).Skip? <==> text == ""
    ensures Step(text).Fail? <==> text != "" && !Contains(text, Separator)
    ensures Step(text).Fail? ==> Step(text).error == IndexError
  {
    SplitFields(text, Separator);
  }

  /** Nothing is stripped: a paragraph of spaces alone is not skipped but
      raises. */
  lemma BlankParagraphFails(text: string)
    requires text != "" && AllIn(text, 0, |text|, Whitespace)
    ensures Step(text) == Fail(IndexError)
  {
    assert '-' !in Whitespace;
    forall j | 0 <= j <= |text| ensures !OccursAt(text, Separator, j) {
      if j + 1 < |text| {
        MismatchAt(text, Separator, j, 1);
      }
    }
    StepCases(text);
  }

  /** The fields of a quote read from a paragraph: the body is the text
      before the first ` - ` with its double quotes removed, the author the
      text from there to the next ` - ` or the end, kept as it stands. */
  lemma StepFields(text: string)
    requires Step(text).Emit?
    ensures
      var q := Step(text).quote;
      IndexOf(text, Separator).Some? &&
      var k := IndexOf(text, Separator).value;
      var rest := text[k + |Separator|..];
      q.body == RemoveAll(text[..k], '"') &&
      q.author == (match IndexOf(rest, Separator) case None => rest case Some(k2) => rest[..k2])
    ensures '"' !in Step(text).quote.body
  {
    SplitFields(text, Separator);
    var k := IndexOf(text, Separator).value;
    SplitFields(text[k + |Separator|..], Separator);
  }

  /** `parse` succeeds exactly when the path ends in `.docx` and every
      non-empty paragraph holds ` - `. It then returns, in order, one quote
      per non-empty paragraph, the one that paragraph yields. */
  lemma ParseResult(path: string, paragraphs: seq<string>)
    ensures ParseSpec(path, paragraphs).Ok? <==>
      CanIngest(Allowed, path) &&
      forall k | 0 <= k < |paragraphs| :: paragraphs[k] == "" || Contains(paragraphs[k], Separator)
    ensures ParseSpec(path, paragraphs).Ok? ==>
      var qs := ParseSpec(path, paragraphs).value;
      var kept := Kept(paragraphs, Step);
      |qs| == |kept| &&
      (forall k | 0 <= k < |kept| :: kept[k] != "") &&
      forall k | 0 <= k < |qs| :: Step(kept[k]) == Emit(qs[k])
  {
    CollectOk(paragraphs, Step);
    forall k | 0 <= k < |paragraphs| {
      StepCases(paragraphs[k]);
    }
  }

  /** A path whose text after the last dot is not `docx` is refused before
      the document is opened, whatever it holds. */
  lemma ParseRejects(path: string, paragraphs: seq<string>, other: seq<string>)
    requires DotField(path) != "docx"
    ensures ParseSpec(path, paragraphs) == ParseSpec(path, other) == Err(CannotIngest(path))
  {
  }

  /** A quote is a well-formed paragraph when its `__repr__` reads back as
      itself: the body holds no double quote and neither field holds ` - `;
      the author may hold anything else, double quotes and surrounding
      spaces included. */
  predicate WellFormed(q: Quote) {
    '"' !in q.body && !Contains(q.body, Separator) && !Contains(q.author, Separator)
  }

  /** The paragraph `repr(q)` reads back as `q`. */
  lemma StepRepr(q: Quote)
    requires WellFormed(q)
    ensures Step(Repr(q)) == Emit(q)
  {
    var x := "\"" + q.body + "\"";
    assert Repr(q) == x + Separator + q.author;
    QuotedHasNoSeparator(q.body);
    forall j | 0 <= j < |x| && |x| < j + |Separator|
      ensures !OccursAt(x + Separator, Separator, j)
    {
      if j == |x| - 1 {
        MismatchAt(x + Separator, Separator, j, 0);
      } else {
        MismatchAt(x + Separator, Separator, j, 1);
      }
    }
    SplitPair(x, q.author, Separator);
    UnquoteBody(q.body);
  }

  /** A body without ` - ` keeps none when put in double quotes. */
  lemma QuotedHasNoSeparator(b: string)
    requires !Contains(b, Separator)
    ensures !Contains("\"" + b + "\"", Separator)
  {
    var x := "\"" + b + "\"";
    forall j | 0 <= j <= |x| ensures !OccursAt(x, Separator, j) {
      if j == 0 {
        MismatchAt(x, Separator, 0, 0);
      } else if j + 3 == |x| {
        MismatchAt(x, Separator, j, 2);
      } else if j + 3 < |x| {
        assert x[j..j + 3] == b[j - 1..j + 2];
        assert !OccursAt(b, Separator, j - 1);
      }
    }
  }

  lemma UnquoteBody(b: string)
    requires '"' !in b
    ensures RemoveAll("\"" + b + "\"", '"') == b
  {
    assert "\"" + b + "\"" == "\"" + (b + "\"");
    assert ("\"" + (b + "\""))[1..] == b + "\"";
    RemoveAllAppend(b, "\"", '"');
    RemoveAllAbsent(b, '"');
    assert RemoveAll("\"", '"') == [] by {
      assert "\""[1..] == [];
    }
  }

  /** A document written as one `repr` per paragraph reads back as the
      quotes it was written from. */
  lemma ParseRoundTrip(path: string, qs: seq<Quote>)
    requires CanIngest(Allowed, path)
    requires forall k | 0 <= k < |qs| :: WellFormed(qs[k])
    ensures ParseSpec(path, seq(|qs|, k requires 0 <= k < |qs| => Repr(qs[k]))) == Ok(qs)
  {
    var paragraphs := seq(|qs|, k requires 0 <= k < |qs| => Repr(qs[k]));
    forall k | 0 <= k < |qs| ensures Step(paragraphs[k]) == Emit(qs[k]) {
      StepRepr(qs[k]);
    }
    CollectAllEmit(paragraphs, Step, qs);
  }
}
