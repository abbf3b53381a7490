/** `Ingestor.parse`: the quote-file dispatcher that picks the handler by
    the pathlib suffix of the path. The CSV and PDF handlers are reduced to
    their extension checks; what they read from the file is given. */
module Ingestor {
  import opened Exceptions
  import opened Paths
  import opened QuoteModel
  import opened QuoteCollect
  import opened IngestorInterface
  import DocxIngestor
  import TxtIngestor

  /** The suffixes `in_extension` accepts. */
  const Accepted: seq<string> := [".docx", ".csv", ".txt", ".pdf"]

  /** The CSV and PDF handlers' `allowed_extensions`. */
  const CsvAllowed: seq<string> := ["csv"]
  const PdfAllowed: seq<string> := ["pdf"]

  predicate InExtension(ext: string) {
    ext in Accepted
  }

  datatype Handler = Docx | Csv | Txt | Pdf

  /** The branch of the if-chain that assigns the result, if any. */
  function Route(ext: string): Option<Handler> {
    if ext == ".docx" then Some(Docx)
    else if ext == ".csv" then Some(Csv)
    else if ext == ".txt" then Some(Txt)
    else if ext == ".pdf" then Some(Pdf)
    else None
  }

  /** What each handler would read from the file at the path: the lines of
      a text file, the paragraph texts of a Word document, and the quotes
      the CSV and PDF readers produce, or the error they raise. */
  datatype Document = Document(lines: seq<string>, paragraphs: seq<string>,
                               csv: Result<seq<Quote>>, pdf: Result<seq<Quote>>)

  /** `CSVIngestor.parse` and `PDFIngestor.parse`: the extension check
      followed by the reader's result. */
  function ReaderParse(allowed: seq<string>, path: string, read: Result<seq<Quote>>): Result<seq<Quote>> {
    if !CanIngest(allowed, path) then Err(CannotIngest(path)) else read
  }

  /** The extension list of each handler. */
  function Allowed(h: Handler): seq<string> {
    match h
    case Docx => DocxIngestor.Allowed
    case Csv => CsvAllowed
    case Txt => TxtIngestor.Allowed
    case Pdf => PdfAllowed
  }

  /** What each handler returns once its extension check has passed. */
  function Contents(h: Handler, doc: Document): Result<seq<Quote>> {
    match h
    case Docx => Collect(doc.paragraphs, DocxIngestor.Step)
    case Csv => doc.csv
    case Txt => Collect(doc.lines, TxtIngestor.Step)
    case Pdf => doc.pdf
  }

  /** The result of the chosen handler's `parse(path)`. */
  function Handle(h: Handler, path: string, doc: Document): Result<seq<Quote>> {
    match h
    case Docx => DocxIngestor.ParseSpec(path, doc.paragraphs)
    case Csv => ReaderParse(CsvAllowed, path, doc.csv)
    case Txt => TxtIngestor.ParseSpec(path, doc.lines)
    case Pdf => ReaderParse(PdfAllowed, path, doc.pdf)
  }

  /** Every handler refuses a path outside its list and otherwise returns
      what it reads. */
  lemma HandleChecks(h: Handler, path: string, doc: Document)
    ensures Handle(h, path, doc) ==
      if CanIngest(Allowed(h), path) then Contents(h, doc) else Err(CannotIngest(path))
  {
  }

  /** `parse(path)` as evidently intended: ValueError naming the suffix for
      a suffix outside the list, otherwise the one handler's result. */
  function Parse(path: string, doc: Document): Result<seq<Quote>> {
    ParseSuffix(Suffix(path), path, doc)
  }

  function ParseSuffix(ext: string, path: string, doc: Document): Result<seq<Quote>> {
    match Route(ext)
    case None => Err(WrongExtension(ext))
    case Some(h) => Handle(h, path, doc)
  }

  /** `parse(path)` as written: the refusal branch first evaluates
      `cls.LOGGER`, which neither `Ingestor` nor `IngestorInterface`
      defines, so AttributeError is raised in place of ValueError. */
  function ParseAsWritten(path: string, doc: Document): Result<seq<Quote>> {
    var ext := Suffix(path);
    match Route(ext)
    case None => Err(AttributeError("LOGGER"))
    case Some(h) => Handle(h, path, doc)
  }

  /** Exactly the four listed suffixes are routed, each to its own handler,
      and the test is case-sensitive. */
  lemma RouteExactly(ext: string)
    ensures Route(ext).Some? <==> InExtension(ext)
    ensures Route(ext) == Some(Docx) <==> ext == ".docx"
    ensures Route(ext) == Some(Csv) <==> ext == ".csv"
    ensures Route(ext) == Some(Txt) <==> ext == ".txt"
    ensures Route(ext) == Some(Pdf) <==> ext == ".pdf"
    ensures !InExtension(".TXT") && !InExtension(".Docx") && !InExtension("")
  {
  }

  /** A refused suffix raises before any handler runs: the result does not
      depend on the file's contents. */
  lemma ParseRejects(path: string, doc: Document, other: Document)
    requires !InExtension(Suffix(path))
    ensures Parse(path, doc) == Parse(path, other) == Err(WrongExtension(Suffix(path)))
  {
    RouteExactly(Suffix(path));
  }

  /** An accepted suffix passes the chosen handler's own `can_ingest`:
      the text after the last dot of the path is the suffix without its
      dot. */
  lemma RoutedHandlerAccepts(path: string, h: Handler)
    requires Route(Suffix(path)) == Some(h)
    ensures CanIngest(Allowed(h), path)
  {
    SuffixDotField(path);
    HandlerAllows(Suffix(path), h);
  }

  /** So for an accepted suffix the handler goes on to read the file and
      its result is returned as it stands: the dispatcher never ends in a
      handler's refusal. */
  lemma ParseDispatches(path: string, doc: Document, h: Handler)
    requires Route(Suffix(path)) == Some(h)
    ensures Parse(path, doc) == Contents(h, doc)
  {
    RoutedHandlerAccepts(path, h);
    HandleChecks(h, path, doc);
  }

  /** Each accepted suffix, without its dot, is in its handler's list. */
  lemma HandlerAllows(ext: string, h: Handler)
    requires Route(ext) == Some(h)
    ensures ext != "" && ext[1..] in Allowed(h)
  {
  }

  /** A file name without a dot, or with a leading dot only (a hidden file
      such as `.txt`), has the suffix "" and is refused. */
  lemma NoSuffixRejected(path: string, doc: Document)
    requires var n := Name(path); '.' !in n || (n[0] == '.' && '.' !in n[1..])
    ensures Suffix(path) == ""
    ensures Parse(path, doc) == Err(WrongExtension(""))
  {
    SuffixEmpty(path);
    RouteExactly("");
  }

  /** Where the suffix is refused, the code as written raises
      AttributeError (the missing `LOGGER`) where ValueError naming the
      suffix was intended; elsewhere both agree. */
  lemma AsWrittenRaisesAttributeError(path: string, doc: Document)
    ensures !InExtension(Suffix(path)) ==>
      ParseAsWritten(path, doc) == Err(AttributeError("LOGGER")) &&
      Parse(path, doc) == Err(WrongExtension(Suffix(path)))
    ensures InExtension(Suffix(path)) ==> ParseAsWritten(path, doc) == Parse(path, doc)
  {
    RouteExactly(Suffix(path));
  }

  /** For instance any `<dir>/<stem>.TXT`: upper case is refused, and the
      caller's `except ValueError` does not catch what is raised. */
  lemma UpperCaseTxt(dir: string, stem: string, doc: Document)
    requires stem != "" && '/' !in stem
    ensures Suffix(dir + "/" + stem + ".TXT") == ".TXT"
    ensures ParseAsWritten(dir + "/" + stem + ".TXT", doc) == Err(AttributeError("LOGGER"))
    ensures Parse(dir + "/" + stem + ".TXT", doc) == Err(WrongExtension(".TXT"))
  {
    var path := dir + "/" + stem + ".TXT";
    UpperCaseSuffix(dir, stem);
    SuffixRefused(path, doc);
  }

  lemma UpperCaseSuffix(dir: string, stem: string)
    requires stem != "" && '/' !in stem
    ensures Suffix(dir + "/" + stem + ".TXT") == ".TXT"
  {
    var path := dir + "/" + stem + ".TXT";
    assert path == dir + "/" + (stem + ".TXT");
    NameOf(dir, stem + ".TXT");
    SuffixOfName(path, stem, "TXT");
  }

  lemma SuffixRefused(path: string, doc: Document)
    requires Suffix(path) == ".TXT"
    ensures ParseAsWritten(path, doc) == Err(AttributeError("LOGGER"))
    ensures Parse(path, doc) == Err(WrongExtension(".TXT"))
  {
    RouteExactly(".TXT");
  }
}
