/** `IngestorInterface.can_ingest`: the extension test every quote and image
    handler applies to what it is given. */
module IngestorInterface {
  import opened Paths

  /** The base class's `allowed_extensions`. */
  const BaseAllowed: seq<string> := []

  /** `can_ingest(path)` for a class whose `allowed_extensions` is `allowed`:
      the text after the last dot of `path` must be one of them. */
  predicate CanIngest(allowed: seq<string>, path: string) {
    DotField(path) in allowed
  }

  /** The text compared is the one after the last dot of the whole string,
      whatever precedes it, directories included. */
  lemma CanIngestLastDot(allowed: seq<string>, t: string, ext: string)
    requires '.' !in ext
    ensures CanIngest(allowed, t + "." + ext) <==> ext in allowed
  {
    AfterLastOf(t, '.', ext);
  }

  /** A string without a dot is compared as a whole. */
  lemma CanIngestNoDot(allowed: seq<string>, path: string)
    requires '.' !in path
    ensures CanIngest(allowed, path) <==> path in allowed
  {
    AfterLastNone(path, '.');
  }

  /** The membership test is exact: it ingests the extensions listed and no
      other spelling of them, so a list without `TXT` refuses `quotes.TXT`. */
  lemma CanIngestExact(allowed: seq<string>, t: string, ext: string)
    requires '.' !in ext
    ensures ext !in allowed ==> !CanIngest(allowed, t + "." + ext)
    ensures CanIngest(["txt"], t + ".txt") && !CanIngest(["txt"], t + ".TXT")
  {
    CanIngestLastDot(allowed, t, ext);
    assert t + ".txt" == t + "." + "txt" && t + ".TXT" == t + "." + "TXT";
    CanIngestLastDot(["txt"], t, "txt");
    CanIngestLastDot(["txt"], t, "TXT");
  }

  /** The base class ingests nothing. */
  lemma BaseIngestsNothing(path: string)
    ensures !CanIngest(BaseAllowed, path)
  {
  }
}
