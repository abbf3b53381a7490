/** `ImageIngestorInterface`: the base of the image handlers. Its
    `can_ingest` is the same test as the quote handlers' (the text after
    the last dot, compared by exact membership), here applied to what the
    concrete handlers pass it: a bare pathlib suffix such as `.jpg`. */
module ImageIngestorInterface {
  import opened Paths
  import opened IngestorInterface

  /** The base class's `allowed_extensions`. */
  const BaseAllowed: seq<string> := []

  /** `PROJECT_PHOTOS`: the photo directory `<package>/_data/photos`, what
      the handlers return when the image cannot be opened or saved. */
  const ProjectPhotos: string := "MemeGenerator/_data/photos"

  /** The concrete handlers call `can_ingest(Path(img_path).suffix)`: the
      text compared is the suffix without its dot, or "" when the file name
      has no suffix. */
  lemma CanIngestSuffix(allowed: seq<string>, path: string)
    ensures CanIngest(allowed, Suffix(path)) <==>
      if Suffix(path) == "" then "" in allowed else Suffix(path)[1..] in allowed
  {
    DotFieldOfSuffix(path);
  }

  /** On a suffix, the handler's test agrees with the one on the whole
      path: both look at the text after the last dot of the file name. */
  lemma CanIngestSuffixAgrees(allowed: seq<string>, path: string)
    requires Suffix(path) != ""
    ensures CanIngest(allowed, Suffix(path)) <==> CanIngest(allowed, path)
  {
    DotFieldOfSuffix(path);
    SuffixDotField(path);
  }

  /** The base class refuses every image, whatever its suffix. */
  lemma BaseRefusesEverySuffix(path: string)
    ensures !CanIngest(BaseAllowed, Suffix(path))
  {
  }

  /** The test is case-sensitive: a list holding `jpg` and `JPG` refuses
      the suffix `.Jpg`. */
  lemma CanIngestCaseSensitive()
    ensures CanIngest(["jpg", "JPG"], ".jpg") && CanIngest(["jpg", "JPG"], ".JPG")
    ensures !CanIngest(["jpg", "JPG"], ".Jpg")
  {
    DotFieldLead(".jpg");
    DotFieldLead(".JPG");
    DotFieldLead(".Jpg");
  }
}
