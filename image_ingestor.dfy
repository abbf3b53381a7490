/** `ImageIngestor.modify_image`: the dispatcher that sends an image to the
    JPG or the PNG handler by its pathlib suffix. */
module ImageIngestor {
  import opened Exceptions
  import opened Paths
  import opened IngestorInterface
  import opened Files
  import opened Preprocessing
  import opened ImageIngestorInterface
  import JpgImageIngestor
  import PngImageIngestor

  /** The suffixes `in_extension` accepts, in the order listed. */
  const Accepted: seq<string> := [".jpg", ".jpeg", ".png", ".JPG", ".JPEG", ".PNG", ".webp", ".WEBP"]

  predicate InExtension(ext: string) {
    ext in Accepted
  }

  /** The handler each accepted suffix goes to. */
  datatype Handler = Jpg | Png

  /** The branch of the if-chain that fires for `ext`, if any: the JPEG
      spellings and the webp spellings go to the JPG handler, the PNG
      spellings to the PNG handler. */
  function Route(ext: string): Option<Handler> {
    if !InExtension(ext) then None
    else if ext in [".jpg", ".jpeg", ".JPG", ".JPEG"] then Some(Jpg)
    else if ext in [".png", ".PNG"] then Some(Png)
    else if ext in [".webp", ".WEBP"] then Some(Jpg)
    else None
  }

  /** The result of `modify_image(img_path, width)` and the disk after it. */
  function ModifyImageSpec(d: Disk, imgPath: string, width: int): (Result<string>, Disk) {
    var imgExt := Suffix(imgPath);
    match Route(imgExt)
    case None => (Err(WrongExtension(imgExt)), d)
    case Some(Jpg) => JpgImageIngestor.ModifyImageSpec(d, imgPath, width)
    case Some(Png) => PngImageIngestor.ModifyImageSpec(d, imgPath, width)
  }

  /** `modify_image`: a suffix outside the list raises ValueError; otherwise
      the one matching branch runs its handler with the width unchanged
      and its path is returned. */
  method ModifyImage(fs: FileSystem, imgPath: string, width: int) returns (r: Result<string>)
    modifies fs
    ensures (r, fs.State()) == ModifyImageSpec(old(fs.State()), imgPath, width)
  {
    var imgExt := Suffix(imgPath);
    RouteExactly(imgExt);
    if !InExtension(imgExt) {
      return Err(WrongExtension(imgExt));
    }
    if imgExt in [".jpg", ".jpeg", ".JPG", ".JPEG"] {
      r := JpgImageIngestor.ModifyImage(fs, imgPath, width);
    } else if imgExt in [".png", ".PNG"] {
      r := PngImageIngestor.ModifyImage(fs, imgPath, width);
    } else {
      r := JpgImageIngestor.ModifyImage(fs, imgPath, width);
    }
  }

  /** Exactly the eight listed suffixes are accepted, each going to one
      handler; every other suffix, `.Jpg` and `.bmp` among them, is
      refused. */
  lemma RouteExactly(ext: string)
    ensures Route(ext).Some? <==> InExtension(ext)
    ensures Route(ext) == Some(Png) <==> ext == ".png" || ext == ".PNG"
    ensures Route(ext) == Some(Jpg) <==>
      ext in [".jpg", ".jpeg", ".JPG", ".JPEG", ".webp", ".WEBP"]
    ensures !InExtension(".Jpg") && !InExtension(".bmp")
  {
  }

  /** A refused suffix raises ValueError before either handler runs: the
      disk is untouched whatever it holds. */
  lemma RefusedUntouched(d: Disk, imgPath: string, width: int)
    requires !InExtension(Suffix(imgPath))
    ensures ModifyImageSpec(d, imgPath, width) == (Err(WrongExtension(Suffix(imgPath))), d)
  {
  }

  /** A webp image passes the dispatcher and is then refused by the JPG
      handler: it always ends in an exception and nothing is written. */
  lemma WebpAlwaysFails(d: Disk, imgPath: string, width: int)
    requires Suffix(imgPath) == ".webp" || Suffix(imgPath) == ".WEBP"
    ensures InExtension(Suffix(imgPath))
    ensures ModifyImageSpec(d, imgPath, width) == (Err(CannotIngest(imgPath)), d)
  {
    RouteWebp(Suffix(imgPath));
    JpgImageIngestor.RejectsWebp(d, imgPath, width);
  }

  lemma RouteWebp(ext: string)
    requires ext == ".webp" || ext == ".WEBP"
    ensures InExtension(ext) && Route(ext) == Some(Jpg)
  {
  }

  /** The extension list and the written picture of each handler. */
  function Allowed(h: Handler): seq<string> {
    match h
    case Jpg => JpgImageIngestor.Allowed
    case Png => PngImageIngestor.Allowed
  }

  function Written(h: Handler): (Picture, nat, nat) -> Picture {
    match h
    case Jpg => JpgImageIngestor.WrittenAsWritten
    case Png => PngImageIngestor.Written
  }

  /** Both handlers run the same preprocessing with their own list and
      picture. */
  lemma Dispatched(d: Disk, imgPath: string, width: int, h: Handler)
    requires Route(Suffix(imgPath)) == Some(h)
    ensures ModifyImageSpec(d, imgPath, width) == Preprocess(Allowed(h), Written(h), d, imgPath, width)
  {
  }

  /** Every other accepted suffix passes the chosen handler's own check,
      so the handler goes on to open the image. */
  lemma HandlerAccepts(ext: string, h: Handler)
    requires Route(ext) == Some(h) && ext != ".webp" && ext != ".WEBP"
    ensures CanIngest(Allowed(h), ext)
  {
    assert |ext| >= 1 && ext[0] == '.' && '.' !in ext[1..];
    JpgImageIngestor.AcceptsSuffix(ext);
    PngImageIngestor.AcceptsSuffix(ext);
  }

  /** The width passed in has no effect on what either handler does. */
  lemma IgnoresWidth(d: Disk, imgPath: string, width1: int, width2: int)
    ensures ModifyImageSpec(d, imgPath, width1) == ModifyImageSpec(d, imgPath, width2)
  {
    if h :| Route(Suffix(imgPath)) == Some(h) {
      Dispatched(d, imgPath, width1, h);
      Dispatched(d, imgPath, width2, h);
      PreprocessIgnoresWidth(Allowed(h), Written(h), d, imgPath, width1, width2);
    }
  }

  /** Whatever happens, only the `mod_` sibling of the image may change,
      and a path returned is that sibling or `PROJECT_PHOTOS`. */
  lemma ModifyImageFrame(d: Disk, imgPath: string, width: int)
    ensures OnlyChanges(d, ModifyImageSpec(d, imgPath, width).1, ModPath(imgPath))
    ensures d.Valid() ==> ModifyImageSpec(d, imgPath, width).1.Valid()
    ensures
      var r := ModifyImageSpec(d, imgPath, width).0;
      r.Ok? ==> r.value == ModPath(imgPath) || r.value == ProjectPhotos
  {
    if h :| Route(Suffix(imgPath)) == Some(h) {
      Dispatched(d, imgPath, width, h);
      PreprocessFrame(Allowed(h), Written(h), d, imgPath, width);
    } else {
      OnlyChangesNothing(d, ModPath(imgPath));
    }
  }

  /** A readable JPEG is copied to its `mod_` sibling at its own size,
      when that can be written, and the `mod_` path is returned: the JPG
      handler drops the resized copy it computes. */
  lemma JpegCopied(d: Disk, imgPath: string, width: int)
    requires Route(Suffix(imgPath)) == Some(Jpg)
    requires Suffix(imgPath) != ".webp" && Suffix(imgPath) != ".WEBP"
    requires d.Readable(imgPath) && d.files[imgPath].width > 0
    ensures ModifyImageSpec(d, imgPath, width) == Saved(d, ModPath(imgPath), d.files[imgPath])
  {
    var src := d.files[imgPath];
    var w := OutputWidth(src.width);
    HandlerAccepts(Suffix(imgPath), Jpg);
    Dispatched(d, imgPath, width, Jpg);
    PreprocessWrites(Allowed(Jpg), Written(Jpg), d, imgPath, width);
    assert Written(Jpg)(src, w, ScaledHeight(w, src.width, src.height)) == src;
  }

  /** A JPEG or PNG that cannot be opened yields `PROJECT_PHOTOS`, not an
      exception, and nothing is written. */
  lemma UnreadableGivesPhotos(d: Disk, imgPath: string, width: int, h: Handler)
    requires Route(Suffix(imgPath)) == Some(h)
    requires Suffix(imgPath) != ".webp" && Suffix(imgPath) != ".WEBP"
    requires !d.Readable(imgPath)
    ensures ModifyImageSpec(d, imgPath, width) == (Ok(ProjectPhotos), d)
  {
    HandlerAccepts(Suffix(imgPath), h);
    Dispatched(d, imgPath, width, h);
    PreprocessOpenFails(Allowed(h), Written(h), d, imgPath, width);
  }
}
