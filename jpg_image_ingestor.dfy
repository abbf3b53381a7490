/** `JPGImageIngestor.modify_image`: a JPEG photo is checked, a new size is
    computed for it (at most 500 pixels wide), and the photo is saved as
    the `mod_` sibling of the original. The resized copy is never kept:
    the photo is saved at its own size. */
module JpgImageIngestor {
  import opened Exceptions
  import opened Paths
  import opened IngestorInterface
  import opened ImageIngestorInterface
  import opened Files
  import opened Preprocessing

  const Allowed: seq<string> := ["jpg", "jpeg", "JPEG", "JPG"]

  /** What the handler writes as the code stands: `resize` returns a new
      image, which is dropped, so the opened source is saved unchanged and
      the computed size goes unused. */
  function WrittenAsWritten(src: Picture, width: nat, height: nat): Picture {
    src
  }

  /** What the handler evidently meant to write: the source resized to
      the computed size. */
  function Written(src: Picture, width: nat, height: nat): Picture {
    Resize(src, width, height)
  }

  /** The result of `modify_image(img_path, width)` and the disk after it. */
  function ModifyImageSpec(d: Disk, imgPath: string, width: int): (Result<string>, Disk) {
    Preprocess(Allowed, WrittenAsWritten, d, imgPath, width)
  }

  /** The same call with the resized copy kept, as the comment at line 57
      and the docstring describe. */
  function CorrectedModifyImageSpec(d: Disk, imgPath: string, width: int): (Result<string>, Disk) {
    Preprocess(Allowed, Written, d, imgPath, width)
  }

  /** `modify_image`: check the suffix, clamp the requested width, then
      open the image, override the width with its own (capped at 500),
      compute the height, drop the resized copy and save the opened image
      next to the original. An `OSError` while opening is swallowed and
      `PROJECT_PHOTOS` is returned. */
  method ModifyImage(fs: FileSystem, imgPath: string, width: int := 500) returns (r: Result<string>)
    modifies fs
    ensures (r, fs.State()) == ModifyImageSpec(old(fs.State()), imgPath, width)
  {
    ghost var d := fs.State();
    var imgExt := Suffix(imgPath);
    if !CanIngest(Allowed, imgExt) {
      PreprocessRejects(Allowed, WrittenAsWritten, d, d, imgPath, width);
      return Err(CannotIngest(imgPath));
    }
    var savePath := ProjectPhotos;
    var imgParent := Dir(imgPath);
    var imgName := Name(imgPath);
    var w := width;
    if w < MinWidth || w > MaxWidth {
      w := MaxWidth;
    }
    var loaded := fs.Open(imgPath);
    if loaded.Err? {
      PreprocessOpenFails(Allowed, WrittenAsWritten, d, imgPath, width);
      return Ok(savePath);
    }
    var inImg := loaded.value;
    if inImg.width > MaxWidth {
      w := MaxWidth;
    } else {
      w := inImg.width;
    }
    w := if inImg.width > MaxWidth then w else inImg.width;
    if inImg.width == 0 {
      PreprocessZeroWidth(Allowed, WrittenAsWritten, d, imgPath, width);
      return Err(ZeroDivision);
    }
    var newHeight := ScaledHeight(w, inImg.width, inImg.height);
    var _ := Resize(inImg, w, newHeight);
    savePath := imgParent + ("mod_" + imgName);
    assert savePath == ModPath(imgPath);
    assert w == OutputWidth(inImg.width);
    PreprocessWrites(Allowed, WrittenAsWritten, d, imgPath, width);
    var _ := fs.Save(savePath, inImg);
    return Ok(savePath);
  }

  /** As written, a readable JPEG is copied unchanged to its `mod_`
      sibling when that can be written, whatever its size; the `mod_` path
      is returned either way. */
  lemma WritesSource(d: Disk, imgPath: string, width: int)
    requires CanIngest(Allowed, Suffix(imgPath)) && d.Readable(imgPath)
    requires d.files[imgPath].width > 0
    ensures ModifyImageSpec(d, imgPath, width) == Saved(d, ModPath(imgPath), d.files[imgPath])
  {
    PreprocessWrites(Allowed, WrittenAsWritten, d, imgPath, width);
  }

  /** With the resized copy kept, a readable JPEG would be saved, when it
      can be, at the size the policy gives, keeping its mode. */
  lemma WritesResized(d: Disk, imgPath: string, width: int)
    requires CanIngest(Allowed, Suffix(imgPath)) && d.Readable(imgPath)
    requires d.files[imgPath].width > 0 && d.Writable(ModPath(imgPath))
    ensures
      var src := d.files[imgPath];
      var (r, d') := CorrectedModifyImageSpec(d, imgPath, width);
      r == Ok(ModPath(imgPath)) && ModPath(imgPath) in d'.files &&
      var p := d'.files[ModPath(imgPath)];
      p.width == OutputWidth(src.width) &&
      p.height == ScaledHeight(OutputWidth(src.width), src.width, src.height) &&
      p.mode == src.mode && p.captions == src.captions
  {
    PreprocessWrites(Allowed, Written, d, imgPath, width);
  }

  /** Only the four JPEG spellings pass the handler's own check. */
  lemma AcceptsSuffix(s: string)
    requires |s| >= 1 && s[0] == '.' && '.' !in s[1..]
    ensures CanIngest(Allowed, s) <==> s == ".jpg" || s == ".jpeg" || s == ".JPEG" || s == ".JPG"
  {
    DotFieldLead(s);
    assert s == [s[0]] + s[1..];
  }

  /** So `.webp` and `.WEBP`, which the dispatcher sends here, always
      raise, and nothing is written. */
  lemma RejectsWebp(d: Disk, imgPath: string, width: int)
    requires Suffix(imgPath) == ".webp" || Suffix(imgPath) == ".WEBP"
    ensures ModifyImageSpec(d, imgPath, width) == (Err(CannotIngest(imgPath)), d)
  {
    AcceptsSuffix(Suffix(imgPath));
    PreprocessRejects(Allowed, WrittenAsWritten, d, d, imgPath, width);
  }

  /** The discarded resize: a JPEG wider than 500 pixels is saved at its
      own size, where the policy gives it a width of 500. */
  lemma AsWrittenKeepsSourceSize(d: Disk, imgPath: string, width: int)
    requires CanIngest(Allowed, Suffix(imgPath)) && d.Readable(imgPath)
    requires d.files[imgPath].width > MaxWidth && d.Writable(ModPath(imgPath))
    ensures
      var src := d.files[imgPath];
      var asWritten := ModifyImageSpec(d, imgPath, width).1;
      var intended := CorrectedModifyImageSpec(d, imgPath, width).1;
      ModPath(imgPath) in asWritten.files && ModPath(imgPath) in intended.files &&
      asWritten.files[ModPath(imgPath)] == src &&
      intended.files[ModPath(imgPath)].width == MaxWidth != src.width
  {
    PreprocessWrites(Allowed, WrittenAsWritten, d, imgPath, width);
    PreprocessWrites(Allowed, Written, d, imgPath, width);
  }

  /** The discrepancy needs a JPEG wider than 500 pixels: on every other
      input the code as written and the corrected one agree, because the
      policy keeps a narrower image at its own size. */
  lemma AgreesUpToMaxWidth(d: Disk, imgPath: string, width: int)
    requires d.Readable(imgPath) ==> d.files[imgPath].width <= MaxWidth
    ensures ModifyImageSpec(d, imgPath, width) == CorrectedModifyImageSpec(d, imgPath, width)
  {
    if !CanIngest(Allowed, Suffix(imgPath)) || !d.Readable(imgPath) || d.files[imgPath].width == 0 {
      assert ModifyImageSpec(d, imgPath, width) == CorrectedModifyImageSpec(d, imgPath, width);
    } else {
      var src := d.files[imgPath];
      assert ModifyImageSpec(d, imgPath, width) == Saved(d, ModPath(imgPath), src) by {
        WritesSource(d, imgPath, width);
      }
      assert CorrectedModifyImageSpec(d, imgPath, width) == Saved(d, ModPath(imgPath), src) by {
        PreprocessWrites(Allowed, Written, d, imgPath, width);
        WrittenKeepsNarrow(src);
      }
    }
  }

  /** Resizing to the policy's size changes nothing for an image at most
      500 pixels wide. */
  lemma WrittenKeepsNarrow(src: Picture)
    requires 0 < src.width <= MaxWidth
    ensures Written(src, OutputWidth(src.width), ScaledHeight(OutputWidth(src.width), src.width, src.height)) == src
  {
    OutputSize(src.width, src.height);
  }
}
