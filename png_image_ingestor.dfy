/** `PNGImageIngestor.modify_image`: a PNG image is scaled to at most 500
    pixels wide, turned to grayscale and saved as the `mod_` sibling of the
    original. */
module PngImageIngestor {
  import opened Exceptions
  import opened Paths
  import opened IngestorInterface
  import opened ImageIngestorInterface
  import opened Files
  import opened Preprocessing

  const Allowed: seq<string> := ["png", "PNG"]

  /** Pillow's single-channel grayscale mode. */
  const Grayscale: string := "L"

  /** What the handler writes: the source resized to the new size, then
      converted to grayscale. */
  function Written(src: Picture, width: nat, height: nat): Picture {
    Resize(src, width, height).(mode := Grayscale)
  }

  /** The result of `modify_image(img_path, width)` and the disk after it. */
  function ModifyImageSpec(d: Disk, imgPath: string, width: int): (Result<string>, Disk) {
    Preprocess(Allowed, Written, d, imgPath, width)
  }

  /** `modify_image`: check the suffix, clamp the requested width, then
      open the image, override the width with its own (capped at 500),
      compute the height, resize, convert to grayscale and save next to
      the original. An `OSError` while opening is swallowed and
      `PROJECT_PHOTOS` is returned. */
  method ModifyImage(fs: FileSystem, imgPath: string, width: int) returns (r: Result<string>)
    modifies fs
    ensures (r, fs.State()) == ModifyImageSpec(old(fs.State()), imgPath, width)
  {
    ghost var d := fs.State();
    var imgExt := Suffix(imgPath);
    if !CanIngest(Allowed, imgExt) {
      PreprocessRejects(Allowed, Written, d, d, imgPath, width);
      return Err(CannotIngest(imgPath));
    }
    var imgParent := Dir(imgPath);
    var imgName := Name(imgPath);
    var savePath := ProjectPhotos;
    var w := width;
    if w < MinWidth || w > MaxWidth {
      w := MaxWidth;
    }
    var loaded := fs.Open(imgPath);
    if loaded.Err? {
      PreprocessOpenFails(Allowed, Written, d, imgPath, width);
      return Ok(savePath);
    }
    var inImg := loaded.value;
    if inImg.width > MaxWidth {
      w := MaxWidth;
    } else {
      w := inImg.width;
    }
    if inImg.width == 0 {
      PreprocessZeroWidth(Allowed, Written, d, imgPath, width);
      return Err(ZeroDivision);
    }
    var newHeight := ScaledHeight(w, inImg.width, inImg.height);
    inImg := Resize(inImg, w, newHeight);
    var grayImg := inImg.(mode := Grayscale);
    savePath := imgParent + ("mod_" + imgName);
    assert savePath == ModPath(imgPath);
    assert w == OutputWidth(loaded.value.width);
    PreprocessWrites(Allowed, Written, d, imgPath, width);
    var _ := fs.Save(savePath, grayImg);
    return Ok(savePath);
  }

  /** A readable PNG is saved, when it can be, in grayscale at the size the
      policy gives. */
  lemma WritesGrayscale(d: Disk, imgPath: string, width: int)
    requires CanIngest(Allowed, Suffix(imgPath)) && d.Readable(imgPath)
    requires d.files[imgPath].width > 0 && d.Writable(ModPath(imgPath))
    ensures
      var src := d.files[imgPath];
      var (r, d') := ModifyImageSpec(d, imgPath, width);
      r == Ok(ModPath(imgPath)) && ModPath(imgPath) in d'.files &&
      var p := d'.files[ModPath(imgPath)];
      p.width == OutputWidth(src.width) &&
      p.height == ScaledHeight(OutputWidth(src.width), src.width, src.height) &&
      p.mode == Grayscale && p.captions == src.captions
  {
    PreprocessWrites(Allowed, Written, d, imgPath, width);
  }

  /** Only `.png` and `.PNG` pass the handler's own check. */
  lemma AcceptsExactly(imgPath: string)
    requires Suffix(imgPath) != ""
    ensures CanIngest(Allowed, Suffix(imgPath)) <==> Suffix(imgPath) == ".png" || Suffix(imgPath) == ".PNG"
  {
    AcceptsSuffix(Suffix(imgPath));
  }

  lemma AcceptsSuffix(s: string)
    requires |s| >= 1 && s[0] == '.' && '.' !in s[1..]
    ensures CanIngest(Allowed, s) <==> s == ".png" || s == ".PNG"
  {
    DotFieldLead(s);
    assert s == [s[0]] + s[1..];
  }
}
