/** What the JPG and PNG handlers' `modify_image` share: the size they
    compute (clamp the requested width, then override it with the source
    width capped at 500, and scale the height to keep the aspect ratio), the
    `mod_` naming of the output, and the handling of I/O errors. The two
    handlers differ only in their extension lists and in the picture they
    write, which is a parameter here. */
module Preprocessing {
  import opened Exceptions
  import opened Paths
  import opened IngestorInterface
  import opened ImageIngestorInterface
  import opened Files

  const MinWidth: int := 50
  const MaxWidth: int := 500

  /** The requested width after the range check: kept inside [50, 500],
      500 outside it. */
  function Clamp(width: int): (r: int)
    ensures MinWidth <= r <= MaxWidth
    ensures r == width || r == MaxWidth
    ensures MinWidth <= width <= MaxWidth ==> r == width
  {
    if width < MinWidth || width > MaxWidth then MaxWidth else width
  }

  /** The width actually used: the source width, capped at 500. The image
      is never made wider. */
  function OutputWidth(srcWidth: nat): (r: nat)
    ensures r <= MaxWidth && r <= srcWidth
    ensures r == srcWidth || r == MaxWidth
  {
    if srcWidth > MaxWidth then MaxWidth else srcWidth
  }

  /** `int(width * srcHeight / float(srcWidth))` for non-negative sizes:
      the quotient rounded down. */
  function ScaledHeight(width: nat, srcWidth: nat, srcHeight: nat): (r: nat)
    requires srcWidth > 0
  {
    width * srcHeight / srcWidth
  }

  /** The new height is the largest whose ratio to the width does not
      exceed the source's: `h / w <= srcH / srcW < (h + 1) / w`. */
  lemma ScaledHeightFloor(width: nat, srcWidth: nat, srcHeight: nat)
    requires srcWidth > 0
    ensures
      var h := ScaledHeight(width, srcWidth, srcHeight);
      h * srcWidth <= width * srcHeight < (h + 1) * srcWidth
  {
  }

  /** A narrower output is never taller than the source, and an output as
      wide as the source keeps its height. */
  lemma ScaledHeightBounds(width: nat, srcWidth: nat, srcHeight: nat)
    requires 0 < srcWidth && width <= srcWidth
    ensures ScaledHeight(width, srcWidth, srcHeight) <= srcHeight
    ensures width == srcWidth ==> ScaledHeight(width, srcWidth, srcHeight) == srcHeight
  {
    var h := ScaledHeight(width, srcWidth, srcHeight);
    ScaledHeightFloor(width, srcWidth, srcHeight);
    MulMono(width, srcWidth, srcHeight);
    assert h * srcWidth <= srcHeight * srcWidth;
    MulLeCancel(h, srcHeight, srcWidth);
    if width == srcWidth {
      assert srcHeight * srcWidth < (h + 1) * srcWidth;
      MulLtCancel(srcHeight, h + 1, srcWidth);
    }
  }

  lemma MulMono(a: nat, b: nat, c: nat)
    requires a <= b
    ensures a * c <= b * c
  {
  }

  lemma MulLeCancel(x: nat, y: nat, c: nat)
    requires 0 < c && x * c <= y * c
    ensures x <= y
  {
    if x > y {
      MulMono(y + 1, x, c);
    }
  }

  lemma MulLtCancel(x: nat, y: nat, c: nat)
    requires 0 < c && x * c < y * c
    ensures x < y
  {
    if x >= y {
      MulMono(y, x, c);
    }
  }

  /** The size the output gets: at most 500 wide and never wider or taller
      than the source; a source at most 500 wide keeps its size. */
  lemma OutputSize(srcWidth: nat, srcHeight: nat)
    requires srcWidth > 0
    ensures
      var w := OutputWidth(srcWidth);
      var h := ScaledHeight(w, srcWidth, srcHeight);
      w <= MaxWidth && w <= srcWidth && h <= srcHeight &&
      (srcWidth <= MaxWidth ==> w == srcWidth && h == srcHeight) &&
      (srcWidth > MaxWidth ==> w == MaxWidth)
  {
    ScaledHeightBounds(OutputWidth(srcWidth), srcWidth, srcHeight);
  }

  /** The picture resized to `width` by `height`; everything else is kept. */
  function Resize(p: Picture, width: nat, height: nat): (r: Picture)
    ensures r.width == width && r.height == height
    ensures r.mode == p.mode && r.captions == p.captions
  {
    p.(width := width, height := height)
  }

  /** The result of `modify_image(img_path, width)` for a handler accepting
      `allowed`, which writes `written(source, w, h)` for a source image
      and the new size: the path returned, or the exception raised, and the
      disk afterwards. */
  function Preprocess(allowed: seq<string>, written: (Picture, nat, nat) -> Picture,
                      d: Disk, imgPath: string, width: int): (Result<string>, Disk)
  {
    if !CanIngest(allowed, Suffix(imgPath)) then (Err(CannotIngest(imgPath)), d)
    else
      match d.Open(imgPath)
      case Err(_) => (Ok(ProjectPhotos), d)
      case Ok(src) =>
        if src.width == 0 then (Err(ZeroDivision), d)
        else
          var w := OutputWidth(src.width);
          Saved(d, ModPath(imgPath), written(src, w, ScaledHeight(w, src.width, src.height)))
  }

  /** The save at the end of the `with` block: the `mod_` path is returned
      whether or not the picture could be written. */
  function Saved(d: Disk, savePath: string, p: Picture): (r: (Result<string>, Disk))
    ensures r.0 == Ok(savePath)
    ensures r.1 == if d.Writable(savePath) then d.Save(savePath, p) else d
  {
    if d.Writable(savePath) then (Ok(savePath), d.Save(savePath, p)) else (Ok(savePath), d)
  }

  /** A suffix the handler does not list raises before the disk is
      touched, whatever it holds. */
  lemma PreprocessRejects(allowed: seq<string>, written: (Picture, nat, nat) -> Picture,
                          d: Disk, d': Disk, imgPath: string, width: int)
    requires !CanIngest(allowed, Suffix(imgPath))
    ensures Preprocess(allowed, written, d, imgPath, width) == (Err(CannotIngest(imgPath)), d)
    ensures Preprocess(allowed, written, d', imgPath, width).0 == Err(CannotIngest(imgPath))
  {
  }

  /** The requested width has no effect at all: it is clamped, then
      overwritten by the source width before it is used. */
  lemma PreprocessIgnoresWidth(allowed: seq<string>, written: (Picture, nat, nat) -> Picture,
                               d: Disk, imgPath: string, width1: int, width2: int)
    ensures Preprocess(allowed, written, d, imgPath, width1) == Preprocess(allowed, written, d, imgPath, width2)
  {
  }

  /** An image that cannot be opened is not an error: `PROJECT_PHOTOS` is
      returned and nothing is written. */
  lemma PreprocessOpenFails(allowed: seq<string>, written: (Picture, nat, nat) -> Picture,
                            d: Disk, imgPath: string, width: int)
    requires CanIngest(allowed, Suffix(imgPath)) && !d.Readable(imgPath)
    ensures Preprocess(allowed, written, d, imgPath, width) == (Ok(ProjectPhotos), d)
  {
  }

  /** A readable image of width zero raises ZeroDivisionError, which the
      handler does not catch. */
  lemma PreprocessZeroWidth(allowed: seq<string>, written: (Picture, nat, nat) -> Picture,
                            d: Disk, imgPath: string, width: int)
    requires CanIngest(allowed, Suffix(imgPath)) && d.Readable(imgPath)
    requires d.files[imgPath].width == 0
    ensures Preprocess(allowed, written, d, imgPath, width) == (Err(ZeroDivision), d)
  {
  }

  /** Otherwise the picture the handler makes from the image and the
      computed size is saved under the image's `mod_` sibling,
      whose path is returned whether or not it could be written. */
  lemma PreprocessWrites(allowed: seq<string>, written: (Picture, nat, nat) -> Picture,
                         d: Disk, imgPath: string, width: int)
    requires CanIngest(allowed, Suffix(imgPath)) && d.Readable(imgPath)
    requires d.files[imgPath].width > 0
    ensures
      var src := d.files[imgPath];
      var w := OutputWidth(src.width);
      Preprocess(allowed, written, d, imgPath, width) ==
        Saved(d, ModPath(imgPath), written(src, w, ScaledHeight(w, src.width, src.height)))
  {
  }

  /** Saving changes the saved path and nothing else. */
  lemma SavedFrame(d: Disk, savePath: string, p: Picture)
    ensures OnlyChanges(d, Saved(d, savePath, p).1, savePath)
    ensures d.Valid() ==> Saved(d, savePath, p).1.Valid()
  {
  }

  /** Whatever happens, at most the `mod_` file changes, the directories
      stay as they were, and a path returned is the `mod_` sibling or
      `PROJECT_PHOTOS`. */
  lemma PreprocessFrame(allowed: seq<string>, written: (Picture, nat, nat) -> Picture,
                        d: Disk, imgPath: string, width: int)
    ensures OnlyChanges(d, Preprocess(allowed, written, d, imgPath, width).1, ModPath(imgPath))
    ensures d.Valid() ==> Preprocess(allowed, written, d, imgPath, width).1.Valid()
    ensures
      var r := Preprocess(allowed, written, d, imgPath, width).0;
      r.Ok? ==> r.value == ModPath(imgPath) || r.value == ProjectPhotos
  {
    if !CanIngest(allowed, Suffix(imgPath)) || !d.Readable(imgPath) || d.files[imgPath].width == 0 {
      PreprocessUnchanged(allowed, written, d, imgPath, width);
      OnlyChangesNothing(d, ModPath(imgPath));
    } else {
      PreprocessWritesFrame(allowed, written, d, imgPath, width);
    }
  }

  /** Every path that raises or gives up leaves the disk as it was. */
  lemma PreprocessUnchanged(allowed: seq<string>, written: (Picture, nat, nat) -> Picture,
                            d: Disk, imgPath: string, width: int)
    requires !CanIngest(allowed, Suffix(imgPath)) || !d.Readable(imgPath) || d.files[imgPath].width == 0
    ensures Preprocess(allowed, written, d, imgPath, width).1 == d
    ensures Preprocess(allowed, written, d, imgPath, width).0 in
      {Err(CannotIngest(imgPath)), Ok(ProjectPhotos), Err(ZeroDivision)}
  {
  }

  lemma PreprocessWritesFrame(allowed: seq<string>, written: (Picture, nat, nat) -> Picture,
                              d: Disk, imgPath: string, width: int)
    requires CanIngest(allowed, Suffix(imgPath)) && d.Readable(imgPath) && d.files[imgPath].width > 0
    ensures OnlyChanges(d, Preprocess(allowed, written, d, imgPath, width).1, ModPath(imgPath))
    ensures d.Valid() ==> Preprocess(allowed, written, d, imgPath, width).1.Valid()
    ensures Preprocess(allowed, written, d, imgPath, width).0 == Ok(ModPath(imgPath))
  {
    var src := d.files[imgPath];
    var w := OutputWidth(src.width);
    var p := written(src, w, ScaledHeight(w, src.width, src.height));
    PreprocessWrites(allowed, written, d, imgPath, width);
    SavedFrame(d, ModPath(imgPath), p);
  }
}
