/** `MemeEngine`: preprocess the image, draw the quote onto it at a random
    position, save the meme into the output directory and delete the
    intermediate file. The random position is given by the caller as the
    index `random.choice` would pick. */
module MemeEngine {
  import opened Exceptions
  import opened Paths
  import opened Files
  import opened ImageIngestorInterface
  import ImageIngestor

  const DefaultOutDir: string := "../tmp"
  const DefaultWidth: int := 500
  const TextColour: string := "white"

  /** The text position is drawn from `[10, W - 200) x [10, H - 30)`. */
  const MarginLeft: int := 10
  const MarginRight: int := 200
  const MarginTop: int := 10
  const MarginBottom: int := 30

  /** `random.choice(range(lo, hi))` when the generator picks index
      `pick` (taken modulo the length): IndexError on an empty range. */
  function Choice(lo: int, hi: int, pick: nat): (r: Result<int>)
    ensures r.Ok? <==> lo < hi
    ensures r.Ok? ==> lo <= r.value < hi
    ensures r.Err? ==> r.error == IndexError
  {
    if hi <= lo then Err(IndexError) else Ok(lo + pick % (hi - lo))
  }

  /** Every element of a non-empty range is some pick's choice. */
  lemma ChoiceReaches(lo: int, hi: int, v: int)
    requires lo <= v < hi
    ensures Choice(lo, hi, v - lo) == Ok(v)
  {
    assert (v - lo) % (hi - lo) == v - lo;
  }

  /** The caption: the quote text, a line break and the author. */
  function QuoteText(text: string, author: string): (r: string)
    ensures |r| == |text| + 1 + |author|
    ensures r[..|text|] == text && r[|text|] == '\n' && r[|text| + 1..] == author
  {
    text + "\n" + author
  }

  /** The caption keeps the quote and its author apart: when neither text
      holds a line break, two captions are equal exactly when both their
      texts and their authors are. */
  lemma QuoteTextSplits(text1: string, author1: string, text2: string, author2: string)
    requires '\n' !in text1 && '\n' !in text2
    ensures QuoteText(text1, author1) == QuoteText(text2, author2) <==> text1 == text2 && author1 == author2
  {
    var c1, c2 := QuoteText(text1, author1), QuoteText(text2, author2);
    if c1 == c2 {
      if |text1| != |text2| {
        assert false;
      }
      assert text1 == c1[..|text1|] == c2[..|text2|] == text2;
      assert author1 == c1[|text1| + 1..] == c2[|text2| + 1..] == author2;
    }
  }

  /** The picture with `quote` drawn in white at the chosen position, or
      IndexError when the picture is too small for either range. */
  function Drawn(img: Picture, quote: string, pickX: nat, pickY: nat): Result<Picture> {
    match Choice(MarginLeft, img.width - MarginRight, pickX)
    case Err(e) => Err(e)
    case Ok(x) =>
      match Choice(MarginTop, img.height - MarginBottom, pickY)
      case Err(e) => Err(e)
      case Ok(y) => Ok(img.(captions := img.captions + [Caption(x, y, quote, TextColour)]))
  }

  /** `out_dir + '/' + Path(mod_path).name`. */
  function MemePath(outDir: string, modPath: string): string {
    outDir + "/" + Name(modPath)
  }

  /** Saving the meme and deleting the intermediate file: a failed save
      raises; a failed delete is logged and ignored. */
  function Finish(d: Disk, modPath: string, memePath: string, meme: Picture): (Result<string>, Disk) {
    if !d.Writable(memePath) then (Err(OSError(memePath)), d)
    else
      var saved := d.Save(memePath, meme);
      (Ok(memePath), if saved.Removable(modPath) then saved.Remove(modPath) else saved)
  }

  /** Everything after preprocessing, on the disk it left and the path it
      returned. */
  function Compose(outDir: string, d: Disk, modPath: string, quote: string, pickX: nat, pickY: nat): (Result<string>, Disk) {
    match d.Open(modPath)
    case Err(e) => (Err(e), d)
    case Ok(img) =>
      match Drawn(img, quote, pickX, pickY)
      case Err(e) => (Err(e), d)
      case Ok(meme) => Finish(d, modPath, MemePath(outDir, modPath), meme)
  }

  /** The result of `make_meme(img_path, text, author, width)` on an engine
      writing into `outDir`, and the disk afterwards. */
  function MakeMemeSpec(outDir: string, d: Disk, imgPath: string, text: string, author: string,
                        pickX: nat, pickY: nat, width: int): (Result<string>, Disk)
  {
    var pre := ImageIngestor.ModifyImageSpec(d, imgPath, width);
    match pre.0
    case Err(e) => (Err(e), pre.1)
    case Ok(modPath) => Compose(outDir, pre.1, modPath, QuoteText(text, author), pickX, pickY)
  }

  class MemeEngine {
    const outDir: string

    /** Creates the output directory when nothing exists at its path. */
    constructor (fs: FileSystem, outDir: string := DefaultOutDir)
      modifies fs
      ensures this.outDir == outDir
      ensures fs.State() == if old(fs.State()).Exists(outDir) then old(fs.State())
                            else old(fs.State()).(dirs := old(fs.State()).dirs + {outDir})
      ensures old(fs.State()).Valid() ==> fs.State().Valid()
      ensures fs.State().Exists(outDir)
    {
      if !fs.State().Exists(outDir) {
        fs.MakeDirs(outDir);
      }
      this.outDir := outDir;
    }

    /** `make_meme`: preprocess, open the result, draw the caption at the
        chosen position, save into `outDir`, then try to delete the
        intermediate file. */
    method MakeMeme(fs: FileSystem, imgPath: string, text: string, author: string,
                    pickX: nat, pickY: nat, width: int := DefaultWidth) returns (r: Result<string>)
      modifies fs
      ensures (r, fs.State()) == MakeMemeSpec(outDir, old(fs.State()), imgPath, text, author, pickX, pickY, width)
    {
      ghost var d := fs.State();
      var modPath := ImageIngestor.ModifyImage(fs, imgPath, width);
      if modPath.Err? {
        return Err(modPath.error);
      }
      var quote := text + "\n" + author;
      ghost var spec := Compose(outDir, fs.State(), modPath.value, quote, pickX, pickY);
      assert MakeMemeSpec(outDir, d, imgPath, text, author, pickX, pickY, width) == spec;
      r := ComposeMeme(fs, modPath.value, quote, pickX, pickY);
    }

    /** The steps of `make_meme` after preprocessing. */
    method ComposeMeme(fs: FileSystem, modPath: string, quote: string, pickX: nat, pickY: nat) returns (r: Result<string>)
      modifies fs
      ensures (r, fs.State()) == Compose(outDir, old(fs.State()), modPath, quote, pickX, pickY)
    {
      var loaded := fs.Open(modPath);
      if loaded.Err? {
        return Err(loaded.error);
      }
      var memeImg := loaded.value;
      var txtPosX := Choice(MarginLeft, memeImg.width - MarginRight, pickX);
      if txtPosX.Err? {
        return Err(txtPosX.error);
      }
      var txtPosY := Choice(MarginTop, memeImg.height - MarginBottom, pickY);
      if txtPosY.Err? {
        return Err(txtPosY.error);
      }
      memeImg := memeImg.(captions := memeImg.captions + [Caption(txtPosX.value, txtPosY.value, quote, TextColour)]);
      assert Drawn(loaded.value, quote, pickX, pickY) == Ok(memeImg);
      var imgName := Name(modPath);
      var memePath := outDir + "/" + imgName;
      assert Compose(outDir, fs.State(), modPath, quote, pickX, pickY) == Finish(fs.State(), modPath, memePath, memeImg);
      var saved := fs.Save(memePath, memeImg);
      if !saved {
        return Err(OSError(memePath));
      }
      var _ := fs.Remove(modPath);
      return Ok(memePath);
    }
  }

  /** A picture is drawn on exactly when it is wider than 210 and taller
      than 40; the caption is the quote, in white, at a position inside
      both ranges, added after the captions already there, and the picture
      is otherwise unchanged. */
  lemma DrawnCaption(img: Picture, quote: string, pickX: nat, pickY: nat)
    ensures Drawn(img, quote, pickX, pickY).Ok? <==>
      img.width > MarginLeft + MarginRight && img.height > MarginTop + MarginBottom
    ensures Drawn(img, quote, pickX, pickY).Err? ==> Drawn(img, quote, pickX, pickY).error == IndexError
    ensures
      var r := Drawn(img, quote, pickX, pickY);
      r.Ok? ==>
        var meme := r.value;
        meme.width == img.width && meme.height == img.height && meme.mode == img.mode &&
        |meme.captions| == |img.captions| + 1 &&
        meme.captions[..|img.captions|] == img.captions &&
        var c := meme.captions[|img.captions|];
        c.text == quote && c.fill == TextColour &&
        MarginLeft <= c.x < img.width - MarginRight &&
        MarginTop <= c.y < img.height - MarginBottom
  {
  }

  /** Every position inside both ranges is drawn by some pair of picks. */
  lemma EveryPositionReachable(img: Picture, quote: string, x: int, y: int)
    requires MarginLeft <= x < img.width - MarginRight
    requires MarginTop <= y < img.height - MarginBottom
    ensures
      var r := Drawn(img, quote, x - MarginLeft, y - MarginTop);
      r.Ok? && r.value.captions[|img.captions|] == Caption(x, y, quote, TextColour)
  {
    ChoiceReaches(MarginLeft, img.width - MarginRight, x);
    ChoiceReaches(MarginTop, img.height - MarginBottom, y);
  }

  /** The meme is named after the intermediate file and lies in `outDir`. */
  lemma MemePathParts(outDir: string, modPath: string)
    ensures Name(MemePath(outDir, modPath)) == Name(modPath)
    ensures Dir(MemePath(outDir, modPath)) == outDir + "/"
  {
    NameOf(outDir, Name(modPath));
  }

  /** After preprocessing: the call succeeds exactly when the intermediate
      file opens, is large enough and the meme path can be written. It
      then returns the meme path, stores the drawn picture there, and
      deletes the intermediate file when it can; nothing else changes. */
  lemma ComposeResult(outDir: string, d: Disk, modPath: string, quote: string, pickX: nat, pickY: nat)
    ensures
      var r := Compose(outDir, d, modPath, quote, pickX, pickY);
      r.0.Ok? <==>
        d.Readable(modPath) &&
        d.files[modPath].width > MarginLeft + MarginRight &&
        d.files[modPath].height > MarginTop + MarginBottom &&
        d.Writable(MemePath(outDir, modPath))
    ensures
      var r := Compose(outDir, d, modPath, quote, pickX, pickY);
      r.0.Ok? ==>
        var memePath := MemePath(outDir, modPath);
        var meme := Drawn(d.files[modPath], quote, pickX, pickY).value;
        var saved := d.Save(memePath, meme);
        r.0.value == memePath &&
        r.1 == if saved.Removable(modPath) then saved.Remove(modPath) else saved
    ensures
      var r := Compose(outDir, d, modPath, quote, pickX, pickY);
      r.0.Err? ==> r.1 == d
  {
    if d.Readable(modPath) {
      DrawnCaption(d.files[modPath], quote, pickX, pickY);
    }
  }

  /** A preprocessed picture 210 wide or less, or 40 high or less, makes
      the call fail with IndexError, and the intermediate file is left
      behind. */
  lemma SmallImageFails(outDir: string, d: Disk, modPath: string, quote: string, pickX: nat, pickY: nat)
    requires d.Readable(modPath)
    requires d.files[modPath].width <= MarginLeft + MarginRight || d.files[modPath].height <= MarginTop + MarginBottom
    ensures Compose(outDir, d, modPath, quote, pickX, pickY) == (Err(IndexError), d)
    ensures modPath in Compose(outDir, d, modPath, quote, pickX, pickY).1.files
  {
    DrawnCaption(d.files[modPath], quote, pickX, pickY);
  }

  /** A delete that fails is ignored: the meme path is still returned and
      the intermediate file stays. */
  lemma RemoveFailureIgnored(outDir: string, d: Disk, modPath: string, quote: string, pickX: nat, pickY: nat)
    requires d.Readable(modPath) && modPath in d.pinned
    requires d.files[modPath].width > MarginLeft + MarginRight
    requires d.files[modPath].height > MarginTop + MarginBottom
    requires d.Writable(MemePath(outDir, modPath))
    ensures Compose(outDir, d, modPath, quote, pickX, pickY).0 == Ok(MemePath(outDir, modPath))
    ensures modPath in Compose(outDir, d, modPath, quote, pickX, pickY).1.files
  {
    ComposeResult(outDir, d, modPath, quote, pickX, pickY);
  }

  /** When the meme path is the intermediate file itself (the output
      directory is the image's own directory), the meme is saved over it
      and then deleted: the path returned names no file. */
  lemma MemeDeletedWhenPathsCoincide(outDir: string, d: Disk, modPath: string, quote: string, pickX: nat, pickY: nat)
    requires MemePath(outDir, modPath) == modPath
    requires d.Readable(modPath) && modPath !in d.pinned
    requires d.files[modPath].width > MarginLeft + MarginRight
    requires d.files[modPath].height > MarginTop + MarginBottom
    requires d.Writable(modPath)
    ensures Compose(outDir, d, modPath, quote, pickX, pickY).0 == Ok(modPath)
    ensures modPath !in Compose(outDir, d, modPath, quote, pickX, pickY).1.files
  {
    ComposeResult(outDir, d, modPath, quote, pickX, pickY);
  }

  /** The width argument has no effect on the meme. */
  lemma MakeMemeIgnoresWidth(outDir: string, d: Disk, imgPath: string, text: string, author: string,
                             pickX: nat, pickY: nat, width1: int, width2: int)
    ensures MakeMemeSpec(outDir, d, imgPath, text, author, pickX, pickY, width1) ==
            MakeMemeSpec(outDir, d, imgPath, text, author, pickX, pickY, width2)
  {
    ImageIngestor.IgnoresWidth(d, imgPath, width1, width2);
  }

  /** A JPEG reaches the drawing step at its own size, so one wider than
      210 and taller than 40 pixels becomes a meme of that size, however
      wide it is: a 1000 by 70 photo is drawn on, not scaled down to 500
      by 35 first. */
  lemma JpegMemeAtSourceSize(outDir: string, d: Disk, imgPath: string, text: string, author: string,
                             pickX: nat, pickY: nat, width: int)
    requires ImageIngestor.Route(Suffix(imgPath)) == Some(ImageIngestor.Jpg)
    requires Suffix(imgPath) != ".webp" && Suffix(imgPath) != ".WEBP"
    requires d.Readable(imgPath) && d.Writable(ModPath(imgPath))
    requires d.files[imgPath].width > MarginLeft + MarginRight
    requires d.files[imgPath].height > MarginTop + MarginBottom
    requires d.Writable(MemePath(outDir, ModPath(imgPath)))
    requires MemePath(outDir, ModPath(imgPath)) != ModPath(imgPath)
    ensures
      var memePath := MemePath(outDir, ModPath(imgPath));
      var r := MakeMemeSpec(outDir, d, imgPath, text, author, pickX, pickY, width);
      r.0 == Ok(memePath) && memePath in r.1.files &&
      r.1.files[memePath].width == d.files[imgPath].width &&
      r.1.files[memePath].height == d.files[imgPath].height
  {
    var src := d.files[imgPath];
    var modPath := ModPath(imgPath);
    var pre := d.Save(modPath, src);
    assert MakeMemeSpec(outDir, d, imgPath, text, author, pickX, pickY, width) ==
           Compose(outDir, pre, modPath, QuoteText(text, author), pickX, pickY) by {
      ImageIngestor.JpegCopied(d, imgPath, width);
    }
    assert pre.Readable(modPath) && pre.files[modPath] == src;
    ComposeKeepsSize(outDir, pre, modPath, QuoteText(text, author), pickX, pickY);
  }

  /** A `mod_` image large enough to draw on becomes a meme of its own
      size, stored under the meme path when that differs from it. */
  lemma ComposeKeepsSize(outDir: string, d: Disk, modPath: string, quote: string, pickX: nat, pickY: nat)
    requires d.Readable(modPath)
    requires d.files[modPath].width > MarginLeft + MarginRight
    requires d.files[modPath].height > MarginTop + MarginBottom
    requires d.Writable(MemePath(outDir, modPath)) && MemePath(outDir, modPath) != modPath
    ensures
      var memePath := MemePath(outDir, modPath);
      var r := Compose(outDir, d, modPath, quote, pickX, pickY);
      r.0 == Ok(memePath) && memePath in r.1.files &&
      r.1.files[memePath].width == d.files[modPath].width &&
      r.1.files[memePath].height == d.files[modPath].height
  {
    var memePath := MemePath(outDir, modPath);
    var r := Compose(outDir, d, modPath, quote, pickX, pickY);
    assert r.0 == Ok(memePath) && memePath in r.1.files &&
           r.1.files[memePath] == Drawn(d.files[modPath], quote, pickX, pickY).value by {
      ComposeResult(outDir, d, modPath, quote, pickX, pickY);
    }
    DrawnCaption(d.files[modPath], quote, pickX, pickY);
  }

  /** On a disk where `PROJECT_PHOTOS` is a directory, a JPEG or PNG that
      cannot be opened is not silently skipped: preprocessing returns the
      directory, and opening it raises OSError. */
  lemma UnreadableImageRaises(outDir: string, d: Disk, imgPath: string, text: string, author: string,
                              pickX: nat, pickY: nat, width: int, h: ImageIngestor.Handler)
    requires d.Valid() && ProjectPhotos in d.dirs
    requires ImageIngestor.Route(Suffix(imgPath)) == Some(h)
    requires Suffix(imgPath) != ".webp" && Suffix(imgPath) != ".WEBP"
    requires !d.Readable(imgPath)
    ensures MakeMemeSpec(outDir, d, imgPath, text, author, pickX, pickY, width) == (Err(OSError(ProjectPhotos)), d)
  {
    ImageIngestor.UnreadableGivesPhotos(d, imgPath, width, h);
  }

  /** On such a disk, a meme that is made is named `mod_` followed by the
      image's file name, in `outDir`. */
  lemma MemeNamedAfterImage(outDir: string, d: Disk, imgPath: string, text: string, author: string,
                            pickX: nat, pickY: nat, width: int)
    requires d.Valid() && ProjectPhotos in d.dirs
    requires MakeMemeSpec(outDir, d, imgPath, text, author, pickX, pickY, width).0.Ok?
    ensures MakeMemeSpec(outDir, d, imgPath, text, author, pickX, pickY, width).0.value ==
            outDir + "/" + ("mod_" + Name(imgPath))
  {
    var pre := ImageIngestor.ModifyImageSpec(d, imgPath, width);
    ImageIngestor.ModifyImageFrame(d, imgPath, width);
    assert ProjectPhotos in pre.1.dirs && pre.1.Valid();
    ComposeResult(outDir, pre.1, pre.0.value, QuoteText(text, author), pickX, pickY);
  }
}
