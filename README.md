# Meme generator core in Dafny

This project models the core of a small meme generator. The generator
reads quotes from text and Word files, copies a photo (a PNG is scaled
and turned grey; a JPEG, as the handler stands, keeps its size), draws
a quote onto it at a random position and saves the result. Two packages make
up the core:

- **QuoteEngine**:
  - the quote value type `QuoteModel`, with its `__str__` and `__repr__`
    renderings;
  - the extension test `can_ingest` shared by all quote readers;
  - the line-by-line TXT reader and the paragraph-by-paragraph DOCX
    reader;
  - the dispatcher `Ingestor.parse`, which picks a reader by the
    pathlib suffix of the path.
- **MemeGenerator**:
  - the image extension test;
  - the dispatcher `ImageIngestor.modify_image`;
  - the JPG and PNG handlers: the size they compute, what they save
    (a PNG resized to that size and in grey; a JPEG at its own size,
    because the JPG handler drops its resized copy), `mod_` naming and
    handling of I/O errors;
  - `MemeEngine`, which creates the output directory and composes,
    saves and cleans up a meme.

Modules follow the source files:

- `QuoteModel` (datatype `Quote`);
- `IngestorInterface`, `TxtIngestor`, `DocxIngestor` and `Ingestor`;
- `ImageIngestorInterface`, `ImageIngestor`, `JpgImageIngestor`,
  `PngImageIngestor` and `MemeEngine`.

Shared helpers:

- `Exceptions`: results and the exceptions raised;
- `Text`: `strip`, `replace`, `split`;
- `Paths`: pathlib's `name`, `parent` and `suffix`, and
  `split('.')[-1]`;
- `QuoteCollect`: the loop shared by both quote readers;
- `Preprocessing`: what the two image handlers share;
- `Files`: the disk, as a datatype `Disk` and as a mutable
  `FileSystem` object.

The loops of the TXT and DOCX readers are methods with loop invariants,
proved equal to a specification function (`Collect` over a per-line
`Step`). The image handlers and `make_meme` are methods on a
`FileSystem` object, proved to produce the result and disk state given
by pure functions; the properties are proved about those functions.
Nothing raised is modelled as an exception: every operation returns a
`Result` whose `Err` names the exception the source raises.

The file contents and the random choices are inputs:

- a text file is given as its list of lines, a Word document as its
  list of paragraph texts;
- an image is its width, height, Pillow mode and the captions drawn
  on it;
- `random.choice(range(lo, hi))` is the caller's index `pick`, taken
  modulo the length of the range.

## Model

| member | source | states |
|---|---|---|
| QuoteModel.Defaults | QuoteEngine/QuoteModel.py:10-13 | both fields default to the empty string, and the constructor stores its arguments unchanged |
| QuoteModel.ReprInjective | QuoteEngine/QuoteModel.py:19-21 | `repr` tells two quotes apart exactly when they differ, provided neither body holds a double quote |
| QuoteModel.ReprAmbiguous | QuoteEngine/QuoteModel.py:19-21 | example, not an all-inputs property: without that condition two different quotes render to the same `repr` |
| QuoteModel.StrInjective | QuoteEngine/QuoteModel.py:15-17 | `str` tells two quotes apart exactly when they differ, provided neither body holds a comma |
| IngestorInterface.CanIngestLastDot | QuoteEngine/IngestorInterface.py:25-29 | `can_ingest(t + "." + ext)` holds exactly when `ext` (without dots) is listed, whatever `t` is, directories included |
| IngestorInterface.CanIngestNoDot | QuoteEngine/IngestorInterface.py:28-29 | a string without a dot is compared as a whole |
| IngestorInterface.CanIngestExact | QuoteEngine/IngestorInterface.py:29 | membership is exact and case-sensitive: an unlisted extension is refused, and `["txt"]` accepts `.txt` but refuses `.TXT` |
| IngestorInterface.BaseIngestsNothing | QuoteEngine/IngestorInterface.py:23-29 | the base class's empty list refuses every path |
| Paths.Suffix | QuoteEngine/Ingestor.py:53 | a pathlib suffix is empty, or a dot followed by at least one character with no dot or `/` |
| Paths.SuffixEmpty | QuoteEngine/Ingestor.py:53 | a file name without a dot, or whose only dot leads it, has the suffix "" |
| Paths.SuffixDotField | QuoteEngine/Ingestor.py:53-66 | a non-empty suffix without its dot equals the text after the last dot of the whole path |
| Paths.ModPath | MemeGenerator/JPGImageIngestor.py:69 | the `mod_` path has the source's directory and the name `mod_` followed by the source's name |
| QuoteCollect.CollectOk | QuoteEngine/TXTIngestor.py:47-56 | the loop succeeds exactly when no line fails; its quotes are then those of the non-skipped lines, one each, in order |
| QuoteCollect.CollectFirstFailure | QuoteEngine/TXTIngestor.py:47-56 | the first failing line's error is the result of the whole loop |
| QuoteCollect.CollectAppend | QuoteEngine/DocxIngestor.py:49-58 | running the loop over `a + b` is running it over `a` and then over `b` |
| QuoteCollect.CollectAllEmit | QuoteEngine/DocxIngestor.py:49-58 | when every line yields a quote, the loop returns exactly those quotes in order |
| TxtIngestor.Parse | QuoteEngine/TXTIngestor.py:27-58 | `parse` returns the error for a path outside `txt`, and otherwise the result of the line loop |
| TxtIngestor.ReadLines | QuoteEngine/TXTIngestor.py:42-58 | the loop returns the quotes of the non-blank lines in order, or IndexError at the first line without ` - ` |
| TxtIngestor.CleanLineIsStrip | QuoteEngine/TXTIngestor.py:50 | `strip('\n\r').strip()` is the line with its surrounding whitespace removed |
| TxtIngestor.StepSkipIff | QuoteEngine/TXTIngestor.py:50-51 | a line is skipped exactly when it is empty or all whitespace |
| TxtIngestor.StepFailIff | QuoteEngine/TXTIngestor.py:54-55 | a non-blank line raises IndexError exactly when, once its double quotes are gone, it holds no ` - ` |
| TxtIngestor.StepFields | QuoteEngine/TXTIngestor.py:50-55 | the body is the text before the first ` - `; the author runs from there to the next ` - ` or to the end; neither holds `"` |
| TxtIngestor.ParseResult | QuoteEngine/TXTIngestor.py:39-58 | `parse` succeeds exactly when the path ends in `txt` and every line is blank or holds ` - `; it then returns one quote per non-blank line, in order |
| TxtIngestor.ParseRejects | QuoteEngine/TXTIngestor.py:39-40 | a path whose text after the last dot is not `txt` is refused whatever the file holds |
| TxtIngestor.StepRepr | QuoteEngine/TXTIngestor.py:50-55 | the line `repr(q)`, followed by any whitespace, reads back as `q` for a well-formed quote |
| TxtIngestor.ParseRoundTrip | QuoteEngine/TXTIngestor.py:42-58 | a file written as one `repr` per line reads back as the quotes it was written from |
| DocxIngestor.Parse | QuoteEngine/DocxIngestor.py:32-60 | `parse` returns the error for a path outside `docx`, and otherwise the result of the paragraph loop |
| DocxIngestor.ReadParagraphs | QuoteEngine/DocxIngestor.py:46-60 | the loop returns the quotes of the non-empty paragraphs in order, or IndexError at the first one without ` - ` |
| DocxIngestor.StepCases | QuoteEngine/DocxIngestor.py:50-57 | a paragraph is skipped exactly when its text is ""; it raises IndexError exactly when it is non-empty and holds no ` - ` |
| DocxIngestor.BlankParagraphFails | QuoteEngine/DocxIngestor.py:50-57 | nothing is stripped: a paragraph of spaces alone raises IndexError |
| DocxIngestor.StepFields | QuoteEngine/DocxIngestor.py:54-57 | the body is the text before the first ` - ` with its double quotes removed; the author is the next field, kept verbatim |
| DocxIngestor.ParseResult | QuoteEngine/DocxIngestor.py:43-60 | `parse` succeeds exactly when the path ends in `docx` and every non-empty paragraph holds ` - `; it then returns one quote per non-empty paragraph, in order |
| DocxIngestor.ParseRejects | QuoteEngine/DocxIngestor.py:43-44 | a path whose text after the last dot is not `docx` is refused whatever the document holds |
| DocxIngestor.StepRepr | QuoteEngine/DocxIngestor.py:54-57 | the paragraph `repr(q)` reads back as `q` for a well-formed quote |
| DocxIngestor.ParseRoundTrip | QuoteEngine/DocxIngestor.py:46-60 | a document written as one `repr` per paragraph reads back as its quotes |
| Ingestor.RouteExactly | QuoteEngine/Ingestor.py:37-66 | exactly `.docx`, `.csv`, `.txt` and `.pdf` are accepted, each routed to its own handler; `.TXT`, `.Docx` and "" are refused |
| Ingestor.HandleChecks | QuoteEngine/Ingestor.py:59-66 | every handler refuses a path outside its list, and otherwise returns what it reads |
| Ingestor.ParseRejects | QuoteEngine/Ingestor.py:53-57 | a refused suffix raises ValueError naming it, whatever the file holds |
| Ingestor.RoutedHandlerAccepts | QuoteEngine/Ingestor.py:53-66 | a suffix the dispatcher accepts passes the chosen handler's own `can_ingest` |
| Ingestor.HandlerAllows | QuoteEngine/Ingestor.py:37-66 | each accepted suffix, without its dot, is in its handler's list |
| Ingestor.ParseDispatches | QuoteEngine/Ingestor.py:59-68 | for an accepted suffix, the handler's reading is returned unchanged |
| Ingestor.NoSuffixRejected | QuoteEngine/Ingestor.py:53-57 | a name without a dot, or with only a leading dot such as `.txt`, has the suffix "" and is refused |
| Ingestor.AsWrittenRaisesAttributeError | QuoteEngine/Ingestor.py:54-57 | as written, a refused suffix raises AttributeError instead of ValueError; elsewhere the written code and the intended one agree |
| Ingestor.UpperCaseTxt | QuoteEngine/Ingestor.py:53-57 | example, not an all-inputs property: `dir/stem.TXT` has the suffix `.TXT`, raises AttributeError as written and ValueError as intended |
| ImageIngestorInterface.CanIngestSuffix | MemeGenerator/ImageIngestorInterface.py:28-32 | on a bare suffix the compared text is the suffix without its dot, or "" when there is no suffix |
| ImageIngestorInterface.CanIngestSuffixAgrees | MemeGenerator/ImageIngestorInterface.py:31-32 | on a non-empty suffix the test agrees with the test on the whole path |
| ImageIngestorInterface.BaseRefusesEverySuffix | MemeGenerator/ImageIngestorInterface.py:26-32 | the base class refuses every image |
| ImageIngestorInterface.CanIngestCaseSensitive | MemeGenerator/ImageIngestorInterface.py:32 | example, not an all-inputs property: `jpg` and `JPG` in the list do not admit `.Jpg` |
| Preprocessing.Clamp | MemeGenerator/JPGImageIngestor.py:49-51 | a requested width is kept inside [50, 500] and becomes 500 outside it |
| Preprocessing.OutputWidth | MemeGenerator/JPGImageIngestor.py:58-62 | the width used is the source width capped at 500: never above 500 or the source width |
| Preprocessing.ScaledHeightFloor | MemeGenerator/JPGImageIngestor.py:63 | the new height is the floor of `w * srcH / srcW` |
| Preprocessing.ScaledHeightBounds | MemeGenerator/PNGImageIngestor.py:55 | a narrower output is never taller than the source, and one of the source's width keeps its height |
| Preprocessing.OutputSize | MemeGenerator/PNGImageIngestor.py:51-55 | the output is at most 500 wide and never larger than the source; a source at most 500 wide keeps its size |
| Preprocessing.Saved | MemeGenerator/JPGImageIngestor.py:69-79 | the `mod_` path is returned whether or not the save succeeds; a failed save leaves the disk as it was |
| Preprocessing.PreprocessRejects | MemeGenerator/JPGImageIngestor.py:36-39 | an unlisted suffix raises before the disk is touched |
| Preprocessing.PreprocessIgnoresWidth | MemeGenerator/JPGImageIngestor.py:49-62 | the requested width has no effect on the result or the disk |
| Preprocessing.PreprocessOpenFails | MemeGenerator/JPGImageIngestor.py:74-79 | an image that cannot be opened yields `PROJECT_PHOTOS` and nothing is written |
| Preprocessing.PreprocessZeroWidth | MemeGenerator/JPGImageIngestor.py:63 | a readable image of width zero raises ZeroDivisionError, which is not caught |
| Preprocessing.PreprocessWrites | MemeGenerator/PNGImageIngestor.py:51-69 | otherwise the picture the handler makes from the source and the computed size is saved under the `mod_` path |
| Preprocessing.SavedFrame | MemeGenerator/PNGImageIngestor.py:69 | saving changes only the file at the saved path |
| Preprocessing.PreprocessUnchanged | MemeGenerator/PNGImageIngestor.py:31-75 | each path that raises or gives up leaves the disk unchanged |
| Preprocessing.PreprocessWritesFrame | MemeGenerator/PNGImageIngestor.py:51-75 | a readable, non-degenerate image changes only the `mod_` file and returns its path |
| Preprocessing.PreprocessFrame | MemeGenerator/JPGImageIngestor.py:36-79 | whatever happens, only the `mod_` file changes, and a path returned is the `mod_` path or `PROJECT_PHOTOS` |
| JpgImageIngestor.ModifyImage | MemeGenerator/JPGImageIngestor.py:26-79 | the method's result and new disk are those `Preprocess` gives with the JPEG list and the opened image saved unchanged, since the resized copy is dropped |
| JpgImageIngestor.WritesSource | MemeGenerator/JPGImageIngestor.py:54-73 | a readable JPEG of non-zero width is copied to its `mod_` path at its own size, when that path can be written, and the `mod_` path is returned either way |
| JpgImageIngestor.WritesResized | MemeGenerator/JPGImageIngestor.py:58-73 | corrected half of the finding below, not the code as written: with the resized copy kept, a readable JPEG would be saved at the policy's size, keeping its mode |
| JpgImageIngestor.AcceptsSuffix | MemeGenerator/JPGImageIngestor.py:36-37 | only `.jpg`, `.jpeg`, `.JPEG` and `.JPG` pass the handler's check |
| JpgImageIngestor.RejectsWebp | MemeGenerator/JPGImageIngestor.py:36-39 | `.webp` and `.WEBP` raise and leave the disk unchanged |
| JpgImageIngestor.AsWrittenKeepsSourceSize | MemeGenerator/JPGImageIngestor.py:65-73 | as written, a JPEG wider than 500 is saved at its own size where the corrected handler gives it width 500 |
| JpgImageIngestor.AgreesUpToMaxWidth | MemeGenerator/JPGImageIngestor.py:58-73 | on every disk where the image is at most 500 wide, or absent, the handler as written and the corrected one give the same result and disk |
| PngImageIngestor.ModifyImage | MemeGenerator/PNGImageIngestor.py:30-75 | the method's result and new disk are those `Preprocess` gives with the PNG list, a resize and grayscale |
| PngImageIngestor.WritesGrayscale | MemeGenerator/PNGImageIngestor.py:55-69 | a readable PNG is saved under its `mod_` path at the policy's size, in mode "L" |
| PngImageIngestor.AcceptsExactly | MemeGenerator/PNGImageIngestor.py:31-34 | a non-empty suffix passes exactly when it is `.png` or `.PNG` |
| ImageIngestor.ModifyImage | MemeGenerator/ImageIngestor.py:43-72 | the dispatcher's result and new disk: ValueError for an unlisted suffix, otherwise the chosen handler's |
| ImageIngestor.RouteExactly | MemeGenerator/ImageIngestor.py:39-70 | exactly the eight listed suffixes are accepted: JPEG and webp spellings go to JPG, PNG spellings to PNG; `.Jpg` and `.bmp` are refused |
| ImageIngestor.RefusedUntouched | MemeGenerator/ImageIngestor.py:57-61 | a refused suffix raises ValueError naming it and leaves the disk unchanged |
| ImageIngestor.WebpAlwaysFails | MemeGenerator/ImageIngestor.py:67-70 | a webp image passes the dispatcher, then is always refused by the JPG handler, and nothing is written |
| ImageIngestor.Dispatched | MemeGenerator/ImageIngestor.py:63-70 | the chosen handler runs the shared preprocessing with its own list and the picture it saves: the unchanged source for JPG, the resized grey copy for PNG |
| ImageIngestor.HandlerAccepts | MemeGenerator/ImageIngestor.py:63-66 | every accepted suffix except webp passes the chosen handler's own check |
| ImageIngestor.IgnoresWidth | MemeGenerator/ImageIngestor.py:63-72 | the width passed through has no effect |
| ImageIngestor.ModifyImageFrame | MemeGenerator/ImageIngestor.py:63-72 | only the `mod_` file may change, and a path returned is it or `PROJECT_PHOTOS` |
| ImageIngestor.JpegCopied | MemeGenerator/ImageIngestor.py:63-66 | a readable JPEG routed to the JPG handler is copied to its `mod_` path at its own size, and that path is returned |
| ImageIngestor.UnreadableGivesPhotos | MemeGenerator/ImageIngestor.py:63-66 | an unreadable JPEG or PNG yields `PROJECT_PHOTOS` without raising |
| Files.OpenAfterSave | MemeGenerator/MemeEngine.py:74-89 | a saved picture is what opening its path gives back; every other path opens as before |
| Files.OpenAfterRemove | MemeGenerator/MemeEngine.py:74-94 | a removed file raises OSError when opened; every other path opens as before |
| Files.Disk.Save | MemeGenerator/MemeEngine.py:89 | saving stores the picture under the path and keeps every other file |
| Files.Disk.Remove | MemeGenerator/MemeEngine.py:94 | removing deletes that one file and keeps the others |
| Files.FileSystem.Open | MemeGenerator/MemeEngine.py:74 | the method returns what `Disk.Open` gives on the current state |
| Files.FileSystem.Save | MemeGenerator/MemeEngine.py:89 | the save succeeds exactly on a writable path and changes nothing when it fails |
| Files.FileSystem.Remove | MemeGenerator/MemeEngine.py:94 | the removal succeeds exactly on a removable file and changes nothing when it fails |
| Files.FileSystem.MakeDirs | MemeGenerator/MemeEngine.py:44 | a directory is added at a path where nothing exists |
| MemeEngine.Choice | MemeGenerator/MemeEngine.py:78-79 | `random.choice(range(lo, hi))` lies in `[lo, hi)`, and raises IndexError exactly when the range is empty |
| MemeEngine.ChoiceReaches | MemeGenerator/MemeEngine.py:78-79 | every element of the range is some pick's choice |
| MemeEngine.QuoteTextSplits | MemeGenerator/MemeEngine.py:75 | when neither text holds a line break, two captions are equal exactly when their texts and their authors are |
| MemeEngine.MemeEngine.constructor | MemeGenerator/MemeEngine.py:40-46 | stores `out_dir`, creating the directory when nothing exists there; afterwards it exists |
| MemeEngine.MemeEngine.MakeMeme | MemeGenerator/MemeEngine.py:51-98 | the result and new disk of `make_meme` are those `MakeMemeSpec` gives: preprocessing, then composition on the disk it left |
| MemeEngine.MemeEngine.ComposeMeme | MemeGenerator/MemeEngine.py:74-98 | the steps after preprocessing produce the result and disk `Compose` gives |
| MemeEngine.DrawnCaption | MemeGenerator/MemeEngine.py:78-83 | the caption is drawn exactly when the image is wider than 210 and taller than 40, in white, inside both ranges, and nothing else changes |
| MemeEngine.EveryPositionReachable | MemeGenerator/MemeEngine.py:78-79 | every position inside both ranges is drawn by some pair of picks |
| MemeEngine.MemePathParts | MemeGenerator/MemeEngine.py:86-87 | the meme path lies in `out_dir` and has the name of the `mod_` file |
| MemeEngine.ComposeResult | MemeGenerator/MemeEngine.py:74-98 | composition succeeds exactly when the `mod_` file opens, is large enough and the meme path is writable; it then returns the meme path, stores the meme and deletes the `mod_` file when it can; on failure the disk is unchanged |
| MemeEngine.SmallImageFails | MemeGenerator/MemeEngine.py:78-79 | an image 210 wide or less, or 40 high or less, raises IndexError and leaves the `mod_` file behind |
| MemeEngine.RemoveFailureIgnored | MemeGenerator/MemeEngine.py:92-98 | a failed delete is ignored: the meme path is returned and the `mod_` file stays |
| MemeEngine.MemeDeletedWhenPathsCoincide | MemeGenerator/MemeEngine.py:86-96 | when the meme path is the `mod_` path, the meme is saved and then deleted |
| MemeEngine.ComposeKeepsSize | MemeGenerator/MemeEngine.py:74-89 | a `mod_` image large enough to draw on is stored as a meme of its own size under a meme path that differs from it |
| MemeEngine.JpegMemeAtSourceSize | MemeGenerator/MemeEngine.py:68-98 | a readable JPEG wider than 210 and taller than 40 becomes a meme at its own size, whatever its width, when both output paths can be written and differ |
| MemeEngine.MakeMemeIgnoresWidth | MemeGenerator/MemeEngine.py:51-68 | the width argument has no effect on the meme |
| MemeEngine.UnreadableImageRaises | MemeGenerator/MemeEngine.py:68-74 | an unreadable JPEG or PNG leads to opening `PROJECT_PHOTOS`, a directory, which raises OSError |
| MemeEngine.MemeNamedAfterImage | MemeGenerator/MemeEngine.py:86-87 | a meme that is made is `out_dir + "/mod_" + name` of the original image |

## Left out

- CSV and PDF readers: `CSVIngestor.parse` and `PDFIngestor.parse` are
  reduced to their extension checks. Each reader's result (the pandas
  rows, or the `pdftotext` output read back) is an input of
  `Ingestor.Document`, because pandas and the subprocess are outside
  the model. The PDF reader's temporary file and its cleanup are not
  modelled.
- Opening and decoding files: reading a text file (`utf-8-sig`,
  `readlines`) and parsing a Word document are replaced by the lines
  and paragraph texts they yield.
- TxtIngestor.ParseRoundTrip: stated over the list of lines, not the
  file's bytes; the well-formedness condition excludes line breaks so
  that each `repr` stays one line.
- Pillow's pixel work is reduced to a picture's size, mode tag and drawn
  captions: resampling (`ANTIALIAS`), `show`, font loading (`arial.ttf`)
  and the JPEG writer's refusal of some modes are left out.
- Preprocessing.ScaledHeight: the height `int(w * srcH / float(srcW))`
  is integer floor division. The float computation agrees with it
  only while the product stays below 2^53.
- Preprocessing.Resize: resizing to a height of zero is not refused as
  Pillow would refuse it.
- Randomness: `random.choice` is modelled by the caller's index.
- Logging and `print` are left out. The only exception is the missing
  `LOGGER` of `Ingestor`, which changes which exception is raised.
- Paths.Suffix: pathlib's normalisation is left out. Trailing slashes,
  `.` components and `//` are taken as they are written. Paths are
  relative, so `PROJECT_PHOTOS` is written as
  `MemeGenerator/_data/photos` rather than the absolute path that
  `resolve()` gives.
- Files.FileSystem.MakeDirs: assumes a fresh path. `os.makedirs`
  failing (a permission error, a race with another process) is left
  out.
- The web front end (`app.py`, `app/__init__.py`) and the command line
  (`main.py`) are not part of this model. Neither is the logging set-up
  in the packages' `__init__.py`.

## Findings

| source | as written | input that shows it | evidently intended | confidence | as-written member | corrected member |
|---|---|---|---|---|---|---|
| QuoteEngine/Ingestor.py:54-57 | the refusal branch calls `cls.LOGGER.error` before raising, but neither `Ingestor` nor `IngestorInterface` defines `LOGGER` (the package defines it at module level only), so AttributeError is raised | `Ingestor.parse("quotes/a.TXT")` | ValueError naming the suffix, as the docstring says | not executed | Ingestor.AsWrittenRaisesAttributeError | Ingestor.ParseRejects |
| MemeGenerator/JPGImageIngestor.py:65 | `in_img.resize(new_size)` returns a new image that is dropped, so line 73 saves the source at its own size | a readable 1000×800 JPEG | the `mod_` file is saved at 500×400 | not executed | JpgImageIngestor.AsWrittenKeepsSourceSize | JpgImageIngestor.WritesResized |

The JPG handler, the image dispatcher and `make_meme` follow the code as
written: a JPEG is saved at its own size. `JpgImageIngestor.CorrectedModifyImageSpec`
is the corrected handler, and `JpgImageIngestor.AgreesUpToMaxWidth`
shows the two differ only on JPEGs wider than 500 pixels. The quote
dispatcher `Ingestor` instead uses the corrected refusal (ValueError);
`Ingestor.AsWrittenRaisesAttributeError` gives what the code as written
raises.
