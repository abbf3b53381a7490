/** The part of the file system the image code touches: pictures stored
    under paths, directories, the paths where I/O raises `OSError`
    (missing permissions, a broken file, a full disk) and the files that can
    be read but not deleted (their directory is not writable). Pillow's images are
    represented by their size, mode and the captions drawn on them. */
module Files {
  import opened Exceptions

  /** Text drawn onto a picture at `(x, y)` in colour `fill`. */
  datatype Caption = Caption(x: int, y: int, text: string, fill: string)

  /** An image as the core sees it: its size, its Pillow mode tag and the
      captions drawn on it. */
  datatype Picture = Picture(width: nat, height: nat, mode: string, captions: seq<Caption>)

  datatype Disk = Disk(files: map<string, Picture>, dirs: set<string>, failing: set<string>,
                      pinned: set<string>) {
    /** `os.path.exists`: a file or a directory. */
    predicate Exists(path: string) {
      path in files || path in dirs
    }

    /** `Image.open` and `os.remove` succeed on a stored picture whose path
        does not fail. */
    predicate Readable(path: string) {
      path in files && path !in failing
    }

    /** `os.remove` succeeds on a readable file that is not pinned. */
    predicate Removable(path: string) {
      Readable(path) && path !in pinned
    }

    /** `save` succeeds unless the path is a directory or fails. */
    predicate Writable(path: string) {
      path !in dirs && path !in failing
    }

    /** No path is both a file and a directory. */
    predicate Valid() {
      forall p | p in files :: p !in dirs
    }

    /** `Image.open(path)`: the stored picture, or `OSError` (which covers
        `FileNotFoundError`). */
    function Open(path: string): (r: Result<Picture>)
      ensures r.Ok? <==> Readable(path)
      ensures r.Ok? ==> r.value == files[path]
      ensures r.Err? ==> r.error == OSError(path)
    {
      if Readable(path) then Ok(files[path]) else Err(OSError(path))
    }

    /** `picture.save(path)` when `Writable(path)`: stores `p`, replacing
        what was there. */
    function Save(path: string, p: Picture): (r: Disk)
      requires Writable(path)
      ensures r.files.Keys == files.Keys + {path} && r.files[path] == p
      ensures forall q | q in files && q != path :: r.files[q] == files[q]
      ensures r.dirs == dirs && r.failing == failing && r.pinned == pinned
      ensures Valid() ==> r.Valid()
    {
      this.(files := files[path := p])
    }

    /** `os.remove(path)` when `Removable(path)`. */
    function Remove(path: string): (r: Disk)
      requires Removable(path)
      ensures r.files.Keys == files.Keys - {path}
      ensures forall q | q in r.files :: r.files[q] == files[q]
      ensures r.dirs == dirs && r.failing == failing && r.pinned == pinned
      ensures Valid() ==> r.Valid()
    {
      this.(files := files - {path})
    }
  }

  /** `d'` differs from `d` at most in the file stored under `path`. */
  predicate OnlyChanges(d: Disk, d': Disk, path: string) {
    d'.dirs == d.dirs && d'.failing == d.failing && d'.pinned == d.pinned &&
    (forall q | q in d.files && q != path :: q in d'.files && d'.files[q] == d.files[q]) &&
    (forall q | q in d'.files && q != path :: q in d.files)
  }

  /** A picture saved under a path is what opening that path gives back,
      and opening any other path gives what it gave before. */
  lemma OpenAfterSave(d: Disk, path: string, p: Picture, other: string)
    requires d.Writable(path) && other != path
    ensures d.Save(path, p).Open(path) == Ok(p)
    ensures d.Save(path, p).Open(other) == d.Open(other)
  {
  }

  /** A removed file can no longer be opened, and every other path opens
      as before. */
  lemma OpenAfterRemove(d: Disk, path: string, other: string)
    requires d.Removable(path) && other != path
    ensures d.Remove(path).Open(path) == Err(OSError(path))
    ensures d.Remove(path).Open(other) == d.Open(other)
  {
  }

  lemma OnlyChangesNothing(d: Disk, path: string)
    ensures OnlyChanges(d, d, path)
  {
  }

  /** The disk as a mutable object: each method performs one system call
      and leaves the rest of the disk as it was. */
  class FileSystem {
    var files: map<string, Picture>
    var dirs: set<string>
    var failing: set<string>
    var pinned: set<string>

    function State(): Disk
      reads this
    {
      Disk(files, dirs, failing, pinned)
    }

    constructor (d: Disk)
      ensures State() == d
    {
      files, dirs, failing, pinned := d.files, d.dirs, d.failing, d.pinned;
    }

    method Open(path: string) returns (r: Result<Picture>)
      ensures r == State().Open(path)
    {
      if path in files && path !in failing {
        r := Ok(files[path]);
      } else {
        r := Err(OSError(path));
      }
    }

    /** Returns whether the picture was written; on failure nothing
        changes. */
    method Save(path: string, p: Picture) returns (ok: bool)
      modifies this
      ensures ok == old(State()).Writable(path)
      ensures State() == if ok then old(State()).Save(path, p) else old(State())
    {
      ok := path !in dirs && path !in failing;
      if ok {
        files := files[path := p];
      }
    }

    /** Returns whether the file was removed; on failure nothing changes. */
    method Remove(path: string) returns (ok: bool)
      modifies this
      ensures ok == old(State()).Removable(path)
      ensures State() == if ok then old(State()).Remove(path) else old(State())
    {
      ok := path in files && path !in failing && path !in pinned;
      if ok {
        files := files - {path};
      }
    }

    /** `os.makedirs(path)` on a path that does not exist yet. */
    method MakeDirs(path: string)
      requires !State().Exists(path)
      modifies this
      ensures State() == old(State()).(dirs := old(dirs) + {path})
      ensures old(State()).Valid() ==> State().Valid()
    {
      dirs := dirs + {path};
    }
  }
}
