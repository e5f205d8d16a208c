/** The file store under the server's base directory, in place of `os.ReadFile` and
    `os.WriteFile`. */
module Files {
  import opened Wrappers
  import opened GoStrings

  /** `filepath.Join(dir, name)`, kept as the pair it is computed from. */
  datatype Path = Path(dir: Bytes, name: Bytes)

  /** The files that exist, and the paths on which the filesystem reports a failure other
      than "does not exist": those a read fails on (no read permission, I/O errors, a
      directory in the way) and, independently, those a write fails on (no write
      permission, a missing parent directory, a full disk). A file may be writable but
      not readable, and a path in a missing directory is unwritable yet reads as absent. */
  datatype Store = Store(files: map<Path, Bytes>, unreadable: set<Path>, unwritable: set<Path>)

  datatype ReadResult = Contents(data: Bytes) | NotExist | ReadFailed

  /** `os.ReadFile`. */
  function ReadFile(s: Store, p: Path): (r: ReadResult)
    ensures r.Contents? <==> p !in s.unreadable && p in s.files
    ensures r.Contents? ==> r.data == s.files[p]
    ensures r.NotExist? <==> p !in s.unreadable && p !in s.files
  {
    if p in s.unreadable then ReadFailed
    else if p in s.files then Contents(s.files[p])
    else NotExist
  }

  /** `os.WriteFile`: creates or truncates the file so that it holds exactly `data`. */
  function WriteFile(s: Store, p: Path, data: Bytes): (r: Option<Store>)
    ensures r.Some? <==> p !in s.unwritable
    ensures r.Some? ==> r.value.unreadable == s.unreadable && r.value.unwritable == s.unwritable
    ensures r.Some? ==> r.value.files.Keys == s.files.Keys + {p}
  {
    if p in s.unwritable then None else Some(s.(files := s.files[p := data]))
  }

  /** A read after a successful write sees the written bytes at that path, unless the
      path is unreadable, and what was there before at every other path. */
  lemma ReadAfterWrite(s: Store, p: Path, data: Bytes, q: Path)
    requires WriteFile(s, p, data).Some?
    ensures ReadFile(WriteFile(s, p, data).value, q)
            == if q != p then ReadFile(s, q) else if p in s.unreadable then ReadFailed else Contents(data)
  {
  }

  /** A second write to the same path replaces the first: there is no appending. */
  lemma WriteOverwrites(s: Store, p: Path, first: Bytes, second: Bytes)
    requires WriteFile(s, p, first).Some?
    ensures WriteFile(WriteFile(s, p, first).value, p, second) == WriteFile(s, p, second)
  {
    assert s.files[p := first][p := second] == s.files[p := second];
  }

  /** The live filesystem, which the upload handler changes in place. */
  class FileSystem {
    var files: map<Path, Bytes>
    var unreadable: set<Path>
    var unwritable: set<Path>

    constructor (s: Store)
      ensures Model() == s
    {
      files := s.files;
      unreadable := s.unreadable;
      unwritable := s.unwritable;
    }

    function Model(): Store
      reads this
    {
      Store(files, unreadable, unwritable)
    }

    method Read(p: Path) returns (r: ReadResult)
      ensures r == ReadFile(Model(), p)
    {
      if p in unreadable {
        r := ReadFailed;
      } else if p in files {
        r := Contents(files[p]);
      } else {
        r := NotExist;
      }
    }

    method Write(p: Path, data: Bytes) returns (ok: bool)
      modifies this
      ensures ok == WriteFile(old(Model()), p, data).Some?
      ensures Model() == if ok then WriteFile(old(Model()), p, data).value else old(Model())
    {
      ok := p !in unwritable;
      if ok {
        files := files[p := data];
      }
    }
  }
}
