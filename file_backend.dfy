/**
 * FileBackend (pkg/backends/file_backend.go): each paste is a file under
 * `Root`, named by a random key, and capped at `MaxSize` bytes by io.CopyN.
 *
 * The file system is a mutable map from path to contents. Whether os.Create
 * succeeds is the `createOk` parameter; the random key comes from the `draw`
 * oracle through GenerateRandomString.
 */
module Files {
  import opened Streams
  import opened Paths
  import opened Random

  /** Files by full path. */
  class FileSystem {
    var files: map<string, Bytes>

    constructor ()
      ensures files == map[]
    {
      files := map[];
    }

    /** os.Create: make the file, or truncate it to empty when it exists. */
    method Create(path: string, createOk: bool) returns (err: Option<Error>)
      modifies this
      ensures createOk ==> err == None && files == old(files)[path := []]
      ensures !createOk ==> err == Some(CreateFailed(path)) && files == old(files)
    {
      if !createOk {
        return Some(CreateFailed(path));
      }
      files := files[path := []];
      return None;
    }

    /** One byte written at the end of an open file. */
    method Append(path: string, b: bv8)
      requires path in files
      modifies this
      ensures files == old(files)[path := old(files)[path] + [b]]
    {
      files := files[path := files[path] + [b]];
    }
  }

  /** How io.CopyN ended: no error, io.EOF, or the reader's own error. */
  datatype CopyStatus = Done | EOF | Fault(error: Error)

  /** The number of bytes io.CopyN(dst, src, limit) moves. */
  function Copied(src: Reader, limit: int): (n: nat)
    ensures n <= |src.data|
    ensures limit >= 0 ==> n <= limit
    ensures 0 <= limit <= |src.data| ==> n == limit
    ensures limit >= |src.data| ==> n == |src.data|
    ensures limit <= 0 ==> n == 0
  {
    if limit <= 0 then 0 else if |src.data| < limit then |src.data| else limit
  }

  /** CopyN's error: nil once `limit` bytes have been written (or when there is nothing to copy);
      otherwise the reader ran out first, with EOF or with its fault. */
  function CopyResult(src: Reader, limit: int): (s: CopyStatus)
    ensures s.Fault? <==> (0 <= limit && |src.data| < limit && src.fault.Some?)
    ensures s.Fault? ==> s.error == src.fault.value
  {
    if limit < 0 || Copied(src, limit) == limit then Done
    else match src.fault
      case None => EOF
      case Some(e) => Fault(e)
  }

  /** CopyN reports EOF exactly when the whole input was shorter than the limit and ended cleanly:
      EOF always comes with fewer than `limit` bytes written. */
  lemma CopyEOF(src: Reader, limit: int)
    ensures CopyResult(src, limit) == EOF <==> (|src.data| < limit && src.fault == None)
    ensures CopyResult(src, limit) == EOF ==> Copied(src, limit) < limit
  {
  }

  /** CopyN is error-free exactly when the input holds at least `limit` bytes (or the limit is negative). */
  lemma CopyDone(src: Reader, limit: int)
    ensures CopyResult(src, limit) == Done <==> (limit < 0 || |src.data| >= limit)
  {
  }

  /** The key pathGen returns: a random string, or "" when randomness failed. */
  function KeyFor(keyLength: nat, draw: nat -> Option<LetterIndex>): (key: string)
    ensures key == "" || |key| == keyLength
  {
    match RandomString(keyLength, draw)
    case Ok(s) => s
    case Err(_) => ""
  }

  /** Put's outcome as written, for a key `key` and a created file. */
  function PutResult(maxSize: int, key: string, createOk: bool, full: string, src: Reader): (r: Result<string>)
    ensures !createOk ==> r == Err(CreateFailed(full))
    ensures r.Ok? ==> r.value == "" || r.value == key
  {
    if !createOk then Err(CreateFailed(full))
    else match CopyResult(src, maxSize)
      case Done => Ok("")
      case Fault(e) => Err(e)
      case EOF => if Copied(src, maxSize) == maxSize then Err(FileTooLarge) else Ok(key)
  }

  /** Put's outcome with the size check reachable: an input that fills the limit is refused. */
  function PutCheckedResult(maxSize: int, key: string, createOk: bool, full: string, src: Reader): (r: Result<string>)
  {
    if !createOk then Err(CreateFailed(full))
    else match CopyResult(src, maxSize)
      case Done => if Copied(src, maxSize) == maxSize then Err(FileTooLarge) else Ok(key)
      case Fault(e) => Err(e)
      case EOF => Ok(key)
  }

  /** Put as written, once the file is created: an input of MaxSize bytes or more is answered with an
      empty key and no error, a shorter clean input gets its key, a shorter failing input its fault.
      The FileTooLarge branch is never taken: that error can only be the reader's own. */
  lemma PutOutcome(maxSize: int, key: string, full: string, src: Reader)
    ensures |src.data| >= maxSize ==> PutResult(maxSize, key, true, full, src) == Ok("")
    ensures |src.data| < maxSize && src.fault == None ==> PutResult(maxSize, key, true, full, src) == Ok(key)
    ensures |src.data| < maxSize && src.fault.Some? ==> PutResult(maxSize, key, true, full, src) == Err(src.fault.value)
    ensures PutResult(maxSize, key, true, full, src) == Err(FileTooLarge) ==> src.fault == Some(FileTooLarge)
  {
    CopyEOF(src, maxSize);
    CopyDone(src, maxSize);
  }

  /** Put as written under a size limit of 0, the value an absent size_limit_bytes setting has:
      every paste, empty or not, clean or faulty, gets an empty key and no error. */
  lemma PutZeroLimit(key: string, full: string, src: Reader)
    ensures PutResult(0, key, true, full, src) == Ok("")
  {
    PutOutcome(0, key, full, src);
  }

  /** A concrete over-limit Put: five bytes under a four-byte limit yield an empty key and no error. */
  lemma PutOverLimitExample()
    ensures PutResult(4, "abcdef", true, "/data/abcdef", Reader([1, 2, 3, 4, 5], None)) == Ok("")
  {
  }

  /** With the check reachable, a key is returned exactly for a clean input shorter than the limit,
      an input of the limit or more is refused with FileTooLarge, and a failing input reports its fault. */
  lemma PutCheckedOutcome(maxSize: int, key: string, full: string, src: Reader)
    requires maxSize >= 0
    ensures PutCheckedResult(maxSize, key, true, full, src).Ok? <==> (|src.data| < maxSize && src.fault == None)
    ensures PutCheckedResult(maxSize, key, true, full, src).Ok? ==> PutCheckedResult(maxSize, key, true, full, src).value == key
    ensures |src.data| >= maxSize ==> PutCheckedResult(maxSize, key, true, full, src) == Err(FileTooLarge)
    ensures |src.data| < maxSize && src.fault.Some? ==> PutCheckedResult(maxSize, key, true, full, src) == Err(src.fault.value)
  {
    CopyEOF(src, maxSize);
    CopyDone(src, maxSize);
  }

  /** What Get writes for `path`: the contents of Root/Clean(path), or NotExist. */
  function FileAt(files: map<string, Bytes>, root: string, path: string): (r: Result<Bytes>)
    ensures r.Ok? <==> Join(root, Clean(path)) in files
  {
    var full := Join(root, Clean(path));
    if full in files then Ok(files[full]) else Err(NotExist(full))
  }

  /** A generated key is a plain name, so Get finds the very file Put wrote. */
  lemma FileAtGenerated(files: map<string, Bytes>, root: string, keyLength: nat, draw: nat -> Option<LetterIndex>, contents: Bytes)
    requires keyLength > 0
    requires RandomString(keyLength, draw).Ok?
    ensures FileAt(files[Join(root, KeyFor(keyLength, draw)) := contents], root, KeyFor(keyLength, draw)) == Ok(contents)
  {
    var key := KeyFor(keyLength, draw);
    assert PlainName(key) by {
      forall i | 0 <= i < |key| ensures key[i] != '/' && key[i] != '.' {
        assert IsAlphanumeric(key[i]);
      }
    }
    CleanPlainName(key);
  }

  /** When Put hands back a generated key, Get of that key yields the whole input, not a prefix. */
  lemma PutThenGet(files: map<string, Bytes>, root: string, maxSize: int, keyLength: nat, draw: nat -> Option<LetterIndex>, src: Reader)
    requires keyLength > 0 && RandomString(keyLength, draw).Ok?
    requires PutResult(maxSize, KeyFor(keyLength, draw), true, Join(root, KeyFor(keyLength, draw)), src) == Ok(KeyFor(keyLength, draw))
    ensures FileAt(files[Join(root, KeyFor(keyLength, draw)) := src.data[..Copied(src, maxSize)]], root, KeyFor(keyLength, draw)) == Ok(src.data)
  {
    var key := KeyFor(keyLength, draw);
    assert |key| == keyLength;
    CopyEOF(src, maxSize);
    assert CopyResult(src, maxSize) == EOF;
    assert src.data[..Copied(src, maxSize)] == src.data;
    FileAtGenerated(files, root, keyLength, draw, src.data);
  }

  class FileBackend {
    const Root: string
    /** An int64 in the source. */
    const MaxSize: int
    /** The length of the keys pathGen generates. */
    const keyLength: nat
    const fs: FileSystem

    /** NewFileBackend. */
    constructor (root: string, maxSize: int, keyLength: nat, fs: FileSystem)
      requires -0x8000_0000_0000_0000 <= maxSize < 0x8000_0000_0000_0000
      ensures Root == root && MaxSize == maxSize && this.keyLength == keyLength && this.fs == fs
    {
      Root := root;
      MaxSize := maxSize;
      this.keyLength := keyLength;
      this.fs := fs;
    }

    /** DefaultFileBackend: a 50 KiB limit and 6-character keys. */
    static method DefaultFileBackend(root: string, fs: FileSystem) returns (b: FileBackend)
      ensures fresh(b) && b.Root == root && b.MaxSize == 50 * 1024 && b.keyLength == 6 && b.fs == fs
    {
      b := new FileBackend(root, 50 * 1024, 6, fs);
    }

    /** pathGen: a random key, or "" when the random source fails. */
    method PathGen(draw: nat -> Option<LetterIndex>) returns (path: string)
      ensures path == KeyFor(keyLength, draw)
    {
      var r := GenerateRandomString(keyLength, draw);
      path := if r.Ok? then r.value else "";
    }

    /** io.CopyN into an open file, one byte at a time. */
    method CopyN(path: string, src: Reader, limit: int) returns (written: nat, status: CopyStatus)
      requires path in fs.files
      modifies fs
      ensures written == Copied(src, limit) && status == CopyResult(src, limit)
      ensures fs.files == old(fs.files)[path := old(fs.files)[path] + src.data[..written]]
    {
      written := 0;
      assert old(fs.files)[path] + src.data[..0] == old(fs.files)[path];
      assert fs.files == old(fs.files)[path := old(fs.files)[path] + src.data[..0]];
      while written < limit && written < |src.data|
        invariant written == 0 || written <= limit
        invariant written <= |src.data|
        invariant path in fs.files
        invariant fs.files == old(fs.files)[path := old(fs.files)[path] + src.data[..written]]
      {
        ghost var before := old(fs.files)[path];
        fs.Append(path, src.data[written]);
        assert src.data[..written + 1] == src.data[..written] + [src.data[written]];
        assert (before + src.data[..written]) + [src.data[written]] == before + src.data[..written + 1];
        written := written + 1;
      }
      if written == limit || limit < 0 {
        status := Done;
      } else if src.fault.Some? {
        status := Fault(src.fault.value);
      } else {
        status := EOF;
      }
    }

    /** Put as written: create Root/key, copy at most MaxSize bytes into it, and return the key
        only when CopyN reported EOF. The file stays behind whatever the outcome. */
    method Put(r: Reader, draw: nat -> Option<LetterIndex>, createOk: bool) returns (out: Result<string>)
      modifies fs
      ensures out == PutResult(MaxSize, KeyFor(keyLength, draw), createOk, Join(Root, KeyFor(keyLength, draw)), r)
      ensures !createOk ==> fs.files == old(fs.files)
      ensures createOk ==> fs.files == old(fs.files)[Join(Root, KeyFor(keyLength, draw)) := r.data[..Copied(r, MaxSize)]]
    {
      var path := PathGen(draw);
      var full := Join(Root, path);
      var err := fs.Create(full, createOk);
      if err.Some? {
        return Err(err.value);
      }
      var n, status := CopyN(full, r, MaxSize);
      assert [] + r.data[..n] == r.data[..n];
      if status != EOF {
        match status {
          case Done => return Ok("");
          case Fault(e) => return Err(e);
        }
      }
      if n == MaxSize {
        return Err(FileTooLarge);
      }
      return Ok(path);
    }

    /** Put with the size check made reachable: CopyN's nil error means the limit was filled. */
    method PutChecked(r: Reader, draw: nat -> Option<LetterIndex>, createOk: bool) returns (out: Result<string>)
      modifies fs
      ensures out == PutCheckedResult(MaxSize, KeyFor(keyLength, draw), createOk, Join(Root, KeyFor(keyLength, draw)), r)
      ensures !createOk ==> fs.files == old(fs.files)
      ensures createOk ==> fs.files == old(fs.files)[Join(Root, KeyFor(keyLength, draw)) := r.data[..Copied(r, MaxSize)]]
    {
      var path := PathGen(draw);
      var full := Join(Root, path);
      var err := fs.Create(full, createOk);
      if err.Some? {
        return Err(err.value);
      }
      var n, status := CopyN(full, r, MaxSize);
      assert [] + r.data[..n] == r.data[..n];
      if status.Fault? {
        return Err(status.error);
      }
      if n == MaxSize {
        return Err(FileTooLarge);
      }
      return Ok(path);
    }

    /** Get: the contents of Root/Clean(path), or NotExist when there is no such file. */
    method Get(path: string) returns (out: Result<Bytes>)
      ensures out == FileAt(fs.files, Root, path)
    {
      var c := Clean(path);
      var full := Join(Root, c);
      if full !in fs.files {
        return Err(NotExist(full));
      }
      return Ok(fs.files[full]);
    }
  }
}
