/**
 * The on-disk tier (DiskBitmapCache.java): one file per key in the application's cache
 * directory, named by the key's form-urlencoded escape. The PNG compression on `save` and the
 * decoding on `get` are taken to be inverse, so a file holds the saved bitmap itself.
 */
module DiskCache {
  import opened Optional
  import opened Images
  import FormUrlEncoding

  /** `encodeKey`: the name of the file a key is stored in. It never holds a path separator. */
  function EncodeKey(key: string): (name: string)
    ensures '/' !in name && '\\' !in name
  {
    FormUrlEncoding.NoPathSeparator(key);
    FormUrlEncoding.Encode(key)
  }

  /** The longest file name the file system accepts, in bytes (ext4 and f2fs); an escaped key is ASCII, one byte per character. */
  const NAME_MAX: nat := 255

  /**
   * A name under which a file can be created inside the directory: not empty, `.` or `..`, which
   * `java.io.File` resolves to the directory or its parent, and not longer than the file system allows.
   */
  predicate IsFileName(name: string) {
    name != "" && name != "." && name != ".." && |name| <= NAME_MAX
  }

  /** The cache directory: whether it exists, and the content of each file in it, by name. */
  datatype CacheDir = CacheDir(present: bool, files: map<string, Bitmap>)

  /** A missing directory holds no files, and every file has a proper name. */
  predicate WellFormed(dir: CacheDir) {
    && (!dir.present ==> dir.files == map[])
    && (forall name :: name in dir.files ==> IsFileName(name))
  }

  /** What `get(key)` returns: the content of the file named exactly `EncodeKey(key)`, or null when there is none or no directory. */
  function Find(dir: CacheDir, key: string): (r: Option<Bitmap>)
    ensures r.Some? ==> dir.present && r.value in dir.files.Values
  {
    var name := EncodeKey(key);
    if dir.present && name in dir.files then Some(dir.files[name]) else None
  }

  /**
   * What `save(key, bitmap)` leaves: the file written or overwritten. Opening the file fails,
   * and the exception is swallowed, when the directory is missing or the name is not a file name;
   * then nothing changes. No file but the key's own is ever added.
   */
  function Stored(dir: CacheDir, key: string, bitmap: Bitmap): (r: CacheDir)
    ensures r.present == dir.present
    ensures r.files.Keys <= dir.files.Keys + {EncodeKey(key)}
    ensures forall name :: name in dir.files && name != EncodeKey(key) ==> name in r.files && r.files[name] == dir.files[name]
  {
    var name := EncodeKey(key);
    if dir.present && IsFileName(name) then CacheDir(true, dir.files[name := bitmap]) else dir
  }

  /** What `clear()` leaves: every file deleted, then the directory itself. */
  function Emptied(dir: CacheDir): (r: CacheDir)
    ensures WellFormed(r) && forall key :: Find(r, key) == None
  {
    CacheDir(false, map[])
  }

  // ---- Properties of the tier ----

  /** The escaped name is a file name exactly when the key is not empty, `.` or `..` and its escape is short enough. */
  lemma KeyFileName(key: string)
    ensures IsFileName(EncodeKey(key)) <==> key != "" && key != "." && key != ".." && |EncodeKey(key)| <= NAME_MAX
  {
    assert FormUrlEncoding.Encode("") == "";
    assert FormUrlEncoding.Encode(".") == "." by {
      assert FormUrlEncoding.EncodeChar('.') == ".";
      assert ".."[1..] == ".";
    }
    assert FormUrlEncoding.Encode("..") == ".." by {
      assert FormUrlEncoding.EncodeChar('.') == ".";
      assert ".."[1..] == ".";
      assert "."[1..] == "";
    }
    if EncodeKey(key) == "" {
      FormUrlEncoding.EncodeInjective(key, "");
    } else if EncodeKey(key) == "." {
      FormUrlEncoding.EncodeInjective(key, ".");
    } else if EncodeKey(key) == ".." {
      FormUrlEncoding.EncodeInjective(key, "..");
    }
  }

  /** Distinct keys are stored in distinct files. */
  lemma DistinctKeysDistinctFiles(k1: string, k2: string)
    requires k1 != k2
    ensures EncodeKey(k1) != EncodeKey(k2)
  {
    if EncodeKey(k1) == EncodeKey(k2) {
      FormUrlEncoding.EncodeInjective(k1, k2);
    }
  }

  /** `get` after `save` returns the saved bitmap, when the directory exists and the key names a file. */
  lemma FindAfterStore(dir: CacheDir, key: string, bitmap: Bitmap)
    requires dir.present && key != "" && key != "." && key != ".." && |EncodeKey(key)| <= NAME_MAX
    ensures Find(Stored(dir, key, bitmap), key) == Some(bitmap)
  {
    KeyFileName(key);
  }

  /** A key of at most 21 characters always has an escape short enough to be a file name. */
  lemma ShortKeyFits(key: string)
    requires |key| <= 21
    ensures |EncodeKey(key)| <= NAME_MAX
  {
  }

  /**
   * A key whose escape is longer than the file system allows is never stored: opening the file
   * fails, and `save` catches the exception. Such a key always misses the disk cache.
   */
  lemma LongKeyIsLost(dir: CacheDir, key: string, bitmap: Bitmap)
    requires |EncodeKey(key)| > NAME_MAX
    ensures Stored(dir, key, bitmap) == dir
    ensures WellFormed(dir) ==> Find(dir, key) == None
  {
  }

  /** Saving a key twice leaves only the later bitmap: the file is overwritten. */
  lemma StoreTwice(dir: CacheDir, key: string, first: Bitmap, second: Bitmap)
    ensures Stored(Stored(dir, key, first), key, second) == Stored(dir, key, second)
  {
    var name := EncodeKey(key);
    if dir.present && IsFileName(name) {
      assert dir.files[name := first][name := second] == dir.files[name := second];
    }
  }

  /** Saving one key does not change what `get` returns for another. */
  lemma StoreKeepsOtherKeys(dir: CacheDir, key: string, other: string, bitmap: Bitmap)
    requires key != other
    ensures Find(Stored(dir, key, bitmap), other) == Find(dir, other)
  {
    DistinctKeysDistinctFiles(key, other);
  }

  /** After `clear`, `get` returns null for every key. */
  lemma FindAfterEmptied(dir: CacheDir, key: string)
    ensures Find(Emptied(dir), key) == None
  {
  }

  /** After `clear` the directory is gone, so a later `save` stores nothing. */
  lemma StoreAfterEmptiedIsLost(dir: CacheDir, key: string, bitmap: Bitmap)
    ensures Stored(Emptied(dir), key, bitmap) == Emptied(dir)
  {
  }

  /** `save` and `clear` keep the directory well formed. */
  lemma StoreKeepsWellFormed(dir: CacheDir, key: string, bitmap: Bitmap)
    requires WellFormed(dir)
    ensures WellFormed(Stored(dir, key, bitmap)) && WellFormed(Emptied(dir))
  {
  }

  class DiskBitmapCache {
    /** Whether `mCacheDirectory` exists. */
    var present: bool
    /** The files in `mCacheDirectory`, by name. */
    var files: map<string, Bitmap>

    /** The directory as a value. */
    function Dir(): CacheDir
      reads this
    {
      CacheDir(present, files)
    }

    ghost predicate Valid()
      reads this
    {
      WellFormed(Dir())
    }

    /** `DiskBitmapCache(context)`: the application's cache directory, which exists and still holds the files of earlier runs. */
    constructor (existing: map<string, Bitmap>)
      requires forall name :: name in existing ==> IsFileName(name)
      ensures Valid() && Dir() == CacheDir(true, existing)
    {
      present := true;
      files := existing;
    }

    /** `get(key)`: lists the files whose name equals the escaped key and reads the first of them. */
    method Get(key: string) returns (r: Option<Bitmap>)
      requires Valid()
      ensures r == Find(Dir(), key)
      ensures r.Some? <==> present && EncodeKey(key) in files
    {
      var cacheFileName := EncodeKey(key);
      if !present {
        // listFiles() returns null for a missing directory.
        return None;
      }
      var unlisted := files.Keys;
      var found: seq<string> := [];
      while unlisted != {}
        invariant unlisted <= files.Keys
        invariant found == if cacheFileName in files.Keys - unlisted then [cacheFileName] else []
        decreases unlisted
      {
        var name :| name in unlisted;
        if name == cacheFileName {
          found := found + [name];
        }
        unlisted := unlisted - {name};
      }
      if |found| < 1 {
        return None;
      }
      r := Some(files[found[0]]);
    }

    /** `containsKey(key)`: whether `get(key)` is non-null. */
    method ContainsKey(key: string) returns (b: bool)
      requires Valid()
      ensures b <==> Find(Dir(), key).Some?
    {
      var existing := Get(key);
      b := existing.Some?;
    }

    /** `save(key, bitmap)`: writes the file named by the escaped key; an I/O failure is caught and only printed. */
    method Save(key: string, bitmap: Bitmap)
      requires Valid()
      modifies this
      ensures Valid() && Dir() == Stored(old(Dir()), key, bitmap)
    {
      var cacheFileName := EncodeKey(key);
      // Opening the output stream throws FileNotFoundException when the directory is missing,
      // the name denotes the directory or its parent, or the name is too long.
      if present && IsFileName(cacheFileName) {
        files := files[cacheFileName := bitmap];
      }
    }

    /** `clear()`: deletes every listed file, then the directory. */
    method Clear()
      requires Valid()
      modifies this
      ensures Valid() && Dir() == Emptied(old(Dir()))
    {
      if present {
        var listed := files.Keys;
        while listed != {}
          invariant files.Keys == listed
          decreases listed
        {
          var name :| name in listed;
          files := files - {name};
          listed := listed - {name};
        }
        assert files == map[];
      }
      present := false;
    }
  }
}
