/** Path handling in the libfat compatibility layer: the NUL-padded base
    path `open_directory` stores for a directory, and `convert_entry`, which
    joins that base path and an entry's name into a libfs directory entry. */
module FatPath {
  import opened MachineInts
  import opened Libfs
  import opened Libfat

  predicate EndsWithSlash(path: seq<byte>) {
    |path| > 0 && path[|path| - 1] == SLASH
  }

  /** The path with a '/' appended unless it already ends with one. */
  function WithSlash(path: seq<byte>): seq<byte> {
    if EndsWithSlash(path) then path else path + [SLASH]
  }

  /** Index of the first zero byte. */
  function FirstZero(s: seq<byte>): (k: nat)
    requires 0 in s
    ensures k < |s| && s[k] == 0
  {
    if s[0] == 0 then 0
    else
      assert s == [s[0]] + s[1..];
      1 + FirstZero(s[1..])
  }

  /** No byte before the one `FirstZero` finds is zero. */
  lemma {:induction false} FirstZeroIsFirst(s: seq<byte>)
    requires 0 in s
    ensures forall j :: 0 <= j < FirstZero(s) ==> s[j] != 0
  {
    if s[0] != 0 {
      assert s == [s[0]] + s[1..];
      FirstZeroIsFirst(s[1..]);
    }
  }

  /** The bytes before the first zero: the string a NUL-terminated buffer holds. */
  function CStr(s: seq<byte>): (c: seq<byte>)
    requires 0 in s
    ensures 0 !in c && |c| < |s| && c == s[..|c|] && s[|c|] == 0
  {
    FirstZeroIsFirst(s);
    s[..FirstZero(s)]
  }

  /** A buffer holding `c`, a zero byte and anything after reads back as `c`. */
  lemma CStrOf(c: seq<byte>, tail: seq<byte>)
    requires 0 !in c
    ensures 0 in c + [0] + tail && CStr(c + [0] + tail) == c
  {
    var s := c + [0] + tail;
    assert s[|c|] == 0;
    assert s[..|c|] == c;
  }

  /** The length check of `open_directory` as written: the path is refused
      only when it does not fit in the `PATH_LEN` array at all. */
  predicate ExceedsPathLen(path: seq<byte>) {
    |path| >= PATH_LEN
  }

  /** The base path `open_directory` builds for a path that passed the
      length check: the path's bytes, a '/' unless it already ends with one,
      then zeros up to `PATH_LEN`. */
  function BasePath(path: seq<byte>): (base: seq<byte>)
    requires !ExceedsPathLen(path)
    ensures |base| == PATH_LEN
  {
    if EndsWithSlash(path) then path + Zeros(PATH_LEN - |path|)
    else path + [SLASH] + Zeros(PATH_LEN - |path| - 1)
  }

  /** The fill loop and the '/' patch of `open_directory`, on its fixed array. */
  method BuildBasePath(path: seq<byte>) returns (base: seq<byte>)
    requires !ExceedsPathLen(path)
    ensures base == BasePath(path)
  {
    var data := new byte[PATH_LEN](_ => 0);
    for index := 0 to |path|
      invariant data[..index] == path[..index]
      invariant forall i :: index <= i < PATH_LEN ==> data[i] == 0
    {
      data[index] := path[index];
    }
    if !EndsWithSlash(path) {
      data[|path|] := SLASH;
    }
    base := data[..];
    assert base[..|path|] == path;
    forall i | 0 <= i < PATH_LEN
      ensures base[i] == BasePath(path)[i]
    {
      if i < |path| {
        assert base[i] == base[..|path|][i];
      }
    }
  }

  /** The empty path becomes the root, "/". */
  lemma BasePathEmpty()
    ensures 0 in BasePath([]) && CStr(BasePath([])) == [SLASH]
  {
    CStrOf([SLASH], Zeros(PATH_LEN - 2));
    assert BasePath([]) == [SLASH] + [0] + Zeros(PATH_LEN - 2);
  }

  /** The length check that leaves room for a terminator: the path, with
      its '/' added when missing, must be shorter than `PATH_LEN`. */
  predicate PathFits(path: seq<byte>) {
    |WithSlash(path)| < PATH_LEN
  }

  /** Whenever the corrected check passes, the as-written one passes and the
      base path holds a zero byte; the only paths the as-written check lets
      through and the corrected one refuses are the `PATH_LEN - 1` byte paths
      without a trailing '/'. */
  lemma PathFitsTerminates(path: seq<byte>)
    ensures PathFits(path) ==> !ExceedsPathLen(path) && 0 in BasePath(path)
    ensures !ExceedsPathLen(path) && !PathFits(path) <==> |path| == PATH_LEN - 1 && !EndsWithSlash(path)
  {
    if PathFits(path) {
      assert BasePath(path)[PATH_LEN - 1] == 0;
    }
  }

  /** A path of `PATH_LEN - 1` bytes not ending in '/' passes the as-written
      check, and its base path has no zero byte: `convert_entry` would then
      scan past the end of the array. */
  lemma UnterminatedBasePath()
    ensures var path := seq(PATH_LEN - 1, _ => 0x61);
      !ExceedsPathLen(path) && 0 !in BasePath(path)
  {
    var path: seq<byte> := seq(PATH_LEN - 1, _ => 0x61);
    var base := BasePath(path);
    assert base == path + [SLASH];
    assert forall i :: 0 <= i < PATH_LEN ==> base[i] != 0;
  }

  /** For a path without NUL bytes that fits, the stored base path reads
      back as the path with its trailing '/'. */
  lemma BasePathReadsBack(path: seq<byte>)
    requires PathFits(path) && 0 !in path
    ensures 0 in BasePath(path) && CStr(BasePath(path)) == WithSlash(path)
  {
    var w := WithSlash(path);
    CStrOf(w, Zeros(PATH_LEN - |w| - 1));
    assert BasePath(path) == w + [0] + Zeros(PATH_LEN - |w| - 1);
  }

  /** The path `convert_entry` stores: the base path up to its first zero,
      then as much of the name as fits, then zeros. */
  function ConvertedPath(base: seq<byte>, name: seq<byte>): (path: seq<byte>)
    requires |base| == PATH_LEN && 0 in base
    ensures |path| == PATH_LEN
  {
    var k := FirstZero(base);
    var n := Min(|name|, PATH_LEN - k);
    base[..k] + name[..n] + Zeros(PATH_LEN - k - n)
  }

  /** The libfs entry for a libfat entry. */
  function Converted(entry: FatEntry, base: seq<byte>): (e: DirectoryEntry)
    requires |base| == PATH_LEN && 0 in base
    ensures e.entryType == Directory <==> entry.isDirectory
    ensures e.fileSize == entry.fileSize
  {
    DirectoryEntry(ConvertedPath(base, entry.fileName),
                   if entry.isDirectory then Directory else File,
                   entry.fileSize)
  }

  /** Byte `i` of a converted path, where `k` is the length of the base
      string and `n` the length of the name part. */
  lemma ConvertedPathAt(base: seq<byte>, name: seq<byte>, k: nat, n: nat, i: nat)
    requires |base| == PATH_LEN && 0 in base && i < PATH_LEN
    requires k == FirstZero(base) && n == Min(|name|, PATH_LEN - k)
    ensures i < k ==> ConvertedPath(base, name)[i] == base[i]
    ensures k <= i < k + n ==> ConvertedPath(base, name)[i] == name[i - k]
    ensures k + n <= i ==> ConvertedPath(base, name)[i] == 0
  {
    var front, middle, rest := base[..k], name[..n], Zeros(PATH_LEN - k - n);
    assert ConvertedPath(base, name) == front + middle + rest;
    if i < k {
      assert (front + middle + rest)[i] == front[i];
    } else if i < k + n {
      assert (front + middle + rest)[i] == middle[i - k];
    } else {
      assert (front + middle + rest)[i] == rest[i - k - n];
    }
  }

  /** `convert_entry`: copies the base path up to its zero byte, then the
      file name truncated to the room left, into a zeroed fixed array. */
  method ConvertEntry(entry: FatEntry, base: seq<byte>) returns (e: DirectoryEntry)
    requires |base| == PATH_LEN && 0 in base
    ensures e == Converted(entry, base)
  {
    var path := new byte[PATH_LEN](_ => 0);
    var fileSize := entry.fileSize;
    var entryType := if entry.isDirectory then Directory else File;
    ghost var k := FirstZero(base);

    var baseIndex := 0;
    while true
      invariant baseIndex <= k
      invariant forall i :: 0 <= i < baseIndex ==> path[i] == base[i]
      invariant forall i :: baseIndex <= i < PATH_LEN ==> path[i] == 0
      decreases PATH_LEN - baseIndex
    {
      var c := base[baseIndex];
      if c == 0 {
        FirstZeroIsFirst(base);
        break;
      }
      path[baseIndex] := c;
      baseIndex := baseIndex + 1;
    }

    var name := entry.fileName;
    var n := Min(|name|, PATH_LEN - baseIndex);
    for index := 0 to n
      invariant forall i :: 0 <= i < baseIndex ==> path[i] == base[i]
      invariant forall i :: 0 <= i < index ==> path[baseIndex + i] == name[i]
      invariant forall i :: baseIndex + index <= i < PATH_LEN ==> path[i] == 0
    {
      path[baseIndex + index] := name[index];
    }

    forall i | 0 <= i < PATH_LEN
      ensures path[i] == ConvertedPath(base, name)[i]
    {
      ConvertedPathAt(base, name, baseIndex, n, i);
      if baseIndex <= i < baseIndex + n {
        assert path[baseIndex + (i - baseIndex)] == name[i - baseIndex];
      }
    }
    e := DirectoryEntry(path[..], entryType, fileSize);
  }

  /** An entry whose name fits reads back as the directory's string followed
      by the name. */
  lemma ConvertedPathReadsBack(base: seq<byte>, name: seq<byte>)
    requires |base| == PATH_LEN && 0 in base && 0 !in name
    requires |CStr(base)| + |name| < PATH_LEN
    ensures 0 in ConvertedPath(base, name)
    ensures CStr(ConvertedPath(base, name)) == CStr(base) + name
  {
    var c := CStr(base) + name;
    CStrOf(c, Zeros(PATH_LEN - |c| - 1));
    assert ConvertedPath(base, name) == c + [0] + Zeros(PATH_LEN - |c| - 1);
  }

  /** A name that does not fit is cut at the end of the array, which is then
      left without any zero byte. */
  lemma ConvertedPathTruncated(base: seq<byte>, name: seq<byte>)
    requires |base| == PATH_LEN && 0 in base && 0 !in name
    requires |CStr(base)| + |name| >= PATH_LEN
    ensures ConvertedPath(base, name) == CStr(base) + name[..PATH_LEN - |CStr(base)|]
    ensures 0 !in ConvertedPath(base, name)
  {
    var k := |CStr(base)|;
    var path := ConvertedPath(base, name);
    forall i | 0 <= i < PATH_LEN
      ensures path[i] != 0
    {
      if i < k {
        assert path[i] == CStr(base)[i];
      } else {
        assert path[i] == name[i - k];
      }
    }
  }

  /** From `open_directory` to `read`: the entry of a name in a directory
      opened with a fitting path is the directory path, a '/', and the name. */
  lemma EntryPathJoins(dir: seq<byte>, name: seq<byte>)
    requires PathFits(dir) && 0 !in dir && 0 !in name
    requires |WithSlash(dir)| + |name| < PATH_LEN
    ensures 0 in BasePath(dir) && 0 in ConvertedPath(BasePath(dir), name)
    ensures CStr(ConvertedPath(BasePath(dir), name)) == WithSlash(dir) + name
  {
    BasePathReadsBack(dir);
    ConvertedPathReadsBack(BasePath(dir), name);
  }
}
