/** Opening and reading a directory through the libfat compatibility layer:
    `open_directory`, which checks the path, picks the filter, counts the
    entries and stores the base path, and `DirectoryReader`, which pages the
    filtered libfat iterator into caller buffers. */
module FatDirectory {
  import opened MachineInts
  import opened Libfs
  import opened Libfat
  import opened FatFilter
  import opened FatPath

  /** Which libfat call `get_dir_from_path` makes. */
  datatype DirLookup = RootDirectory | OpenDir(path: seq<byte>)

  /** `get_dir_from_path`: "/" is the root directory itself; any other path
      is opened from the root. */
  function GetDirFromPath(path: seq<byte>): (l: DirLookup)
    ensures l.RootDirectory? <==> path == [SLASH]
    ensures l.OpenDir? ==> l.path == path
  {
    if path == [SLASH] then RootDirectory else OpenDir(path)
  }

  /** A directory reader. The libfat iterator is the sequence `items` it
      yields together with the position it has reached. */
  class DirectoryReader {
    const basePath: seq<byte>
    const items: seq<FatItem>
    const filter: Filter
    const entryCount: nat
    var position: nat

    ghost predicate Valid()
      reads this
    {
      |basePath| == PATH_LEN && 0 in basePath && position <= |items|
    }

    constructor (basePath: seq<byte>, items: seq<FatItem>, filter: Filter, entryCount: nat)
      requires |basePath| == PATH_LEN && 0 in basePath
      ensures Valid() && position == 0
      ensures this.basePath == basePath && this.items == items
      ensures this.filter == filter && this.entryCount == entryCount
    {
      this.basePath := basePath;
      this.items := items;
      this.filter := filter;
      this.entryCount := entryCount;
      position := 0;
    }

    /** One slot of `DirectoryOperations::read`: the inner loop pulls items
        from the libfat iterator until the filter accepts one or the
        iterator runs out; an accepted item is then converted. */
    method NextEntry() returns (found: bool, entry: DirectoryEntry)
      requires Valid()
      modifies this
      ensures Valid()
      ensures found <==> NextAccepted(filter, items, old(position)) < |items|
      ensures found ==> position == NextAccepted(filter, items, old(position)) + 1
      ensures found ==> entry == Converted(items[NextAccepted(filter, items, old(position))].entry, basePath)
      ensures !found ==> position == |items|
    {
      ghost var start := position;
      var rawDirEntry: FatItem;
      while true
        invariant Valid() && start <= position
        invariant NextAccepted(filter, items, position) == NextAccepted(filter, items, start)
        decreases |items| - position
      {
        if position == |items| {
          // Premature end: the iterator ran out.
          return false, DirectoryEntry([], File, 0);
        }
        rawDirEntry := items[position];
        position := position + 1;
        if Accepts(filter, rawDirEntry) {
          break;
        }
      }
      // `raw_dir_entry?`: an accepted item is never an iterator error.
      entry := ConvertEntry(rawDirEntry.entry, basePath);
      found := true;
    }

    /** One iteration of the loop of `DirectoryOperations::read`: fills
        slot `index` of `buf` with the next accepted entry, if there is one. */
    method FillSlot(buf: array<DirectoryEntry>, index: nat) returns (found: bool)
      requires Valid() && index < buf.Length
      modifies this, buf
      ensures Valid()
      ensures found <==> NextAccepted(filter, items, old(position)) < |items|
      ensures found ==> position == NextAccepted(filter, items, old(position)) + 1
      ensures found ==> buf[index] == Converted(items[NextAccepted(filter, items, old(position))].entry, basePath)
      ensures !found ==> position == |items|
      ensures forall j :: 0 <= j < buf.Length && (j != index || !found) ==> buf[j] == old(buf[j])
    {
      var entry;
      found, entry := NextEntry();
      if found {
        buf[index] := entry;
      }
    }

    /** `DirectoryOperations::read`: fills the front of `buf` with the next
        entries the filter accepts, converted against the base path, and
        returns how many; a short count means the iterator ran out. It never
        fails: no filter accepts an iterator error, so the error propagation
        on a taken entry is never used. */
    method Read(buf: array<DirectoryEntry>) returns (r: Result<nat>)
      requires Valid()
      modifies this, buf
      ensures Valid()
      ensures r.Ok?
      ensures Paged(r.value, position) == Page(filter, items, old(position), buf.Length)
      ensures r.value <= |Listed(filter, items, old(position))|
      ensures forall j :: 0 <= j < r.value ==>
        buf[j] == Converted(Listed(filter, items, old(position))[j], basePath)
      ensures forall j :: r.value <= j < buf.Length ==> buf[j] == old(buf[j])
    {
      ghost var p0 := position;
      ghost var listed := Listed(filter, items, p0);
      var index := 0;
      while index < buf.Length
        invariant Valid()
        invariant index <= buf.Length && index <= |listed|
        invariant Page(filter, items, p0, index) == Paged(index, position)
        invariant forall j :: 0 <= j < index ==> buf[j] == Converted(listed[j], basePath)
        invariant forall j :: index <= j < buf.Length ==> buf[j] == old(buf[j])
      {
        ghost var e := position;
        var found := FillSlot(buf, index);
        if !found {
          ReadCutShort(filter, items, p0, index, e, buf.Length);
          return Ok(index);
        }
        ReadSlotFilled(filter, items, p0, index, e);
        index := index + 1;
      }
      r := Ok(index);
    }

    /** `DirectoryOperations::entry_count`: the count taken when the
        directory was opened. */
    function EntryCount(): (r: Result<nat>)
      reads this
      ensures r.Ok? && r.value == entryCount
    {
      Ok(entryCount)
    }
  }

  /** `open_directory`. The outcomes of the two libfat lookups of the path
      (the directory's items as the libfat iterator yields them, or an error)
      are parameters: `first` is counted, `second` is the one the reader
      iterates. The length check is the corrected `PathFits`, which refuses
      the one length the written check lets through without room for a
      terminator. */
  method OpenDirectory(path: seq<byte>, flags: bv32, first: Result<seq<FatItem>>, second: Result<seq<FatItem>>)
    returns (r: Result<DirectoryReader>)
    ensures !PathFits(path) ==> r == Err(NotFound)
    ensures PathFits(path) && first.Err? ==> r == Err(first.error)
    ensures PathFits(path) && first.Ok? && second.Err? ==> r == Err(second.error)
    ensures PathFits(path) && first.Ok? && second.Ok? ==> r.Ok?
    ensures r.Ok? ==> fresh(r.value) && r.value.Valid() && r.value.position == 0
    ensures r.Ok? ==> r.value.basePath == BasePath(path) && r.value.filter == SelectFilter(flags)
    ensures r.Ok? ==> r.value.items == second.value
    ensures r.Ok? ==> r.value.entryCount == |Listed(SelectFilter(flags), first.value, 0)|
  {
    if !PathFits(path) {
      return Err(NotFound);
    }
    var filter := SelectFilter(flags);
    if first.Err? {
      return Err(first.error);
    }
    if second.Err? {
      return Err(second.error);
    }
    var entryCount := |Listed(filter, first.value, 0)|;
    PathFitsTerminates(path);
    var base := BuildBasePath(path);
    var reader := new DirectoryReader(base, second.value, filter, entryCount);
    r := Ok(reader);
  }
}
