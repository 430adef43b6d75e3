# kfs_libfs: the libfat compatibility layer and the block abstraction

This project models two parts of kfs_libfs.

`libfs_fat` adapts the libfat FAT driver to the libfs filesystem interface:
- `open_directory` checks the path length and picks a filter from the
  `DirFilterFlags`. It counts the entries that filter accepts and stores the
  directory path, with a trailing '/', in a NUL-padded array of `PATH_LEN`
  (0x301) bytes.
- `DirectoryReader::read` pages the filtered libfat iterator into a caller
  buffer. It converts each accepted entry with `convert_entry`, which joins
  the stored path and the entry's name into a fixed `PATH_LEN` array.
- `FileInterface` checks the mode the file was opened with before it passes
  a `read`, `write` or `set_len` on to libfat.
- `create_file` creates, opens and resizes a file.

`libfs::block` defines 512-byte blocks and 32-bit block indices and counts,
with their byte conversions. It also defines the `BlockDevice` trait, whose
default `read`/`write` add a partition start to the index before they call
the raw accessors.

Modules:
- `MachineInts` holds the fixed-width integers.
- `Libfs` holds the shared types: `FileSystemError`, `DirectoryEntry`, the
  flag bits and `PATH_LEN`.
- `LibfsBlock` models `block.rs`. `BlockDevice` is a class whose medium is a
  sequence of blocks.
- `Libfat` holds what the layer sees of libfat: a directory entry (name,
  directory attribute, size) and the items of a directory iterator.
- `FatFilter` holds the three filter predicates and the filter selection. It
  also holds the specification of paging: `Listed` is what a filtered
  iterator still has to give, and `Page` is what one `read` takes.
- `FatPath` holds the stored base path and `convert_entry`.
- `FatDirectory` holds `open_directory` and `DirectoryReader`, a class whose
  iterator position advances as `read` consumes items.
- `FatFile` holds `open_file`, `create_file` and the `FileInterface`
  operations.

libfat itself is not modelled. A directory's contents are the sequence of
items its iterator yields: entries and read errors. Every libfat call the
layer makes is modelled by its outcome, given as a parameter. For file
operations the model also states which request is passed on, if any.

## Model

| member | source | states |
|---|---|---|
| LibfsBlock.Default | libfs/src/block.rs:50-56 | the default block is 512 zero bytes |
| LibfsBlock.New | libfs/src/block.rs:40-42 | a new block is 512 zero bytes |
| LibfsBlock.AsContents | libfs/src/block.rs:45-47 | the contents copy is exactly `LEN` bytes |
| LibfsBlock.AsContentsRoundTrip | libfs/src/block.rs:45-47 | wrapping the copied contents again gives back the same block |
| LibfsBlock.AsContentsInjective | libfs/src/block.rs:45-47 | two blocks are equal exactly when their contents copies are |
| LibfsBlock.IntoOffset | libfs/src/block.rs:73-75 | the offset is a multiple of 512 whose quotient is the index; it always fits in u64 |
| LibfsBlock.IntoSize | libfs/src/block.rs:80-82 | the size is a multiple of 512 whose quotient is the count; it always fits in u64 |
| LibfsBlock.IntoOffsetSeparates | libfs/src/block.rs:73-75 | a larger index has a larger offset, and the byte ranges of two different blocks do not overlap |
| LibfsBlock.IntoSizeBoundsOffsets | libfs/src/block.rs:73-82 | every block below the count ends within the device's byte size |
| LibfsBlock.AbsoluteIndex | libfs/src/block.rs:101 | the partition start plus the index as a u32 sum: exact when it fits, otherwise wrapped to an index below the partition start |
| LibfsBlock.BlockDevice.RawRead | libfs/src/block.rs:88-89 | when it succeeds, the range lies on the device and the buffer holds those blocks; a range off the device fails; a failure is ReadError and leaves the buffer unchanged |
| LibfsBlock.BlockDevice.RawWrite | libfs/src/block.rs:91-92 | when it succeeds, the range lies on the device, exactly that range holds the buffer and every other block is unchanged; a range off the device fails; a failure is WriteError and changes nothing |
| LibfsBlock.BlockDevice.Count | libfs/src/block.rs:114-115 | when it succeeds, the count is the number of blocks on the medium |
| LibfsBlock.BlockDevice.Read | libfs/src/block.rs:94-102 | a raw read at the absolute index: when it succeeds, the buffer holds the blocks from there; a failure is ReadError and leaves the buffer unchanged |
| LibfsBlock.BlockDevice.Write | libfs/src/block.rs:104-112 | a raw write at the absolute index: when it succeeds, exactly the blocks from there hold the buffer; a failure is WriteError and changes nothing |
| LibfsBlock.WriteThenRead | libfs/src/block.rs:94-112 | when a write and a read of the same range both succeed, the read returns what was written |
| FatFilter.AcceptAll | libfs_fat/src/lib.rs:59-70 | `DirectoryFilterPredicate::all`: an entry whose name is neither "." nor ".."; never an error (its laws are `FatFilter.FilterLaws`) |
| FatFilter.AcceptDirs | libfs_fat/src/lib.rs:73-83 | `DirectoryFilterPredicate::dirs`: a directory entry that `all` accepts; never an error |
| FatFilter.AcceptFiles | libfs_fat/src/lib.rs:86-96 | `DirectoryFilterPredicate::files`: a non-directory entry that `all` accepts; never an error |
| FatFilter.Accepts | libfs_fat/src/lib.rs:256 | the call of the selected `filter_fn` on an iterator item |
| FatFilter.FilterLaws | libfs_fat/src/lib.rs:57-96 | no filter accepts an iterator error; `all` accepts exactly the names other than "." and ".."; `dirs` and `files` are disjoint, together make up `all`, and split entries by the directory attribute |
| FatFilter.SelectFilter | libfs_fat/src/lib.rs:182-189 | `all` exactly when both bits are set, `dirs` exactly when only DIRECTORY is set, `files` exactly when DIRECTORY is clear |
| FatFilter.SelectFilterDefaults | libfs_fat/src/lib.rs:182-189 | FILE and the empty flag set both select `files`; DIRECTORY selects `dirs`; ALL selects `all` |
| FatFilter.Listed | libfs_fat/src/lib.rs:195 | the accepted entries from a position on, in iterator order; never more than the items left |
| FatFilter.ListedPartition | libfs_fat/src/lib.rs:57-96 | a directory's subdirectories plus its files are as many as the entries `all` accepts |
| FatFilter.NextAccepted | libfs_fat/src/lib.rs:245-259 | where the inner loop stops: an accepted item at or after the start, or the end of the iterator |
| FatFilter.NextAcceptedSkips | libfs_fat/src/lib.rs:245-259 | every item the inner loop passes over is rejected by the filter |
| FatFilter.ListedFrom | libfs_fat/src/lib.rs:245-259 | the filtered rest is empty when the inner loop runs out, and otherwise starts with the item where it stops |
| FatFilter.Page | libfs_fat/src/lib.rs:242-266 | one read: it fills at most the buffer length and only moves the iterator forward, and strictly forward when it delivers anything |
| FatFilter.StepAfterShort | libfs_fat/src/lib.rs:248-251 | once a read has stopped early, a further slot changes nothing |
| FatFilter.StepExhausted | libfs_fat/src/lib.rs:248-251 | a slot that finds the iterator exhausted ends the read with the filtered rest fully taken |
| FatFilter.StepFound | libfs_fat/src/lib.rs:253-261 | a slot that finds an accepted item takes the next entry of the filtered rest |
| FatFilter.PageSpec | libfs_fat/src/lib.rs:242-266 | a read of n slots returns min(n, entries left) and takes the first entries of the filtered rest; the iterator is left just after them and is exhausted when the read is short |
| FatFilter.ReadSlotFilled | libfs_fat/src/lib.rs:253-261 | the slot filled after i others holds the i-th entry of the filtered rest |
| FatFilter.PageStays | libfs_fat/src/lib.rs:249-251 | a read that stopped short delivers the same with any larger buffer |
| FatFilter.ReadCutShort | libfs_fat/src/lib.rs:249-251 | the iterator running out at slot i ends any larger read with i entries and the iterator exhausted |
| FatFilter.Drain | libfs_fat/src/lib.rs:242-266 | the counts of successive reads end with the first 0 |
| FatFilter.DrainSum | libfs_fat/src/lib.rs:32-33 | reading until a read returns 0 delivers as many entries as `entry_count` counts |
| FatPath.EndsWithSlash | libfs_fat/src/lib.rs:208 | the test that the path's last character is '/' |
| FatPath.WithSlash | libfs_fat/src/lib.rs:207-212 | the path as stored before its padding: a '/' is appended unless the path already ends with one |
| FatPath.ExceedsPathLen | libfs_fat/src/lib.rs:178 | the length check as written: the path has at least `PATH_LEN` bytes |
| FatPath.FirstZero | libfs_fat/src/lib.rs:337-345 | the position where the prefix loop of `convert_entry` stops holds a zero |
| FatPath.FirstZeroIsFirst | libfs_fat/src/lib.rs:337-345 | no byte before that position is zero |
| FatPath.CStr | libfs_fat/src/lib.rs:337-345 | the bytes before the first zero: no zero inside, and a prefix of the array followed by a zero |
| FatPath.CStrOf | libfs_fat/src/lib.rs:337-345 | a zero-free string followed by a zero reads back as that string |
| FatPath.BasePath | libfs_fat/src/lib.rs:197-212 | the stored path is exactly `PATH_LEN` bytes |
| FatPath.BuildBasePath | libfs_fat/src/lib.rs:197-212 | the fill loop and the '/' patch on the zeroed array produce the path bytes, a '/' unless already present, then zeros |
| FatPath.BasePathEmpty | libfs_fat/src/lib.rs:207-212 | the empty path is stored as "/" |
| FatPath.PathFitsTerminates | libfs_fat/src/lib.rs:178-180 | the corrected check implies the written one and leaves a zero in the stored path; the two checks differ exactly on `PATH_LEN - 1` byte paths without a trailing '/' |
| FatPath.UnterminatedBasePath | libfs_fat/src/lib.rs:178-180 | a 0x300-byte path without a trailing '/' passes the written check, and its stored path has no zero byte |
| FatPath.BasePathReadsBack | libfs_fat/src/lib.rs:197-212 | a fitting path without NULs is stored as the path with its trailing '/' |
| FatPath.ConvertedPath | libfs_fat/src/lib.rs:335-355 | the converted path is exactly `PATH_LEN` bytes |
| FatPath.Converted | libfs_fat/src/lib.rs:321-362 | the entry type is Directory exactly for directories, and the size is the libfat size widened |
| FatPath.ConvertedPathAt | libfs_fat/src/lib.rs:335-355 | byte by byte: base bytes before the base's first zero, then name bytes as far as room allows, then zeros |
| FatPath.ConvertEntry | libfs_fat/src/lib.rs:321-362 | the two copy loops on the zeroed array produce exactly the converted entry |
| FatPath.ConvertedPathReadsBack | libfs_fat/src/lib.rs:347-355 | a name that fits reads back as the directory string followed by the name |
| FatPath.ConvertedPathTruncated | libfs_fat/src/lib.rs:352 | a name that does not fit is cut at the end of the array, which then holds no zero byte |
| FatPath.EntryPathJoins | libfs_fat/src/lib.rs:261 | an entry read from a directory opened with a fitting path reads back as the directory path, '/', and the name |
| FatDirectory.GetDirFromPath | libfs_fat/src/lib.rs:104-113 | "/" is the root directory itself, and any other path is opened from the root |
| FatDirectory.DirectoryReader.constructor | libfs_fat/src/lib.rs:214-219 | a reader holds the base path, the iterator at its start, the filter and the count |
| FatDirectory.DirectoryReader.NextEntry | libfs_fat/src/lib.rs:245-261 | finds an entry exactly when an accepted item remains; it consumes up to and including that item and returns its converted entry, and otherwise exhausts the iterator |
| FatDirectory.DirectoryReader.FillSlot | libfs_fat/src/lib.rs:243-261 | as `NextEntry`, with the converted entry stored in the one slot and every other slot unchanged |
| FatDirectory.DirectoryReader.Read | libfs_fat/src/lib.rs:242-266 | always Ok; the count and the new iterator position are those of `Page`; the first slots hold the next accepted entries, converted, and later slots are untouched |
| FatDirectory.DirectoryReader.EntryCount | libfs_fat/src/lib.rs:268-270 | returns the count taken at open time |
| FatDirectory.OpenDirectory | libfs_fat/src/lib.rs:172-222 | NotFound for a path that does not fit; otherwise the first failing lookup's error; otherwise a fresh reader at the start of the second lookup's items, with the stored base path, the selected filter and the number of entries that filter accepts in the first lookup |
| FatFile.ReadGate | libfs_fat/src/lib.rs:277-283 | a read request is passed on exactly when READABLE is set, with the caller's offset and length |
| FatFile.WriteGate | libfs_fat/src/lib.rs:285-296 | a write request is passed on exactly when WRITABLE is set, with the caller's offset and data; it appends exactly when APPENDABLE is set |
| FatFile.SetLenGate | libfs_fat/src/lib.rs:303-309 | a resize is passed on exactly when APPENDABLE is set, to the requested size |
| FatFile.Complete | libfs_fat/src/lib.rs:278-282 | a refused request fails with AccessDenied, and a request passed on returns libfat's answer |
| FatFile.Read | libfs_fat/src/lib.rs:277-283 | AccessDenied without READABLE, otherwise libfat's read result |
| FatFile.Write | libfs_fat/src/lib.rs:285-296 | AccessDenied without WRITABLE, otherwise libfat's write result |
| FatFile.SetLen | libfs_fat/src/lib.rs:303-309 | AccessDenied without APPENDABLE, otherwise libfat's resize result |
| FatFile.Flush | libfs_fat/src/lib.rs:298-301 | always succeeds |
| FatFile.GetLen | libfs_fat/src/lib.rs:311-313 | the libfat 32-bit size, widened |
| FatFile.GatesIndependent | libfs_fat/src/lib.rs:277-309 | read, write and resize are each gated by their own bit (1, 2, 4); other bits do not affect read |
| FatFile.OpenFile | libfs_fat/src/lib.rs:154-170 | a failed lookup's error is returned; a found entry is opened with the requested mode |
| FatFile.CreateFile | libfs_fat/src/lib.rs:127-132 | a failed create or lookup returns its error, in that order; otherwise the result is libfat's resize result |
| FatFile.CreateFileMode | libfs_fat/src/lib.rs:130-131 | the file `create_file` opens can be resized, to the requested size, but neither read nor written |

## Left out

- libfat itself is not part of this model. Lookups, the directory iterator, `touch`, and file read, write and resize are outcomes given as parameters. The change libfat makes to a file's entry on write or resize is not modelled, so `get_len` after a resize is not related to the new size.
- `create_directory` passes its path straight to libfat's `mkdir`. `rename_file`, `rename_directory`, `delete_file` and `delete_directory` pass their paths to libfat's `rename` or `unlink`, adding a constant flag that says whether the target is a directory. None of them holds logic of the layer's own, so they are not modelled.
- `get_file_timestamp_raw` copies libfat timestamps, and `get_raw_partition` opens libfat. Both are left out for the same reason.
- The `Deref`/`DerefMut` impls of `Block` are not modelled. They only expose the byte array, which the model shows as `contents`.
- `raw_read`, `raw_write` and `count` have no body in the trait. `LibfsBlock.BlockDevice` gives them one over an in-memory sequence of blocks that rejects out-of-range requests.
- LibfsBlock.BlockDevice.RawRead, LibfsBlock.BlockDevice.RawWrite, LibfsBlock.BlockDevice.Read and LibfsBlock.BlockDevice.Write: the contracts allow a request inside the device to fail, but they are those of the in-memory medium, and they promise more than the trait's documentation does. They fix the failure kind to `ReadError` or `WriteError`, never `Unknown`, and a failed call changes nothing. A real medium need not behave like this: the trait documents only the effect of a successful call, and its default `read`/`write` pass on whatever the raw accessor returns, including a partial transfer. Neither case is modelled. The in-memory body also never fails in range.
- LibfsBlock.BlockDevice.Read and LibfsBlock.BlockDevice.Write: both compute the index with `LibfsBlock.AbsoluteIndex`, which models the `u32` addition of partition start and index as wrapping, the release-build behaviour. A debug build panics on overflow instead.
- Names and paths are byte sequences. The `&str` comparisons with ".", ".." and "/" are byte comparisons, and the test on the path's last char is a test on its last byte. The two agree for UTF-8.
- FatDirectory.DirectoryReader.Read: the `u64` count is an unbounded natural number.
- FatDirectory.DirectoryReader.EntryCount: `entry_count` is an unbounded natural number rather than a `u64`.
- FatDirectory.OpenDirectory: the outcomes of the two lookups of `get_dir_from_path` are two parameters. `FatDirectory.GetDirFromPath` stands alone: it models which libfat call a path selects, and nothing ties that call to the parameters.
- FatDirectory.OpenDirectory uses the corrected length check `FatPath.PathFits` (see Findings). The as-written check is `FatPath.ExceedsPathLen`.
- DirectoryReader.NextEntry and DirectoryReader.FillSlot are the body of `read`'s loop, split into methods of their own. The loop structure and the early return are kept.
- FatFilter.DrainSum: it relates `entry_count` to successive reads that all use the same buffer size.
- The iterator error propagated by `raw_dir_entry?` cannot occur, because no filter accepts an error (`FatFilter.FilterLaws`). The model therefore never returns it.
- `libfs/src/storage.rs`, the caching block device and the test binaries are not part of this model.
- The code's `BlockIndex` and `BlockCount` are `u32` (libfs/src/block.rs:26,30).

## Findings

| source | as written | input that shows it | evidently intended | confidence | as-written member | corrected member |
|---|---|---|---|---|---|---|
| libfs_fat/src/lib.rs:178 | `open_directory` refuses only paths of at least `PATH_LEN` (0x301) bytes, then appends a '/' when the last char is not one | a NUL-free path of 0x300 bytes without a trailing '/': it passes, the '/' fills the last byte, and the stored path has no NUL, so the prefix loop of `convert_entry` indexes past the array on the first `read` that reaches an accepted entry | refuse a path whose length with its trailing '/' is not below `PATH_LEN`, so the stored path always ends in a NUL | not executed; high | FatPath.UnterminatedBasePath | FatPath.PathFitsTerminates |
