/** Shared declarations of the libfs crate: the
    filesystem error enumeration, directory entries and the two bit-flag
    types. Nothing here has behaviour of its own; the other modules use these
    names and constants. */
module Libfs {
  import opened MachineInts

  /** Size of the fixed path array of a directory entry (`DirectoryEntry::PATH_LEN`). */
  const PATH_LEN: nat := 0x301

  /** ASCII '/' and '.'. */
  const SLASH: byte := 0x2F
  const DOT: byte := 0x2E

  /** `FileModeFlags` bits. */
  const READABLE: bv32 := 0x1
  const WRITABLE: bv32 := 0x2
  const APPENDABLE: bv32 := 0x4

  /** `DirFilterFlags` bits; ALL is the union of the other two. */
  const DIRECTORY: bv32 := 0x1
  const FILE: bv32 := 0x2
  const ALL: bv32 := DIRECTORY | FILE

  /** `(flags & bit) == bit`, the test every bit-flag check of the layer uses. */
  predicate HasFlag(flags: bv32, bit: bv32) {
    flags & bit == bit
  }

  datatype FileSystemError =
    | NotFound
    | NoSpaceLeft
    | AccessDenied
    | WriteFailed
    | ReadFailed
    | NoPartitionFound
    | PartitionNotFound
    | NotAFile
    | NotADirectory
    | FileExists
    | PathTooLong
    | UnknownPartitionFormat(partitionType: u32)
    | InvalidPartition
    | Custom(name: string)

  /** `FileSystemResult<T>`. */
  datatype Result<T> = Ok(value: T) | Err(error: FileSystemError)

  datatype DirectoryEntryType = File | Directory

  /** A libfs directory entry; `path` is meant to hold `PATH_LEN` bytes. */
  datatype DirectoryEntry = DirectoryEntry(path: seq<byte>, entryType: DirectoryEntryType, fileSize: u64)
}
