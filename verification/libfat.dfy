/** What the compatibility layer sees of libfat: a directory entry, reduced
    to the fields the layer reads, and the items of a directory iterator. */
module Libfat {
  import opened MachineInts
  import opened Libfs

  /** A libfat directory entry: its name, whether its attribute marks a
      directory, and its 32-bit size. */
  datatype FatEntry = FatEntry(fileName: seq<byte>, isDirectory: bool, fileSize: u32)

  /** One item of libfat's directory iterator: an entry or a read error. */
  datatype FatItem = Entry(entry: FatEntry) | Failed(error: FileSystemError)
}
