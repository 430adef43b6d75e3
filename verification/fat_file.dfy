/** Files in the libfat compatibility layer: `open_file`, `create_file` and
    the `FileInterface` operations, which check the mode the file was opened
    with before handing a request to libfat. What libfat does with a
    request is not modelled: its outcome is a parameter. */
module FatFile {
  import opened MachineInts
  import opened Libfs
  import opened Libfat

  /** A request the layer hands to libfat's file entry. */
  datatype FatCall =
    | FatRead(offset: u64, len: nat)
    | FatWrite(offset: u64, data: seq<byte>, append: bool)
    | FatSetLen(size: u64)

  /** What a mode check decides: refuse, or pass one request on to libfat. */
  datatype Gate = Denied | Forward(call: FatCall)

  /** An open file: the libfat entry and the `FileModeFlags` it was opened with. */
  datatype FileInterface = FileInterface(fileInfo: FatEntry, mode: bv32)

  /** The mode `create_file` opens the new file with. */
  const CREATE_FILE_MODE: bv32 := APPENDABLE

  /** The request `read` makes: a read at `offset` of `len` bytes when the
      file is readable, none otherwise. */
  function ReadGate(file: FileInterface, offset: u64, len: nat): (g: Gate)
    ensures g.Forward? <==> HasFlag(file.mode, READABLE)
    ensures g.Forward? ==> g.call == FatRead(offset, len)
  {
    if !HasFlag(file.mode, READABLE) then Denied else Forward(FatRead(offset, len))
  }

  /** The request `write` makes: when the file is writable, a write whose
      append flag is exactly the file's APPENDABLE bit. */
  function WriteGate(file: FileInterface, offset: u64, data: seq<byte>): (g: Gate)
    ensures g.Forward? <==> HasFlag(file.mode, WRITABLE)
    ensures g.Forward? ==> g.call.FatWrite? && g.call.offset == offset && g.call.data == data
    ensures g.Forward? ==> (g.call.append <==> HasFlag(file.mode, APPENDABLE))
  {
    if !HasFlag(file.mode, WRITABLE) then Denied
    else Forward(FatWrite(offset, data, HasFlag(file.mode, APPENDABLE)))
  }

  /** The request `set_len` makes: a resize when the file is appendable. */
  function SetLenGate(file: FileInterface, size: u64): (g: Gate)
    ensures g.Forward? <==> HasFlag(file.mode, APPENDABLE)
    ensures g.Forward? ==> g.call == FatSetLen(size)
  {
    if !HasFlag(file.mode, APPENDABLE) then Denied else Forward(FatSetLen(size))
  }

  /** The result of an operation: `AccessDenied` when refused, otherwise
      whatever libfat answered. */
  function Complete<T>(g: Gate, fatResult: Result<T>): (r: Result<T>)
    ensures g.Denied? ==> r == Err(AccessDenied)
    ensures g.Forward? ==> r == fatResult
  {
    if g.Denied? then Err(AccessDenied) else fatResult
  }

  /** `FileOperations::read`; `fatRead` is libfat's answer to the request. */
  function Read(file: FileInterface, offset: u64, len: nat, fatRead: Result<u64>): (r: Result<u64>)
    ensures !HasFlag(file.mode, READABLE) ==> r == Err(AccessDenied)
    ensures HasFlag(file.mode, READABLE) ==> r == fatRead
  {
    Complete(ReadGate(file, offset, len), fatRead)
  }

  /** `FileOperations::write`. */
  function Write(file: FileInterface, offset: u64, data: seq<byte>, fatWrite: Result<()>): (r: Result<()>)
    ensures !HasFlag(file.mode, WRITABLE) ==> r == Err(AccessDenied)
    ensures HasFlag(file.mode, WRITABLE) ==> r == fatWrite
  {
    Complete(WriteGate(file, offset, data), fatWrite)
  }

  /** `FileOperations::set_len`. */
  function SetLen(file: FileInterface, size: u64, fatSetLen: Result<()>): (r: Result<()>)
    ensures !HasFlag(file.mode, APPENDABLE) ==> r == Err(AccessDenied)
    ensures HasFlag(file.mode, APPENDABLE) ==> r == fatSetLen
  {
    Complete(SetLenGate(file, size), fatSetLen)
  }

  /** `FileOperations::flush` does nothing and always succeeds. */
  function Flush(file: FileInterface): (r: Result<()>)
    ensures r == Ok(())
  {
    Ok(())
  }

  /** `FileOperations::get_len`: the libfat size, widened to 64 bits. */
  function GetLen(file: FileInterface): (r: Result<u64>)
    ensures r.Ok? && r.value == file.fileInfo.fileSize
    ensures r.value < 0x1_0000_0000
  {
    Ok(file.fileInfo.fileSize as u64)
  }

  /** Each mode bit gates its own operation and nothing else: the checks of
      `read`, `write` and `set_len` look at disjoint bits. */
  lemma GatesIndependent(file: FileInterface, offset: u64, len: nat, data: seq<byte>, size: u64)
    ensures ReadGate(file, offset, len).Forward? <==> file.mode & 1 == 1
    ensures WriteGate(file, offset, data).Forward? <==> file.mode & 2 == 2
    ensures SetLenGate(file, size).Forward? <==> file.mode & 4 == 4
    ensures ReadGate(FileInterface(file.fileInfo, file.mode | WRITABLE | APPENDABLE), offset, len) ==
            ReadGate(file, offset, len)
  {
  }

  /** `open_file`: `lookup` is libfat's lookup of the path from the root
      directory; a found entry is wrapped with the requested mode. */
  function OpenFile(lookup: Result<FatEntry>, mode: bv32): (r: Result<FileInterface>)
    ensures lookup.Err? ==> r == Err(lookup.error)
    ensures lookup.Ok? ==> r.Ok? && r.value.fileInfo == lookup.value && r.value.mode == mode
  {
    if lookup.Err? then Err(lookup.error) else Ok(FileInterface(lookup.value, mode))
  }

  /** `create_file`: `touch` is libfat's answer to creating the path,
      `lookup` its lookup of the new file and `fatSetLen` its answer to
      resizing it. The first failure is returned; once the file exists and is
      found, the result is libfat's resize result. */
  function CreateFile(size: u64, touch: Result<()>, lookup: Result<FatEntry>, fatSetLen: Result<()>): (r: Result<()>)
    ensures touch.Err? ==> r == Err(touch.error)
    ensures touch.Ok? && lookup.Err? ==> r == Err(lookup.error)
    ensures touch.Ok? && lookup.Ok? ==> r == fatSetLen
  {
    if touch.Err? then Err(touch.error)
    else
      var file := OpenFile(lookup, CREATE_FILE_MODE);
      if file.Err? then Err(file.error)
      else SetLen(file.value, size, fatSetLen)
  }

  /** The file `create_file` opens can be resized, and the resize it asks
      for is to the requested size; that file can be neither read nor
      written. */
  lemma CreateFileMode(entry: FatEntry, size: u64, offset: u64, len: nat, data: seq<byte>)
    ensures SetLenGate(FileInterface(entry, CREATE_FILE_MODE), size) == Forward(FatSetLen(size))
    ensures ReadGate(FileInterface(entry, CREATE_FILE_MODE), offset, len) == Denied
    ensures WriteGate(FileInterface(entry, CREATE_FILE_MODE), offset, data) == Denied
  {
  }
}
