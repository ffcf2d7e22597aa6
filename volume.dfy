/**
  The MyFs volume engine (fs/myfs.cpp): a flat table of file entries kept in
  memory, mirrored onto the block device after every change, and an
  append-only data region whose extents come from the bump allocator.

  Each `std::runtime_error` the engine throws is an error result here, and
  every operation that fails leaves the table, the count and the device as
  they were. `find_file` returns a pointer into the table; here it returns
  the entry's index.
 */
module Volume {
  import opened CBytes
  import opened BlockDev
  import opened Layout
  import opened Alloc

  datatype FsError = AlreadyExists | NotFound | IsDirectory | Unsupported

  /** The outcome of an operation that returns nothing on success. */
  datatype Outcome = Done | Failed(error: FsError)

  datatype Result<T> = Success(value: T) | Failure(error: FsError)

  const ROOT: Bytes := Ascii("/")

  /** The index of the first entry whose name is key. */
  function FirstNamed(es: seq<FileEntry>, key: Bytes): (r: Option<nat>)
    ensures r.Some? ==> r.value < |es| && es[r.value].name == key
    ensures r.Some? ==> forall j :: 0 <= j < r.value ==> es[j].name != key
    ensures r.None? ==> forall j :: 0 <= j < |es| ==> es[j].name != key
  {
    if es == [] then None
    else if es[0].name == key then Some(0)
    else match FirstNamed(es[1..], key)
      case None => None
      case Some(i) => Some(i + 1)
  }

  /** `find_file`: `strcmp(entry.name, path.c_str())`, so only the C string of path takes part. */
  function Lookup(es: seq<FileEntry>, path: Bytes): Option<nat> {
    FirstNamed(es, CStr(path))
  }

  /** The name `strncpy(name, path.c_str(), 19)` plus the forced terminator leaves in the entry. */
  function StoredName(path: Bytes): (name: Bytes)
    ensures NoNul(name) && name <= path && |name| < NAME_CAPACITY
    ensures |CStr(path)| < NAME_CAPACITY ==> name == CStr(path)
    ensures NAME_CAPACITY <= |CStr(path)| ==> |name| == NAME_CAPACITY - 1
  {
    var c := CStr(path);
    if |c| < NAME_CAPACITY then c else c[..NAME_CAPACITY - 1]
  }

  predicate DistinctNames(es: seq<FileEntry>) {
    forall i, j :: 0 <= i < j < |es| ==> es[i].name != es[j].name
  }

  /** What `get_content(path)` returns against table es and device bytes disk. */
  function ContentAt(es: seq<FileEntry>, disk: Bytes, path: Bytes): Result<Bytes> {
    match Lookup(es, path)
    case None => Failure(NotFound)
    case Some(k) =>
      if es[k].isDirectory then Failure(IsDirectory)
      else if es[k].size == 0 then Success([])
      else Success(CStr(ReadAt(disk, es[k].blockStart, es[k].size)))
  }

  /** The device after `save_file_entries`: the count, then (if any) the records. */
  function SavedImage(disk: Bytes, numFiles: u32, es: seq<FileEntry>, sz: nat): Bytes
    requires ENTRY_FIELDS_SIZE <= sz
  {
    var withCount := WriteAt(disk, METADATA_OFFSET, EncodeU32(numFiles));
    if es == [] then withCount else WriteAt(withCount, FILE_ENTRY_OFFSET, EncodeTable(es, sz))
  }

  /** The count `load_file_entries` reads from the metadata block. */
  function LoadedCount(disk: Bytes): u32 {
    DecodeU32(ReadAt(disk, METADATA_OFFSET, METADATA_SIZE))
  }

  /** The table `load_file_entries` reads: that many records from the entry table. */
  function LoadedTable(disk: Bytes, sz: nat): seq<FileEntry>
    requires ENTRY_FIELDS_SIZE <= sz
  {
    var n := LoadedCount(disk);
    if n > 0 then DecodeTable(ReadAt(disk, FILE_ENTRY_OFFSET, n * sz), n, sz) else []
  }

  /** The device after `format`: a fresh header, a zero count, an empty table. */
  function FormattedImage(disk: Bytes, sz: nat): Bytes
    requires ENTRY_FIELDS_SIZE <= sz
  {
    var withHeader := WriteAt(disk, 0, HeaderBytes());
    var withCount := WriteAt(withHeader, METADATA_OFFSET, EncodeU32(0));
    SavedImage(withCount, 0, [], sz)
  }

  class MyFs {
    const dev: BlockDevice
    const entrySize: nat          // sizeof(FileEntry)
    var entries: seq<FileEntry>   // file_entries
    var numFiles: u32             // metadata.num_files

    /** The count mirrors the table (as a `uint32_t`) and every name fits its field. */
    ghost predicate Valid()
      reads this
    {
      && ValidEntrySize(entrySize)
      && numFiles == U32Of(|entries|)
      && forall i :: 0 <= i < |entries| ==> WellFormed(entries[i])
    }

    /** Opens the volume on device: loads it if the header matches, formats it otherwise. */
    constructor (device: BlockDevice, sz: nat)
      requires ValidEntrySize(sz)
      modifies device
      ensures Valid() && dev == device && entrySize == sz
      ensures IsMyFsHeader(ReadAt(old(device.bytes), 0, HEADER_SIZE)) ==>
        && entries == LoadedTable(old(device.bytes), sz)
        && device.bytes == old(device.bytes)
      ensures !IsMyFsHeader(ReadAt(old(device.bytes), 0, HEADER_SIZE)) ==>
        && entries == []
        && device.bytes == FormattedImage(old(device.bytes), sz)
    {
      dev := device;
      entrySize := sz;
      entries := [];
      numFiles := 0;
      new;
      var header := dev.Read(0, HEADER_SIZE);
      if !IsMyFsHeader(header) {
        Format();
      } else {
        LoadFileEntries();
      }
    }

    method Format()
      requires Valid()
      modifies this, dev
      ensures Valid() && entries == [] && numFiles == 0
      ensures dev.bytes == FormattedImage(old(dev.bytes), entrySize)
    {
      dev.Write(0, HeaderBytes());
      numFiles := 0;
      dev.Write(METADATA_OFFSET, EncodeU32(numFiles));
      entries := [];
      SaveFileEntries();
    }

    /** Creates an empty file or directory named by the first 19 bytes of path. */
    method CreateFile(path: Bytes, directory: bool) returns (r: Outcome)
      requires Valid()
      modifies this, dev
      ensures Valid()
      ensures r.Failed? <==> Lookup(old(entries), path).Some?
      ensures r.Failed? ==> r.error == AlreadyExists && unchanged(this) && unchanged(dev)
      ensures r.Done? ==>
        && entries == old(entries) + [FileEntry(StoredName(path), 0, BumpStart(old(entries), DataStart(entrySize)), directory)]
        && dev.bytes == SavedImage(old(dev.bytes), numFiles, entries, entrySize)
    {
      var found := FindFile(path);
      if found.Some? {
        return Failed(AlreadyExists);
      }
      var name := StoredName(path);
      var next := NextBlockStart();
      var e := FileEntry(name, 0, next, directory);
      assert WellFormed(e);
      entries := entries + [e];
      numFiles := U32Of(|entries|);
      SaveFileEntries();
      return Done;
    }

    /**
      The allocation step of `create_file`: the highest extent end, floored at
      the data region, rounded up to a multiple of 4.
     */
    method NextBlockStart() returns (next: u32)
      requires ValidEntrySize(entrySize)
      ensures next == BumpStart(entries, DataStart(entrySize))
      ensures next % 4 == 0
    {
      var floor: u32 := DataStart(entrySize);
      var es := entries;
      next := floor;
      for i := 0 to |es|
        invariant next == MaxEnd(es[..i], floor)
      {
        MaxEndStep(es[..i], es[i], floor);
        assert es[..i + 1] == es[..i] + [es[i]];
        var end := AddU32(es[i].blockStart, es[i].size);
        if end > next {
          next := end;
        }
      }
      assert es[..|es|] == es;
      if next % 4 != 0 {
        next := AddU32(next, 4 - next % 4);
      }
    }

    method GetContent(path: Bytes) returns (r: Result<Bytes>)
      ensures r == ContentAt(entries, dev.bytes, path)
      ensures r == Failure(NotFound) <==> Lookup(entries, path).None?
      ensures r == Failure(IsDirectory) <==>
        Lookup(entries, path).Some? && entries[Lookup(entries, path).value].isDirectory
      ensures r.Success? ==>
        var e := entries[Lookup(entries, path).value];
        r.value == CStr(ReadAt(dev.bytes, e.blockStart, e.size)) && |r.value| <= e.size
    {
      var found := FindFile(path);
      if found.None? {
        return Failure(NotFound);
      }
      var e := entries[found.value];
      if e.isDirectory {
        return Failure(IsDirectory);
      }
      if e.size == 0 {
        return Success([]);
      }
      var buffer := dev.Read(e.blockStart, e.size);
      return Success(CStr(buffer));
    }

    /** Overwrites a file's content in place at its existing block_start. */
    method SetContent(path: Bytes, content: Bytes) returns (r: Outcome)
      requires Valid()
      modifies this, dev
      ensures Valid()
      ensures Lookup(old(entries), path).None? ==>
        r == Failed(NotFound) && unchanged(this) && unchanged(dev)
      ensures Lookup(old(entries), path).Some? && old(entries)[Lookup(old(entries), path).value].isDirectory ==>
        r == Failed(IsDirectory) && unchanged(this) && unchanged(dev)
      ensures r.Failed? <==>
        Lookup(old(entries), path).None? || old(entries)[Lookup(old(entries), path).value].isDirectory
      ensures r.Done? ==>
        var k := Lookup(old(entries), path).value;
        var e := old(entries)[k];
        && !e.isDirectory
        && entries == old(entries)[k := e.(size := U32Of(|content|))]
        && numFiles == old(numFiles)
        && dev.bytes == SavedImage(WriteAt(old(dev.bytes), e.blockStart, content), numFiles, entries, entrySize)
    {
      var found := FindFile(path);
      if found.None? {
        return Failed(NotFound);
      }
      var k := found.value;
      if entries[k].isDirectory {
        return Failed(IsDirectory);
      }
      dev.Write(entries[k].blockStart, content);
      entries := entries[k := entries[k].(size := U32Of(|content|))];
      SaveFileEntries();
      return Done;
    }

    method ListDir(path: Bytes) returns (r: Result<seq<FileEntry>>)
      ensures r.Success? <==> path == ROOT || path == []
      ensures r.Success? ==> r.value == entries
      ensures r.Failure? ==> r.error == Unsupported
    {
      if path != ROOT && path != [] {
        return Failure(Unsupported);
      }
      return Success(entries);
    }

    /** Erases the first entry named path; its data bytes stay where they are. */
    method RemoveFile(path: Bytes) returns (r: Outcome)
      requires Valid()
      modifies this, dev
      ensures Valid()
      ensures r.Failed? <==> Lookup(old(entries), path).None?
      ensures r.Failed? ==> r.error == NotFound && unchanged(this) && unchanged(dev)
      ensures r.Done? ==>
        var k := Lookup(old(entries), path).value;
        && entries == old(entries)[..k] + old(entries)[k + 1..]
        && dev.bytes == SavedImage(old(dev.bytes), numFiles, entries, entrySize)
    {
      // std::find_if with the same strcmp test as find_file
      var found := FindFile(path);
      if found.None? {
        return Failed(NotFound);
      }
      var k := found.value;
      entries := entries[..k] + entries[k + 1..];
      numFiles := U32Of(|entries|);
      SaveFileEntries();
      return Done;
    }

    method FindFile(filename: Bytes) returns (k: Option<nat>)
      ensures k == Lookup(entries, filename)
      ensures k.Some? ==> k.value < |entries| && entries[k.value].name == CStr(filename)
    {
      var key := CStr(filename);
      var i := 0;
      while i < |entries|
        invariant 0 <= i <= |entries|
        invariant forall j :: 0 <= j < i ==> entries[j].name != key
      {
        if entries[i].name == key {
          return Some(i);
        }
        i := i + 1;
      }
      return None;
    }

    method SaveFileEntries()
      requires ValidEntrySize(entrySize)
      modifies dev
      ensures dev.bytes == SavedImage(old(dev.bytes), numFiles, entries, entrySize)
    {
      dev.Write(METADATA_OFFSET, EncodeU32(numFiles));
      if entries != [] {
        dev.Write(FILE_ENTRY_OFFSET, EncodeTable(entries, entrySize));
      }
    }

    method LoadFileEntries()
      requires ValidEntrySize(entrySize)
      modifies this
      ensures Valid()
      ensures numFiles == LoadedCount(dev.bytes) && entries == LoadedTable(dev.bytes, entrySize)
    {
      var raw := dev.Read(METADATA_OFFSET, METADATA_SIZE);
      numFiles := DecodeU32(raw);
      if numFiles > 0 {
        var table := dev.Read(FILE_ENTRY_OFFSET, numFiles * entrySize);
        entries := DecodeTable(table, numFiles, entrySize);
      } else {
        entries := [];
      }
    }
  }
}
