/**
  Properties of the volume engine that relate several operations: what a
  save leaves on the device and what a load then reads back, what a
  get_content sees after a set_content, what a format leaves behind, and
  how the duplicate-name check interacts with the 19-byte name limit.
 */
module VolumeFacts {
  import opened CBytes
  import opened BlockDev
  import opened Layout
  import opened Volume

  /** Lookup only looks at names, so changing sizes leaves it as it was. */
  lemma LookupSameNames(es: seq<FileEntry>, es2: seq<FileEntry>, path: Bytes)
    requires |es| == |es2|
    requires forall j :: 0 <= j < |es| ==> es[j].name == es2[j].name
    ensures Lookup(es, path) == Lookup(es2, path)
  {
    var key := CStr(path);
    match FirstNamed(es, key)
    case None =>
    case Some(k) =>
      assert es2[k].name == key;
  }

  /** Changing the size of the entry found for path leaves it the entry found. */
  lemma ResizeKeepsLookup(es: seq<FileEntry>, path: Bytes, k: nat, size: u32)
    requires Lookup(es, path) == Some(k)
    ensures Lookup(es[k := es[k].(size := size)], path) == Some(k)
  {
    LookupSameNames(es, es[k := es[k].(size := size)], path);
  }

  /** Saving writes only the metadata and the table, so the header survives. */
  lemma SaveKeepsHeader(disk: Bytes, numFiles: u32, es: seq<FileEntry>, sz: nat)
    requires ENTRY_FIELDS_SIZE <= sz
    ensures ReadAt(SavedImage(disk, numFiles, es, sz), 0, HEADER_SIZE) == ReadAt(disk, 0, HEADER_SIZE)
  {
    var withCount := WriteAt(disk, METADATA_OFFSET, EncodeU32(numFiles));
    ReadPastWrite(disk, METADATA_OFFSET, EncodeU32(numFiles), 0, HEADER_SIZE);
    if es != [] {
      ReadPastWrite(withCount, FILE_ENTRY_OFFSET, EncodeTable(es, sz), 0, HEADER_SIZE);
    }
  }

  /** While the table holds at most MAX_FILES records, saving leaves the data region untouched. */
  lemma SaveKeepsDataRegion(disk: Bytes, numFiles: u32, es: seq<FileEntry>, sz: nat, off: nat, len: nat)
    requires ENTRY_FIELDS_SIZE <= sz
    requires |es| <= MAX_FILES
    requires DataStart(sz) <= off
    ensures ReadAt(SavedImage(disk, numFiles, es, sz), off, len) == ReadAt(disk, off, len)
  {
    var withCount := WriteAt(disk, METADATA_OFFSET, EncodeU32(numFiles));
    ReadPastWrite(disk, METADATA_OFFSET, EncodeU32(numFiles), off, len);
    if es != [] {
      TableFitsIffWithinCapacity(|es|, sz);
      ReadPastWrite(withCount, FILE_ENTRY_OFFSET, EncodeTable(es, sz), off, len);
    }
  }

  /** Saving a table and loading it back yields the same table, as long as the count fits. */
  lemma SaveThenLoad(disk: Bytes, es: seq<FileEntry>, sz: nat)
    requires ENTRY_FIELDS_SIZE <= sz
    requires |es| < U32_LIMIT
    requires forall i :: 0 <= i < |es| ==> WellFormed(es[i])
    ensures LoadedCount(SavedImage(disk, U32Of(|es|), es, sz)) == |es|
    ensures LoadedTable(SavedImage(disk, U32Of(|es|), es, sz), sz) == es
  {
    var count := EncodeU32(|es|);
    var withCount := WriteAt(disk, METADATA_OFFSET, count);
    ReadOwnWrite(disk, METADATA_OFFSET, count);
    U32RoundTrip(|es|);
    if es != [] {
      var table := EncodeTable(es, sz);
      ReadPastWrite(withCount, FILE_ENTRY_OFFSET, table, METADATA_OFFSET, METADATA_SIZE);
      ReadOwnWrite(withCount, FILE_ENTRY_OFFSET, table);
      TableRoundTrip(es, sz);
    }
  }

  /** A formatted device carries a valid header and loads as an empty table. */
  lemma FormatThenLoad(disk: Bytes, sz: nat)
    requires ENTRY_FIELDS_SIZE <= sz
    ensures IsMyFsHeader(ReadAt(FormattedImage(disk, sz), 0, HEADER_SIZE))
    ensures LoadedCount(FormattedImage(disk, sz)) == 0
    ensures LoadedTable(FormattedImage(disk, sz), sz) == []
  {
    var withHeader := WriteAt(disk, 0, HeaderBytes());
    var zero := EncodeU32(0);
    var withCount := WriteAt(withHeader, METADATA_OFFSET, zero);
    ReadOwnWrite(disk, 0, HeaderBytes());
    ReadPastWrite(withHeader, METADATA_OFFSET, zero, 0, HEADER_SIZE);
    SaveKeepsHeader(withCount, 0, [], sz);
    ReadOwnWrite(withHeader, METADATA_OFFSET, zero);
    ReadOwnWrite(withCount, METADATA_OFFSET, zero);
    U32RoundTrip(0);
  }

  /** Content written into the data region reads back unchanged after the table is saved. */
  lemma SavedImageKeepsWrite(disk: Bytes, off: nat, content: Bytes, numFiles: u32, es: seq<FileEntry>, sz: nat)
    requires ENTRY_FIELDS_SIZE <= sz
    requires |es| <= MAX_FILES
    requires DataStart(sz) <= off
    ensures ReadAt(SavedImage(WriteAt(disk, off, content), numFiles, es, sz), off, |content|) == content
  {
    SaveKeepsDataRegion(WriteAt(disk, off, content), numFiles, es, sz, off, |content|);
    ReadOwnWrite(disk, off, content);
  }

  /** get_content of a found, non-directory entry is the C string of the bytes of its extent. */
  lemma ContentOfFile(es: seq<FileEntry>, disk: Bytes, path: Bytes, k: nat, data: Bytes)
    requires Lookup(es, path) == Some(k)
    requires !es[k].isDirectory
    requires ReadAt(disk, es[k].blockStart, es[k].size) == data
    ensures ContentAt(es, disk, path) == Success(CStr(data))
  {
    if es[k].size == 0 {
      assert data == [];
    }
  }

  /**
    After set_content writes content to the file at index k, whose extent lies
    in the data region (and the table fits its reserved space), get_content
    returns the content up to its first NUL.
   */
  lemma SetThenGet(es: seq<FileEntry>, disk: Bytes, numFiles: u32, sz: nat, path: Bytes, content: Bytes, k: nat)
    requires ENTRY_FIELDS_SIZE <= sz && |es| <= MAX_FILES
    requires Lookup(es, path) == Some(k) && !es[k].isDirectory
    requires DataStart(sz) <= es[k].blockStart
    requires |content| < U32_LIMIT
    ensures var es' := es[k := es[k].(size := U32Of(|content|))];
      ContentAt(es', SavedImage(WriteAt(disk, es[k].blockStart, content), numFiles, es', sz), path) == Success(CStr(content))
  {
    var es' := es[k := es[k].(size := U32Of(|content|))];
    var disk' := SavedImage(WriteAt(disk, es[k].blockStart, content), numFiles, es', sz);
    ResizeKeepsLookup(es, path, k, U32Of(|content|));
    SavedImageKeepsWrite(disk, es[k].blockStart, content, numFiles, es', sz);
    ContentOfFile(es', disk', path, k, content);
  }

  /** So get_content returns exactly what set_content wrote iff the content holds no NUL. */
  lemma SetThenGetExact(es: seq<FileEntry>, disk: Bytes, numFiles: u32, sz: nat, path: Bytes, content: Bytes, k: nat)
    requires ENTRY_FIELDS_SIZE <= sz && |es| <= MAX_FILES
    requires Lookup(es, path) == Some(k) && !es[k].isDirectory
    requires DataStart(sz) <= es[k].blockStart
    requires |content| < U32_LIMIT
    ensures var es' := es[k := es[k].(size := U32Of(|content|))];
      var disk' := SavedImage(WriteAt(disk, es[k].blockStart, content), numFiles, es', sz);
      ContentAt(es', disk', path) == Success(content) <==> NoNul(content)
  {
    SetThenGet(es, disk, numFiles, sz, path, content, k);
    CStrIdentity(content);
  }

  /** A name of at most 19 bytes that the duplicate check did not find keeps the names distinct. */
  lemma CreateKeepsNamesDistinct(es: seq<FileEntry>, path: Bytes, e: FileEntry)
    requires DistinctNames(es)
    requires |CStr(path)| < NAME_CAPACITY
    requires Lookup(es, path).None?
    requires e.name == StoredName(path)
    ensures DistinctNames(es + [e])
  {
  }

  /**
    The duplicate check compares the whole C string of path, but only its
    first 19 bytes are stored: a longer name is never found among names of
    at most 19 bytes, so creating it again succeeds and duplicates a name.
   */
  lemma LongNameEscapesDuplicateCheck(es: seq<FileEntry>, path: Bytes, e: FileEntry)
    requires forall i :: 0 <= i < |es| ==> |es[i].name| < NAME_CAPACITY
    requires NAME_CAPACITY <= |CStr(path)|
    requires exists i :: 0 <= i < |es| && es[i].name == StoredName(path)
    requires e.name == StoredName(path)
    ensures Lookup(es, path).None?
    ensures !DistinctNames(es + [e])
  {
    var i :| 0 <= i < |es| && es[i].name == StoredName(path);
    assert (es + [e])[i].name == (es + [e])[|es|].name;
  }

  /** With distinct names, a removed name can no longer be found. */
  lemma RemoveThenLookupFails(es: seq<FileEntry>, path: Bytes)
    requires DistinctNames(es)
    requires Lookup(es, path).Some?
    ensures var k := Lookup(es, path).value; Lookup(es[..k] + es[k + 1..], path).None?
  {
    var k := Lookup(es, path).value;
    var rest := es[..k] + es[k + 1..];
    forall j | 0 <= j < |rest|
      ensures rest[j].name != CStr(path)
    {
      if j < k {
        assert rest[j] == es[j];
      } else {
        assert rest[j] == es[j + 1];
      }
    }
  }
}
