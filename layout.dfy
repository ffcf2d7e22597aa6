/**
  The on-disk layout of a MyFs volume (fs/myfs.h): header, metadata, the
  fixed-capacity entry table and the data region, laid back to back, and
  the byte images of the records stored in them.

  `sizeof(FileEntry)` depends on the ABI's padding, so it is a parameter
  `sz` here; the fields sit at offsets 0 (name), 20 (size), 24
  (block_start) and 28 (is_directory) and the tail padding is written as
  zeros. `uint32_t` values are stored little-endian.
 */
module Layout {
  import opened CBytes
  import opened BlockDev

  const HEADER_SIZE: nat := 5            // sizeof(myfs_header): char[4] + uint8_t
  const METADATA_OFFSET: nat := HEADER_SIZE
  const METADATA_SIZE: nat := 4          // sizeof(fs_metadata): one uint32_t
  const FILE_ENTRY_OFFSET: nat := METADATA_OFFSET + METADATA_SIZE
  const MAX_FILES: nat := 100
  const NAME_CAPACITY: nat := 20         // char name[20]
  const ENTRY_FIELDS_SIZE: nat := NAME_CAPACITY + 4 + 4 + 1

  function FileTableSize(sz: nat): nat {
    MAX_FILES * sz
  }

  /** Start of the data region: fixed by the reserved capacity, not by the number of entries. */
  function DataStart(sz: nat): nat {
    FILE_ENTRY_OFFSET + FileTableSize(sz)
  }

  /** A feasible `sizeof(FileEntry)`: room for the fields, and the layout constants fit in a `uint32_t`. */
  predicate ValidEntrySize(sz: nat) {
    ENTRY_FIELDS_SIZE <= sz && DataStart(sz) < U32_LIMIT
  }

  const MAGIC: Bytes := Ascii("MYFS")
  const CURR_VERSION: byte := 1

  function HeaderBytes(): (h: Bytes)
    ensures |h| == HEADER_SIZE
  {
    MAGIC + [CURR_VERSION]
  }

  /**
    The constructor's test: `strncmp` of the 4 magic bytes against "MYFS"
    (which holds no NUL, so this is byte equality) and the version byte.
   */
  predicate IsMyFsHeader(h: Bytes)
    requires |h| == HEADER_SIZE
  {
    h[..4] == MAGIC && h[4] == CURR_VERSION
  }

  datatype FileEntry = FileEntry(name: Bytes, size: u32, blockStart: u32, isDirectory: bool)

  /** What a `char name[20]` can hold as a C string. */
  predicate WellFormed(e: FileEntry) {
    NoNul(e.name) && |e.name| <= NAME_CAPACITY
  }

  function Zeros(n: nat): (z: Bytes)
    ensures |z| == n && forall i :: 0 <= i < n ==> z[i] == NUL
  {
    seq(n, i => NUL)
  }

  /** The 20-byte name field: the name, NUL-padded as `strncpy` leaves it. */
  function NameField(name: Bytes): (f: Bytes)
    ensures |f| == NAME_CAPACITY
  {
    if |name| < NAME_CAPACITY then name + Zeros(NAME_CAPACITY - |name|) else name[..NAME_CAPACITY]
  }

  function EncodeEntry(e: FileEntry, sz: nat): (b: Bytes)
    requires ENTRY_FIELDS_SIZE <= sz
    ensures |b| == sz
  {
    NameField(e.name) + EncodeU32(e.size) + EncodeU32(e.blockStart)
      + [if e.isDirectory then 1 else 0] + Zeros(sz - ENTRY_FIELDS_SIZE)
  }

  /** Reads an entry back from its image; the name is the C string in the name field. */
  function DecodeEntry(b: Bytes, sz: nat): (e: FileEntry)
    requires ENTRY_FIELDS_SIZE <= sz && |b| == sz
    ensures WellFormed(e)
  {
    FileEntry(CStr(b[..NAME_CAPACITY]), DecodeU32(b[20..24]), DecodeU32(b[24..28]), b[28] != 0)
  }

  lemma EntryRoundTrip(e: FileEntry, sz: nat)
    requires WellFormed(e) && ENTRY_FIELDS_SIZE <= sz
    ensures DecodeEntry(EncodeEntry(e, sz), sz) == e
  {
    var b := EncodeEntry(e, sz);
    var pad := Zeros(NAME_CAPACITY - |e.name|);
    assert NameField(e.name) == e.name + pad;
    assert b[..NAME_CAPACITY] == e.name + pad;
    CStrOfTerminated(e.name, pad);
    assert b[20..24] == EncodeU32(e.size);
    assert b[24..28] == EncodeU32(e.blockStart);
    U32RoundTrip(e.size);
    U32RoundTrip(e.blockStart);
  }

  /** The entry table as `file_entries.data()` lays it out: the records back to back. */
  function EncodeTable(es: seq<FileEntry>, sz: nat): (b: Bytes)
    requires ENTRY_FIELDS_SIZE <= sz
    ensures |b| == |es| * sz
  {
    if es == [] then [] else EncodeEntry(es[0], sz) + EncodeTable(es[1..], sz)
  }

  /** Reads n consecutive records of sz bytes each. */
  function DecodeTable(b: Bytes, n: nat, sz: nat): (es: seq<FileEntry>)
    requires ENTRY_FIELDS_SIZE <= sz
    ensures |es| == n
    ensures forall i :: 0 <= i < n ==> WellFormed(es[i])
    decreases n
  {
    if n == 0 then []
    else [DecodeEntry(ReadAt(b, 0, sz), sz)] + DecodeTable(if sz <= |b| then b[sz..] else [], n - 1, sz)
  }

  /** A table image that starts with one record decodes to that record, then the rest. */
  lemma DecodeTableCons(head: Bytes, rest: Bytes, n: nat, sz: nat)
    requires ENTRY_FIELDS_SIZE <= sz && |head| == sz
    ensures DecodeTable(head + rest, n + 1, sz) == [DecodeEntry(head, sz)] + DecodeTable(rest, n, sz)
  {
    ReadPrefix(head, rest);
    assert (head + rest)[sz..] == rest;
  }

  lemma {:induction false} TableRoundTrip(es: seq<FileEntry>, sz: nat)
    requires ENTRY_FIELDS_SIZE <= sz
    requires forall i :: 0 <= i < |es| ==> WellFormed(es[i])
    ensures DecodeTable(EncodeTable(es, sz), |es|, sz) == es
  {
    if es != [] {
      var head := EncodeEntry(es[0], sz);
      var rest := EncodeTable(es[1..], sz);
      DecodeTableCons(head, rest, |es| - 1, sz);
      EntryRoundTrip(es[0], sz);
      TableRoundTrip(es[1..], sz);
      assert [es[0]] + es[1..] == es;
    }
  }

  /** The four regions lie back to back. */
  lemma RegionsBackToBack(sz: nat)
    ensures METADATA_OFFSET == HEADER_SIZE
    ensures FILE_ENTRY_OFFSET == METADATA_OFFSET + METADATA_SIZE
    ensures DataStart(sz) == FILE_ENTRY_OFFSET + MAX_FILES * sz
  {
  }

  /** A table of n records written at FILE_ENTRY_OFFSET stays below the data region iff n <= MAX_FILES. */
  lemma TableFitsIffWithinCapacity(n: nat, sz: nat)
    requires 0 < sz
    ensures FILE_ENTRY_OFFSET + n * sz <= DataStart(sz) <==> n <= MAX_FILES
  {
    if n <= MAX_FILES {
      assert n * sz <= MAX_FILES * sz by {
        assert MAX_FILES * sz - n * sz == (MAX_FILES - n) * sz;
      }
    } else {
      assert n * sz >= (MAX_FILES + 1) * sz by {
        assert n * sz - (MAX_FILES + 1) * sz == (n - MAX_FILES - 1) * sz;
      }
    }
  }

  /** With a 4-aligned record size the data region starts one byte past a multiple of 4. */
  lemma DataStartMisaligned(sz: nat)
    requires sz % 4 == 0
    ensures DataStart(sz) % 4 == 1
  {
    var q := sz / 4;
    assert MAX_FILES * sz == 4 * (MAX_FILES * q);
  }
}
