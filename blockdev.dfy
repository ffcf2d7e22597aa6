/**
  The block device the volume lives on, seen only through its byte-level
  interface: `read(offset, len)` and `write(offset, bytes)`. The device is
  presumed infallible and large enough, so the model makes both operations
  total: a read past the current end sees zero bytes, and a write past it
  extends the device.
 */
module BlockDev {
  import opened CBytes

  /** The byte at offset i; zero past the end. */
  function At(d: Bytes, i: nat): byte {
    if i < |d| then d[i] else 0
  }

  function ReadAt(d: Bytes, off: nat, len: nat): Bytes {
    seq<byte>(len, k requires 0 <= k < len => At(d, off + k))
  }

  function WriteAt(d: Bytes, off: nat, data: Bytes): (r: Bytes)
    ensures |r| == if |d| < off + |data| then off + |data| else |d|
  {
    var n := if |d| < off + |data| then off + |data| else |d|;
    seq<byte>(n, i requires 0 <= i < n => if off <= i < off + |data| then data[i - off] else At(d, i))
  }

  /** A write changes exactly the bytes of its range. */
  lemma AtWrite(d: Bytes, off: nat, data: Bytes, i: nat)
    ensures At(WriteAt(d, off, data), i) == if off <= i < off + |data| then data[i - off] else At(d, i)
  {
  }

  /** Reading back the range just written yields the written bytes. */
  lemma ReadOwnWrite(d: Bytes, off: nat, data: Bytes)
    ensures ReadAt(WriteAt(d, off, data), off, |data|) == data
  {
    var r := ReadAt(WriteAt(d, off, data), off, |data|);
    forall k | 0 <= k < |data| ensures r[k] == data[k] {
      AtWrite(d, off, data, off + k);
    }
  }

  /** A write leaves every range it does not touch unchanged. */
  lemma ReadPastWrite(d: Bytes, off: nat, data: Bytes, off2: nat, len: nat)
    requires off2 + len <= off || off + |data| <= off2
    ensures ReadAt(WriteAt(d, off, data), off2, len) == ReadAt(d, off2, len)
  {
    var r := ReadAt(WriteAt(d, off, data), off2, len);
    forall k | 0 <= k < len ensures r[k] == At(d, off2 + k) {
      AtWrite(d, off, data, off2 + k);
    }
  }

  /** A prefix of a byte sequence reads back from offset 0. */
  lemma ReadPrefix(a: Bytes, b: Bytes)
    ensures ReadAt(a + b, 0, |a|) == a
  {
    var r := ReadAt(a + b, 0, |a|);
    assert forall k :: 0 <= k < |a| ==> r[k] == a[k];
  }

  /** The device object the engine holds a pointer to. */
  class BlockDevice {
    var bytes: Bytes

    constructor (initial: Bytes)
      ensures bytes == initial
    {
      bytes := initial;
    }

    method Read(off: nat, len: nat) returns (data: Bytes)
      ensures data == ReadAt(bytes, off, len)
    {
      data := ReadAt(bytes, off, len);
    }

    method Write(off: nat, data: Bytes)
      modifies this
      ensures bytes == WriteAt(old(bytes), off, data)
    {
      bytes := WriteAt(bytes, off, data);
    }
  }
}
