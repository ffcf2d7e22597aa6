/**
  The bump allocator of `create_file` (fs/myfs.cpp): the new entry starts at
  the highest `block_start + size` among the existing entries, floored at
  the data region's start and rounded up to a multiple of 4. Every sum is a
  `uint32_t` sum, so both the end of an extent and the rounding step wrap
  modulo 2^32.
 */
module Alloc {
  import opened CBytes
  import opened Layout

  /** `e.block_start + e.size` as the allocator computes it, in 32 bits. */
  function End(e: FileEntry): u32 {
    AddU32(e.blockStart, e.size)
  }

  /** The allocator loop's high-water mark over the entries, starting from floor. */
  function MaxEnd(es: seq<FileEntry>, floor: u32): (r: u32)
    ensures floor <= r
  {
    if es == [] then floor
    else
      var m := MaxEnd(es[..|es| - 1], floor);
      var end := End(es[|es| - 1]);
      if end > m then end else m
  }

  /** The high-water mark bounds every end and is either the floor or one of the ends. */
  lemma {:induction false} MaxEndIsMaximum(es: seq<FileEntry>, floor: u32)
    ensures forall i :: 0 <= i < |es| ==> End(es[i]) <= MaxEnd(es, floor)
    ensures MaxEnd(es, floor) == floor || exists i :: 0 <= i < |es| && MaxEnd(es, floor) == End(es[i])
  {
    if es != [] {
      var init := es[..|es| - 1];
      MaxEndIsMaximum(init, floor);
      assert forall i :: 0 <= i < |init| ==> init[i] == es[i];
    }
  }

  /** One step of the allocator loop. */
  lemma MaxEndStep(es: seq<FileEntry>, e: FileEntry, floor: u32)
    ensures MaxEnd(es + [e], floor) == if End(e) > MaxEnd(es, floor) then End(e) else MaxEnd(es, floor)
  {
    assert (es + [e])[..|es|] == es;
  }

  /** `if (x % 4 != 0) x += 4 - x % 4`, in 32 bits. */
  function RoundUp4(x: u32): (r: u32)
    ensures r % 4 == 0
    ensures x <= U32_LIMIT - 4 ==> x <= r < x + 4
    ensures x > U32_LIMIT - 4 ==> r == 0
  {
    if x % 4 != 0 then AddU32(x, 4 - x % 4) else x
  }

  /** The `block_start` `create_file` gives a new entry. */
  function BumpStart(es: seq<FileEntry>, floor: u32): u32 {
    RoundUp4(MaxEnd(es, floor))
  }

  /** No sum the allocator forms comes near 2^32. */
  predicate Headroom(es: seq<FileEntry>, floor: u32) {
    && floor <= U32_LIMIT - 4
    && forall i :: 0 <= i < |es| ==> es[i].blockStart + es[i].size <= U32_LIMIT - 4
  }

  /**
    Without wrap-around, the new start is the least multiple of 4 that is
    at or above the floor and at or above the end of every existing extent.
   */
  lemma BumpStartIsLeastAlignedBound(es: seq<FileEntry>, floor: u32)
    requires Headroom(es, floor)
    ensures var r := BumpStart(es, floor);
      && r % 4 == 0
      && floor <= r
      && (forall i :: 0 <= i < |es| ==> es[i].blockStart + es[i].size <= r)
      && (r < floor + 4 || exists i :: 0 <= i < |es| && r < es[i].blockStart + es[i].size + 4)
  {
    var m := MaxEnd(es, floor);
    MaxEndIsMaximum(es, floor);
    if m != floor {
      var i :| 0 <= i < |es| && m == End(es[i]);
      assert m == es[i].blockStart + es[i].size;
    }
  }

  /** The new start is always 4-aligned, even when the rounding wraps. */
  lemma BumpStartAligned(es: seq<FileEntry>, floor: u32)
    ensures BumpStart(es, floor) % 4 == 0
  {
  }

  /** The new start is at or above a positive floor exactly when the rounding does not wrap. */
  lemma BumpStartAboveFloor(es: seq<FileEntry>, floor: u32)
    requires 0 < floor
    ensures floor <= BumpStart(es, floor) <==> MaxEnd(es, floor) <= U32_LIMIT - 4
  {
  }

  /**
    An extent whose end passes 2^32 wraps to a small value, which the
    allocator ignores: the next start falls back to the floor, below that
    extent's true end. So the bound of BumpStartIsLeastAlignedBound fails
    once a sum wraps.
   */
  lemma WrappedEndIsIgnored()
    ensures var e := FileEntry([], 16, U32_LIMIT - 8, false);
      && End(e) == 8
      && BumpStart([e], DataStart(32)) == 3212
      && BumpStart([e], DataStart(32)) < e.blockStart
      && BumpStart([e], DataStart(32)) < e.blockStart + e.size
  {
    var e := FileEntry([], 16, U32_LIMIT - 8, false);
    assert [e][..0] == [];
    assert MaxEnd([e], DataStart(32)) == DataStart(32);
  }

  /** With the usual 32-byte record the first entry is rounded up from 3209 to 3212. */
  lemma FirstAllocationRoundedUp()
    ensures DataStart(32) == 3209
    ensures BumpStart([], DataStart(32)) == 3212
  {
  }
}
