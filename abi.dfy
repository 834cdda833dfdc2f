/** The parts of the Linux FIEMAP interface (linux/fiemap.h, described in
    the kernel's Documentation/filesystems/fiemap.rst) and of the program's
    constants.h that the model relies on. */
module Abi {

  const TwoTo32: nat := 0x1_0000_0000
  const TwoTo64: nat := 0x1_0000_0000_0000_0000

  /** __u32 and __u64. */
  type U32 = n: nat | n < 0x1_0000_0000
  type U64 = n: nat | n < 0x1_0000_0000_0000_0000

  const U64Max: U64 := 0xFFFF_FFFF_FFFF_FFFF

  /** k_sector_size. */
  const SectorSize: nat := 512

  /** FIEMAP_EXTENT_LAST: the extent is the last one of the file. */
  const FiemapExtentLast: bv32 := 0x0000_0001

  /** sizeof(struct fiemap) and sizeof(struct fiemap_extent). */
  const FiemapHeaderSize: nat := 32
  const FiemapExtentSize: nat := 56

  /** struct fiemap_extent (its reserved words left out). */
  datatype Extent = Extent(logical: U64, physical: U64, length: U64, flags: bv32)

  const ZeroExtent := Extent(0, 0, 0, 0)

  predicate IsLast(e: Extent) {
    e.flags & FiemapExtentLast != 0
  }

  /** struct fiemap: the request and reply header followed by its extent slots. */
  class Fiemap {
    var start: U64
    var length: U64
    var flags: bv32
    var mappedExtents: U32
    var extentCount: U32
    const extents: array<Extent>

    /** Every header field and every slot is zero, as calloc leaves them. */
    ghost predicate AllZero()
      reads this, extents
    {
      && start == 0 && length == 0 && flags == 0 && mappedExtents == 0 && extentCount == 0
      && forall i | 0 <= i < extents.Length :: extents[i] == ZeroExtent
    }

    constructor Zeroed(n: U32)
      ensures fresh(extents) && extents.Length == n && AllZero()
    {
      start, length, flags, mappedExtents, extentCount := 0, 0, 0, 0, 0;
      extents := new Extent[n](_ => ZeroExtent);
    }
  }
}
