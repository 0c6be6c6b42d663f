/**
 * The constant data the driver hands to the flash core: the ECC byte
 * layouts of the spare area and the table of supported parts.
 */
module FlashIds {
  import opened Types
  import opened Ecc

  // Manufacturer ID bytes (Linux NAND values).
  const NAND_MFR_MICRON: u8 := 0x2c
  const NAND_MFR_GIGADEVICE: u8 := 0xc8

  const SZ_2K: nat := 0x800
  const SZ_4K: nat := 0x1000
  const SZ_128K: nat := 0x2_0000
  const SZ_256K: nat := 0x4_0000

  /** A free region of the spare area: `length` bytes from `offset`. */
  datatype OobFree = OobFree(offset: nat, length: nat)

  /** `struct nand_ecclayout`: where in the spare area the ECC bytes live. */
  datatype EccLayout = EccLayout(eccBytes: nat, eccPos: seq<nat>, oobFree: seq<OobFree>)

  /** `struct nand_flash_dev`, with the fields this driver sets. */
  datatype FlashDev = FlashDev(
    name: string, id: seq<u8>, chipSizeMiB: nat, pageSize: nat, eraseSize: nat,
    idLen: nat, oobSize: nat, eccStrength: nat, eccStep: nat, layout: EccLayout)

  /** GD5F: the upper half of the 256-byte spare area, bytes 128..255. */
  const EccLayoutGd5f := EccLayout(128, seq(128, i => 128 + i), [OobFree(1, 127)])

  /**
   * MT29F: bytes 8..15 of each 16-byte quarter of the 64-byte spare area
   * (8..15, 24..31, 40..47, 56..63).
   */
  const EccLayoutMt29f := EccLayout(32, seq(32, k => 16 * (k / 8) + 8 + k % 8), [])

  /** `spi_nand_flash_ids`. */
  const SpiNandFlashIds: seq<FlashDev> := [
    FlashDev("SPI NAND 512MiB 3,3V", [NAND_MFR_GIGADEVICE, 0xb4], 512, SZ_4K, SZ_256K, 2, 256, 8, 512, EccLayoutGd5f),
    FlashDev("SPI NAND 512MiB 1,8V", [NAND_MFR_GIGADEVICE, 0xa4], 512, SZ_4K, SZ_256K, 2, 256, 8, 512, EccLayoutGd5f),
    FlashDev("SPI NAND 512MiB 3,3V", [NAND_MFR_MICRON, 0x32], 512, SZ_2K, SZ_128K, 2, 64, 4, 512, EccLayoutMt29f),
    FlashDev("SPI NAND 256MiB 3,3V", [NAND_MFR_MICRON, 0x22], 256, SZ_2K, SZ_128K, 2, 64, 4, 512, EccLayoutMt29f)
  ]

  /** The ECC positions of a layout are strictly increasing, in range and clear of the free regions. */
  ghost predicate LayoutFits(l: EccLayout, oobSize: nat)
  {
    && |l.eccPos| == l.eccBytes
    && (forall k :: 0 <= k < |l.eccPos| ==> 2 <= l.eccPos[k] < oobSize)
    && (forall k :: 0 < k < |l.eccPos| ==> l.eccPos[k - 1] < l.eccPos[k])
    && (forall f :: f in l.oobFree ==> f.offset + f.length <= oobSize)
    && (forall f, k :: f in l.oobFree && 0 <= k < |l.eccPos| ==>
          !(f.offset <= l.eccPos[k] < f.offset + f.length))
  }

  lemma Gd5fLayoutFits()
    ensures LayoutFits(EccLayoutGd5f, 256)
  {
  }

  lemma Mt29fLayoutFits()
    ensures LayoutFits(EccLayoutMt29f, 64)
  {
  }

  /** Every part's layout fits its spare area. */
  lemma TableLayoutsFit()
    ensures forall d :: d in SpiNandFlashIds ==> LayoutFits(d.layout, d.oobSize)
  {
    Gd5fLayoutFits();
    Mt29fLayoutFits();
    var t := SpiNandFlashIds;
    forall d | d in t
      ensures LayoutFits(d.layout, d.oobSize)
    {
      assert (d.layout == EccLayoutGd5f && d.oobSize == 256) || (d.layout == EccLayoutMt29f && d.oobSize == 64);
    }
  }

  /**
   * A part's geometry is consistent: the ID has `id_len` bytes, and ECC steps
   * divide pages, pages divide erase blocks, erase blocks divide the chip
   * (all three sizes being positive).
   */
  ghost predicate Geometry(d: FlashDev)
  {
    && |d.id| == d.idLen
    && d.eccStep > 0 && d.pageSize > 0 && d.eraseSize > 0
    && d.pageSize % d.eccStep == 0
    && d.eraseSize % d.pageSize == 0
    && (d.chipSizeMiB * 0x10_0000) % d.eraseSize == 0
  }

  lemma TableGeometry()
    ensures forall d :: d in SpiNandFlashIds ==> Geometry(d)
  {
    var t := SpiNandFlashIds;
    assert Geometry(t[0]) && Geometry(t[1]) && Geometry(t[2]) && Geometry(t[3]);
    forall d | d in t
      ensures Geometry(d)
    {
      assert d == t[0] || d == t[1] || d == t[2] || d == t[3];
    }
  }

  /**
   * Every part's ECC layout has exactly `eccbytes` positions, all inside its
   * spare area, none on the two bad-block-marker bytes and none inside a
   * free region; each ID occurs once; pages, erase blocks and the chip nest.
   */
  lemma TableConsistent()
    ensures forall d :: d in SpiNandFlashIds ==> LayoutFits(d.layout, d.oobSize)
    ensures forall d :: d in SpiNandFlashIds ==> Geometry(d)
    ensures forall i, j :: 0 <= i < j < |SpiNandFlashIds| ==> SpiNandFlashIds[i].id != SpiNandFlashIds[j].id
  {
    TableLayoutsFit();
    TableGeometry();
    var t := SpiNandFlashIds;
    assert t[0].id[1] == 0xb4 && t[1].id[1] == 0xa4 && t[2].id[1] == 0x32 && t[3].id[1] == 0x22;
  }

  /**
   * The decoder of each vendor never reports more corrected bits than the
   * ECC strength the table declares for that vendor's parts (8 for
   * GigaDevice, 4 for Micron).
   */
  lemma DecodersWithinStrength(status: u32)
    ensures forall d :: d in SpiNandFlashIds && d.id[0] == NAND_MFR_GIGADEVICE ==>
      Gd5fEccStatus(status).corrected.Some? ==> Gd5fEccStatus(status).corrected.value as nat <= d.eccStrength
    ensures forall d :: d in SpiNandFlashIds && d.id[0] == NAND_MFR_MICRON ==>
      Mt29fEccStatus(status).corrected.Some? ==> Mt29fEccStatus(status).corrected.value as nat <= d.eccStrength
  {
  }
}
