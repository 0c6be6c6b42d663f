/**
 * The two vendor policies that turn the status register into an ECC outcome.
 * Each writes `*ecc_error` (0 or 1) and, only when that is 0, `*corrected`;
 * a `None` in `corrected` stands for "left unwritten".
 */
module Ecc {
  import opened Types

  const GD5F_ECC_MASK: nat := 0x7
  const GD5F_ECC_UNCORR: nat := 0x7

  const MT29F_ECC_MASK: nat := 0x3
  const MT29F_ECC_UNCORR: nat := 0x2

  datatype EccReport = EccReport(eccError: u32, corrected: Option<u32>)

  /** The `get_ecc_status` hook probe installs. */
  datatype EccDecoder = Mt29fDecoder | Gd5fDecoder

  /** Bits 5..4 of the status word, as MT29F parts report them. */
  function Mt29fField(status: u32): (f: nat)
    ensures f < 4
  {
    (status as nat / 0x10) % (MT29F_ECC_MASK + 1)  // (status >> 4) & MT29F_ECC_MASK
  }

  /** Bits 6..4 of the status word, as GD5F parts report them. */
  function Gd5fField(status: u32): (f: nat)
    ensures f < 8
  {
    (status as nat / 0x10) % (GD5F_ECC_MASK + 1)  // (status >> 4) & GD5F_ECC_MASK
  }

  /**
   * spi_nand_mt29f_ecc_status: field value 2 is "uncorrectable" and leaves
   * the count unwritten; any other value is reported as the count itself,
   * so the count is 0, 1 or 3.
   */
  function Mt29fEccStatus(status: u32): (r: EccReport)
    ensures r.eccError == 0 || r.eccError == 1
    ensures r.eccError == 1 <==> Mt29fField(status) == 2
    ensures r.corrected.None? <==> r.eccError == 1
    ensures r.corrected.Some? ==> r.corrected.value in {0, 1, 3}
  {
    var eccStatus := Mt29fField(status);
    var eccError: u32 := if eccStatus == MT29F_ECC_UNCORR then 1 else 0;
    if eccError == 0 then EccReport(eccError, Some(eccStatus as u32))
    else EccReport(eccError, None)
  }

  /**
   * spi_nand_gd5f_ecc_status: field value 7 is "uncorrectable" and leaves the
   * count unwritten; 0 and 1 mean no corrected bits, and 2..6 mean field + 2
   * corrected bits, so the count is 0 or one of 4..8.
   */
  function Gd5fEccStatus(status: u32): (r: EccReport)
    ensures r.eccError == 0 || r.eccError == 1
    ensures r.eccError == 1 <==> Gd5fField(status) == 7
    ensures r.corrected.None? <==> r.eccError == 1
    ensures r.corrected.Some? ==> r.corrected.value == 0 || 4 <= r.corrected.value <= 8
  {
    var eccStatus := Gd5fField(status);
    var eccError: u32 := if eccStatus == GD5F_ECC_UNCORR then 1 else 0;
    if eccError == 0 then EccReport(eccError, Some(if eccStatus > 1 then (2 + eccStatus) as u32 else 0))
    else EccReport(eccError, None)
  }

  /**
   * The call `snand->get_ecc_status(status, &corrected, &ecc_error)`: whichever
   * decoder probe installed, the error flag is 0 or 1, it is set exactly for
   * that decoder's uncorrectable field value, and the count is written exactly
   * when it is clear.
   */
  function EccStatus(decoder: EccDecoder, status: u32): (r: EccReport)
    ensures r.eccError == 0 || r.eccError == 1
    ensures r.eccError == 1 <==>
      if decoder.Mt29fDecoder? then Mt29fField(status) == 2 else Gd5fField(status) == GD5F_ECC_UNCORR
    ensures r.corrected.None? <==> r.eccError == 1
  {
    match decoder
    case Mt29fDecoder => Mt29fEccStatus(status)
    case Gd5fDecoder => Gd5fEccStatus(status)
  }

  // ---------------------------------------------------------------------
  // Decision tables

  /** Outcome of each MT29F field value 0..3, as a table. */
  const Mt29fTable: seq<EccReport> :=
    [EccReport(0, Some(0)), EccReport(0, Some(1)), EccReport(1, None), EccReport(0, Some(3))]

  /** Outcome of each GD5F field value 0..7, as a table. */
  const Gd5fTable: seq<EccReport> :=
    [EccReport(0, Some(0)), EccReport(0, Some(0)), EccReport(0, Some(4)), EccReport(0, Some(5)),
     EccReport(0, Some(6)), EccReport(0, Some(7)), EccReport(0, Some(8)), EccReport(1, None)]

  /** The MT29F decoder is the table above, looked up by bits 5..4 of the status. */
  lemma Mt29fMatchesTable(status: u32)
    ensures Mt29fEccStatus(status) == Mt29fTable[Mt29fField(status)]
  {
  }

  /** The GD5F decoder is the table above, looked up by bits 6..4 of the status. */
  lemma Gd5fMatchesTable(status: u32)
    ensures Gd5fEccStatus(status) == Gd5fTable[Gd5fField(status)]
  {
  }

  /**
   * Only the field bits matter: bits below bit 4 and above the field can be
   * anything without changing the outcome of either decoder.
   */
  lemma {:induction false} DecodersReadOnlyTheirField(high: nat, field: nat, low: nat)
    requires low < 16
    ensures field < 4 && high * 64 + field * 16 + low < U32_RANGE ==>
      Mt29fEccStatus((high * 64 + field * 16 + low) as u32) == Mt29fTable[field]
    ensures field < 8 && high * 128 + field * 16 + low < U32_RANGE ==>
      Gd5fEccStatus((high * 128 + field * 16 + low) as u32) == Gd5fTable[field]
  {
    if field < 4 && high * 64 + field * 16 + low < U32_RANGE {
      var s := high * 64 + field * 16 + low;
      assert s / 16 == high * 4 + field;
      assert Mt29fField(s as u32) == field;
    }
    if field < 8 && high * 128 + field * 16 + low < U32_RANGE {
      var s := high * 128 + field * 16 + low;
      assert s / 16 == high * 8 + field;
      assert Gd5fField(s as u32) == field;
    }
  }

  /**
   * A larger GD5F field never reports fewer corrected bits, and distinct
   * correctable fields from 2 upward report distinct counts.
   */
  lemma Gd5fCountMonotone(s: u32, t: u32)
    requires Gd5fField(s) <= Gd5fField(t) < 7
    ensures Gd5fEccStatus(s).corrected.value <= Gd5fEccStatus(t).corrected.value
    ensures 2 <= Gd5fField(s) < Gd5fField(t) ==> Gd5fEccStatus(s).corrected.value < Gd5fEccStatus(t).corrected.value
  {
  }

  /** Either decoder reports at most 8 corrected bits. */
  lemma CorrectedAtMost8(decoder: EccDecoder, status: u32)
    ensures EccStatus(decoder, status).corrected.Some? ==> EccStatus(decoder, status).corrected.value <= 8
    ensures decoder.Mt29fDecoder? && EccStatus(decoder, status).corrected.Some? ==> EccStatus(decoder, status).corrected.value <= 3
  {
  }
}
