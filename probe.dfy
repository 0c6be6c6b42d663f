/**
 * spi_nand_device_probe: the variant named by the matched device-table entry
 * decides which read-ID and ECC-status hooks the device gets.
 */
module Probe {
  import opened Types
  import opened Transport
  import opened Ecc
  import opened Device

  // enum spi_nand_device_variant
  const SPI_NAND_GENERIC: nat := 0
  const SPI_NAND_MT29F: nat := 1
  const SPI_NAND_GD5F: nat := 2

  const ENODEV: int := 19

  datatype Hooks = Hooks(readId: IdReader, getEccStatus: EccDecoder)

  /** `spi_nand_id_table`: device name and the variant it selects. */
  const SpiNandIdTable: seq<(string, nat)> :=
    [("spi-nand", SPI_NAND_GENERIC), ("mt29f", SPI_NAND_MT29F), ("gd5f", SPI_NAND_GD5F)]

  /**
   * The switch on the variant: MT29F and GD5F each get their own read-ID and
   * ECC decoder, and every other value (SPI_NAND_GENERIC included) fails
   * with -ENODEV.
   */
  function VariantHooks(variant: nat): (r: Result<Hooks>)
    ensures r.Ok? <==> variant == SPI_NAND_MT29F || variant == SPI_NAND_GD5F
    ensures r.Err? ==> r.errno == -ENODEV
    ensures r.Ok? ==> (r.value.readId.Mt29fIdReader? <==> r.value.getEccStatus.Mt29fDecoder?)
    ensures r.Ok? ==> (r.value.readId.Mt29fIdReader? <==> variant == SPI_NAND_MT29F)
  {
    if variant == SPI_NAND_MT29F then Ok(Hooks(Mt29fIdReader, Mt29fDecoder))
    else if variant == SPI_NAND_GD5F then Ok(Hooks(Gd5fIdReader, Gd5fDecoder))
    else Err(-ENODEV)
  }

  /**
   * Of the names the driver binds to, "mt29f" and "gd5f" probe successfully
   * and the generic "spi-nand" is refused.
   */
  lemma ProbeByName()
    ensures forall e :: e in SpiNandIdTable ==> (VariantHooks(e.1).Ok? <==> e.0 != "spi-nand")
  {
    assert SpiNandIdTable[0].0 == "spi-nand";
    assert SpiNandIdTable[1].0 == "mt29f" != "spi-nand";
    assert SpiNandIdTable[2].0 == "gd5f" != "spi-nand";
  }

  /**
   * spi_nand_device_probe from allocation up to registration. On an unknown
   * variant it fails with -ENODEV before `spi_nand_register` is reached, and
   * the device-managed allocation is released, so no device is returned;
   * otherwise it installs the variant's hooks, and the result is what
   * `spi_nand_register` returned (`registerStatus`).
   */
  method DeviceProbe(spi: SpiDevice, variant: nat, registerStatus: int)
    returns (r: int, dev: SpiNandDevice?, registered: bool)
    ensures VariantHooks(variant).Err? ==> r == -ENODEV && !registered && dev == null
    ensures VariantHooks(variant).Ok? ==> r == registerStatus && registered
    ensures dev != null ==> fresh(dev) && fresh(dev.cmd) && fresh(dev.cmd.cmd)
    ensures registered ==> dev != null && dev.Valid() && dev.spi == spi
    ensures registered ==> dev.cmd.State() == Commands.Zeroed
    ensures registered ==> dev.readId == Some(VariantHooks(variant).value.readId)
    ensures registered ==> dev.getEccStatus == Some(VariantHooks(variant).value.getEccStatus)
  {
    var priv := new SpiNandDevice(spi);
    registered := false;

    if variant == SPI_NAND_MT29F {
      priv.readId := Some(Mt29fIdReader);
      priv.getEccStatus := Some(Mt29fDecoder);
    } else if variant == SPI_NAND_GD5F {
      priv.readId := Some(Gd5fIdReader);
      priv.getEccStatus := Some(Gd5fDecoder);
    } else {
      return -ENODEV, null, registered;
    }

    dev := priv;
    registered := true;
    r := registerStatus;
    if r != 0 {
      return;
    }
    r := 0;
  }
}
