# SPI-NAND device command layer, modelled in Dafny

This project models the command-protocol layer of the Linux SPI-NAND device
driver in `drivers/mtd/spi-nand/spi-nand-device.c`. It covers four parts:

- **Command descriptor and builders.** Each flash operation fills in the
  device's single, reused `struct spi_nand_device_cmd`. It first zeroes the
  descriptor, then sets the opcode, the address or offset bytes, the dummy
  bytes, the data length and the lane widths. The operations are reset,
  get/set feature, write enable/disable, program execute, page read, block
  erase, program load, read from cache, and the two vendors' read ID.
- **`spi_nand_send_command`.** It refuses malformed descriptors. Otherwise it
  lays out a one- or two-leg SPI message and passes it to `spi_sync`.
- **ECC status decoders.** There is one decoder for Micron MT29F parts and
  one for GigaDevice GD5F parts. Each turns the status word into an error flag
  and, when the data could be corrected, a count of corrected bits.
- **Probe.** It picks the read-ID and ECC hooks from the device variant. The
  model also includes the constant tables: supported parts, ECC layouts and
  device names.

Modules, one per component:

- `Types` (`types.dfy`) holds `u8`/`u32`, `Option`/`Result`, the mode-flag test
  and big-endian reading.
- `Transport` (`transport.dfy`) holds `struct spi_transfer` and the `spi_sync`
  transport, modelled as the class `SpiDevice`.
- `Commands` (`commands.dfy`) holds the opcodes and the descriptor value
  `CmdState`. It also holds `Build`, the descriptor each operation produces, the
  send-command validation (`Accepts`) and leg layout (`Legs`), and the layout
  lemmas.
- `Device` (`device.dfy`) holds the classes `DeviceCmd` (the descriptor,
  updated in place) and `SpiNandDevice` (one method per operation), and
  `SendCommand`.
- `Ecc` (`ecc.dfy`) holds the two decoders, the call through the installed
  `get_ecc_status` hook (`EccStatus`), their decision tables and their
  properties.
- `FlashIds` (`flash_ids.dfy`) holds `spi_nand_flash_ids` and the two
  `nand_ecclayout`s.
- `Probe` (`probe.dfy`) holds the variant switch of `spi_nand_device_probe` and
  `spi_nand_id_table`.

Shifts and masks on unsigned values are written as division and remainder by
powers of two, which is the same thing for non-negative numbers. For example,
`(page_addr & 0xff0000) >> 16` becomes `(pageAddr / 0x10000) % 0x100`.
`spi->mode` is a bit set held as a natural number, and `HasFlag` tests one bit.
The flag values (`SPI_TX_QUAD` 0x200, `SPI_RX_DUAL` 0x400, `SPI_RX_QUAD` 0x800)
and the manufacturer bytes (`NAND_MFR_MICRON` 0x2c, `NAND_MFR_GIGADEVICE` 0xc8)
come from the Linux headers. Those headers are not part of this model. Pointers
to data buffers are `array?<u8>` references.

The spi_sync transport is the object `SpiDevice`. It logs every message that
reaches it (`sent`) and answers with `respond(earlier messages, message)`, a
fixed but unspecified function. Each logged transfer records its length, its
buffers, its lane widths and the bytes taken from its transmit buffer
(`txData`), so two commands with different bytes leave different logs. During a message the bus
may overwrite the message's receive buffers, and nothing else. This is how the
model states that a refused command never reaches the bus.

The model follows the code as written:

- Page addresses and offsets are masked to 24 and 16 bits. They are not
  rejected with an out-of-range error.
- The command leg is always sent at the descriptor's `tx_nbits`: 4 for a
  quad program load, 1 for a plain one, and 0 (the zeroed value) for every
  other operation, read-from-cache included. What the SPI core does with a
  width of 0 is outside this file.
- The device variant comes from the bound device-table entry (`driver_data`),
  not from matching the ID bytes. That matching happens in
  `spi_nand_register`, outside this file.
- The MT29F "uncorrectable" value is field value 2, and field value 3 reports 3
  corrected bits.

## Model

| member | source | states |
|---|---|---|
| Commands.Build | drivers/mtd/spi-nand/spi-nand-device.c:218-431 | every operation's descriptor is one that send_command accepts: a non-empty command of at most 5 bytes that never both transmits and receives data |
| Commands.Legs | drivers/mtd/spi-nand/spi-nand-device.c:190-213 | the message has the command leg first (`n_cmd` bytes of `cmd`, at `tx_nbits`, transmitting exactly `cmd[0..n_cmd)`), then at most one data leg: `n_tx` bytes from `tx_buf` at `tx_nbits`, transmitting the first `n_tx` bytes of that buffer, or `n_rx` bytes into `rx_buf` at `rx_nbits`, and a data leg exactly when one of the two lengths is non-zero |
| Device.SendCommand | drivers/mtd/spi-nand/spi-nand-device.c:174-216 | returns -EINVAL, leaves the bus log unchanged and leaves the receive buffer untouched when `n_cmd` is 0 or both `n_tx` and `n_rx` are non-zero; otherwise passes exactly one message, `Legs` of the descriptor with the command and transmit bytes it carries, to spi_sync and returns the bus's status; only the receive buffer of a receiving command may change |
| Transport.SpiDevice.Sync | drivers/mtd/spi-nand/spi-nand-device.c:215 | spi_sync: the message, bytes included, is appended to the bus log, the status is the bus's answer to it, and only the message's receive buffers may change |
| Commands.AddressRoundTrip | drivers/mtd/spi-nand/spi-nand-device.c:303-305 | the three address bytes, read back most significant first, give the page address modulo 2^24 |
| Commands.AddressBytesExact | drivers/mtd/spi-nand/spi-nand-device.c:344-346 | two page addresses give the same address bytes if and only if they agree modulo 2^24 (higher bits are dropped silently) |
| Commands.OffsetRoundTrip | drivers/mtd/spi-nand/spi-nand-device.c:324-325 | the two offset bytes, read back most significant first, give the page offset modulo 2^16 |
| Commands.PageAddressedLayout | drivers/mtd/spi-nand/spi-nand-device.c:294-310 | write_page (and load_page, block_erase at lines 335-351 and 383-399) sends exactly 4 command bytes: opcode 0x10 / 0x13 / 0xd8, then the address big-endian, which reads back as the address mod 2^24; no data leg, both widths 0 |
| Commands.StoreCacheLayout | drivers/mtd/spi-nand/spi-nand-device.c:312-333 | 3 command bytes, the offset big-endian in bytes 1..2; opcode 0x32 with width 4 if and only if the mode has SPI_TX_QUAD, otherwise 0x02 with width 1; `n_tx` is the length (mod 2^32) from `write_buf`, nothing received, bytes 3..4 zero |
| Commands.ReadCacheLayout | drivers/mtd/spi-nand/spi-nand-device.c:353-381 | quad before dual: opcode 0x6b/0x3b/0x03 with receive width 4/2/1; 5 command bytes if and only if dual or quad receive is on, otherwise 4; bytes 1 and 4 are dummy zeros, bytes 2..3 the offset big-endian; `n_rx` is the length (mod 2^32); command leg width 0 |
| Commands.FixedLayouts | drivers/mtd/spi-nand/spi-nand-device.c:218-292 | reset sends [0xff], write enable [0x06], write disable [0x04], none with data; get feature sends [0x0f, reg] and receives 1 byte; set feature sends [0x1f, reg] and 1 data byte; both read-ID variants (lines 401-431) send [0x9f] and receive 2 bytes |
| Commands.MessageShape | drivers/mtd/spi-nand/spi-nand-device.c:194-213 | for every operation the message is accepted and starts with the command leg, which transmits the `n_cmd` command bytes; it has a second leg exactly for the data-carrying operations (transfers of length 0 mod 2^32 excepted), transmit for set feature and program load (carrying the payload from the caller's buffer), receive otherwise |
| Commands.CommandLegWidth | drivers/mtd/spi-nand/spi-nand-device.c:196 | the command leg goes out 4 lanes wide exactly for a quad program load, 1 lane exactly for a plain program load, and at width 0 for every other operation |
| Commands.LoggedPageAddress | drivers/mtd/spi-nand/spi-nand-device.c:294-310 | the single leg logged for write_page (and load_page, block_erase at lines 335-351 and 383-399) transmits 4 bytes whose last three read back as the page address mod 2^24 |
| Commands.Examples | drivers/mtd/spi-nand/spi-nand-device.c:383-399 | block erase of page 0x012345 sends [0xd8, 0x01, 0x23, 0x45] with no data; get feature of register 0xc0 sends [0x0f, 0xc0] and receives one byte |
| Device.DeviceCmd.Clear | drivers/mtd/spi-nand/spi-nand-device.c:223 | memset: every field of the descriptor, all 5 command bytes included, is zero afterwards |
| Device.SpiNandDevice.constructor | drivers/mtd/spi-nand/spi-nand-device.c:464-481 | the zero-allocated device: its descriptor is all zero and neither hook is installed |
| Device.SpiNandDevice.Reset | drivers/mtd/spi-nand/spi-nand-device.c:218-230 | the shared descriptor ends up exactly `Build(mode, Reset)`, whatever it held before, and that descriptor is sent once to the bus |
| Device.SpiNandDevice.ReadReg | drivers/mtd/spi-nand/spi-nand-device.c:232-247 | descriptor becomes `Build(mode, ReadReg(opcode, buf))` regardless of its previous contents, and is sent once |
| Device.SpiNandDevice.WriteReg | drivers/mtd/spi-nand/spi-nand-device.c:249-264 | descriptor becomes `Build(mode, WriteReg(opcode, buf))` regardless of its previous contents, and is sent once |
| Device.SpiNandDevice.WriteEnable | drivers/mtd/spi-nand/spi-nand-device.c:266-278 | descriptor becomes `Build(mode, WriteEnable)` regardless of its previous contents, and is sent once |
| Device.SpiNandDevice.WriteDisable | drivers/mtd/spi-nand/spi-nand-device.c:280-292 | descriptor becomes `Build(mode, WriteDisable)` regardless of its previous contents, and is sent once |
| Device.SpiNandDevice.WritePage | drivers/mtd/spi-nand/spi-nand-device.c:294-310 | descriptor becomes `Build(mode, WritePage(addr))` regardless of its previous contents, and is sent once |
| Device.SpiNandDevice.StoreCache | drivers/mtd/spi-nand/spi-nand-device.c:312-333 | descriptor becomes `Build(mode, StoreCache(offset, length, buf))` for the device's mode, regardless of its previous contents, and is sent once |
| Device.SpiNandDevice.LoadPage | drivers/mtd/spi-nand/spi-nand-device.c:335-351 | descriptor becomes `Build(mode, LoadPage(addr))` regardless of its previous contents, and is sent once |
| Device.SpiNandDevice.ReadCache | drivers/mtd/spi-nand/spi-nand-device.c:353-381 | descriptor becomes `Build(mode, ReadCache(offset, length, buf))` for the device's mode, regardless of its previous contents, and is sent once |
| Device.SpiNandDevice.BlockErase | drivers/mtd/spi-nand/spi-nand-device.c:383-399 | descriptor becomes `Build(mode, BlockErase(addr))` regardless of its previous contents, and is sent once |
| Device.SpiNandDevice.Gd5fReadId | drivers/mtd/spi-nand/spi-nand-device.c:401-415 | descriptor becomes `Build(mode, Gd5fReadId(buf))` (read ID, 2 bytes) regardless of its previous contents, and is sent once |
| Device.SpiNandDevice.Mt29fReadId | drivers/mtd/spi-nand/spi-nand-device.c:417-431 | descriptor becomes `Build(mode, Mt29fReadId(buf))` (read ID, 2 bytes) regardless of its previous contents, and is sent once |
| Device.SpiNandDevice.ReadId | drivers/mtd/spi-nand/spi-nand-device.c:401-431 | calling the installed `read_id` hook runs the matching variant's read ID: the descriptor becomes that variant's read-ID descriptor and is sent once |
| Ecc.Mt29fField | drivers/mtd/spi-nand/spi-nand-device.c:437-438 | the MT29F field `(status >> 4) & 3` is below 4 |
| Ecc.Gd5fField | drivers/mtd/spi-nand/spi-nand-device.c:449-450 | the GD5F field `(status >> 4) & 7` is below 8 |
| Ecc.Mt29fEccStatus | drivers/mtd/spi-nand/spi-nand-device.c:433-443 | `ecc_error` is 0 or 1, and 1 if and only if the field is 2; the count is left unwritten exactly when `ecc_error` is 1, and otherwise is 0, 1 or 3 |
| Ecc.Gd5fEccStatus | drivers/mtd/spi-nand/spi-nand-device.c:445-455 | `ecc_error` is 0 or 1, and 1 if and only if the field is 7; the count is left unwritten exactly when `ecc_error` is 1, and otherwise is 0 or between 4 and 8 |
| Ecc.EccStatus | drivers/mtd/spi-nand/spi-nand-device.c:492-505 | calling the `get_ecc_status` hook that probe installs: whichever decoder it is, the error flag is 0 or 1, set exactly for that decoder's uncorrectable field value (MT29F 2, GD5F 7), and the count is written exactly when the flag is clear |
| Ecc.Mt29fMatchesTable | drivers/mtd/spi-nand/spi-nand-device.c:437-442 | for every status, the MT29F decoder agrees with the table: field 0 gives 0 bits, field 1 gives 1, field 2 is uncorrectable, field 3 gives 3 |
| Ecc.Gd5fMatchesTable | drivers/mtd/spi-nand/spi-nand-device.c:449-454 | for every status, the GD5F decoder agrees with the table: fields 0 and 1 give 0 bits, fields 2..6 give 4..8, field 7 is uncorrectable |
| Ecc.DecodersReadOnlyTheirField | drivers/mtd/spi-nand/spi-nand-device.c:48-54 | only the field bits matter: any bits below bit 4 and above the field give the table's outcome for the field |
| Ecc.Gd5fCountMonotone | drivers/mtd/spi-nand/spi-nand-device.c:454 | for correctable GD5F fields, a larger field never reports fewer bits, and from field 2 upward distinct fields report distinct counts |
| Ecc.CorrectedAtMost8 | drivers/mtd/spi-nand/spi-nand-device.c:433-455 | neither decoder reports more than 8 corrected bits, and the MT29F decoder never more than 3 |
| FlashIds.Gd5fLayoutFits | drivers/mtd/spi-nand/spi-nand-device.c:56-77 | the GD5F layout lists 128 strictly increasing ECC positions inside a 256-byte spare area, clear of bytes 0..1 and of the free region 1..127 |
| FlashIds.Mt29fLayoutFits | drivers/mtd/spi-nand/spi-nand-device.c:79-87 | the MT29F layout lists 32 strictly increasing ECC positions inside a 64-byte spare area, clear of bytes 0..1 |
| FlashIds.TableConsistent | drivers/mtd/spi-nand/spi-nand-device.c:89-138 | each part's layout fits its spare area, each ID has `id_len` bytes and occurs once, and (all sizes positive) pages divide erase blocks, which divide the chip, while ECC steps divide pages |
| FlashIds.DecodersWithinStrength | drivers/mtd/spi-nand/spi-nand-device.c:98 | the GD5F decoder never reports more corrected bits than the strength of any GigaDevice part in the table (8), nor the MT29F decoder more than any Micron part's (4, line 122) |
| Probe.VariantHooks | drivers/mtd/spi-nand/spi-nand-device.c:492-505 | the switch succeeds if and only if the variant is MT29F or GD5F; MT29F installs the MT29F read-ID and decoder, GD5F the GD5F pair (never a mixed pair); anything else fails with -ENODEV |
| Probe.ProbeByName | drivers/mtd/spi-nand/spi-nand-device.c:525-530 | of the device names the driver binds to, "mt29f" and "gd5f" probe successfully and "spi-nand" (generic) is refused |
| Probe.DeviceProbe | drivers/mtd/spi-nand/spi-nand-device.c:457-514 | an unknown variant returns -ENODEV before registration is reached, and no device is returned; a known one installs that variant's hooks on a fresh, zeroed device bound to `spi` and returns what registration returned |
| Types.ToU32 | drivers/mtd/spi-nand/spi-nand-device.c:326 | assigning the `size_t` length to the `u32` length field gives the `u32` congruent to it modulo 2^32, and leaves it unchanged when it fits |
| Types.ToU32Agrees | drivers/mtd/spi-nand/spi-nand-device.c:326 | two lengths are stored as the same `u32` if and only if they agree modulo 2^32 |

## Left out

- `spi_message_init`, `spi_message_add_tail` and the SPI core behind `spi_sync` are an opaque transport: a log of messages and an unspecified status function. Bus locking and the atomicity of a message are concurrency concerns and are not modelled.
- Transport.SpiDevice.Sync: the bytes the bus shifts into receive buffers are unspecified. The model says only that receive buffers are the one thing a message may change.
- Transport.BufferPrefix: a logged transfer holds only the bytes read from its transmit buffer. A receive leg, or a transmit leg whose buffer is null, logs no bytes although the bus clocks out `len` of them. A transmit buffer shorter than `len` is logged short instead of being read past its end.
- Device.SpiNandDevice.ReadReg, Device.SpiNandDevice.ReadCache, Device.SpiNandDevice.Gd5fReadId, Device.SpiNandDevice.Mt29fReadId, Device.SpiNandDevice.ReadId: require the caller's receive buffer to be distinct from the device's own command bytes. The driver's callers always pass their own buffers, and the command bytes are private to the device.
- Commands.CmdState.CommandBytes: a command length above 5 cannot come from any builder. For such a length the model logs the 5 command bytes rather than reading past the array.
- `devm_kzalloc` failure (-ENOMEM) is not modelled: allocation always succeeds. `spi_set_drvdata` is not modelled either.
- `spi_nand_register` and `spi_nand_unregister` are foreign calls whose bodies are not part of this model. Registration's status is a parameter of `Probe.DeviceProbe`, and `spi_nand_device_remove` is not modelled.
- `module_spi_driver`, `MODULE_*`, `MODULE_DEVICE_TABLE` and the `spi_driver` structure are kernel glue. Only the name-to-variant table is kept.
- `dev_dbg` and `dev_err` logging is left out.
- The comment at lines 483-491 about detecting the dummy-byte ID layout is not implemented by the code, so it is not modelled. Both read-ID paths send one byte and expect two.
- The opcodes `FAST_READ_CACHE`, `READ_CACHE_DUAL_IO`, `READ_CACHE_QUAD_IO`, `PROGRAM_LOAD_RANDOM` and `PROGRAM_LOAD_RANDOM4` are declared as constants. No operation uses them.
- `struct nand_flash_dev` has more fields than the driver sets, and `id` is an 8-byte array whose unused bytes are zero. The model keeps only the fields set here, and the ID as its two given bytes.
