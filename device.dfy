/**
 * The device object: one reusable command descriptor per device, filled in
 * place by every operation and handed to `spi_nand_send_command`.
 */
module Device {
  import opened Types
  import opened Transport
  import opened Commands
  import opened Ecc

  /** The `read_id` hook probe installs. */
  datatype IdReader = Mt29fIdReader | Gd5fIdReader

  /** `struct spi_nand_device_cmd`, updated field by field. */
  class DeviceCmd {
    var nCmd: u32
    /** `u8 cmd[5]`: command, address and dummy bytes. */
    const cmd: array<u8>
    var nTx: u32
    var txBuf: array?<u8>
    var nRx: u32
    var rxBuf: array?<u8>
    var rxNbits: u8
    var txNbits: u8

    ghost predicate Valid()
      reads this
    {
      cmd.Length == 5
    }

    /** The bytes of the transmit buffer the data leg sends. */
    function Payload(): seq<u8>
      reads this, txBuf
    {
      BufferPrefix(txBuf, nTx as nat)
    }

    /** The descriptor's value. */
    function State(): CmdState
      reads this, cmd
      requires Valid()
    {
      CmdState(nCmd, [cmd[0], cmd[1], cmd[2], cmd[3], cmd[4]], nTx, txBuf, nRx, rxBuf, rxNbits, txNbits)
    }

    /** Allocated zeroed, as part of the zero-allocated device. */
    constructor ()
      ensures Valid() && fresh(cmd)
      ensures State() == Zeroed
    {
      cmd := new u8[5](_ => 0);
      nCmd, nTx, nRx := 0, 0, 0;
      txBuf, rxBuf := null, null;
      rxNbits, txNbits := 0, 0;
    }

    /** `memset(cmd, 0, sizeof(struct spi_nand_device_cmd))`. */
    method Clear()
      requires Valid()
      modifies this, cmd
      ensures Valid()
      ensures State() == Zeroed
    {
      nCmd := 0;
      forall i | 0 <= i < 5 {
        cmd[i] := 0;
      }
      nTx, txBuf := 0, null;
      nRx, rxBuf := 0, null;
      rxNbits, txNbits := 0, 0;
    }
  }

  /**
   * spi_nand_send_command: refuses an empty command, and one that would both
   * send and receive data, with -EINVAL and without touching the bus;
   * otherwise lays out the command leg and at most one data leg in a local
   * pair of transfers and passes them to `spi_sync` as one message.
   */
  method SendCommand(spi: SpiDevice, c: DeviceCmd) returns (r: int)
    requires c.Valid()
    modifies spi, if c.nRx != 0 then {c.rxBuf} else {}
    ensures !Accepts(old(c.State())) ==> r == -EINVAL && spi.sent == old(spi.sent)
    ensures !Accepts(old(c.State())) && c.rxBuf != null ==> unchanged(c.rxBuf)
    ensures Accepts(old(c.State())) ==>
      && spi.sent == old(spi.sent) + [old(Legs(c.State(), c.cmd, c.Payload()))]
      && r == spi.respond(old(spi.sent), old(Legs(c.State(), c.cmd, c.Payload())))
  {
    if c.nCmd == 0 {
      return -EINVAL;
    }
    if c.nTx != 0 && c.nRx != 0 {
      return -EINVAL;
    }

    var message: Transport.Message := [];
    var x := new Transfer[2](_ => ZeroTransfer);

    // Command and address
    x[0] := x[0].(len := c.nCmd, txBuf := c.cmd, txData := c.State().CommandBytes(), txNbits := c.txNbits);
    message := message + [x[0]];

    // Data to be transmitted
    if c.nTx != 0 {
      x[1] := x[1].(len := c.nTx, txBuf := c.txBuf, txData := c.Payload(), txNbits := c.txNbits);
      message := message + [x[1]];
    }

    // Data to be received
    if c.nRx != 0 {
      x[1] := x[1].(len := c.nRx, rxBuf := c.rxBuf, rxNbits := c.rxNbits);
      message := message + [x[1]];
    }

    assert message == Legs(c.State(), c.cmd, c.Payload());
    assert RxBuffers(message) <= {c.rxBuf};
    r := spi.Sync(message);
  }

  /** The operation each read-ID hook issues. */
  function ReadIdOp(reader: IdReader, buf: array?<u8>): (op: Op)
    ensures op.Gd5fReadId? || op.Mt29fReadId?
    ensures op.buf == buf
  {
    match reader
    case Mt29fIdReader => Op.Mt29fReadId(buf)
    case Gd5fIdReader => Op.Gd5fReadId(buf)
  }

  /** `struct spi_nand_device` with the hooks of its `struct spi_nand`. */
  class SpiNandDevice {
    const spi: SpiDevice
    const cmd: DeviceCmd
    /** `snand->read_id` and `snand->get_ecc_status`, unset until probe installs them. */
    var readId: Option<IdReader>
    var getEccStatus: Option<EccDecoder>

    ghost predicate Valid()
      reads this, cmd
    {
      cmd.Valid()
    }

    /**
     * The operation's descriptor was passed to the bus as one message right
     * after the messages in `before`, and `r` is the bus's answer to it.
     */
    ghost predicate Issued(before: seq<Transport.Message>, r: int)
      reads this, cmd, cmd.cmd, cmd.txBuf, spi
      requires Valid()
    {
      && Accepts(cmd.State())
      && spi.sent == before + [Legs(cmd.State(), cmd.cmd, cmd.Payload())]
      && r == spi.respond(before, Legs(cmd.State(), cmd.cmd, cmd.Payload()))
    }

    /**
     * `spi_nand_send_command(snand->spi, cmd)` on the device's own
     * descriptor, whose command bytes the bus does not overwrite.
     */
    method Send() returns (r: int)
      requires Valid() && Accepts(cmd.State()) && cmd.rxBuf != cmd.cmd
      modifies spi, cmd.rxBuf
      ensures Issued(old(spi.sent), r)
    {
      r := SendCommand(spi, cmd);
    }

    /** The zero-allocated device of `devm_kzalloc`, bound to `spi`. */
    constructor (spi: SpiDevice)
      ensures Valid() && fresh(cmd) && fresh(cmd.cmd)
      ensures this.spi == spi && readId == None && getEccStatus == None
      ensures cmd.State() == Zeroed
    {
      this.spi := spi;
      readId, getEccStatus := None, None;
      cmd := new DeviceCmd();
    }

    method Reset() returns (r: int)
      requires Valid()
      modifies cmd, cmd.cmd, spi
      ensures Valid()
      ensures cmd.State() == Build(spi.mode, Op.Reset)
      ensures Issued(old(spi.sent), r)
    {
      cmd.Clear();
      cmd.nCmd := 1;
      cmd.cmd[0] := RESET;
      assert cmd.State() == Build(spi.mode, Op.Reset);
      r := Send();
    }

    method ReadReg(opcode: u8, buf: array?<u8>) returns (r: int)
      requires Valid() && buf != cmd.cmd
      modifies cmd, cmd.cmd, spi, buf
      ensures Valid()
      ensures cmd.State() == Build(spi.mode, Op.ReadReg(opcode, buf))
      ensures Issued(old(spi.sent), r)
    {
      cmd.Clear();
      cmd.nCmd := 2;
      cmd.cmd[0] := GET_FEATURE;
      cmd.cmd[1] := opcode;
      cmd.nRx := 1;
      cmd.rxBuf := buf;
      assert cmd.State() == Build(spi.mode, Op.ReadReg(opcode, buf));
      r := Send();
    }

    method WriteReg(opcode: u8, buf: array?<u8>) returns (r: int)
      requires Valid()
      modifies cmd, cmd.cmd, spi
      ensures Valid()
      ensures cmd.State() == Build(spi.mode, Op.WriteReg(opcode, buf))
      ensures Issued(old(spi.sent), r)
    {
      cmd.Clear();
      cmd.nCmd := 2;
      cmd.cmd[0] := SET_FEATURE;
      cmd.cmd[1] := opcode;
      cmd.nTx := 1;
      cmd.txBuf := buf;
      assert cmd.State() == Build(spi.mode, Op.WriteReg(opcode, buf));
      r := Send();
    }

    method WriteEnable() returns (r: int)
      requires Valid()
      modifies cmd, cmd.cmd, spi
      ensures Valid()
      ensures cmd.State() == Build(spi.mode, Op.WriteEnable)
      ensures Issued(old(spi.sent), r)
    {
      cmd.Clear();
      cmd.nCmd := 1;
      cmd.cmd[0] := WRITE_ENABLE;
      assert cmd.State() == Build(spi.mode, Op.WriteEnable);
      r := Send();
    }

    method WriteDisable() returns (r: int)
      requires Valid()
      modifies cmd, cmd.cmd, spi
      ensures Valid()
      ensures cmd.State() == Build(spi.mode, Op.WriteDisable)
      ensures Issued(old(spi.sent), r)
    {
      cmd.Clear();
      cmd.nCmd := 1;
      cmd.cmd[0] := WRITE_DISABLE;
      assert cmd.State() == Build(spi.mode, Op.WriteDisable);
      r := Send();
    }

    method WritePage(pageAddr: u32) returns (r: int)
      requires Valid()
      modifies cmd, cmd.cmd, spi
      ensures Valid()
      ensures cmd.State() == Build(spi.mode, Op.WritePage(pageAddr))
      ensures Issued(old(spi.sent), r)
    {
      cmd.Clear();
      cmd.nCmd := 4;
      cmd.cmd[0] := PROGRAM_EXEC;
      var address := AddressBytes(pageAddr);
      cmd.cmd[1], cmd.cmd[2], cmd.cmd[3] := address[0], address[1], address[2];
      assert cmd.State() == Build(spi.mode, Op.WritePage(pageAddr));
      r := Send();
    }

    method StoreCache(pageOffset: u32, length: nat, writeBuf: array?<u8>) returns (r: int)
      requires Valid()
      modifies cmd, cmd.cmd, spi
      ensures Valid()
      ensures cmd.State() == Build(spi.mode, Op.StoreCache(pageOffset, length, writeBuf))
      ensures Issued(old(spi.sent), r)
    {
      cmd.Clear();
      cmd.nCmd := 3;
      cmd.cmd[0] := ProgramLoadOpcode(spi.mode);
      var offset := OffsetBytes(pageOffset);
      cmd.cmd[1], cmd.cmd[2] := offset[0], offset[1];
      cmd.nTx := ToU32(length);
      cmd.txBuf := writeBuf;
      cmd.txNbits := ProgramLoadWidth(spi.mode);
      assert cmd.State() == Build(spi.mode, Op.StoreCache(pageOffset, length, writeBuf));
      r := Send();
    }

    method LoadPage(pageAddr: u32) returns (r: int)
      requires Valid()
      modifies cmd, cmd.cmd, spi
      ensures Valid()
      ensures cmd.State() == Build(spi.mode, Op.LoadPage(pageAddr))
      ensures Issued(old(spi.sent), r)
    {
      cmd.Clear();
      cmd.nCmd := 4;
      cmd.cmd[0] := PAGE_READ;
      var address := AddressBytes(pageAddr);
      cmd.cmd[1], cmd.cmd[2], cmd.cmd[3] := address[0], address[1], address[2];
      assert cmd.State() == Build(spi.mode, Op.LoadPage(pageAddr));
      r := Send();
    }

    method ReadCache(pageOffset: u32, length: nat, readBuf: array?<u8>) returns (r: int)
      requires Valid() && readBuf != cmd.cmd
      modifies cmd, cmd.cmd, spi, readBuf
      ensures Valid()
      ensures cmd.State() == Build(spi.mode, Op.ReadCache(pageOffset, length, readBuf))
      ensures Issued(old(spi.sent), r)
    {
      cmd.Clear();
      cmd.nCmd := ReadCacheLength(spi.mode);
      cmd.cmd[0] := ReadCacheOpcode(spi.mode);
      cmd.cmd[1] := 0; // dummy byte
      var offset := OffsetBytes(pageOffset);
      cmd.cmd[2], cmd.cmd[3] := offset[0], offset[1];
      cmd.cmd[4] := 0; // dummy byte
      cmd.nRx := ToU32(length);
      cmd.rxBuf := readBuf;
      cmd.rxNbits := ReadCacheWidth(spi.mode);
      assert cmd.State() == Build(spi.mode, Op.ReadCache(pageOffset, length, readBuf));
      r := Send();
    }

    method BlockErase(pageAddr: u32) returns (r: int)
      requires Valid()
      modifies cmd, cmd.cmd, spi
      ensures Valid()
      ensures cmd.State() == Build(spi.mode, Op.BlockErase(pageAddr))
      ensures Issued(old(spi.sent), r)
    {
      cmd.Clear();
      cmd.nCmd := 4;
      cmd.cmd[0] := BLOCK_ERASE;
      var address := AddressBytes(pageAddr);
      cmd.cmd[1], cmd.cmd[2], cmd.cmd[3] := address[0], address[1], address[2];
      assert cmd.State() == Build(spi.mode, Op.BlockErase(pageAddr));
      r := Send();
    }

    method Gd5fReadId(buf: array?<u8>) returns (r: int)
      requires Valid() && buf != cmd.cmd
      modifies cmd, cmd.cmd, spi, buf
      ensures Valid()
      ensures cmd.State() == Build(spi.mode, Op.Gd5fReadId(buf))
      ensures Issued(old(spi.sent), r)
    {
      cmd.Clear();
      cmd.nCmd := 1;
      cmd.cmd[0] := READ_ID;
      cmd.nRx := GD5F_READID_LEN;
      cmd.rxBuf := buf;
      assert cmd.State() == Build(spi.mode, Op.Gd5fReadId(buf));
      r := Send();
    }

    method Mt29fReadId(buf: array?<u8>) returns (r: int)
      requires Valid() && buf != cmd.cmd
      modifies cmd, cmd.cmd, spi, buf
      ensures Valid()
      ensures cmd.State() == Build(spi.mode, Op.Mt29fReadId(buf))
      ensures Issued(old(spi.sent), r)
    {
      cmd.Clear();
      cmd.nCmd := 1;
      cmd.cmd[0] := READ_ID;
      cmd.nRx := MT29F_READID_LEN;
      cmd.rxBuf := buf;
      assert cmd.State() == Build(spi.mode, Op.Mt29fReadId(buf));
      r := Send();
    }

    /**
     * `snand->read_id(snand, buf)`: the hook probe installed issues its
     * vendor's read-ID command.
     */
    method ReadId(buf: array?<u8>) returns (r: int)
      requires Valid() && readId.Some? && buf != cmd.cmd
      modifies cmd, cmd.cmd, spi, buf
      ensures Valid()
      ensures cmd.State() == Build(spi.mode, ReadIdOp(readId.value, buf))
      ensures Issued(old(spi.sent), r)
    {
      match readId.value
      case Mt29fIdReader =>
        r := Mt29fReadId(buf);
      case Gd5fIdReader =>
        r := Gd5fReadId(buf);
    }
  }
}
