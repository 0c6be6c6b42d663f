/**
 * The command descriptor (`struct spi_nand_device_cmd`) each SPI NAND
 * operation fills in, the validation and leg layout that
 * `spi_nand_send_command` applies to it, and the layout lemmas.
 */
module Commands {
  import opened Types
  import opened Transport

  // SPI NAND opcodes.
  const WRITE_ENABLE: u8 := 0x06
  const WRITE_DISABLE: u8 := 0x04
  const GET_FEATURE: u8 := 0x0f
  const SET_FEATURE: u8 := 0x1f
  const PAGE_READ: u8 := 0x13
  const READ_CACHE: u8 := 0x03
  const FAST_READ_CACHE: u8 := 0x0b
  const READ_CACHE_X2: u8 := 0x3b
  const READ_CACHE_X4: u8 := 0x6b
  const READ_CACHE_DUAL_IO: u8 := 0xbb
  const READ_CACHE_QUAD_IO: u8 := 0xeb
  const READ_ID: u8 := 0x9f
  const PROGRAM_LOAD: u8 := 0x02
  const PROGRAM_LOAD4: u8 := 0x32
  const PROGRAM_EXEC: u8 := 0x10
  const PROGRAM_LOAD_RANDOM: u8 := 0x84
  const PROGRAM_LOAD_RANDOM4: u8 := 0xc4
  const BLOCK_ERASE: u8 := 0xd8
  const RESET: u8 := 0xff

  // Length of the ID each vendor's read_id asks for.
  const GD5F_READID_LEN: u32 := 2
  const MT29F_READID_LEN: u32 := 2

  // Bits of a SPI device's mode word (Linux values).
  const SPI_TX_QUAD: nat := 0x200
  const SPI_RX_DUAL: nat := 0x400
  const SPI_RX_QUAD: nat := 0x800

  const EINVAL: int := 22

  /** The `u8 cmd[5]` buffer of a descriptor. */
  type CmdBytes = s: seq<u8> | |s| == 5 witness [0, 0, 0, 0, 0]

  /** The value of a `struct spi_nand_device_cmd`. */
  datatype CmdState = CmdState(
    nCmd: u32, cmd: CmdBytes,
    nTx: u32, txBuf: array?<u8>,
    nRx: u32, rxBuf: array?<u8>,
    rxNbits: u8, txNbits: u8)
  {
    /**
     * The bytes the command leg transmits: the first `nCmd` of `cmd` (all
     * five when `nCmd` overruns the buffer).
     */
    function CommandBytes(): seq<u8>
    {
      if nCmd <= 5 then cmd[..nCmd] else cmd
    }
  }

  /** A descriptor after `memset(cmd, 0, sizeof(struct spi_nand_device_cmd))`. */
  const Zeroed := CmdState(0, [0, 0, 0, 0, 0], 0, null, 0, null, 0, 0)

  /** The operations of the command layer, with their arguments. */
  datatype Op =
    | Reset
    | ReadReg(reg: u8, buf: array?<u8>)
    | WriteReg(reg: u8, buf: array?<u8>)
    | WriteEnable
    | WriteDisable
    | WritePage(pageAddr: u32)
    | StoreCache(pageOffset: u32, length: nat, buf: array?<u8>)
    | LoadPage(pageAddr: u32)
    | ReadCache(pageOffset: u32, length: nat, buf: array?<u8>)
    | BlockErase(pageAddr: u32)
    | Gd5fReadId(buf: array?<u8>)
    | Mt29fReadId(buf: array?<u8>)

  /** `(u8)((page_addr & 0xff0000) >> 16)`, `... 0xff00) >> 8)`, `(u8)(page_addr & 0xff)`. */
  function AddressBytes(pageAddr: u32): (b: seq<u8>)
    ensures |b| == 3
  {
    [((pageAddr as int / 0x1_0000) % 0x100) as u8,
     ((pageAddr as int / 0x100) % 0x100) as u8,
     (pageAddr as int % 0x100) as u8]
  }

  /** `(u8)((page_offset & 0xff00) >> 8)`, `(u8)(page_offset & 0xff)`. */
  function OffsetBytes(pageOffset: u32): (b: seq<u8>)
    ensures |b| == 2
  {
    [((pageOffset as int / 0x100) % 0x100) as u8, (pageOffset as int % 0x100) as u8]
  }

  /** A one-byte command: reset, write enable, write disable, read ID. */
  function SingleByte(opcode: u8): CmdState
  {
    Zeroed.(nCmd := 1, cmd := [opcode, 0, 0, 0, 0])
  }

  /** Get or set feature: the opcode, then the feature register's address. */
  function FeatureAccess(opcode: u8, reg: u8): CmdState
  {
    Zeroed.(nCmd := 2, cmd := [opcode, reg, 0, 0, 0])
  }

  /** The descriptor of a command that is an opcode and a 24-bit page address. */
  function PageAddressed(opcode: u8, pageAddr: u32): CmdState
  {
    var address := AddressBytes(pageAddr);
    Zeroed.(nCmd := 4, cmd := [opcode, address[0], address[1], address[2], 0])
  }

  /** store_cache's opcode: `(spi->mode & SPI_TX_QUAD) ? PROGRAM_LOAD4 : PROGRAM_LOAD`. */
  function ProgramLoadOpcode(mode: nat): u8
  {
    if HasFlag(mode, SPI_TX_QUAD) then PROGRAM_LOAD4 else PROGRAM_LOAD
  }

  /** store_cache's `tx_nbits`: 4 with SPI_TX_QUAD, otherwise 1. */
  function ProgramLoadWidth(mode: nat): u8
  {
    if HasFlag(mode, SPI_TX_QUAD) then 4 else 1
  }

  /** read_cache's `n_cmd`: 5 (a trailing dummy byte) with dual or quad receive, otherwise 4. */
  function ReadCacheLength(mode: nat): u32
  {
    if HasFlag(mode, SPI_RX_DUAL) || HasFlag(mode, SPI_RX_QUAD) then 5 else 4
  }

  /** read_cache's opcode: quad before dual before the plain read. */
  function ReadCacheOpcode(mode: nat): u8
  {
    if HasFlag(mode, SPI_RX_QUAD) then READ_CACHE_X4
    else if HasFlag(mode, SPI_RX_DUAL) then READ_CACHE_X2
    else READ_CACHE
  }

  /** read_cache's `rx_nbits`: 4, 2 or 1, chosen as the opcode is. */
  function ReadCacheWidth(mode: nat): u8
  {
    if HasFlag(mode, SPI_RX_QUAD) then 4 else if HasFlag(mode, SPI_RX_DUAL) then 2 else 1
  }

  /** store_cache: program load of `length` bytes at a column offset. */
  function StoreCacheCmd(mode: nat, pageOffset: u32, length: nat, buf: array?<u8>): CmdState
  {
    var offset := OffsetBytes(pageOffset);
    Zeroed.(nCmd := 3, cmd := [ProgramLoadOpcode(mode), offset[0], offset[1], 0, 0],
            nTx := ToU32(length), txBuf := buf, txNbits := ProgramLoadWidth(mode))
  }

  /** read_cache: read `length` bytes from a column offset, one dummy byte before it. */
  function ReadCacheCmd(mode: nat, pageOffset: u32, length: nat, buf: array?<u8>): CmdState
  {
    var offset := OffsetBytes(pageOffset);
    Zeroed.(nCmd := ReadCacheLength(mode), cmd := [ReadCacheOpcode(mode), 0, offset[0], offset[1], 0],
            nRx := ToU32(length), rxBuf := buf, rxNbits := ReadCacheWidth(mode))
  }

  /**
   * The descriptor each operation leaves in the device's command buffer. The
   * previous contents play no part: every builder starts from `Zeroed`.
   */
  function Build(mode: nat, op: Op): (c: CmdState)
    ensures Accepts(c) && c.nCmd <= 5
  {
    match op
    case Reset => SingleByte(RESET)
    case ReadReg(reg, buf) => FeatureAccess(GET_FEATURE, reg).(nRx := 1, rxBuf := buf)
    case WriteReg(reg, buf) => FeatureAccess(SET_FEATURE, reg).(nTx := 1, txBuf := buf)
    case WriteEnable => SingleByte(WRITE_ENABLE)
    case WriteDisable => SingleByte(WRITE_DISABLE)
    case WritePage(pageAddr) => PageAddressed(PROGRAM_EXEC, pageAddr)
    case StoreCache(pageOffset, length, buf) => StoreCacheCmd(mode, pageOffset, length, buf)
    case LoadPage(pageAddr) => PageAddressed(PAGE_READ, pageAddr)
    case ReadCache(pageOffset, length, buf) => ReadCacheCmd(mode, pageOffset, length, buf)
    case BlockErase(pageAddr) => PageAddressed(BLOCK_ERASE, pageAddr)
    case Gd5fReadId(buf) => SingleByte(READ_ID).(nRx := GD5F_READID_LEN, rxBuf := buf)
    case Mt29fReadId(buf) => SingleByte(READ_ID).(nRx := MT29F_READID_LEN, rxBuf := buf)
  }

  /**
   * The descriptors `spi_nand_send_command` passes on: a non-empty command
   * that does not both transmit and receive data.
   */
  predicate Accepts(c: CmdState)
  {
    c.nCmd != 0 && !(c.nTx != 0 && c.nRx != 0)
  }

  /**
   * The message `spi_nand_send_command` gives to `spi_sync` for an accepted
   * descriptor whose command bytes live in `cmdBuf`; `payload` is what the
   * transmit buffer holds (its first `n_tx` bytes).
   */
  function Legs(c: CmdState, cmdBuf: array<u8>, payload: seq<u8>): (m: Transport.Message)
    requires Accepts(c)
    ensures 1 <= |m| <= 2
    ensures m[0] == ZeroTransfer.(len := c.nCmd, txBuf := cmdBuf, txData := c.CommandBytes(), txNbits := c.txNbits)
    ensures |m| == 2 <==> c.nTx != 0 || c.nRx != 0
    ensures c.nTx != 0 ==>
      m[1] == ZeroTransfer.(len := c.nTx, txBuf := c.txBuf, txData := payload, txNbits := c.txNbits)
    ensures c.nRx != 0 ==> m[1] == ZeroTransfer.(len := c.nRx, rxBuf := c.rxBuf, rxNbits := c.rxNbits)
  {
    var command := ZeroTransfer.(len := c.nCmd, txBuf := cmdBuf, txData := c.CommandBytes(), txNbits := c.txNbits);
    if c.nTx != 0 then [command, ZeroTransfer.(len := c.nTx, txBuf := c.txBuf, txData := payload, txNbits := c.txNbits)]
    else if c.nRx != 0 then [command, ZeroTransfer.(len := c.nRx, rxBuf := c.rxBuf, rxNbits := c.rxNbits)]
    else [command]
  }

  // ---------------------------------------------------------------------
  // Address and offset packing

  lemma {:induction false} BigEndianOf3(b: seq<u8>)
    requires |b| == 3
    ensures BigEndian(b) == (b[0] as nat * 0x100 + b[1] as nat) * 0x100 + b[2] as nat
  {
    calc {
      BigEndian(b);
      BigEndian(b[..2]) * 0x100 + b[2] as nat;
      { BigEndianOf2(b[..2]); }
      (b[0] as nat * 0x100 + b[1] as nat) * 0x100 + b[2] as nat;
    }
  }

  lemma {:induction false} BigEndianOf2(b: seq<u8>)
    requires |b| == 2
    ensures BigEndian(b) == b[0] as nat * 0x100 + b[1] as nat
  {
    var p := b[..1];
    assert p[..0] == [];
    assert BigEndian(p) == b[0] as nat;
  }

  /**
   * Division by 2^8 or 2^16 is determined by any decomposition
   * `x == q * d + r` with `0 <= r < d`.
   */
  lemma DivModUnique(x: int, d: int, q: int, r: int)
    requires d == 0x100 || d == 0x1_0000
    requires 0 <= r < d && x == q * d + r
    ensures x / d == q && x % d == r
  {
    if d == 0x100 {
      assert x == q * 0x100 + r;
    } else {
      assert x == q * 0x1_0000 + r;
    }
  }

  /** The three address bytes are the base-256 digits of the address modulo 2^24. */
  lemma AddressDigits(pageAddr: u32)
    ensures var s := AddressBytes(pageAddr);
      s[0] as nat * 0x1_0000 + s[1] as nat * 0x100 + s[2] as nat == pageAddr as nat % 0x100_0000
  {
    var a := pageAddr as nat;
    var q, r := a / 0x100_0000, a % 0x100_0000;
    var b0, rest := r / 0x1_0000, r % 0x1_0000;
    var b1, b2 := rest / 0x100, rest % 0x100;
    assert a == (q * 0x100 + b0) * 0x1_0000 + rest;
    DivModUnique(a, 0x1_0000, q * 0x100 + b0, rest);
    DivModUnique(q * 0x100 + b0, 0x100, q, b0);
    assert a == (q * 0x1_0000 + b0 * 0x100 + b1) * 0x100 + b2;
    DivModUnique(a, 0x100, q * 0x1_0000 + b0 * 0x100 + b1, b2);
    DivModUnique(q * 0x1_0000 + b0 * 0x100 + b1, 0x100, q * 0x100 + b0, b1);
  }

  /** Reading the three address bytes back big-endian gives the address modulo 2^24. */
  lemma {:induction false} AddressRoundTrip(pageAddr: u32)
    ensures BigEndian(AddressBytes(pageAddr)) == pageAddr as nat % 0x100_0000
  {
    BigEndianOf3(AddressBytes(pageAddr));
    AddressDigits(pageAddr);
  }

  /** Reading the two offset bytes back big-endian gives the offset modulo 2^16. */
  lemma {:induction false} OffsetRoundTrip(pageOffset: u32)
    ensures BigEndian(OffsetBytes(pageOffset)) == pageOffset as nat % 0x1_0000
  {
    var a := pageOffset as nat;
    BigEndianOf2(OffsetBytes(pageOffset));
    var q := a / 0x1_0000;
    var r := a % 0x1_0000;
    assert a == q * 0x1_0000 + r;
    assert a / 0x100 == q * 0x100 + r / 0x100;
    assert a % 0x100 == r % 0x100;
  }

  /**
   * The address bytes depend on the address modulo 2^24 only, and determine
   * it: two page addresses give the same bytes exactly when they agree on
   * their low 24 bits. Higher bits are dropped, not rejected.
   */
  lemma {:induction false} AddressBytesExact(a: u32, b: u32)
    ensures AddressBytes(a) == AddressBytes(b) <==> a as nat % 0x100_0000 == b as nat % 0x100_0000
  {
    AddressDigits(a);
    AddressDigits(b);
    var sa, sb := AddressBytes(a), AddressBytes(b);
    if a as nat % 0x100_0000 == b as nat % 0x100_0000 {
      var x := a as nat % 0x100_0000;
      DivModUnique(x, 0x1_0000, sa[0] as nat, sa[1] as nat * 0x100 + sa[2] as nat);
      DivModUnique(x, 0x1_0000, sb[0] as nat, sb[1] as nat * 0x100 + sb[2] as nat);
      var y := x % 0x1_0000;
      DivModUnique(y, 0x100, sa[1] as nat, sa[2] as nat);
      DivModUnique(y, 0x100, sb[1] as nat, sb[2] as nat);
      assert sa[0] == sb[0] && sa[1] == sb[1] && sa[2] == sb[2];
    }
  }

  // ---------------------------------------------------------------------
  // Layout of each operation's command

  /**
   * write_page, load_page and block_erase send exactly four command bytes,
   * the opcode (0x10, 0x13, 0xd8) then the page address most significant
   * byte first, and no data; the bytes read back give the address mod 2^24.
   */
  lemma PageAddressedLayout(mode: nat, op: Op)
    requires op.WritePage? || op.LoadPage? || op.BlockErase?
    ensures var c := Build(mode, op);
      && c.nCmd == 4 && c.nTx == 0 && c.nRx == 0
      && c.CommandBytes()[0] == (if op.WritePage? then PROGRAM_EXEC else if op.LoadPage? then PAGE_READ else BLOCK_ERASE)
      && c.CommandBytes()[1..] == AddressBytes(op.pageAddr)
      && BigEndian(c.CommandBytes()[1..]) == op.pageAddr as nat % 0x100_0000
      && c.txNbits == 0 && c.rxNbits == 0
  {
    var c := Build(mode, op);
    assert c.CommandBytes()[1..] == AddressBytes(op.pageAddr);
    AddressRoundTrip(op.pageAddr);
  }

  /**
   * The bus log identifies the page: the command leg logged for write_page,
   * load_page or block_erase carries four bytes whose last three read back as
   * the page address modulo 2^24.
   */
  lemma LoggedPageAddress(mode: nat, op: Op, cmdBuf: array<u8>, payload: seq<u8>)
    requires op.WritePage? || op.LoadPage? || op.BlockErase?
    ensures var m := Legs(Build(mode, op), cmdBuf, payload);
      && |m| == 1 && |m[0].txData| == 4
      && BigEndian(m[0].txData[1..]) == op.pageAddr as nat % 0x100_0000
  {
    PageAddressedLayout(mode, op);
  }

  /**
   * store_cache sends three command bytes, the program-load opcode and the
   * column offset most significant byte first, then `length` bytes of data;
   * it uses the quad opcode 0x32 and 4 lanes exactly when the mode has
   * SPI_TX_QUAD, and otherwise 0x02 and one lane.
   */
  lemma StoreCacheLayout(mode: nat, pageOffset: u32, length: nat, buf: array?<u8>)
    ensures var c := Build(mode, StoreCache(pageOffset, length, buf));
      && c.nCmd == 3 && c.nRx == 0
      && ((c.cmd[0] == PROGRAM_LOAD4 && c.txNbits == 4) <==> HasFlag(mode, SPI_TX_QUAD))
      && ((c.cmd[0] == PROGRAM_LOAD && c.txNbits == 1) <==> !HasFlag(mode, SPI_TX_QUAD))
      && BigEndian(c.CommandBytes()[1..]) == pageOffset as nat % 0x1_0000
      && c.nTx as nat == length % U32_RANGE && c.txBuf == buf
      && c.cmd[3] == 0 && c.cmd[4] == 0
  {
    var c := Build(mode, StoreCache(pageOffset, length, buf));
    assert c.CommandBytes()[1..] == OffsetBytes(pageOffset);
    OffsetRoundTrip(pageOffset);
  }

  /**
   * read_cache: quad takes priority over dual; the opcode is 0x6b, 0x3b or
   * 0x03 and the receive width 4, 2 or 1; a fifth, trailing dummy byte is
   * sent exactly when dual or quad receive is on. Byte 1 is a dummy and
   * bytes 2..3 are the column offset, most significant first.
   */
  lemma ReadCacheLayout(mode: nat, pageOffset: u32, length: nat, buf: array?<u8>)
    ensures var c := Build(mode, ReadCache(pageOffset, length, buf));
      && (HasFlag(mode, SPI_RX_QUAD) ==> c.cmd[0] == READ_CACHE_X4 && c.rxNbits == 4)
      && (!HasFlag(mode, SPI_RX_QUAD) && HasFlag(mode, SPI_RX_DUAL) ==> c.cmd[0] == READ_CACHE_X2 && c.rxNbits == 2)
      && (!HasFlag(mode, SPI_RX_QUAD) && !HasFlag(mode, SPI_RX_DUAL) ==> c.cmd[0] == READ_CACHE && c.rxNbits == 1)
      && (c.nCmd == 5 <==> HasFlag(mode, SPI_RX_DUAL) || HasFlag(mode, SPI_RX_QUAD))
      && (c.nCmd == 4 <==> !HasFlag(mode, SPI_RX_DUAL) && !HasFlag(mode, SPI_RX_QUAD))
      && c.cmd[1] == 0 && c.cmd[4] == 0
      && BigEndian(c.cmd[2..4]) == pageOffset as nat % 0x1_0000
      && c.nRx as nat == length % U32_RANGE && c.rxBuf == buf && c.nTx == 0
      && c.txNbits == 0
  {
    var c := Build(mode, ReadCache(pageOffset, length, buf));
    assert c.cmd[2..4] == OffsetBytes(pageOffset);
    OffsetRoundTrip(pageOffset);
  }

  /**
   * The commands of fixed layout: reset, write enable/disable, the feature
   * register accesses (one data byte) and both read-ID variants (two bytes).
   */
  lemma FixedLayouts(mode: nat, op: Op)
    ensures var c := Build(mode, op);
      && (op.Reset? ==> c.CommandBytes() == [RESET] && c.nTx == c.nRx == 0)
      && (op.WriteEnable? ==> c.CommandBytes() == [WRITE_ENABLE] && c.nTx == c.nRx == 0)
      && (op.WriteDisable? ==> c.CommandBytes() == [WRITE_DISABLE] && c.nTx == c.nRx == 0)
      && (op.ReadReg? ==> c.CommandBytes() == [GET_FEATURE, op.reg] && c.nRx == 1 && c.nTx == 0 && c.rxBuf == op.buf)
      && (op.WriteReg? ==> c.CommandBytes() == [SET_FEATURE, op.reg] && c.nTx == 1 && c.nRx == 0 && c.txBuf == op.buf)
      && (op.Gd5fReadId? || op.Mt29fReadId? ==> c.CommandBytes() == [READ_ID] && c.nRx == 2 && c.nTx == 0 && c.rxBuf == op.buf)
  {
  }

  /**
   * What goes on the bus for each operation: the command leg first, then a
   * data leg only for the operations that carry data, in the one direction
   * the operation names. No operation is ever refused by send_command.
   */
  lemma MessageShape(mode: nat, op: Op, cmdBuf: array<u8>, payload: seq<u8>)
    ensures var c := Build(mode, op);
      && Accepts(c)
      && var m := Legs(c, cmdBuf, payload);
      && m[0].len == c.nCmd && m[0].txBuf == cmdBuf && m[0].rxBuf == null
      && m[0].txData == c.cmd[..c.nCmd]
      && (|m| == 1 <==> (op.Reset? || op.WriteEnable? || op.WriteDisable?
                         || op.WritePage? || op.LoadPage? || op.BlockErase?
                         || (op.StoreCache? && op.length % U32_RANGE == 0)
                         || (op.ReadCache? && op.length % U32_RANGE == 0)))
      && (|m| == 2 && (op.WriteReg? || op.StoreCache?) ==>
            m[1].txBuf == op.buf && m[1].txData == payload && m[1].rxBuf == null)
      && (|m| == 2 && !(op.WriteReg? || op.StoreCache?) ==> m[1].rxBuf == op.buf && m[1].txBuf == null)
  {
  }

  /**
   * The command leg is sent at the width in `tx_nbits`: 4 lanes for a quad
   * store_cache, 1 for a single-lane one, and 0 (the zeroed value) for every
   * other operation, read_cache included.
   */
  lemma CommandLegWidth(mode: nat, op: Op, cmdBuf: array<u8>, payload: seq<u8>)
    ensures var m := Legs(Build(mode, op), cmdBuf, payload);
      && (m[0].txNbits == 4 <==> op.StoreCache? && HasFlag(mode, SPI_TX_QUAD))
      && (m[0].txNbits == 1 <==> op.StoreCache? && !HasFlag(mode, SPI_TX_QUAD))
      && (m[0].txNbits == 0 <==> !op.StoreCache?)
  {
  }

  /** Two worked examples: erasing the block of page 0x012345, and reading feature register 0xc0. */
  lemma Examples(mode: nat, buf: array?<u8>)
    ensures var c := Build(mode, BlockErase(0x01_2345));
      c.CommandBytes() == [BLOCK_ERASE, 0x01, 0x23, 0x45] && c.nTx == 0 && c.nRx == 0
    ensures var c := Build(mode, ReadReg(0xc0, buf));
      c.CommandBytes() == [GET_FEATURE, 0xc0] && c.nRx == 1 && c.nTx == 0
  {
  }
}
