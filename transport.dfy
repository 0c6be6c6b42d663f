/**
 * The SPI core as the driver sees it: a message is an ordered list of
 * transfers (`struct spi_transfer`), and `spi_sync` hands it to the bus and
 * returns the bus's status. The bus is opaque: its answer is a fixed but
 * unknown function of the messages it has seen so far and the new one, and
 * it may write anything into the receive buffers of the message.
 */
module Transport {
  import opened Types

  /**
   * One leg of a message: `len` bytes sent from `txBuf` and/or received into
   * `rxBuf`, each direction with its lane width (`tx_nbits`, `rx_nbits`).
   * `txData` holds the bytes the leg shifts out, as they were when the
   * message was handed to the bus.
   */
  datatype Transfer = Transfer(
    len: u32, txBuf: array?<u8>, rxBuf: array?<u8>, txData: seq<u8>, txNbits: u8, rxNbits: u8)

  type Message = seq<Transfer>

  /** A transfer after `memset(x, 0, sizeof(x))`. */
  const ZeroTransfer := Transfer(0, null, null, [], 0, 0)

  /**
   * The first `n` bytes of `buf`, or as many as it has; nothing for a null
   * buffer.
   */
  function BufferPrefix(buf: array?<u8>, n: nat): (s: seq<u8>)
    reads buf
    ensures |s| <= n
    ensures n == 0 ==> s == []
  {
    if buf == null then [] else buf[..if n <= buf.Length then n else buf.Length]
  }

  /** The buffers the bus may write while it carries `message`. */
  function RxBuffers(message: Message): set<array<u8>>
  {
    set t | t in message && t.rxBuf != null :: t.rxBuf
  }

  /** `struct spi_device`: the mode word and the transport behind `spi_sync`. */
  class SpiDevice {
    /** `spi->mode`: SPI_TX_QUAD, SPI_RX_DUAL, SPI_RX_QUAD, ... */
    const mode: nat
    /** The bus's answer to a message, given the messages sent before it. */
    const respond: (seq<Message>, Message) -> int
    /** Every message that reached `spi_sync`, oldest first. */
    var sent: seq<Message>

    constructor (mode: nat, respond: (seq<Message>, Message) -> int)
      ensures this.mode == mode && this.respond == respond && sent == []
    {
      this.mode := mode;
      this.respond := respond;
      sent := [];
    }

    /**
     * `spi_sync`: one synchronous round trip of `message` on the bus. The
     * receive buffers of its legs may be overwritten with anything; no other
     * memory changes.
     */
    method Sync(message: Message) returns (status: int)
      modifies this, RxBuffers(message)
      ensures sent == old(sent) + [message]
      ensures status == respond(old(sent), message)
    {
      status := respond(sent, message);
      sent := sent + [message];
    }
  }
}
