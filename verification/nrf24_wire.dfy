/**
 * The nRF24L01(+) wire contract used by the driver (canvas/src/nrf24.c):
 * SPI command opcodes (section 8.3.1 "SPI commands" of the nRF24L01+
 * Product Specification; ACTIVATE is from the nRF24L01 command table),
 * register addresses and bits (chapter 9 "Register map"), and the bytes
 * written by each bring-up step.
 */
module Nrf24Wire {
  import opened Base

  /** Bitwise OR of two bytes. */
  function Or(a: byte, b: byte): byte
  {
    ((a as bv8) | (b as bv8)) as int
  }

  /** Whether any bit of `mask` is set in `x`. */
  predicate AnySet(x: byte, mask: byte)
  {
    (x as bv8) & (mask as bv8) != 0
  }

  // SPI commands.
  /** W_REGISTER: 001A AAAA, write register A. */
  function WRegister(reg: byte): byte
  {
    Or(0x20, reg)
  }
  const R_RX_PAYLOAD: byte := 0x61
  const W_TX_PAYLOAD: byte := 0xA0
  const FLUSH_TX: byte := 0xE1
  const FLUSH_RX: byte := 0xE2
  const R_RX_PL_WID: byte := 0x60
  /** W_ACK_PAYLOAD for pipe 0: 1010 1PPP with PPP = 000. */
  const W_ACK_PAYLOAD_P0: byte := 0xA8
  const ACTIVATE: byte := 0x50
  const ACTIVATE_DATA: byte := 0x73
  const NOP: byte := 0xFF

  // Register addresses.
  const CONFIG: byte := 0x00
  const EN_AA: byte := 0x01
  const EN_RXADDR: byte := 0x02
  const SETUP_AW: byte := 0x03
  const SETUP_RETR: byte := 0x04
  const RF_CH: byte := 0x05
  const RF_SETUP: byte := 0x06
  const STATUS: byte := 0x07
  const RX_ADDR_P0: byte := 0x0A
  const TX_ADDR: byte := 0x10
  const DYNPD: byte := 0x1C
  const FEATURE: byte := 0x1D

  // CONFIG bits.
  const EN_CRC: byte := 0x08
  const CRC_2_BYTE: byte := 0x04
  const PWR_UP: byte := 0x02
  const PRIM_RX: byte := 0x01
  const PRIM_TX: byte := 0x00

  // Other register values the driver writes.
  const ENAA_P0: byte := 0x01
  const ERX_P0: byte := 0x01
  const AW_5_BYTES: byte := 0x03
  /** ARD(1) | ARC(10): 500 us retransmit delay, 10 retransmits. */
  const RETR_500US_10: byte := 0x1A
  /** SET_CH(50): 2450 MHz. */
  const CHANNEL_50: byte := 50
  const RF_DR_2MBPS: byte := 0x08
  const RF_PWR_0DBM: byte := 0x06
  const DPL_P0: byte := 0x01
  const EN_DPL: byte := 0x04
  const EN_ACK_PAY: byte := 0x02

  // STATUS bits.
  const RX_DR: byte := 0x40
  const TX_DS: byte := 0x20
  const MAX_RT: byte := 0x10

  /** NRF_ADDRESS: every byte of the 5-byte pipe-0 address. */
  const ADDRESS_BYTE: byte := 0xE7

  /** The bus clock polarity and phase the driver configures (NRF_SPI_CPOL, NRF_SPI_CPHA). */
  const SPI_CPOL: bool := false
  const SPI_CPHA: bool := false

  /** The CONFIG value: all interrupts enabled, 2-byte CRC, power state and role. */
  function ConfigValue(primRx: bool, powerUp: bool): byte
  {
    Or(Or(EN_CRC, CRC_2_BYTE), Or(if powerUp then PWR_UP else 0, if primRx then PRIM_RX else PRIM_TX))
  }

  /** The five-byte address after a register-write command. */
  function AddressWrite(reg: byte): seq<byte>
  {
    [WRegister(reg), ADDRESS_BYTE, ADDRESS_BYTE, ADDRESS_BYTE, ADDRESS_BYTE, ADDRESS_BYTE]
  }

  /** W_REGISTER | STATUS: the command byte of every STATUS write. */
  const WRITE_STATUS: byte := 0x27
  /** TX_DS | RX_DR: the bits written back to STATUS to clear both. */
  const TX_DS_RX_DR: byte := 0x60

  /** The two STATUS-write constants are the compositions of the register map they stand for. */
  lemma StatusWriteBytes()
    ensures WRegister(STATUS) == WRITE_STATUS && Or(TX_DS, RX_DR) == TX_DS_RX_DR
  {
  }

  /**
   * The bytes sent by bring-up step `step` (0 to 15), as wire bytes:
   * single-register writes are two bytes, the two address writes six, the
   * two FIFO flushes one. `InitPacketNamed` states the register, command
   * and value each byte is composed of.
   */
  function InitPacket(step: nat, primRx: bool): (p: seq<byte>)
    requires step < 16
    ensures |p| == InitPacketLength(step)
  {
    match step
    case 0 => [0x20, if primRx then 0x0D else 0x0C]
    case 1 => [0x21, 0x01]
    case 2 => [0x22, 0x01]
    case 3 => [0x23, 0x03]
    case 4 => [0x24, 0x1A]
    case 5 => [0x25, 0x32]
    case 6 => [0x26, 0x0E]
    case 7 => [0x2A, 0xE7, 0xE7, 0xE7, 0xE7, 0xE7]
    case 8 => [0x30, 0xE7, 0xE7, 0xE7, 0xE7, 0xE7]
    case 9 => [0x3C, 0x01]
    case 10 => [0x50, 0x73]
    case 11 => [0x3D, 0x06]
    case 12 => [0x27, 0x70]
    case 13 => [0xE1]
    case 14 => [0xE2]
    case 15 => [0x20, if primRx then 0x0F else 0x0E]
  }

  /** The length of bring-up step `step`'s packet: the address writes are six bytes, the flushes one, the rest two. */
  function InitPacketLength(step: nat): nat
  {
    if step == 7 || step == 8 then 6 else if step == 13 || step == 14 then 1 else 2
  }

  /**
   * Each bring-up packet is the command and value the driver composes from
   * the register map: CONFIG powered down, auto-ack and RX address for pipe
   * 0, 5-byte addresses, retransmit set-up, channel, data rate and power,
   * the two pipe-0 addresses, dynamic payload length, ACTIVATE, FEATURE,
   * clearing the interrupt bits, the two FIFO flushes, CONFIG powered up.
   */
  lemma InitPacketNamed(step: nat, primRx: bool)
    requires step < 16
    ensures step == 0 ==> InitPacket(step, primRx) == [WRegister(CONFIG), ConfigValue(primRx, false)]
    ensures step == 1 ==> InitPacket(step, primRx) == [WRegister(EN_AA), ENAA_P0]
    ensures step == 2 ==> InitPacket(step, primRx) == [WRegister(EN_RXADDR), ERX_P0]
    ensures step == 3 ==> InitPacket(step, primRx) == [WRegister(SETUP_AW), AW_5_BYTES]
    ensures step == 4 ==> InitPacket(step, primRx) == [WRegister(SETUP_RETR), RETR_500US_10]
    ensures step == 5 ==> InitPacket(step, primRx) == [WRegister(RF_CH), CHANNEL_50]
    ensures step == 6 ==> InitPacket(step, primRx) == [WRegister(RF_SETUP), Or(RF_DR_2MBPS, RF_PWR_0DBM)]
    // The source first stores RF_DR_2MBPS | RF_PWR_0DBM at position 1 of the
    // TX_ADDR packet and then overwrites it with the address byte; only the
    // latter is sent.
    ensures step == 7 ==> InitPacket(step, primRx) == AddressWrite(RX_ADDR_P0)
    ensures step == 8 ==> InitPacket(step, primRx) == AddressWrite(TX_ADDR)
    ensures step == 9 ==> InitPacket(step, primRx) == [WRegister(DYNPD), DPL_P0]
    ensures step == 10 ==> InitPacket(step, primRx) == [ACTIVATE, ACTIVATE_DATA]
    ensures step == 11 ==> InitPacket(step, primRx) == [WRegister(FEATURE), Or(EN_DPL, EN_ACK_PAY)]
    ensures step == 12 ==> InitPacket(step, primRx) == [WRegister(STATUS), Or(Or(MAX_RT, TX_DS), RX_DR)]
    ensures step == 13 ==> InitPacket(step, primRx) == [FLUSH_TX]
    ensures step == 14 ==> InitPacket(step, primRx) == [FLUSH_RX]
    ensures step == 15 ==> InitPacket(step, primRx) == [WRegister(CONFIG), ConfigValue(primRx, true)]
  {
  }
}
