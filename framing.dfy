/** Single-access framing of the SX1276/RFM95 SPI register interface.

    Every register access is a two-byte frame. Bit 7 of the first byte is the
    access direction (1 = write, 0 = read) and bits 0-6 are the register
    address. The second byte is the value to write, or a dummy byte while the
    chip shifts the register's value out. */
module Framing {

  /** The two registers the bring-up touches. */
  const RegOpMode: bv8 := 0x01
  const RegVersion: bv8 := 0x42

  /** Second byte of a read frame: only there to clock the reply in. */
  const DummyByte: bv8 := 0x00

  const WriteFlag: bv8 := 0x80
  const AddressMask: bv8 := 0x7F

  /** Bit i (0 = least significant) of a byte. */
  predicate Bit(b: bv8, i: nat)
    requires i < 8
  {
    (b >> i) & 1 == 1
  }

  /** How the chip reads the first byte of a frame: the direction flag ... */
  predicate IsWrite(b: bv8) {
    b & WriteFlag != 0
  }

  /** ... and the register it addresses. */
  function AddressOf(b: bv8): bv8 {
    b & AddressMask
  }

  /** First byte of a write frame (`reg | 0x80`). */
  function WriteAddress(reg: bv8): (b: bv8)
    ensures IsWrite(b)
    ensures AddressOf(b) == AddressOf(reg)
  {
    reg | WriteFlag
  }

  /** First byte of a read frame (`reg & 0x7F`). */
  function ReadAddress(reg: bv8): (b: bv8)
    ensures !IsWrite(b)
    ensures AddressOf(b) == AddressOf(reg)
    ensures reg <= AddressMask ==> b == reg
  {
    reg & AddressMask
  }

  /** The bytes a register write transmits. */
  function WriteFrame(reg: bv8, value: bv8): (f: seq<bv8>)
    ensures |f| == 2
    ensures IsWrite(f[0]) && AddressOf(f[0]) == AddressOf(reg)
    ensures f[1] == value
  {
    [WriteAddress(reg), value]
  }

  /** The bytes a register read transmits. */
  function ReadFrame(reg: bv8): (f: seq<bv8>)
    ensures |f| == 2
    ensures !IsWrite(f[0]) && AddressOf(f[0]) == AddressOf(reg)
    ensures f[1] == DummyByte
  {
    [ReadAddress(reg), DummyByte]
  }

  /** The write and the read address byte of one register agree in bits 0-6
      and differ exactly in bit 7, the direction flag. */
  lemma AddressBytesDifferOnlyInBit7(reg: bv8)
    ensures forall i: nat :: i < 7 ==> Bit(WriteAddress(reg), i) == Bit(ReadAddress(reg), i)
    ensures Bit(WriteAddress(reg), 7) && !Bit(ReadAddress(reg), 7)
    ensures WriteAddress(reg) ^ ReadAddress(reg) == WriteFlag
  {
  }

  /** For a 7-bit register address the chip recovers both the address and the
      direction from either framed byte. */
  lemma FramingDecodes(reg: bv8)
    requires reg <= AddressMask
    ensures IsWrite(WriteAddress(reg)) && AddressOf(WriteAddress(reg)) == reg
    ensures !IsWrite(ReadAddress(reg)) && AddressOf(ReadAddress(reg)) == reg
    ensures ReadAddress(reg) == reg
  {
  }
}
