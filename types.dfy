/** Machine types and wire-format constants of the split-keyboard serial link. */
module Types {

  /** An unsigned 8-bit value (`uint8_t`, `unsigned char`). */
  type byte = x: int | 0 <= x < 0x100

  /** An unsigned 16-bit value (`uint16_t`), the width of a keycode. */
  type uint16 = x: int | 0 <= x < 0x1_0000

  /** Modulus of `unsigned int`, the checksum accumulator: 16 bits wide on the AVR target (avr-gcc). */
  const UintModulus: nat := 0x1_0000

  /** First byte of every frame (UART_PREAMBLE). */
  const Preamble: byte := 0x69

  /** Length of a frame in bytes (UART_MSG_LEN). */
  const MsgLen: nat := 5

  /** Positions of the fields inside a frame (IDX_*). */
  const IdxPreamble: nat := 0
  const IdxKcLsb: nat := 1
  const IdxKcMsb: nat := 2
  const IdxPressed: nat := 3
  const IdxChecksum: nat := 4

  datatype Option<T> = None | Some(value: T)
}
