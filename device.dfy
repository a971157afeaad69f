/** Values exchanged with the board's peripherals. */
module Device {

  /** A Rust `u8`: the brightness request of `set_brightness` and the byte the
      keyboard delivers. */
  type U8 = x: int | 0 <= x < 256

  /** Outcome of one `i2c.read` of the keyboard's one-byte buffer: the read
      failed (bus error or timeout), or it filled the buffer with `b`. */
  datatype Read = Failed | Received(b: U8)
}
