/** Bytes, and the codes that stand for themselves in CTANGLE's replacement texts and output. */
module ByteCodes {
  type Byte = b: nat | b < 256

  const STRING: Byte := 2
  const CONSTANT: Byte := 3
  const NEWLINE: Byte := 10
}
