/** Unsigned machine words. */
module Words {
  const WORD: nat := 0x1_0000

  type u8 = x: int | 0 <= x < 0x100
  type u16 = x: int | 0 <= x < 0x1_0000

  /** The 16-bit word at a place, low byte first. */
  function Word(data: seq<u8>, at: nat): u16
    requires at + 1 < |data|
  {
    data[at] as int + 0x100 * data[at + 1] as int
  }
}
