/** Machine integers of the original, as bounded mathematical integers. */
module Machine {

  const EIO := 5

  type byte = x: int | 0 <= x < 256

  type uint32 = x: int | 0 <= x < 0x1_0000_0000

  type int32 = x: int | -0x8000_0000 <= x < 0x8000_0000

  /** Unsigned 32-bit wrap-around. */
  function Wrap32(x: int): uint32 {
    x % 0x1_0000_0000
  }

  /** Two's complement reading of the low 32 bits. */
  function ToInt32(x: int): int32 {
    var w := x % 0x1_0000_0000;
    if w < 0x8000_0000 then w else w - 0x1_0000_0000
  }

  lemma WrapOfToInt32(x: int)
    ensures Wrap32(ToInt32(x)) == Wrap32(x)
  {
  }
}
