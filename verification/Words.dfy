/** Machine words and flags. */
module Words {

  const TWO_32: nat := 0x1_0000_0000
  const TWO_64: nat := 0x1_0000_0000_0000_0000

  /** A flag as a number. */
  function One(b: bool): nat {
    if b then 1 else 0
  }
}
