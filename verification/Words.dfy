/** 32-bit words. */
module Words {
  const WORDS: nat := 0x1_0000_0000    // 2^32
  const INT_LIMIT: int := 0x8000_0000  // 2^31

  /** x as a 32-bit signed integer, which is what a long is here too. */
  function Int32(x: int): int {
    var m := x % WORDS;
    if m < INT_LIMIT then m else m - WORDS
  }
}
