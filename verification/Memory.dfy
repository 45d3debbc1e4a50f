/** 32-bit words and the word-addressed RAM that the kernel's C structures live in. */
module Memory {

  const WORD_LIMIT := 0x1_0000_0000
  const PAGE_SIZE := 0x1000

  type Word = w: int | 0 <= w < 0x1_0000_0000

  /** One 32-bit word per byte address.  Every access modelled here is 4-aligned, so two
      different addresses never name overlapping words. */
  type Ram = m: seq<Word> | |m| == WORD_LIMIT ghost witness seq(WORD_LIMIT, _ => 0)

  type Byte = b: int | 0 <= b < 0x100

  function Wrap(x: int): (w: Word)
    ensures 0 <= x < WORD_LIMIT ==> w == x
  {
    x % 0x1_0000_0000
  }

  lemma WholePage(k: int)
    ensures (0x1000 * k) % 0x1000 == 0
  {
  }

  datatype Option<+T> = None | Some(value: T)
}
