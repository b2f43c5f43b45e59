/** Types shared by every part of the model. */
module Common {

  datatype Option<+T> = None | Some(value: T)

  /** One `char` of a C byte buffer. */
  type Byte = c: char | c as int < 256

  type Text = seq<Byte>

  /** The bytes of a C string, without the terminating NUL. */
  predicate NulFree(text: Text) { '\0' !in text }

  /** One `uint8_t`. */
  type Octet = b: int | 0 <= b < 256

  const UINT32_SIZE: nat := 0x1_0000_0000
  const UINT64_SIZE: nat := 0x1_0000_0000_0000_0000
  const INT32_MAX: nat := 0x7fff_ffff

  /** True when `part` occurs in `whole` at offset `pos`. */
  predicate OccursAt(whole: Text, pos: nat, part: Text) {
    pos + |part| <= |whole| && whole[pos..pos + |part|] == part
  }

  lemma OccursSplit(whole: Text, pos: nat, a: Text, b: Text)
    ensures OccursAt(whole, pos, a + b) <==>
            OccursAt(whole, pos, a) && OccursAt(whole, pos + |a|, b)
  {
    if OccursAt(whole, pos, a + b) {
      assert whole[pos..pos + |a|] == whole[pos..pos + |a + b|][..|a|] == a;
      assert whole[pos + |a|..pos + |a| + |b|] == whole[pos..pos + |a + b|][|a|..] == b;
    }
  }
}
