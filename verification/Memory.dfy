/** Byte-addressed memory and the 32-bit little-endian words the segment headers are made of. */
module Memory {

  type byte = b: int | 0 <= b < 256

  const WORD_LIMIT: nat := 0x1_0000_0000

  function WordAt(m: seq<byte>, a: nat): (w: nat)
    requires a + 4 <= |m|
    ensures w < WORD_LIMIT
  {
    m[a] as int + 0x100 * (m[a + 1] as int) + 0x1_0000 * (m[a + 2] as int) + 0x100_0000 * (m[a + 3] as int)
  }

  function WordBytes(w: nat): seq<byte>
    requires w < WORD_LIMIT
  {
    var q := w / 0x100;
    var r := q / 0x100;
    [w % 0x100, q % 0x100, r % 0x100, r / 0x100]
  }

  function PutWord(m: seq<byte>, a: nat, w: nat): (n: seq<byte>)
    requires a + 4 <= |m| && w < WORD_LIMIT
    ensures |n| == |m|
  {
    m[..a] + WordBytes(w) + m[a + 4..]
  }

  lemma WordBytesValue(w: nat)
    requires w < WORD_LIMIT
    ensures WordAt(WordBytes(w), 0) == w
  {
  }

  /** The bytes of a word in memory, the least significant one first. */
  lemma WordLayout(m: seq<byte>, a: nat, w: nat)
    requires a + 4 <= |m| && w < WORD_LIMIT
    ensures
      var n := PutWord(m, a, w);
      n[a] as int + 0x100 * n[a + 1] as int + 0x1_0000 * n[a + 2] as int + 0x100_0000 * n[a + 3] as int == w
  {
    PutWordReads(m, a, w);
  }

  /** A word written is the word read back; words and bytes elsewhere are untouched. */
  lemma PutWordReads(m: seq<byte>, a: nat, w: nat)
    requires a + 4 <= |m| && w < WORD_LIMIT
    ensures WordAt(PutWord(m, a, w), a) == w
    ensures forall k :: 0 <= k < |m| && !(a <= k < a + 4) ==> PutWord(m, a, w)[k] == m[k]
    ensures forall b :: 0 <= b && b + 4 <= |m| && (b + 4 <= a || a + 4 <= b)
              ==> WordAt(PutWord(m, a, w), b) == WordAt(m, b)
  {
    WordBytesValue(w);
    var n := PutWord(m, a, w);
    assert n[a..a + 4] == WordBytes(w);
    assert forall k :: 0 <= k < 4 ==> n[a + k] == WordBytes(w)[k];
  }
}
