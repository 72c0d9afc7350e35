/**
  Big-endian integers and the Internet checksum (section 2 of RFC 1071): the end-around-carry
  loop, its closed form modulo 65535, and what verifying a checksum tells the receiver.
 */
module Checksum {
  import opened Memory

  type u16 = x: int | 0 <= x < 0x1_0000
  type u32 = x: int | 0 <= x < 0x1_0000_0000

  function Be16(x: u16): (s: seq<byte>)
    ensures |s| == 2
  {
    [x / 0x100, x % 0x100]
  }

  function U16(hi: byte, lo: byte): u16
  {
    (hi as int) * 0x100 + lo as int
  }

  function U16At(s: seq<byte>, i: nat): u16
    requires i + 2 <= |s|
  {
    U16(s[i], s[i + 1])
  }

  /** The sum of the 16-bit big-endian words of an even-length byte sequence.  (An odd last byte
      is left out; the kernel never sums an odd number of bytes.) */
  ghost function WordSum(data: seq<byte>): nat
  {
    if |data| < 2 then 0 else U16At(data, 0) + WordSum(data[2..])
  }

  /** One's-complement representative of a sum: 0 for 0, otherwise the residue in 1..65535. */
  function Fold(sum: nat): u16
  {
    if sum == 0 then 0 else (sum - 1) % 0xffff + 1
  }

  ghost function InternetChecksum(data: seq<byte>): u16
  {
    0xffff - Fold(WordSum(data))
  }

  /** One round of the loop: the 16-bit sum, and one more if it overflowed. */
  function OnesAdd(checksum: u16, val: u16): (r: u16)
    ensures var sum := checksum as int + val; r == sum % 0x1_0000 + if sum >= 0x1_0000 then 1 else 0
  {
    var sum := checksum as int + val;
    if sum >= 0x1_0000 then sum - 0x1_0000 + 1 else sum
  }

  /** Adding a word with the carry added back is addition modulo 65535 on representatives. */
  lemma FoldAdd(sum: nat, v: u16)
    ensures Fold(sum + v) == OnesAdd(Fold(sum), v)
  {
  }

  lemma FoldSnoc(data: seq<byte>, k: nat)
    requires 2 * k + 2 <= |data|
    ensures Fold(WordSum(data[..2 * (k + 1)])) == OnesAdd(Fold(WordSum(data[..2 * k])), U16At(data, 2 * k))
  {
    hide Fold, OnesAdd, U16At, WordSum;
    WordSumSnoc(data, 2 * k);
    FoldAdd(WordSum(data[..2 * k]), U16At(data, 2 * k));
  }

  lemma {:induction false} WordSumConcat(a: seq<byte>, b: seq<byte>)
    requires |a| % 2 == 0
    ensures WordSum(a + b) == WordSum(a) + WordSum(b)
  {
    if a == [] {
      assert a + b == b;
    } else {
      WordSumConcat(a[2..], b);
      assert (a + b)[2..] == a[2..] + b;
    }
  }

  lemma WordSumSnoc(data: seq<byte>, i: nat)
    requires i % 2 == 0 && i + 2 <= |data|
    ensures WordSum(data[..i + 2]) == WordSum(data[..i]) + U16At(data, i)
  {
    var w := data[i..i + 2];
    WordSumConcat(data[..i], w);
    assert data[..i + 2] == data[..i] + w;
    assert WordSum(w) == U16At(w, 0) + WordSum(w[2..]);
  }

  /** The overflowing addition of the loop.  Adding the carry back cannot overflow again. */
  method AddWithCarry(checksum: u16, val: u16) returns (r: u16)
    ensures r == OnesAdd(checksum, val)
  {
    var sum := checksum as int + val;
    var overflow := sum >= 0x1_0000;
    r := sum % 0x1_0000;
    if overflow {
      r := r + 1;
    }
  }

  /** The sum of the bytes at even positions, and of those at odd positions, of an even-length message. */
  ghost function Evens(data: seq<byte>): nat
  {
    if |data| < 2 then 0 else data[0] as int + Evens(data[2..])
  }

  ghost function Odds(data: seq<byte>): nat
  {
    if |data| < 2 then 0 else data[1] as int + Odds(data[2..])
  }

  lemma {:induction false} WordSumBytes(data: seq<byte>)
    ensures WordSum(data) == 0x100 * Evens(data) + Odds(data)
  {
    if |data| >= 2 {
      WordSumBytes(data[2..]);
    }
  }

  lemma FoldResidue(sum: nat)
    ensures (0xffff - Fold(sum) + sum) % 0xffff == 0
  {
    if sum > 0 {
      var q := (sum - 1) / 0xffff;
      assert 0xffff - Fold(sum) + sum == 0xffff * (q + 1);
    }
  }

  /** The checksum in terms of bytes: with the bytes at even positions counted 256 times it makes up a
      multiple of 65535. */
  lemma ChecksumBytes(data: seq<byte>)
    ensures (InternetChecksum(data) + 0x100 * Evens(data) + Odds(data)) % 0xffff == 0
  {
    hide Fold, WordSum;
    WordSumBytes(data);
    FoldResidue(WordSum(data));
  }

  /** `calculate_ipv4_checksum`, chunk by chunk: the loop computes the complement of the sum modulo
      65535. */
  method CalculateChecksum(data: seq<byte>) returns (r: u16)
    requires |data| % 2 == 0
    ensures r == InternetChecksum(data) && (r + 0x100 * Evens(data) + Odds(data)) % 0xffff == 0
  {
    ChecksumBytes(data);
    assert Fold(WordSum(data[..0])) == 0;
    hide WordSum, Fold, U16At, OnesAdd;
    var checksum: u16 := 0;
    var chunks := |data| / 2;
    for k := 0 to chunks
      invariant checksum == Fold(WordSum(data[..2 * k]))
    {
      FoldSnoc(data, k);
      checksum := AddWithCarry(checksum, U16At(data, 2 * k));
    }
    assert data[..2 * chunks] == data;
    r := 0xffff - checksum;
  }

  /** A nonzero sum that is zero modulo 65535. */
  ghost predicate Balanced(sum: nat)
  {
    sum > 0 && sum % 0xffff == 0
  }

  lemma FoldMultiple(sum: nat)
    ensures Fold(sum) == 0xffff <==> Balanced(sum)
  {
    var q, r := sum / 0xffff, sum % 0xffff;
    assert sum == 0xffff * q + r;
    if sum > 0 {
      assert r == 0 ==> (sum - 1) / 0xffff == q - 1;
      assert r > 0 ==> (sum - 1) / 0xffff == q;
    }
  }

  lemma U16Be16(w: u16)
    ensures U16At(Be16(w), 0) == w
  {
  }

  lemma WordSumBe16(w: u16)
    ensures WordSum(Be16(w)) == w
  {
    hide U16At;
    U16Be16(w);
    assert Be16(w)[2..] == [];
  }

  lemma SplitAtWord(pre: seq<byte>, w: u16, post: seq<byte>)
    requires |pre| % 2 == 0
    ensures WordSum(pre + Be16(w) + post) == WordSum(pre) + w + WordSum(post)
  {
    hide WordSum;
    WordSumBe16(w);
    WordSumConcat(pre, Be16(w));
    WordSumConcat(pre + Be16(w), post);
  }

  lemma ChecksumZeroIff(data: seq<byte>)
    ensures InternetChecksum(data) == 0 <==> Balanced(WordSum(data))
  {
    hide WordSum, Fold, Balanced;
    FoldMultiple(WordSum(data));
  }

  /** In terms of bytes: a message checksums to zero exactly when not all of it is zero and its bytes,
      those at even positions counted 256 times, make up a multiple of 65535. */
  lemma VerifiesBytes(data: seq<byte>)
    ensures InternetChecksum(data) == 0 <==> Balanced(0x100 * Evens(data) + Odds(data))
  {
    ChecksumZeroIff(data);
    WordSumBytes(data);
  }

  /** A message checksums to zero exactly when its word sum is a nonzero multiple of 65535. */
  lemma VerifiesIff(pre: seq<byte>, w: u16, post: seq<byte>)
    requires |pre| % 2 == 0
    ensures InternetChecksum(pre + Be16(w) + post) == 0 <==> Balanced(WordSum(pre) + w + WordSum(post))
  {
    hide InternetChecksum, WordSum, Balanced, Be16;
    SplitAtWord(pre, w, post);
    ChecksumZeroIff(pre + Be16(w) + post);
  }

  /** Storing the checksum of a message where it had a zero word gives a message that checksums
      to zero. */
  lemma StoredChecksumVerifies(pre: seq<byte>, post: seq<byte>)
    requires |pre| % 2 == 0
    ensures InternetChecksum(pre + Be16(InternetChecksum(pre + Be16(0) + post)) + post) == 0
  {
    hide WordSum;
    SplitAtWord(pre, 0, post);
    var sum := WordSum(pre) + WordSum(post);
    SplitAtWord(pre, 0xffff - Fold(sum), post);
    FoldMultiple(sum + (0xffff - Fold(sum)));
  }

  lemma ResidueDetects(a: nat, b: nat, w: u16, w': u16)
    requires Balanced(a + w + b)
    ensures Balanced(a + w' + b) <==>
              w' == w || (w == 0 && w' == 0xffff) || (w == 0xffff && w' == 0 && a + b > 0)
  {
    var q := (a + w + b) / 0xffff;
    assert a + w' + b == 0xffff * q + (w' - w);
  }

  /** What verification detects: two verifying messages that differ in one word only carry the
      same word there, or the two words are 0 and 65535. */
  lemma ChecksumDetects(pre: seq<byte>, w: u16, w': u16, post: seq<byte>)
    requires |pre| % 2 == 0
    requires InternetChecksum(pre + Be16(w) + post) == 0
    ensures InternetChecksum(pre + Be16(w') + post) == 0 <==>
              w' == w || (w == 0 && w' == 0xffff) || (w == 0xffff && w' == 0 && WordSum(pre) + WordSum(post) > 0)
  {
    hide WordSum, InternetChecksum, Be16, Balanced;
    VerifiesIff(pre, w, post);
    VerifiesIff(pre, w', post);
    ResidueDetects(WordSum(pre), WordSum(post), w, w');
  }

  /** The checksum is 65535 exactly for all-zero data. */
  lemma {:induction false} AllOnesIffZero(data: seq<byte>)
    requires |data| % 2 == 0
    ensures InternetChecksum(data) == 0xffff <==> forall i :: 0 <= i < |data| ==> data[i] == 0
  {
    if data != [] {
      AllOnesIffZero(data[2..]);
      assert forall i :: 2 <= i < |data| ==> data[i] == data[2..][i - 2];
      assert U16At(data, 0) == 0 <==> data[0] == 0 && data[1] == 0;
    }
  }
}
