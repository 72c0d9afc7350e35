/**
  Address arithmetic of the kernel allocator: segments, the placement search, and the
  theory of address-ordered free lists.

  A segment is an 8-byte header followed by `size` payload bytes.  Free and used headers have
  the same size, so one datatype serves for both.  Addresses are 32-bit.
 */
module Segments {
  import opened Options

  const HEADER: nat := 8
  const ADDRESS_SPACE: nat := 0x1_0000_0000
  const SIGN_BIT: nat := 0x8000_0000
  const ISIZE_MAX: nat := SIGN_BIT - 1

  datatype Segment = Segment(addr: nat, size: nat) {
    function Start(): nat { addr + HEADER }
    function End(): nat { addr + HEADER + size }
    predicate Holds(a: int) { addr <= a < End() }
  }

  function Pow2(k: nat): nat
  {
    if k == 0 then 1 else 2 * Pow2(k - 1)
  }

  function AlignDown(p: nat, align: nat): nat
    requires align > 0
  {
    p - p % align
  }

  function AlignUp(p: nat, align: nat): nat
    requires align > 0
  {
    AlignDown(p + align - 1, align)
  }

  /** A memory layout as the Rust `Layout` type admits it: the alignment is a power of two and
      the size, rounded up to the alignment, fits in `isize`. */
  datatype Layout = Layout(size: nat, align: nat) {
    ghost predicate Valid() {
      && (exists k :: 0 <= k < 32 && align == Pow2(k))
      && align > 0
      && AlignUp(size, align) <= ISIZE_MAX
    }
  }

  /** `p` is an aligned payload position inside the free segment's payload that leaves room for
      the used header in front of it and for `l.size` bytes behind it. */
  predicate Placement(s: Segment, l: Layout, p: nat)
    requires l.align > 0
  {
    p % l.align == 0 && s.Start() + HEADER <= p && p + l.size <= s.End()
  }

  // 32-bit pointer subtraction of operands below 2^32.
  function WrappingSub(a: int, b: int): int
  {
    if b <= a then a - b else a - b + ADDRESS_SPACE
  }

  /** `find_header_for_allocation`, with pointer subtraction modulo 2^32. */
  function FindHeader(s: Segment, l: Layout): Option<nat>
    requires l.align > 0
  {
    var end := WrappingSub(s.End(), l.size);
    var payload := WrappingSub(end, end % l.align);
    var header := WrappingSub(payload, HEADER);
    if header < s.Start() then None else Some(header)
  }

  /** None of the three pointer subtractions goes below address 0. */
  predicate NoWrap(s: Segment, l: Layout)
    requires l.align > 0
  {
    l.size <= s.End() && HEADER <= AlignDown(s.End() - l.size, l.align)
  }

  // A multiple of `a` strictly between `-a` and `a` is zero.
  lemma SmallMultiple(a: int, k: int)
    requires -a < a * k < a
    ensures k == 0
  {
    assert k >= 1 ==> a * k >= a;
    assert k <= -1 ==> a * k <= -a;
  }

  lemma MultipleOf(a: nat, q: nat)
    requires a > 0
    ensures (a * q) % a == 0
  {
    var d, r := a * q / a, (a * q) % a;
    assert a * q == a * d + r;
    assert a * (q - d) == a * q - a * d;
    SmallMultiple(a, q - d);
  }

  lemma LargestMultiple(a: nat, k: nat, m: nat, r: nat)
    requires r < a && a * k <= a * m + r
    ensures a * k <= a * m
  {
    assert a * k == a * m + a * (k - m);
    assert k - m >= 1 ==> a * (k - m) >= a;
    assert k - m <= 0 ==> a * (k - m) <= 0;
  }

  /** `AlignDown` gives the greatest multiple of `align` that is at most `p`. */
  lemma AlignDownGreatest(p: nat, align: nat)
    requires align > 0
    ensures AlignDown(p, align) % align == 0
    ensures p - align < AlignDown(p, align) <= p
    ensures forall q: nat :: q % align == 0 && q <= p ==> q <= AlignDown(p, align)
  {
    var m := p / align;
    assert AlignDown(p, align) == align * m;
    MultipleOf(align, m);
    forall q: nat | q % align == 0 && q <= p
      ensures q <= AlignDown(p, align)
    {
      assert q == align * (q / align);
      LargestMultiple(align, q / align, m, p % align);
    }
  }

  lemma {:induction false} Pow2Monotone(j: nat, k: nat)
    requires j <= k
    ensures 1 <= Pow2(j) <= Pow2(k)
  {
    if k > 0 {
      Pow2Monotone(if j < k then j else j - 1, k - 1);
    }
  }

  lemma DoubleProduct(a: nat, b: nat)
    ensures 2 * a * b == 2 * (a * b)
  {
  }

  lemma {:induction false} Pow2Split(j: nat, k: nat)
    ensures Pow2(j + k) == Pow2(j) * Pow2(k)
  {
    if j > 0 {
      Pow2Split(j - 1, k);
      DoubleProduct(Pow2(j - 1), Pow2(k));
    }
  }

  lemma AlignUpBounds(p: nat, align: nat)
    requires align > 0
    ensures p <= AlignUp(p, align) && AlignUp(p, align) % align == 0
  {
    AlignDownGreatest(p + align - 1, align);
  }

  // Multiples of `a` that differ, differ by at least `a`.
  lemma NextMultiple(a: nat, p: nat, k: nat)
    requires a > 0 && p % a == 0 && p < a * k
    ensures p + a <= a * k
  {
    var j := p / a;
    assert p == a * j;
    assert a * k - a * j == a * (k - j);
    assert k - j <= 0 ==> a * (k - j) <= 0;
    assert k - j >= 1 ==> a * (k - j) >= a;
  }

  lemma Pow2SignBit()
    ensures Pow2(31) == SIGN_BIT
  {
    assert Pow2(10) == 0x400 && Pow2(20) == 0x10_0000 && Pow2(30) == 0x4000_0000;
  }

  /** A valid layout leaves room for one more alignment step below 2^31. */
  lemma LayoutBounds(l: Layout)
    requires l.Valid()
    ensures l.size + l.align <= SIGN_BIT
  {
    hide Pow2, AlignUp;
    var k :| 0 <= k < 32 && l.align == Pow2(k);
    Pow2SignBit();
    Pow2Split(k, 31 - k);
    AlignUpBounds(l.size, l.align);
    NextMultiple(l.align, AlignUp(l.size, l.align), Pow2(31 - k));
  }

  // The linear arithmetic of the search: `r` is the remainder dropped by the alignment step.
  lemma SearchArithmetic(end: nat, size: nat, align: nat, r: nat)
    requires end < ADDRESS_SPACE && size + align <= SIGN_BIT && r < align && r <= WrappingSub(end, size)
    ensures
      var header := WrappingSub(WrappingSub(WrappingSub(end, size), r), HEADER);
      if size + HEADER + r <= end
      then header == end - size - r - HEADER
      else header == ADDRESS_SPACE + end - size - r - HEADER
  {
  }

  /** When a subtraction wraps, the search still answers Some, with an address at or behind the end of
      the segment. */
  lemma FindHeaderWraps(s: Segment, l: Layout)
    requires l.Valid() && s.End() < ADDRESS_SPACE
    ensures !NoWrap(s, l) ==>
              && FindHeader(s, l).Some? && s.End() <= FindHeader(s, l).value < ADDRESS_SPACE
              && !Placement(s, l, FindHeader(s, l).value + HEADER)
  {
    LayoutBounds(l);
    var end := WrappingSub(s.End(), l.size);
    AlignDownGreatest(end, l.align);
    SearchArithmetic(s.End(), l.size, l.align, end % l.align);
  }

  /** The distance to the address found is negative as an `isize`, which is when `set_end` panics. */
  predicate EndPanics(s: Segment, l: Layout)
    requires l.align > 0
  {
    var found := FindHeader(s, l);
    found.Some? && WrappingSub(found.value, s.Start()) > ISIZE_MAX
  }

  /** A wrapped search ends in that panic if and only if the block with its header and the bytes dropped
      by the alignment exceeds the segment by at most 2^31: always, if the payload has 7 bytes or more. */
  lemma WrapPanics(s: Segment, l: Layout)
    requires l.Valid() && s.End() < ADDRESS_SPACE && s.size <= ISIZE_MAX
    ensures EndPanics(s, l) <==>
              !NoWrap(s, l) && l.size + WrappingSub(s.End(), l.size) % l.align + HEADER <= SIGN_BIT + s.size
    ensures !NoWrap(s, l) && HEADER - 1 <= s.size ==> EndPanics(s, l)
  {
    LayoutBounds(l);
    var end := WrappingSub(s.End(), l.size);
    AlignDownGreatest(end, l.align);
    SearchArithmetic(s.End(), l.size, l.align, end % l.align);
  }

  /** The address that an unnoticed wrap yields: about 2^31 bytes behind the segment, so that neither
      `set_end` panics, and the size stored for the segment is wrong. */
  predicate Stray(s: Segment, header: nat)
  {
    && s.size + 1 < HEADER && SIGN_BIT + s.addr < header < ADDRESS_SPACE
    && s.size < WrappingSub(header, s.Start()) <= ISIZE_MAX
    && 0 <= WrappingSub(s.End(), header + HEADER) <= ISIZE_MAX
  }

  lemma UnnoticedIsStray(s: Segment, l: Layout)
    requires l.Valid() && s.End() < ADDRESS_SPACE && s.size <= ISIZE_MAX
    ensures !NoWrap(s, l) && !EndPanics(s, l) ==> FindHeader(s, l).Some? && Stray(s, FindHeader(s, l).value)
  {
    LayoutBounds(l);
    var end := WrappingSub(s.End(), l.size);
    AlignDownGreatest(end, l.align);
    SearchArithmetic(s.End(), l.size, l.align, end % l.align);
  }

  /** Only on a segment of at most 6 bytes can a wrapped search go unnoticed. */
  lemma WrapUnnoticedExample()
    ensures
      var s := Segment(0x10_0000, 0);
      var l := Layout(0x7fff_ffff, 1);
      l.Valid() && FindHeader(s, l) == Some(0x8010_0001) && !NoWrap(s, l) && !EndPanics(s, l)
  {
    assert Pow2(0) == 1;
    assert Layout(0x7fff_ffff, 1).Valid();
  }

  /** The search answers None only when the segment really has no placement. */
  lemma FindHeaderComplete(s: Segment, l: Layout)
    requires l.Valid() && s.End() < ADDRESS_SPACE
    ensures FindHeader(s, l).None? ==> NoWrap(s, l) && forall p: nat :: !Placement(s, l, p)
  {
    if FindHeader(s, l).None? {
      FindHeaderWraps(s, l);
      AlignDownGreatest(s.End() - l.size, l.align);
    }
  }

  /** The answer Some is a placement exactly when no subtraction wrapped, and it is then the
      highest placement in the segment. */
  lemma FindHeaderExact(s: Segment, l: Layout)
    requires l.Valid() && s.End() < ADDRESS_SPACE
    requires FindHeader(s, l).Some?
    ensures Placement(s, l, FindHeader(s, l).value + HEADER) <==> NoWrap(s, l)
    ensures NoWrap(s, l) ==> forall p: nat :: Placement(s, l, p) ==> p <= FindHeader(s, l).value + HEADER
  {
    if NoWrap(s, l) {
      AlignDownGreatest(s.End() - l.size, l.align);
    } else {
      FindHeaderWraps(s, l);
    }
  }

  /** A request larger than the end address of a segment wraps: the search accepts a segment
      that cannot hold the block. */
  lemma FindHeaderWrapExample()
    ensures
      var s := Segment(0x10_0000, 0x1000);
      var l := Layout(0x20_0000, 1);
      l.Valid() && FindHeader(s, l) == Some(0xfff0_1000) && forall p: nat :: !Placement(s, l, p)
  {
    assert Pow2(0) == 1;
    assert Layout(0x20_0000, 1).Valid();
  }
}
