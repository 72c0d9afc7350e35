/**
  The kernel allocator, with its free list stored in the memory it manages.

  A free segment's header holds its size and the address of the next free segment; a used
  segment's header holds its size.  All list surgery is done by writing these words in place.
  The class is proved to implement the operations on values of module FreeList.
 */
module Allocator {
  import opened Options
  import opened Segments
  import opened FreeList
  import opened Memory

  // ---------------------------------------------------------------- the list in memory

  function NextAddr(fs: seq<Segment>, i: nat): nat
    requires i < |fs|
  {
    if i + 1 < |fs| then fs[i + 1].addr else 0
  }

  predicate InMemory(m: seq<byte>, s: Segment)
  {
    0 < s.addr && s.End() <= |m| && s.End() < ADDRESS_SPACE
  }

  predicate Node(m: seq<byte>, s: Segment, next: nat)
  {
    InMemory(m, s) && WordAt(m, s.addr) == s.size && WordAt(m, s.addr + 4) == next
  }

  ghost predicate Linked(m: seq<byte>, fs: seq<Segment>)
  {
    forall i :: 0 <= i < |fs| ==> Node(m, fs[i], NextAddr(fs, i))
  }

  ghost predicate Ascending(fs: seq<Segment>)
  {
    forall i, j :: 0 <= i < j < |fs| ==> fs[i].End() <= fs[j].addr
  }

  ghost predicate InRegion(r: Region, fs: seq<Segment>)
  {
    forall i :: 0 <= i < |fs| ==> r.base <= fs[i].addr && fs[i].End() <= r.end
  }

  /** The headers at `a` and `b` do not overlap. */
  predicate HeadersApart(a: nat, b: nat)
  {
    a + HEADER <= b || b + HEADER <= a
  }

  /** `n` differs from `m` in the header at `a` at most. */
  ghost predicate SameOutside(m: seq<byte>, n: seq<byte>, a: nat)
  {
    && |n| == |m|
    && (forall k :: 0 <= k < |m| && !(a <= k < a + HEADER) ==> n[k] == m[k])
    && (forall b :: 0 <= b && b + HEADER <= |m| && HeadersApart(a, b) ==>
          WordAt(n, b) == WordAt(m, b) && WordAt(n, b + 4) == WordAt(m, b + 4))
  }

  /** `n` differs from `m` inside the segments `s` and `t` at most. */
  ghost predicate ChangedWithin(m: seq<byte>, n: seq<byte>, s: Segment, t: Segment)
  {
    |n| == |m| && forall k :: 0 <= k < |m| && !s.Holds(k) && !t.Holds(k) ==> n[k] == m[k]
  }

  /** Rewriting both words of the header at `a`. */
  function PutHeader(m: seq<byte>, a: nat, size: nat, next: nat): (n: seq<byte>)
    requires a + HEADER <= |m| && size < WORD_LIMIT && next < WORD_LIMIT
    ensures |n| == |m|
  {
    PutWord(PutWord(m, a, size), a + 4, next)
  }

  lemma PutHeaderReads(m: seq<byte>, a: nat, size: nat, next: nat)
    requires a + HEADER <= |m| && size < WORD_LIMIT && next < WORD_LIMIT
    ensures WordAt(PutHeader(m, a, size, next), a) == size
    ensures WordAt(PutHeader(m, a, size, next), a + 4) == next
    ensures SameOutside(m, PutHeader(m, a, size, next), a)
  {
    hide WordAt, PutWord;
    PutWordReads(m, a, size);
    PutWordReads(PutWord(m, a, size), a + 4, next);
  }

  /** Reading the link of element `i`: null exactly at the end of the list. */
  lemma NextWord(m: seq<byte>, fs: seq<Segment>, i: nat)
    requires Linked(m, fs) && i < |fs|
    ensures fs[i].addr > 0 && fs[i].Start() <= |m|
    ensures WordAt(m, fs[i].addr + 4) == NextAddr(fs, i)
    ensures NextAddr(fs, i) == 0 <==> i + 1 == |fs|
  {
    hide WordAt;
    assert Node(m, fs[i], NextAddr(fs, i));
    if i + 1 < |fs| {
      assert Node(m, fs[i + 1], NextAddr(fs, i + 1));
    }
  }

  lemma SizeWord(m: seq<byte>, fs: seq<Segment>, i: nat)
    requires Linked(m, fs) && i < |fs|
    ensures InMemory(m, fs[i]) && WordAt(m, fs[i].addr) == fs[i].size
  {
    assert Node(m, fs[i], NextAddr(fs, i));
  }

  /** A write inside the header of element `i` leaves the other nodes alone. */
  lemma OtherNodes(m: seq<byte>, n: seq<byte>, fs: seq<Segment>, i: nat)
    requires Linked(m, fs) && Ascending(fs) && i < |fs| && SameOutside(m, n, fs[i].addr)
    ensures forall j :: 0 <= j < |fs| && j != i ==> Node(n, fs[j], NextAddr(fs, j))
  {
    hide WordAt;
    forall j | 0 <= j < |fs| && j != i
      ensures Node(n, fs[j], NextAddr(fs, j))
    {
      assert Node(m, fs[j], NextAddr(fs, j));
      assert HeadersApart(fs[i].addr, fs[j].addr);
    }
  }

  /** The list after element `i` has been merged with its successor, if they touch. */
  function MergeAt(fs: seq<Segment>, i: nat): (gs: seq<Segment>)
    requires i < |fs|
    ensures
      if i + 1 < |fs| && fs[i].End() == fs[i + 1].addr
      then && |gs| == |fs| - 1 && gs[i] == Join(fs[i], fs[i + 1])
           && (forall j :: 0 <= j < i ==> gs[j] == fs[j])
           && (forall j :: i < j < |gs| ==> gs[j] == fs[j + 1])
      else gs == fs
  {
    if i + 1 < |fs| && fs[i].End() == fs[i + 1].addr
    then fs[..i] + [Join(fs[i], fs[i + 1])] + fs[i + 2..]
    else fs
  }

  /** Overwriting the header of element `i` so that it absorbs its successor. */
  lemma MergeLinked(m: seq<byte>, fs: seq<Segment>, i: nat)
    requires Linked(m, fs) && Ascending(fs) && i + 1 < |fs| && fs[i].End() == fs[i + 1].addr
    ensures Node(m, fs[i], fs[i + 1].addr) && Node(m, fs[i + 1], NextAddr(fs, i + 1))
    ensures
      var n := PutHeader(m, fs[i].addr, fs[i + 1].End() - fs[i].Start(), NextAddr(fs, i + 1));
      Linked(n, MergeAt(fs, i)) && SameOutside(m, n, fs[i].addr)
  {
    hide WordAt, PutHeader, MergeAt;
    assert Node(m, fs[i], NextAddr(fs, i));
    assert Node(m, fs[i + 1], NextAddr(fs, i + 1));
    var n := PutHeader(m, fs[i].addr, fs[i + 1].End() - fs[i].Start(), NextAddr(fs, i + 1));
    PutHeaderReads(m, fs[i].addr, fs[i + 1].End() - fs[i].Start(), NextAddr(fs, i + 1));
    OtherNodes(m, n, fs, i);
    JoinLinked(n, fs, i);
  }

  // Renumbering of the nodes when element `i` absorbs its successor.
  lemma JoinLinked(n: seq<byte>, fs: seq<Segment>, i: nat)
    requires i + 1 < |fs| && fs[i].End() == fs[i + 1].addr
    requires forall j :: 0 <= j < |fs| && j != i ==> Node(n, fs[j], NextAddr(fs, j))
    requires Node(n, Join(fs[i], fs[i + 1]), NextAddr(fs, i + 1))
    ensures Linked(n, MergeAt(fs, i))
  {
    hide Node, MergeAt;
    var gs := MergeAt(fs, i);
    forall j | 0 <= j < |gs|
      ensures Node(n, gs[j], NextAddr(gs, j))
    {
      assert NextAddr(gs, j) == if j < i then NextAddr(fs, j) else NextAddr(fs, j + 1);
    }
  }

  /** The memory after the two link writes of `insert_segment_after(item, new)`. */
  function LinkMem(m: seq<byte>, item: nat, node: nat): (n: seq<byte>)
    requires item + HEADER <= |m| && node + HEADER <= |m| && node < ADDRESS_SPACE
    ensures |n| == |m|
  {
    PutWord(PutWord(m, item + 4, node), node + 4, WordAt(m, item + 4))
  }

  lemma LinkMemReads(m: seq<byte>, item: nat, node: nat)
    requires item + HEADER <= |m| && node + HEADER <= |m| && node < ADDRESS_SPACE && HeadersApart(item, node)
    ensures
      var n := LinkMem(m, item, node);
      && WordAt(n, item) == WordAt(m, item) && WordAt(n, item + 4) == node
      && WordAt(n, node) == WordAt(m, node) && WordAt(n, node + 4) == WordAt(m, item + 4)
      && (forall k :: 0 <= k < |m| && !(item <= k < item + HEADER) && !(node <= k < node + HEADER) ==> n[k] == m[k])
      && (forall b :: 0 <= b && b + HEADER <= |m| && HeadersApart(item, b) && HeadersApart(node, b) ==>
            WordAt(n, b) == WordAt(m, b) && WordAt(n, b + 4) == WordAt(m, b + 4))
  {
    hide WordAt, PutWord;
    PutWordReads(m, item + 4, node);
    PutWordReads(PutWord(m, item + 4, node), node + 4, WordAt(m, item + 4));
  }

  function LinkAt(fs: seq<Segment>, i: nat, s: Segment): (gs: seq<Segment>)
    requires i < |fs|
    ensures |gs| == |fs| + 1 && gs[i + 1] == s
    ensures forall j :: 0 <= j <= i ==> gs[j] == fs[j]
    ensures forall j :: i + 1 < j < |gs| ==> gs[j] == fs[j - 1]
  {
    fs[..i + 1] + [s] + fs[i + 1..]
  }

  lemma LinkLinked(m: seq<byte>, fs: seq<Segment>, i: nat, s: Segment)
    requires Linked(m, fs) && Ascending(fs) && i < |fs|
    requires InMemory(m, s) && WordAt(m, s.addr) == s.size
    requires fs[i].End() <= s.addr && (i + 1 < |fs| ==> s.End() <= fs[i + 1].addr)
    ensures Node(m, fs[i], NextAddr(fs, i))
    ensures Linked(LinkMem(m, fs[i].addr, s.addr), LinkAt(fs, i, s))
  {
    hide WordAt, LinkMem, LinkAt;
    var gs := LinkAt(fs, i, s);
    assert Node(m, fs[i], NextAddr(fs, i));
    var n := LinkMem(m, fs[i].addr, s.addr);
    LinkMemReads(m, fs[i].addr, s.addr);
    forall j | 0 <= j < |fs| && j != i
      ensures Node(n, fs[j], NextAddr(fs, j))
    {
      assert Node(m, fs[j], NextAddr(fs, j));
      assert i < j ==> s.End() <= fs[i + 1].addr <= fs[j].addr;
      assert HeadersApart(fs[i].addr, fs[j].addr) && HeadersApart(s.addr, fs[j].addr);
    }
    forall j | 0 <= j < |gs|
      ensures Node(n, gs[j], NextAddr(gs, j))
    {
      assert j < i ==> NextAddr(gs, j) == NextAddr(fs, j);
      assert j > i + 1 ==> NextAddr(gs, j) == NextAddr(fs, j - 1);
    }
  }

  lemma LinkAscending(fs: seq<Segment>, i: nat, s: Segment)
    requires Ascending(fs) && i < |fs|
    requires fs[i].End() <= s.addr && (i + 1 < |fs| ==> s.End() <= fs[i + 1].addr)
    ensures Ascending(LinkAt(fs, i, s))
  {
    hide LinkAt;
    var gs := LinkAt(fs, i, s);
    forall j, k | 0 <= j < k < |gs|
      ensures gs[j].End() <= gs[k].addr
    {
      assert j < i ==> fs[j].End() <= fs[i].addr;
      assert k > i + 2 ==> fs[i + 1].End() <= fs[k - 1].addr;
    }
  }

  lemma MergeAscending(r: Region, fs: seq<Segment>, i: nat)
    requires Ascending(fs) && InRegion(r, fs) && i < |fs|
    ensures Ascending(MergeAt(fs, i)) && InRegion(r, MergeAt(fs, i))
    ensures forall j :: 0 <= j < |fs| ==> fs[j].End() - fs[i].Start() <= r.end - r.base - HEADER
  {
    hide MergeAt;
    var gs := MergeAt(fs, i);
    if gs != fs {
      assert forall j :: 0 <= j < i ==> gs[j].End() <= fs[i].addr;
      assert forall j :: i < j < |gs| ==> fs[i + 1].End() <= gs[j].addr;
    }
  }

  /** Link, merge with the successor, merge with the predecessor: together `InsertAfter`. */
  lemma InsertAfterSteps(fs: seq<Segment>, i: nat, s: Segment)
    requires i < |fs|
    ensures var gs := MergeAt(LinkAt(fs, i, s), i + 1);
            i < |gs| && MergeAt(gs, i) == InsertAfter(fs, i, s)
            && i + 1 < |gs| && gs[i] == fs[i] && gs[i + 1].addr == s.addr
  {
    var ls := LinkAt(fs, i, s);
    var gs := MergeAt(ls, i + 1);
    MergePush(ls, i + 1);
    MergePush(gs, i);
    var tail := PushFront(s, fs[i + 1..]);
    assert ls[..i + 1] == fs[..i + 1] && ls[i + 2..] == fs[i + 1..];
    assert gs == fs[..i + 1] + tail;
    assert gs[..i] == fs[..i] && gs[i + 1..] == tail;
  }

  lemma MergePush(fs: seq<Segment>, i: nat)
    requires i < |fs|
    ensures MergeAt(fs, i) == fs[..i] + PushFront(fs[i], fs[i + 1..])
  {
    if i + 1 < |fs| && fs[i].End() == fs[i + 1].addr {
      assert fs[i + 1..][1..] == fs[i + 2..];
    } else {
      assert fs == fs[..i] + ([fs[i]] + fs[i + 1..]);
    }
  }

  /** The used headers of the live blocks. */
  ghost predicate Headers(m: seq<byte>, live: set<Segment>)
  {
    forall s :: s in live ==> InMemory(m, s) && WordAt(m, s.addr) == s.size
  }

  /** No byte of any of these blocks, header or payload, differs between `m` and `n`. */
  ghost predicate BytesKept(m: seq<byte>, n: seq<byte>, live: set<Segment>)
  {
    |n| == |m| && forall s, a :: s in live && s.Holds(a) ==> 0 <= a < |m| && n[a] == m[a]
  }

  /** The block at `p` is new, aligned, large enough and inside one former free segment. */
  ghost predicate Allocated(h: Heap, l: Layout, k: Heap, p: nat)
    requires l.align > 0
  {
    && (exists i :: 0 <= i < |h.free| && Placement(h.free[i], l, p))
    && (exists b :: b in k.live && b !in h.live && b.Start() == p && l.size <= b.size)
  }

  lemma HeadersKept(m: seq<byte>, n: seq<byte>, live: set<Segment>)
    requires Headers(m, live) && BytesKept(m, n, live)
    ensures Headers(n, live)
  {
    forall t | t in live
      ensures WordAt(n, t.addr) == WordAt(m, t.addr)
    {
      assert t.Holds(t.addr) && t.Holds(t.addr + 1) && t.Holds(t.addr + 2) && t.Holds(t.addr + 3);
    }
  }

  /** The two size words that `alloc` writes for a block at `header` in free segment `s`. */
  function CarveMem(m: seq<byte>, s: Segment, header: nat): (n: seq<byte>)
    requires InMemory(m, s) && s.Start() <= header && header + HEADER <= s.End()
    ensures |n| == |m|
  {
    PutWord(PutWord(m, s.addr, header - s.Start()), header, s.End() - (header + HEADER))
  }

  predicate HeaderOutside(b: nat, s: Segment)
  {
    b + HEADER <= s.addr || s.End() <= b
  }

  lemma CarveMemReads(m: seq<byte>, s: Segment, header: nat)
    requires InMemory(m, s) && s.Start() <= header && header + HEADER <= s.End()
    ensures
      var n := CarveMem(m, s, header);
      && WordAt(n, s.addr) == header - s.Start() && WordAt(n, s.addr + 4) == WordAt(m, s.addr + 4)
      && WordAt(n, header) == s.End() - (header + HEADER)
      && (forall k :: 0 <= k < |m| && !s.Holds(k) ==> n[k] == m[k])
      && (forall b :: 0 <= b && b + HEADER <= |m| && HeaderOutside(b, s) ==>
            WordAt(n, b) == WordAt(m, b) && WordAt(n, b + 4) == WordAt(m, b + 4))
  {
    hide WordAt, PutWord;
    PutWordReads(m, s.addr, header - s.Start());
    PutWordReads(PutWord(m, s.addr, header - s.Start()), header, s.End() - (header + HEADER));
  }

  // The shortened node itself.
  lemma CarveNode(m: seq<byte>, s: Segment, next: nat, header: nat)
    requires Node(m, s, next) && s.Start() <= header && header + HEADER <= s.End()
    ensures Node(CarveMem(m, s, header), Segment(s.addr, header - s.Start()), next)
  {
    hide WordAt, CarveMem;
    CarveMemReads(m, s, header);
  }

  // Any other node lies outside the segment that is carved.
  lemma CarveOtherNode(m: seq<byte>, s: Segment, header: nat, t: Segment, next: nat)
    requires InMemory(m, s) && s.Start() <= header && header + HEADER <= s.End()
    requires Node(m, t, next) && HeaderOutside(t.addr, s)
    ensures Node(CarveMem(m, s, header), t, next)
  {
    hide WordAt, CarveMem;
    CarveMemReads(m, s, header);
  }

  lemma CarveFree(h: Heap, i: nat, header: nat)
    requires i < |h.free| && h.free[i].Start() <= header && header + HEADER <= h.free[i].End()
    ensures
      var fs := Carve(h, i, header).free;
      && |fs| == |h.free| && fs[i] == Segment(h.free[i].addr, header - h.free[i].Start())
      && (forall j :: 0 <= j < |fs| && j != i ==> fs[j] == h.free[j])
      && (forall j :: 0 <= j < |fs| ==> NextAddr(fs, j) == NextAddr(h.free, j))
  {
  }

  lemma CarveLinked(m: seq<byte>, h: Heap, i: nat, header: nat)
    requires Linked(m, h.free) && Separated(h.free) && i < |h.free|
    requires h.free[i].Start() <= header && header + HEADER <= h.free[i].End()
    ensures Node(m, h.free[i], NextAddr(h.free, i))
    ensures Linked(CarveMem(m, h.free[i], header), Carve(h, i, header).free)
  {
    hide Node, CarveMem, Carve, NextAddr;
    var s := h.free[i];
    assert Node(m, s, NextAddr(h.free, i));
    NodeInMemory(m, s, NextAddr(h.free, i));
    CarveFree(h, i, header);
    CarveNode(m, s, NextAddr(h.free, i), header);
    var n, fs := CarveMem(m, s, header), Carve(h, i, header).free;
    forall j | 0 <= j < |fs|
      ensures Node(n, fs[j], NextAddr(fs, j))
    {
      if j != i {
        assert Node(m, h.free[j], NextAddr(h.free, j));
        CarveOtherNode(m, s, header, h.free[j], NextAddr(h.free, j));
      }
    }
  }

  lemma NodeInMemory(m: seq<byte>, s: Segment, next: nat)
    requires Node(m, s, next)
    ensures InMemory(m, s)
  {
  }

  lemma TilesAscending(r: Region, h: Heap)
    requires Tiles(r, h)
    ensures Ascending(h.free) && InRegion(r, h.free)
    ensures |h.free| > 0 && h.free[0].addr == r.base
  {
  }

  /** Writing inside the header of a live block leaves the free list alone. */
  lemma LiveHeaderWrite(r: Region, h: Heap, m: seq<byte>, n: seq<byte>, s: Segment)
    requires Tiles(r, h) && s in h.live && Linked(m, h.free) && SameOutside(m, n, s.addr)
    ensures Linked(n, h.free)
  {
    hide WordAt, Tiles;
    forall j | 0 <= j < |h.free|
      ensures Node(n, h.free[j], NextAddr(h.free, j))
    {
      FreeApartFromLive(r, h, j, s);
      assert Node(m, h.free[j], NextAddr(h.free, j));
      assert HeadersApart(s.addr, h.free[j].addr);
    }
  }

  /** `n` differs from `m` in the payload of `s` at most. */
  ghost predicate PayloadWritten(m: seq<byte>, n: seq<byte>, s: Segment)
  {
    |n| == |m| && forall k :: 0 <= k < |m| && !(s.Start() <= k < s.End()) ==> n[k] == m[k]
  }

  lemma HeaderWords(m: seq<byte>, n: seq<byte>, a: nat)
    requires |n| == |m| && a + HEADER <= |m| && forall k :: a <= k < a + HEADER ==> n[k] == m[k]
    ensures WordAt(n, a) == WordAt(m, a) && WordAt(n, a + 4) == WordAt(m, a + 4)
  {
  }

  /** What a client writes into the payload of its block keeps the free list, the used headers and the
      bytes of every other block. */
  lemma ClientWrite(r: Region, h: Heap, m: seq<byte>, n: seq<byte>, s: Segment)
    requires Tiles(r, h) && s in h.live && Linked(m, h.free) && Headers(m, h.live) && PayloadWritten(m, n, s)
    ensures Linked(n, h.free) && Headers(n, h.live) && BytesKept(m, n, h.live - {s})
  {
    hide WordAt, Tiles, Separated;
    forall j | 0 <= j < |h.free|
      ensures Node(n, h.free[j], NextAddr(h.free, j))
    {
      FreeApartFromLive(r, h, j, s);
      assert Node(m, h.free[j], NextAddr(h.free, j));
      HeaderWords(m, n, h.free[j].addr);
    }
    forall t | t in h.live
      ensures InMemory(n, t) && WordAt(n, t.addr) == t.size
      ensures t != s ==> forall a :: t.Holds(a) ==> 0 <= a < |m| && n[a] == m[a]
    {
      if t != s {
        LiveApart(r, h, s, t);
      }
      HeaderWords(m, n, t.addr);
    }
  }

  lemma LiveApart(r: Region, h: Heap, s: Segment, t: Segment)
    requires Tiles(r, h) && s in h.live && t in h.live && s != t
    ensures Apart(s, t)
  {
  }

  /** Segment `s`, whose header is in place, fits behind element `i` of the list. */
  ghost predicate CanInsert(m: seq<byte>, r: Region, fs: seq<Segment>, i: nat, s: Segment)
  {
    && Linked(m, fs) && Ascending(fs) && InRegion(r, fs) && i < |fs|
    && InMemory(m, s) && WordAt(m, s.addr) == s.size && s.End() <= r.end
    && fs[i].End() <= s.addr && (i + 1 < |fs| ==> s.End() <= fs[i + 1].addr)
  }

  lemma PredecessorStep(fs: seq<Segment>, addr: nat, i: nat)
    requires i < |fs|
    ensures Predecessor(fs, addr, i)
         == if i + 1 == |fs| || addr < fs[i + 1].addr then i else Predecessor(fs, addr, i + 1)
  {
  }

  lemma LinkInsert(m: seq<byte>, r: Region, fs: seq<Segment>, i: nat, s: Segment)
    requires CanInsert(m, r, fs, i, s)
    ensures i < |fs|
    ensures Node(m, fs[i], NextAddr(fs, i)) && InMemory(m, s) && HeadersApart(fs[i].addr, s.addr)
    ensures Linked(LinkMem(m, fs[i].addr, s.addr), LinkAt(fs, i, s))
    ensures Ascending(LinkAt(fs, i, s)) && InRegion(r, LinkAt(fs, i, s))
  {
    hide WordAt, LinkMem, LinkAt;
    LinkLinked(m, fs, i, s);
    LinkAscending(fs, i, s);
  }

  lemma PredecessorCanInsert(m: seq<byte>, r: Region, h: Heap, s: Segment)
    requires Tiles(r, h) && Linked(m, h.free)
    requires s in h.live && InMemory(m, s) && WordAt(m, s.addr) == s.size
    ensures CanInsert(m, r, h.free, Predecessor(h.free, s.addr, 0), s)
    ensures forall j :: 0 <= j <= Predecessor(h.free, s.addr, 0) ==> h.free[j].addr < s.addr
  {
    hide WordAt;
    PredecessorBelow(r, h, s);
    TilesAscending(r, h);
  }

  lemma FirstFitStep(fs: seq<Segment>, l: Layout, i: nat)
    requires l.align > 0 && i < |fs|
    ensures FirstFit(fs, l, i) == if FindHeader(fs[i], l).Some? then Some(i) else FirstFit(fs, l, i + 1)
  {
  }

  /** The three ways in which `alloc` goes on with the address found in free segment `i`. */
  lemma HeaderCases(r: Region, h: Heap, l: Layout, i: nat)
    requires r.Valid() && Tiles(r, h) && l.Valid() && i < |h.free| && FindHeader(h.free[i], l).Some?
    ensures
      var s, header := h.free[i], FindHeader(h.free[i], l).value;
      && header < ADDRESS_SPACE
      && (NoWrap(s, l) <==> Placement(s, l, header + HEADER))
      && (EndPanics(s, l) <==> WrappingSub(header, s.addr + HEADER) > ISIZE_MAX)
      && (EndPanics(s, l) ==> !NoWrap(s, l))
      && (!NoWrap(s, l) && !EndPanics(s, l) ==> Stray(s, header))
  {
    hide NoWrap, Placement, Stray;
    FindHeaderExact(h.free[i], l);
    FindHeaderWraps(h.free[i], l);
    WrapPanics(h.free[i], l);
    UnnoticedIsStray(h.free[i], l);
  }

  /** The step of the heap on values when first fit picks segment `i`. */
  lemma FirstFitCarve(r: Region, h: Heap, l: Layout, i: nat)
    requires r.Valid() && Tiles(r, h) && l.Valid() && FirstFit(h.free, l, 0) == Some(i)
    ensures FindHeader(h.free[i], l).Some?
    ensures Step(h, Op.Alloc(l)) == if NoWrap(h.free[i], l) then Some(Carve(h, i, FindHeader(h.free[i], l).value)) else None
  {
    hide FirstFit, Carve, NoWrap, Placement;
    FirstFitExact(r, h, l);
  }

  /** The size word written for a free segment and, if it lies in the memory, the one written behind it. */
  function StrayMem(m: seq<byte>, s: Segment, header: nat): seq<byte>
    requires InMemory(m, s) && Stray(s, header)
  {
    var n := PutWord(m, s.addr, WrappingSub(header, s.Start()));
    if header + 4 <= |m| then PutWord(n, header, WrappingSub(s.End(), header + HEADER)) else n
  }

  lemma StrayReads(m: seq<byte>, s: Segment, header: nat)
    requires InMemory(m, s) && Stray(s, header)
    ensures
      var n := StrayMem(m, s, header);
      && |n| == |m| && WordAt(n, s.addr) == WrappingSub(header, s.Start())
      && forall k :: 0 <= k < |m| && !s.Holds(k) && k < header ==> n[k] == m[k]
  {
    hide WordAt, PutWord;
    PutWordReads(m, s.addr, WrappingSub(header, s.Start()));
    if header + 4 <= |m| {
      PutWordReads(PutWord(m, s.addr, WrappingSub(header, s.Start())), header, WrappingSub(s.End(), header + HEADER));
    }
  }

  /** An unnoticed wrap breaks the list in memory; it leaves the live blocks alone if the address lies
      behind the region. */
  lemma StrayBreaks(m: seq<byte>, r: Region, h: Heap, i: nat, header: nat)
    requires Tiles(r, h) && r.end <= |m| && Linked(m, h.free) && i < |h.free|
    requires InMemory(m, h.free[i]) && Stray(h.free[i], header)
    ensures !Linked(StrayMem(m, h.free[i], header), h.free)
    ensures r.end <= header ==> BytesKept(m, StrayMem(m, h.free[i], header), h.live)
  {
    hide WordAt, StrayMem, NextAddr;
    var s, n := h.free[i], StrayMem(m, h.free[i], header);
    StrayReads(m, s, header);
    assert !Node(n, s, NextAddr(h.free, i));
    if r.end <= header {
      forall t, a | t in h.live && t.Holds(a)
        ensures 0 <= a < |m| && n[a] == m[a]
      {
        FreeApartFromLive(r, h, i, t);
      }
    }
  }

  /** What becomes of a request: no segment answers, or the first one that does answers with a placement,
      with an address on which `set_end` panics, or with an address far behind it. */
  datatype AllocCase = Misses | Carves(i: nat) | Panics(i: nat) | Strays(i: nat)

  function CaseOf(h: Heap, l: Layout): (r: AllocCase)
    requires l.align > 0
    ensures !r.Misses? ==> r.i < |h.free| && FindHeader(h.free[r.i], l).Some?
  {
    var k := FirstFit(h.free, l, 0);
    if k.None? then Misses
    else if NoWrap(h.free[k.value], l) then Carves(k.value)
    else if EndPanics(h.free[k.value], l) then Panics(k.value)
    else Strays(k.value)
  }

  // 32-bit pointer addition.
  function PayloadOf(header: nat): nat
  {
    if header + HEADER < ADDRESS_SPACE then header + HEADER else header + HEADER - ADDRESS_SPACE
  }

  lemma FirstFitMisses(r: Region, h: Heap, l: Layout)
    requires r.Valid() && Tiles(r, h) && l.Valid()
    ensures FirstFit(h.free, l, 0).None? ==>
              Step(h, Op.Alloc(l)).None? && forall i, q: nat :: 0 <= i < |h.free| ==> !Placement(h.free[i], l, q)
  {
    hide FirstFit, NoWrap, Placement;
    FirstFitExact(r, h, l);
  }

  /** Everything `alloc` establishes when it carves the block found in free segment `i`. */
  lemma CarveValid(m: seq<byte>, r: Region, h: Heap, l: Layout, i: nat, header: nat)
    requires r.Valid() && r.end <= |m| && Tiles(r, h) && Linked(m, h.free) && Headers(m, h.live) && l.align > 0
    requires i < |h.free| && Placement(h.free[i], l, header + HEADER)
    ensures InMemory(m, h.free[i]) && r.base <= h.free[i].addr
    ensures h.free[i].Start() <= header && header + HEADER <= h.free[i].End() <= r.end
    ensures
      var n, k := CarveMem(m, h.free[i], header), Carve(h, i, header);
      && Tiles(r, k) && Linked(n, k.free) && Headers(n, k.live)
      && Allocated(h, l, k, header + HEADER) && BytesKept(m, n, h.live)
  {
    hide WordAt, CarveMem, Linked;
    var block := Segment(header, h.free[i].End() - (header + HEADER));
    CarveTiles(r, h, i, header);
    CarveLinked(m, h, i, header);
    CarveMemReads(m, h.free[i], header);
    var n := CarveMem(m, h.free[i], header);
    forall s, a | s in h.live && s.Holds(a)
      ensures 0 <= a < |m| && n[a] == m[a]
    {
      FreeApartFromLive(r, h, i, s);
    }
    HeadersKept(m, n, h.live);
    assert InMemory(n, block) && block in Carve(h, i, header).live;
  }

  /** What `dealloc` establishes, given that only its predecessor and the block were written. */
  lemma ReleaseValid(m: seq<byte>, n: seq<byte>, r: Region, h: Heap, b: Segment)
    requires Tiles(r, h) && r.end <= |m| && Headers(m, h.live) && b in h.live && |n| == |m|
    requires ChangedWithin(m, n, h.free[Predecessor(h.free, b.addr, 0)], b)
    ensures Tiles(r, Release(h, b)) && Headers(n, Release(h, b).live)
    ensures BytesKept(m, n, Release(h, b).live)
  {
    hide WordAt, InsertAfter, Predecessor;
    ReleaseTiles(r, h, b);
    forall s, a | s in h.live - {b} && s.Holds(a)
      ensures 0 <= a < |m| && n[a] == m[a]
    {
      FreeApartFromLive(r, h, Predecessor(h.free, b.addr, 0), s);
      assert Apart(s, b);
    }
    HeadersKept(m, n, h.live - {b});
  }

  /** The pointer, the "Failed to allocate" panic, or the "Expected end > start" panic. */
  datatype AllocResult = Pointer(address: nat) | OutOfMemory | EndBelowStart

  class Allocator {
    const mem: array<byte>
    const firstFree: nat

    ghost const region: Region
    ghost var heap: Heap

    /** Tiling on values, and every header word in memory says what the values say. */
    ghost predicate Valid()
      reads this, mem
    {
      && region.Valid() && region.end <= mem.Length
      && firstFree == region.base
      && Tiles(region, heap)
      && Linked(mem[..], heap.free)
      && Headers(mem[..], heap.live)
    }

    /** `init`: one free segment that spans the region. */
    constructor (m: array<byte>, base: nat, segmentSize: nat)
      requires Region(base, base + HEADER + segmentSize).Valid() && base + HEADER + segmentSize <= m.Length
      modifies m
      ensures Valid() && mem == m && region == Region(base, base + HEADER + segmentSize)
      ensures heap == Initial(region)
    {
      mem, firstFree := m, base;
      region := Region(base, base + HEADER + segmentSize);
      heap := Initial(Region(base, base + HEADER + segmentSize));
      new;
      hide WordAt, PutWord;
      InitialTiles(region);
      PutHeaderReads(mem[..], base, segmentSize, 0);
      WriteWord(base, segmentSize);
      WriteWord(base + 4, 0);
      assert Node(mem[..], heap.free[0], 0);
    }

    method ReadWord(a: nat) returns (w: nat)
      requires a + 4 <= mem.Length
      ensures w == WordAt(mem[..], a)
    {
      w := mem[a] as int + 0x100 * (mem[a + 1] as int) + 0x1_0000 * (mem[a + 2] as int) + 0x100_0000 * (mem[a + 3] as int);
    }

    method WriteWord(a: nat, w: nat)
      requires a + 4 <= mem.Length && w < WORD_LIMIT
      modifies mem
      ensures mem[..] == PutWord(old(mem[..]), a, w)
    {
      var q := w / 0x100;
      var r := q / 0x100;
      mem[a], mem[a + 1], mem[a + 2], mem[a + 3] := w % 0x100, q % 0x100, r % 0x100, r / 0x100;
    }

    /** `get_end` */
    method GetEnd(a: nat) returns (end: nat)
      requires a + HEADER <= mem.Length
      ensures end == a + HEADER + WordAt(mem[..], a)
    {
      var size := ReadWord(a);
      end := a + HEADER + size;
    }

    /** `set_end`; false is the panic of its `expect`, which comes before the write. */
    method SetEnd(a: nat, end: nat) returns (ok: bool)
      requires a + 4 <= mem.Length && 0 <= WrappingSub(end, a + HEADER) < WORD_LIMIT
      modifies mem
      ensures ok <==> WrappingSub(end, a + HEADER) <= ISIZE_MAX
      ensures mem[..] == if ok then PutWord(old(mem[..]), a, WrappingSub(end, a + HEADER)) else old(mem[..])
    {
      var distance := WrappingSub(end, a + HEADER);
      ok := distance <= ISIZE_MAX;
      if ok {
        WriteWord(a, distance);
      }
    }

    /** `merge_if_adjacent` on element `i` of the list and its successor (or null). */
    method MergeIfAdjacent(a: nat, b: nat, ghost fs: seq<Segment>, ghost i: nat)
      requires Linked(mem[..], fs) && Ascending(fs) && i < |fs|
      requires a == fs[i].addr && b == NextAddr(fs, i)
      requires region.Valid() && InRegion(region, fs)
      modifies mem
      ensures Linked(mem[..], MergeAt(fs, i)) && Ascending(MergeAt(fs, i)) && InRegion(region, MergeAt(fs, i))
      ensures SameOutside(old(mem[..]), mem[..], a)
    {
      hide WordAt, PutWord, MergeAt, InRegion, Ascending, Linked;
      MergeAscending(region, fs, i);
      NextWord(mem[..], fs, i);
      SizeWord(mem[..], fs, i);
      var end := GetEnd(a);
      if end == b {
        MergeLinked(mem[..], fs, i);
        PutWordReads(mem[..], a, fs[i + 1].End() - fs[i].Start());
        var endB := GetEnd(b);
        var ok := SetEnd(a, endB);
        assert ok;
        var next := ReadWord(b + 4);
        WriteWord(a + 4, next);
      }
    }

    /** `insert_segment_after` for element `i` and a segment `s` that fits behind it. */
    method InsertSegmentAfter(item: nat, node: nat, ghost fs: seq<Segment>, ghost i: nat, ghost s: Segment)
      requires region.Valid() && CanInsert(mem[..], region, fs, i, s)
      requires item == fs[i].addr && node == s.addr
      modifies mem
      ensures Linked(mem[..], InsertAfter(fs, i, s))
      ensures ChangedWithin(old(mem[..]), mem[..], fs[i], s)
    {
      hide WordAt, PutWord, LinkAt, MergeAt, InsertAfter, CanInsert, Ascending, InRegion;
      LinkInsert(mem[..], region, fs, i, s);
      ghost var l1 := LinkAt(fs, i, s);
      ghost var l2 := MergeAt(l1, i + 1);
      LinkMemReads(mem[..], item, node);
      InsertAfterSteps(fs, i, s);

      var next := ReadWord(item + 4);
      WriteWord(item + 4, node);
      WriteWord(node + 4, next);
      assert mem[..] == LinkMem(old(mem[..]), item, node);

      assert Node(mem[..], l1[i + 1], NextAddr(l1, i + 1));
      next := ReadWord(node + 4);
      MergeIfAdjacent(node, next, l1, i + 1);
      MergeIfAdjacent(item, node, l2, i);
    }

    /** The loop of `insert_segment_into_list` for a live block: it ends at the predecessor.  Neither
        the order assertion in it nor the panic behind it can be reached. */
    method FindPredecessor(listHead: nat, node: nat, ghost s: Segment) returns (it: nat, ghost i: nat)
      requires region.Valid() && Tiles(region, heap) && Linked(mem[..], heap.free)
      requires s in heap.live && listHead == region.base && node == s.addr
      ensures i == Predecessor(heap.free, s.addr, 0)
      ensures it == heap.free[Predecessor(heap.free, s.addr, 0)].addr
    {
      hide WordAt, Tiles, Linked, Predecessor;
      PredecessorBelow(region, heap, s);
      TilesAscending(region, heap);
      it, i := listHead, 0;
      while it != 0
        invariant 0 <= i < |heap.free| && it == heap.free[i].addr
        invariant Predecessor(heap.free, s.addr, i) == Predecessor(heap.free, s.addr, 0)
        decreases |heap.free| - i
      {
        assert it < node;
        NextWord(mem[..], heap.free, i);
        PredecessorStep(heap.free, s.addr, i);
        var next := ReadWord(it + 4);
        var shouldInsert := next == 0 || next > node;
        if shouldInsert {
          return;
        }
        it, i := next, i + 1;
      }
      assert false;
    }

    /** `insert_segment_into_list` for a live block. */
    method InsertSegmentIntoList(listHead: nat, node: nat, ghost s: Segment)
      requires region.Valid() && Tiles(region, heap) && Linked(mem[..], heap.free)
      requires s in heap.live && InMemory(mem[..], s) && WordAt(mem[..], s.addr) == s.size
      requires listHead == region.base && node == s.addr
      modifies mem
      ensures Linked(mem[..], Release(heap, s).free)
      ensures ChangedWithin(old(mem[..]), mem[..], heap.free[Predecessor(heap.free, s.addr, 0)], s)
    {
      hide WordAt, InsertAfter, Tiles, CanInsert, Linked, Predecessor, ChangedWithin;
      PredecessorCanInsert(mem[..], region, heap, s);
      TilesAscending(region, heap);
      ghost var i;
      var it;
      it, i := FindPredecessor(listHead, node, s);
      InsertSegmentAfter(it, node, heap.free, i, s);
    }

    /** `convert_used_to_free_segment` */
    method ConvertUsedToFreeSegment(listHead: nat, header: nat, ghost s: Segment)
      requires Valid() && listHead == firstFree && s in heap.live && header == s.addr
      modifies mem
      ensures Linked(mem[..], Release(heap, s).free)
      ensures ChangedWithin(old(mem[..]), mem[..], heap.free[Predecessor(heap.free, s.addr, 0)], s)
    {
      hide WordAt, PutWord;
      var size := ReadWord(header);
      PutHeaderReads(mem[..], header, size, 0);
      WriteWord(header, size);
      WriteWord(header + 4, 0);
      LiveHeaderWrite(region, heap, old(mem[..]), mem[..], s);
      InsertSegmentIntoList(listHead, header, s);
    }

    /** The last lines of `alloc`, for the address found in free segment `i`: shrink the segment and write
        the used header, wherever it lies. */
    method CarveBlock(it: nat, header: nat, ghost l: Layout, ghost i: nat) returns (r: AllocResult)
      requires Valid() && l.Valid() && i < |heap.free| && it == heap.free[i].addr
      requires FindHeader(heap.free[i], l) == Some(header)
      modifies mem, `heap
      ensures r == if EndPanics(old(heap).free[i], l) then EndBelowStart else Pointer(PayloadOf(header))
      ensures EndPanics(old(heap).free[i], l) ==> heap == old(heap) && mem[..] == old(mem[..])
      ensures NoWrap(old(heap).free[i], l) ==>
                && Valid() && heap == Carve(old(heap), i, header) && PayloadOf(header) == header + HEADER
                && Allocated(old(heap), l, heap, header + HEADER) && BytesKept(old(mem[..]), mem[..], old(heap).live)
      ensures !NoWrap(old(heap).free[i], l) && !EndPanics(old(heap).free[i], l) ==>
                && heap == old(heap) && InMemory(old(mem[..]), heap.free[i]) && Stray(heap.free[i], header)
                && mem[..] == StrayMem(old(mem[..]), heap.free[i], header)
    {
      hide WordAt, PutWord, Tiles, Linked, Headers, Carve, Allocated, BytesKept, Placement, FindHeader, NoWrap, EndPanics;
      SizeWord(mem[..], heap.free, i);
      HeaderCases(region, heap, l, i);
      if NoWrap(heap.free[i], l) {
        CarveValid(mem[..], region, heap, l, i, header);
      }
      // Read the end first: the shrunk segment no longer knows it.
      var usedEnd := GetEnd(it);
      var ok := SetEnd(it, header);
      if !ok {
        return EndBelowStart;
      }
      if header + 4 <= mem.Length {
        ok := SetEnd(header, usedEnd);
        assert ok;
      }
      if NoWrap(heap.free[i], l) {
        heap := Carve(heap, i, header);
      }
      r := Pointer(PayloadOf(header));
    }

    /** `alloc`.  Where the search of the segment that first fit picks wraps, the code panics in `set_end`,
        or on a segment of at most 6 bytes hands out an address outside the segment. */
    method Alloc(l: Layout) returns (r: AllocResult)
      requires Valid() && l.Valid()
      modifies mem, `heap
      ensures
        match CaseOf(old(heap), l)
        case Misses =>
          && r == OutOfMemory && Valid() && heap == old(heap) && mem[..] == old(mem[..])
          && Step(heap, Op.Alloc(l)).None? && forall i, q: nat :: 0 <= i < |heap.free| ==> !Placement(heap.free[i], l, q)
        case Panics(_) =>
          r == EndBelowStart && Valid() && heap == old(heap) && mem[..] == old(mem[..]) && Step(heap, Op.Alloc(l)).None?
        case Carves(_) =>
          && r.Pointer? && Valid() && Step(old(heap), Op.Alloc(l)) == Some(heap)
          && Allocated(old(heap), l, heap, r.address) && BytesKept(old(mem[..]), mem[..], old(heap).live)
        case Strays(i) =>
          var s, header := old(heap).free[i], FindHeader(old(heap).free[i], l).value;
          && r == Pointer(PayloadOf(header)) && !Valid() && heap == old(heap) && Step(heap, Op.Alloc(l)).None?
          && InMemory(old(mem[..]), s) && Stray(s, header) && mem[..] == StrayMem(old(mem[..]), s, header)
          && (region.end <= SIGN_BIT + region.base ==> region.end <= header && BytesKept(old(mem[..]), mem[..], heap.live))
    {
      hide WordAt, Tiles, Linked, Headers, Carve, Placement, FindHeader, FirstFit, Allocated, BytesKept;
      hide NoWrap, EndPanics, Step, StrayMem;
      TilesAscending(region, heap);
      FirstFitMisses(region, heap, l);
      var it := firstFree;
      ghost var i := 0;
      while it != 0
        invariant 0 <= i <= |heap.free| && it == if i < |heap.free| then heap.free[i].addr else 0
        invariant FirstFit(heap.free, l, i) == FirstFit(heap.free, l, 0)
        invariant heap == old(heap) && mem[..] == old(mem[..])
        decreases |heap.free| - i
      {
        SizeWord(mem[..], heap.free, i);
        NextWord(mem[..], heap.free, i);
        FirstFitStep(heap.free, l, i);
        var size := ReadWord(it);
        var found := FindHeader(Segment(it, size), l);
        if found.None? {
          it := ReadWord(it + 4);
          i := i + 1;
        } else {
          FirstFitCarve(region, heap, l, i);
          HeaderCases(region, heap, l, i);
          r := CarveBlock(it, found.value, l, i);
          if CaseOf(old(heap), l).Strays? {
            StrayBreaks(old(mem[..]), region, heap, i, found.value);
          }
          return;
        }
      }
      r := OutOfMemory;
    }

    /** `dealloc` of a pointer that `alloc` handed out and that is still live. */
    method Dealloc(ptr: nat)
      requires Valid() && exists b :: b in heap.live && b.Start() == ptr
      modifies mem, `heap
      ensures Valid()
      ensures exists b :: b in old(heap).live && b.Start() == ptr && Step(old(heap), Free(b)) == Some(heap)
      ensures BytesKept(old(mem[..]), mem[..], heap.live)
    {
      hide WordAt, Tiles, Linked, Predecessor, InsertAfter, ChangedWithin, BytesKept;
      ghost var b :| b in heap.live && b.Start() == ptr;
      TilesAscending(region, heap);
      var header := ptr - HEADER;
      ConvertUsedToFreeSegment(firstFree, header, b);
      ReleaseValid(old(mem[..]), mem[..], region, heap, b);
      heap := Release(heap, b);
    }

    /** The walk along the links that the allocator's tests use to compare states: it terminates and
        reads the free list off the memory. */
    method CaptureState() returns (segments: seq<Segment>)
      requires Valid()
      ensures segments == heap.free
    {
      hide WordAt, Tiles, Linked;
      TilesAscending(region, heap);
      segments := [];
      var it := firstFree;
      while it != 0
        invariant |segments| <= |heap.free| && segments == heap.free[..|segments|]
        invariant it == if |segments| < |heap.free| then heap.free[|segments|].addr else 0
        decreases |heap.free| - |segments|
      {
        ghost var i := |segments|;
        SizeWord(mem[..], heap.free, i);
        NextWord(mem[..], heap.free, i);
        var size := ReadWord(it);
        segments := segments + [Segment(it, size)];
        it := ReadWord(it + 4);
      }
    }
  }
}
