/**
  The allocator on values: a free list and the set of live blocks.

  The two operations are the ones of the kernel allocator: first fit that carves the block from
  the tail of a free segment, and an address-ordered insertion that coalesces with both
  neighbours.  The invariant says that the free list is the list of maximal gaps between the
  live blocks, and that determines the free list from the live blocks alone.
 */
module FreeList {
  import opened Options
  import opened Segments

  /** The managed region: the bytes from `base` up to `end`. */
  datatype Region = Region(base: nat, end: nat) {
    predicate Valid() {
      && 0 < base
      && base + HEADER <= end < ADDRESS_SPACE
      && end - base - HEADER <= ISIZE_MAX
    }
    predicate Holds(a: int) { base <= a < end }
  }

  datatype Heap = Heap(free: seq<Segment>, live: set<Segment>)

  /** Strictly address-ordered, and no segment touches the next one. */
  ghost predicate Separated(fs: seq<Segment>)
  {
    forall i, j :: 0 <= i < j < |fs| ==> fs[i].End() < fs[j].addr
  }

  ghost predicate InList(fs: seq<Segment>, a: int)
  {
    exists i :: 0 <= i < |fs| && fs[i].Holds(a)
  }

  ghost predicate InSet(live: set<Segment>, a: int)
  {
    exists s :: s in live && s.Holds(a)
  }

  predicate Apart(s: Segment, t: Segment)
  {
    s.End() <= t.addr || t.End() <= s.addr
  }

  /** Free segments and live blocks, headers included, tile the region: every byte of the region
      lies in exactly one of them.  The first free segment is the initial one. */
  ghost predicate Tiles(r: Region, h: Heap)
  {
    && |h.free| > 0 && h.free[0].addr == r.base
    && Separated(h.free)
    && (forall i :: 0 <= i < |h.free| ==> h.free[i].End() <= r.end)
    && (forall s :: s in h.live ==> r.base <= s.addr && s.End() <= r.end)
    && (forall s, t :: s in h.live && t in h.live && s != t ==> Apart(s, t))
    && (forall a :: r.Holds(a) ==> (InList(h.free, a) <==> !InSet(h.live, a)))
  }

  function Initial(r: Region): Heap
    requires r.Valid()
  {
    Heap([Segment(r.base, r.end - r.base - HEADER)], {})
  }

  lemma InitialTiles(r: Region)
    requires r.Valid()
    ensures Tiles(r, Initial(r))
  {
    var h := Initial(r);
    forall a | r.Holds(a)
      ensures InList(h.free, a)
    {
      assert h.free[0].Holds(a);
    }
  }

  // ---------------------------------------------------------------- canonical form

  lemma HeadCovered(fs: seq<Segment>)
    requires fs != []
    ensures InList(fs, fs[0].addr)
  {
    assert fs[0].Holds(fs[0].addr);
  }

  /** Two separated lists that cover the same addresses are the same list. */
  lemma {:induction false} CoverDetermines(fs: seq<Segment>, gs: seq<Segment>)
    requires Separated(fs) && Separated(gs)
    requires forall a :: InList(fs, a) <==> InList(gs, a)
    ensures fs == gs
  {
    if fs != [] { HeadCovered(fs); }
    if gs != [] { HeadCovered(gs); }
    if fs != [] && gs != [] {
      FirstAgrees(fs, gs);
      FirstAgrees(gs, fs);
      assert fs[0].End() == gs[0].End();
      assert fs[0] == gs[0];
      forall a
        ensures InList(fs[1..], a) <==> InList(gs[1..], a)
      {
        TailCover(fs, a);
        TailCover(gs, a);
      }
      CoverDetermines(fs[1..], gs[1..]);
      assert fs == [fs[0]] + fs[1..];
      assert gs == [gs[0]] + gs[1..];
    }
  }

  // The first segment of `gs` starts and ends no later than the first segment of `fs`.
  lemma FirstAgrees(fs: seq<Segment>, gs: seq<Segment>)
    requires |fs| > 0 && |gs| > 0 && Separated(fs) && Separated(gs)
    requires forall a :: InList(fs, a) <==> InList(gs, a)
    ensures gs[0].addr <= fs[0].addr
    ensures gs[0].End() <= fs[0].End()
  {
    assert fs[0].Holds(fs[0].addr);
    assert InList(gs, fs[0].addr);
    assert gs[0].Holds(gs[0].addr);
    assert InList(fs, gs[0].addr);
    assert !InList(fs, fs[0].End());
    if fs[0].End() < gs[0].End() {
      assert gs[0].Holds(fs[0].End());
    }
  }

  lemma TailCover(fs: seq<Segment>, a: int)
    requires |fs| > 0 && Separated(fs)
    ensures InList(fs[1..], a) <==> InList(fs, a) && !fs[0].Holds(a)
  {
    if InList(fs[1..], a) {
      var i :| 0 <= i < |fs[1..]| && fs[1..][i].Holds(a);
      assert fs[i + 1].Holds(a);
    }
    if InList(fs, a) && !fs[0].Holds(a) {
      var i :| 0 <= i < |fs| && fs[i].Holds(a);
      assert fs[1..][i - 1].Holds(a);
    }
  }

  /** Canonical form: the live blocks alone determine the free list. */
  lemma Canonical(r: Region, h: Heap, k: Heap)
    requires Tiles(r, h) && Tiles(r, k) && h.live == k.live
    ensures h.free == k.free
  {
    forall a
      ensures InList(h.free, a) <==> InList(k.free, a)
    {
      InListInRegion(r, h, a);
      InListInRegion(r, k, a);
    }
    CoverDetermines(h.free, k.free);
  }

  lemma InListInRegion(r: Region, h: Heap, a: int)
    requires Tiles(r, h)
    ensures InList(h.free, a) ==> r.Holds(a)
  {
  }

  /** With no live block left, the free list is the initial one. */
  lemma EmptyIsInitial(r: Region, h: Heap)
    requires r.Valid() && Tiles(r, h) && h.live == {}
    ensures h == Initial(r)
  {
    InitialTiles(r);
    Canonical(r, h, Initial(r));
  }

  // ---------------------------------------------------------------- allocation

  /** The first segment, from index `i` on, in which the placement search succeeds. */
  function FirstFit(fs: seq<Segment>, l: Layout, i: nat): (k: Option<nat>)
    requires l.align > 0 && i <= |fs|
    ensures k.Some? ==> i <= k.value < |fs| && FindHeader(fs[k.value], l).Some?
    ensures forall j :: i <= j < (if k.Some? then k.value else |fs|) ==> FindHeader(fs[j], l).None?
    decreases |fs| - i
  {
    if i == |fs| then None
    else if FindHeader(fs[i], l).Some? then Some(i)
    else FirstFit(fs, l, i + 1)
  }

  /** Cut the block that starts at `header` off the tail of free segment `i`. */
  function Carve(h: Heap, i: nat, header: nat): Heap
    requires i < |h.free| && h.free[i].Start() <= header && header + HEADER <= h.free[i].End()
  {
    var s := h.free[i];
    Heap(h.free[i := Segment(s.addr, header - s.Start())],
         h.live + {Segment(header, s.End() - (header + HEADER))})
  }

  lemma CarveTiles(r: Region, h: Heap, i: nat, header: nat)
    requires Tiles(r, h)
    requires i < |h.free| && h.free[i].Start() <= header && header + HEADER <= h.free[i].End()
    ensures Tiles(r, Carve(h, i, header))
    ensures Segment(header, h.free[i].End() - (header + HEADER)) !in h.live
  {
    var k := Carve(h, i, header);
    var block := Segment(header, h.free[i].End() - (header + HEADER));
    forall t | t in h.live
      ensures Apart(block, t)
    {
      FreeApartFromLive(r, h, i, t);
    }
    forall a | r.Holds(a)
      ensures InList(k.free, a) <==> !InSet(k.live, a)
    {
      CarveCover(r, h, i, header, a);
    }
  }

  lemma FreeApartFromLive(r: Region, h: Heap, i: nat, t: Segment)
    requires Tiles(r, h) && i < |h.free| && t in h.live
    ensures Apart(h.free[i], t)
  {
    var s := h.free[i];
    var a := if s.addr < t.addr then t.addr else s.addr;
    if !Apart(s, t) {
      assert s.Holds(a) && t.Holds(a);
      assert InList(h.free, a) && InSet(h.live, a);
    }
  }

  lemma CarveCover(r: Region, h: Heap, i: nat, header: nat, a: int)
    requires Tiles(r, h) && r.Holds(a)
    requires i < |h.free| && h.free[i].Start() <= header && header + HEADER <= h.free[i].End()
    ensures InList(Carve(h, i, header).free, a) <==> !InSet(Carve(h, i, header).live, a)
  {
    var k := Carve(h, i, header);
    var block := Segment(header, h.free[i].End() - (header + HEADER));
    assert block in k.live;
    if h.free[i].Holds(a) {
      assert InList(h.free, a);
      if k.free[i].Holds(a) {
        assert InList(k.free, a);
      } else {
        assert block.Holds(a);
        assert InSet(k.live, a);
      }
    } else if InList(h.free, a) {
      var j :| 0 <= j < |h.free| && h.free[j].Holds(a);
      assert k.free[j].Holds(a);
    } else {
      var t :| t in h.live && t.Holds(a);
      assert t in k.live;
    }
  }

  // ---------------------------------------------------------------- deallocation

  function Join(s: Segment, t: Segment): Segment
    requires s.End() == t.addr
  {
    Segment(s.addr, t.End() - s.Start())
  }

  /** The list from `s` on, with `s` merged into the first element of `rest` if they touch. */
  function PushFront(s: Segment, rest: seq<Segment>): seq<Segment>
  {
    if rest != [] && s.End() == rest[0].addr then [Join(s, rest[0])] + rest[1..] else [s] + rest
  }

  /** `insert_segment_after`: link `s` behind element `i`, then merge it with the element behind
      it and with the element before it where they touch. */
  function InsertAfter(fs: seq<Segment>, i: nat, s: Segment): seq<Segment>
    requires i < |fs|
  {
    fs[..i] + PushFront(fs[i], PushFront(s, fs[i + 1..]))
  }

  /** The element behind which `insert_segment_into_list` inserts an address. */
  function Predecessor(fs: seq<Segment>, addr: nat, i: nat): (k: nat)
    requires i < |fs|
    ensures i <= k < |fs|
    ensures k + 1 == |fs| || addr < fs[k + 1].addr
    ensures forall j :: i < j <= k ==> fs[j].addr <= addr
    decreases |fs| - i
  {
    if i + 1 == |fs| || addr < fs[i + 1].addr then i else Predecessor(fs, addr, i + 1)
  }

  function Release(h: Heap, s: Segment): Heap
    requires |h.free| > 0
  {
    Heap(InsertAfter(h.free, Predecessor(h.free, s.addr, 0), s), h.live - {s})
  }

  lemma PushFrontSeparated(s: Segment, rest: seq<Segment>)
    requires Separated(rest) && (rest != [] ==> s.End() <= rest[0].addr)
    ensures Separated(PushFront(s, rest))
    ensures PushFront(s, rest)[0].addr == s.addr
    ensures forall a :: InList(PushFront(s, rest), a) <==> s.Holds(a) || InList(rest, a)
  {
    forall a
      ensures InList(PushFront(s, rest), a) <==> s.Holds(a) || InList(rest, a)
    {
      PushFrontCover(s, rest, a);
    }
  }

  lemma PushFrontCover(s: Segment, rest: seq<Segment>, a: int)
    requires rest != [] ==> s.End() <= rest[0].addr
    ensures InList(PushFront(s, rest), a) <==> s.Holds(a) || InList(rest, a)
  {
    var fs := PushFront(s, rest);
    var off := if |fs| == |rest| then 0 else 1;
    if s.Holds(a) {
      assert fs[0].Holds(a);
    }
    if InList(rest, a) {
      var i :| 0 <= i < |rest| && rest[i].Holds(a);
      assert fs[i + off].Holds(a);
    }
    if InList(fs, a) && !s.Holds(a) {
      var i :| 0 <= i < |fs| && fs[i].Holds(a);
      assert rest[i - off].Holds(a);
    }
  }

  lemma ConcatSeparated(fs: seq<Segment>, gs: seq<Segment>)
    requires Separated(fs) && Separated(gs)
    requires forall i :: 0 <= i < |fs| && gs != [] ==> fs[i].End() < gs[0].addr
    ensures Separated(fs + gs)
    ensures forall a :: InList(fs + gs, a) <==> InList(fs, a) || InList(gs, a)
  {
    forall a
      ensures InList(fs + gs, a) <==> InList(fs, a) || InList(gs, a)
    {
      if InList(fs, a) {
        var i :| 0 <= i < |fs| && fs[i].Holds(a);
        assert (fs + gs)[i].Holds(a);
      }
      if InList(gs, a) {
        var i :| 0 <= i < |gs| && gs[i].Holds(a);
        assert (fs + gs)[|fs| + i].Holds(a);
      }
    }
  }

  /** Inserting a segment that overlaps no element keeps the list separated and adds exactly the
      bytes of the segment. */
  lemma InsertSeparated(fs: seq<Segment>, i: nat, s: Segment)
    requires Separated(fs) && i < |fs|
    requires fs[i].End() <= s.addr
    requires i + 1 < |fs| ==> s.End() <= fs[i + 1].addr
    ensures Separated(InsertAfter(fs, i, s))
    ensures InsertAfter(fs, i, s)[0].addr == fs[0].addr
    ensures forall a :: InList(InsertAfter(fs, i, s), a) <==> InList(fs, a) || s.Holds(a)
  {
    var rest := PushFront(s, fs[i + 1..]);
    var tail := PushFront(fs[i], rest);
    PushFrontSeparated(s, fs[i + 1..]);
    PushFrontSeparated(fs[i], rest);
    ConcatSeparated(fs[..i], tail);
    assert fs[i..] == [fs[i]] + fs[i + 1..];
    forall a
      ensures InList(fs, a) <==> InList(fs[..i], a) || fs[i].Holds(a) || InList(fs[i + 1..], a)
    {
      SplitCover(fs, i, a);
    }
  }

  lemma SplitCover(fs: seq<Segment>, i: nat, a: int)
    requires i < |fs|
    ensures InList(fs, a) <==> InList(fs[..i], a) || fs[i].Holds(a) || InList(fs[i + 1..], a)
  {
    if InList(fs[..i], a) {
      var j :| 0 <= j < i && fs[..i][j].Holds(a);
      assert fs[j].Holds(a);
    }
    if InList(fs[i + 1..], a) {
      var j :| 0 <= j < |fs[i + 1..]| && fs[i + 1..][j].Holds(a);
      assert fs[i + 1 + j].Holds(a);
    }
    if InList(fs, a) {
      var j :| 0 <= j < |fs| && fs[j].Holds(a);
      if j < i { assert fs[..i][j].Holds(a); }
      if j > i { assert fs[i + 1..][j - i - 1].Holds(a); }
    }
  }

  /** A live block lies behind its predecessor in the free list and before the element that
      follows; in particular it is above the head. */
  lemma PredecessorBelow(r: Region, h: Heap, s: Segment)
    requires Tiles(r, h) && s in h.live
    ensures
      var i := Predecessor(h.free, s.addr, 0);
      && (forall j :: 0 <= j <= i ==> h.free[j].End() <= s.addr)
      && (i + 1 < |h.free| ==> s.End() <= h.free[i + 1].addr)
  {
    var i := Predecessor(h.free, s.addr, 0);
    forall j | 0 <= j < |h.free|
      ensures Apart(h.free[j], s)
    {
      FreeApartFromLive(r, h, j, s);
    }
  }

  lemma ReleaseTiles(r: Region, h: Heap, s: Segment)
    requires Tiles(r, h) && s in h.live
    ensures Tiles(r, Release(h, s))
  {
    var k := Release(h, s);
    PredecessorBelow(r, h, s);
    InsertSeparated(h.free, Predecessor(h.free, s.addr, 0), s);
    forall a | r.Holds(a)
      ensures InList(k.free, a) <==> !InSet(k.live, a)
    {
      ReleaseCover(r, h, s, a);
    }
    ReleaseInRegion(r, h, s);
    assert forall t :: t in k.live ==> t in h.live;
  }

  lemma ReleaseInRegion(r: Region, h: Heap, s: Segment)
    requires Tiles(r, h) && s in h.live
    requires forall a :: InList(Release(h, s).free, a) <==> InList(h.free, a) || s.Holds(a)
    ensures forall j :: 0 <= j < |Release(h, s).free| ==> Release(h, s).free[j].End() <= r.end
  {
    var fs := Release(h, s).free;
    forall j | 0 <= j < |fs|
      ensures fs[j].End() <= r.end
    {
      var last := fs[j].End() - 1;
      assert fs[j].Holds(last);
      assert InList(fs, last);
      InListInRegion(r, h, last);
    }
  }

  lemma ReleaseCover(r: Region, h: Heap, s: Segment, a: int)
    requires Tiles(r, h) && s in h.live && r.Holds(a)
    requires InList(Release(h, s).free, a) <==> InList(h.free, a) || s.Holds(a)
    ensures InList(Release(h, s).free, a) <==> !InSet(Release(h, s).live, a)
  {
    if InSet(h.live, a) {
      var t :| t in h.live && t.Holds(a);
      if t != s {
        assert Apart(s, t);
        assert t in h.live - {s};
      }
    }
  }

  // ---------------------------------------------------------------- whole runs

  datatype Op = Alloc(layout: Layout) | Free(block: Segment)

  ghost predicate ValidOp(op: Op)
  {
    op.Alloc? ==> op.layout.Valid()
  }

  /** One call.  None is the end of the run: "Failed to allocate", a wrapped pointer, or a
      `dealloc` of something that is not a live block. */
  function Step(h: Heap, op: Op): Option<Heap>
    requires |h.free| > 0
    requires op.Alloc? ==> op.layout.align > 0
  {
    match op
    case Free(s) => if s in h.live then Some(Release(h, s)) else None
    case Alloc(l) =>
      var k := FirstFit(h.free, l, 0);
      if k.None? then None
      else
        var header := FindHeader(h.free[k.value], l).value;
        if Placement(h.free[k.value], l, header + HEADER) then Some(Carve(h, k.value, header)) else None
  }

  /** The state after a sequence of calls, provided each of them returned. */
  ghost predicate Runs(h: Heap, ops: seq<Op>, k: Heap)
    decreases |ops|
  {
    if ops == [] then h == k
    else
      && |h.free| > 0 && ValidOp(ops[0])
      && Step(h, ops[0]).Some?
      && Runs(Step(h, ops[0]).value, ops[1..], k)
  }

  /** First fit is exact.  It fails only when no free segment has any placement; it succeeds with
      the highest placement of the first segment that has one, unless a pointer wrapped. */
  lemma FirstFitExact(r: Region, h: Heap, l: Layout)
    requires r.Valid() && Tiles(r, h) && l.Valid()
    ensures
      match FirstFit(h.free, l, 0)
      case None => forall i, p: nat :: 0 <= i < |h.free| ==> !Placement(h.free[i], l, p)
      case Some(k) =>
        && (forall i, p: nat :: 0 <= i < k ==> !Placement(h.free[i], l, p))
        && var p := FindHeader(h.free[k], l).value + HEADER;
        && (NoWrap(h.free[k], l) <==> Placement(h.free[k], l, p))
        && (NoWrap(h.free[k], l) ==> forall q: nat :: Placement(h.free[k], l, q) ==> q <= p)
  {
    forall i | 0 <= i < |h.free| && FindHeader(h.free[i], l).None?
      ensures forall p: nat :: !Placement(h.free[i], l, p)
    {
      FindHeaderComplete(h.free[i], l);
    }
    var k := FirstFit(h.free, l, 0);
    if k.Some? {
      FindHeaderExact(h.free[k.value], l);
    }
  }

  lemma StepTiles(r: Region, h: Heap, op: Op)
    requires r.Valid() && Tiles(r, h) && ValidOp(op) && Step(h, op).Some?
    ensures Tiles(r, Step(h, op).value)
  {
    match op
    case Free(s) => ReleaseTiles(r, h, s);
    case Alloc(l) =>
      var k := FirstFit(h.free, l, 0).value;
      CarveTiles(r, h, k, FindHeader(h.free[k], l).value);
  }

  /** Every run keeps the tiling. */
  lemma {:induction false} RunTiles(r: Region, h: Heap, ops: seq<Op>, k: Heap)
    requires r.Valid() && Tiles(r, h) && Runs(h, ops, k)
    ensures Tiles(r, k)
    decreases |ops|
  {
    if ops != [] {
      StepTiles(r, h, ops[0]);
      RunTiles(r, Step(h, ops[0]).value, ops[1..], k);
    }
  }

  /** Any two runs from the initial state that end with the same live blocks end with the
      identical free list, whatever they allocated and freed on the way and in which order. */
  lemma RunsAgree(r: Region, ops: seq<Op>, ops': seq<Op>, h: Heap, h': Heap)
    requires r.Valid() && Runs(Initial(r), ops, h) && Runs(Initial(r), ops', h')
    requires h.live == h'.live
    ensures h.free == h'.free
  {
    InitialTiles(r);
    RunTiles(r, Initial(r), ops, h);
    RunTiles(r, Initial(r), ops', h');
    Canonical(r, h, h');
  }

  /** Freeing everything, in any order, restores the single initial segment. */
  lemma RunRestores(r: Region, ops: seq<Op>, h: Heap)
    requires r.Valid() && Runs(Initial(r), ops, h) && h.live == {}
    ensures h == Initial(r)
  {
    InitialTiles(r);
    RunTiles(r, Initial(r), ops, h);
    EmptyIsInitial(r, h);
  }

  /** A block that is freed again leaves no trace: the free list is the one before `alloc`. */
  lemma AllocFreeRestores(r: Region, h: Heap, l: Layout, k: Heap, block: Segment)
    requires r.Valid() && Tiles(r, h) && l.Valid() && Step(h, Alloc(l)) == Some(k)
    requires block in k.live - h.live
    ensures |k.free| > 0 && Step(k, Free(block)) == Some(h)
  {
    var i := FirstFit(h.free, l, 0).value;
    var header := FindHeader(h.free[i], l).value;
    CarveTiles(r, h, i, header);
    ReleaseTiles(r, k, block);
    assert k.live - {block} == h.live;
    Canonical(r, Release(k, block), h);
  }

  /** A run in numbers: 16 bytes aligned to 4 out of a 4 KiB region, and back. */
  lemma RunExample()
    ensures
      var r, l, block := Region(0x10_0000, 0x10_1000), Layout(16, 4), Segment(0x10_0fe8, 16);
      && r.Valid() && l.Valid()
      && Runs(Initial(r), [Alloc(l)], Heap([Segment(0x10_0000, 0xfe0)], {block}))
      && Runs(Initial(r), [Alloc(l), Free(block)], Initial(r))
  {
    var r, l, block := Region(0x10_0000, 0x10_1000), Layout(16, 4), Segment(0x10_0fe8, 16);
    var k := Heap([Segment(0x10_0000, 0xfe0)], {block});
    assert Pow2(2) == 4 && l.Valid();
    InitialTiles(r);
    assert FirstFit(Initial(r).free, l, 0) == Some(0);
    assert Step(Initial(r), Alloc(l)) == Some(k) by {
      var c := Carve(Initial(r), 0, 0x10_0fe8);
      assert c.free == k.free && c.live == k.live;
    }
    AllocFreeRestores(r, Initial(r), l, k, block);
    assert [Alloc(l), Free(block)][1..] == [Free(block)] && [Free(block)][1..] == [];
    assert Runs(k, [], k) && Runs(k, [Free(block)], Initial(r));
  }
}
