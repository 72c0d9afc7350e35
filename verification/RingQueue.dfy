/**
  The bounded ring queue with its `num_elems` sentinel for "full", for calls that do not overlap.

  `head` is the slot to pop from, `tail` the slot after the last valid element and `reserved` the
  next slot to push to; the latter two hold the capacity when the ring is full.  The class is
  proved to be a FIFO of the given capacity.
 */
module RingQueue {
  import opened Options

  function WrappingIncrement(i: nat, size: nat): (next: nat)
    requires size > 0
    ensures next < size
  {
    (i + 1) % size
  }

  /** The slot of the `k`-th element of a ring that starts at `head`. */
  function Slot(head: nat, k: nat, n: nat): nat
  {
    if head + k < n then head + k else head + k - n
  }

  /** The storage holds `contents`, in order, from slot `head` on. */
  ghost predicate Represents<T>(es: seq<Option<T>>, vs: seq<bool>, head: nat, tail: nat, reserved: nat, contents: seq<T>)
  {
    var n := |vs|;
    && |es| == n && |contents| <= n
    && (if n == 0 then head == 0 else head < n)
    && tail == reserved == (if |contents| == n then n else Slot(head, |contents|, n))
    && (forall k :: 0 <= k < |contents| ==> es[Slot(head, k, n)] == Some(contents[k]))
    && (forall k :: 0 <= k < n ==> (vs[Slot(head, k, n)] <==> k < |contents|))
  }

  /** The value that `push` gives to `reserved` and to `tail`. */
  function Advance(i: nat, head: nat, n: nat): nat
    requires i < n
  {
    if WrappingIncrement(i, n) == head then n else WrappingIncrement(i, n)
  }

  lemma AdvanceSlot(head: nat, k: nat, n: nat)
    requires head < n && k < n
    ensures Advance(Slot(head, k, n), head, n) == if k + 1 == n then n else Slot(head, k + 1, n)
  {
    var s := Slot(head, k, n);
    if s + 1 < n {
      assert (s + 1) % n == s + 1;
    } else {
      assert (s + 1) % n == 0;
    }
  }

  lemma PushRepresents<T>(es: seq<Option<T>>, vs: seq<bool>, head: nat, tail: nat, contents: seq<T>, elem: T)
    requires Represents(es, vs, head, tail, tail, contents) && tail != |vs|
    ensures tail < |vs| && !vs[tail]
    ensures
      var next := Advance(tail, head, |vs|);
      && Represents(es[tail := Some(elem)], vs[tail := true], head, next, next, contents + [elem])
      && (next < |vs| ==> next != tail && !vs[next])
  {
    var n, len := |vs|, |contents|;
    AdvanceSlot(head, len, n);
    assert vs[Slot(head, len, n)] <==> len < len;
    if len + 1 < n {
      assert vs[Slot(head, len + 1, n)] <==> len + 1 < len;
    }
  }

  lemma PopRepresents<T>(es: seq<Option<T>>, vs: seq<bool>, head: nat, tail: nat, contents: seq<T>)
    requires Represents(es, vs, head, tail, tail, contents) && head != tail
    ensures 0 < |contents| && head < |vs| && es[head] == Some(contents[0])
    ensures
      var next := if tail == |vs| then head else tail;
      Represents(es[head := None], vs[head := false], WrappingIncrement(head, |vs|), next, next, contents[1..])
  {
    var n := |vs|;
    assert Slot(head, 0, n) == head;
    assert contents != [];
    AdvanceSlot(head, 0, n);
    var head' := WrappingIncrement(head, n);
    assert head' == Slot(head, 1, n) || n == 1;
    forall k | 0 <= k < n
      ensures Slot(head', k, n) == if k + 1 < n then Slot(head, k + 1, n) else head
    {
    }
  }

  class Ring<T> {
    const elements: array<Option<T>>   // None is uninitialised storage
    const valid: array<bool>
    var head: nat
    var tail: nat
    var reserved: nat

    ghost var contents: seq<T>

    ghost function Capacity(): nat { valid.Length }

    ghost predicate Valid()
      reads this, elements, valid
    {
      Represents(elements[..], valid[..], head, tail, reserved, contents)
    }

    /** `channel` */
    constructor (numElems: nat)
      ensures Valid() && fresh(elements) && fresh(valid)
      ensures Capacity() == numElems && contents == []
    {
      elements := new Option<T>[numElems](_ => None);
      valid := new bool[numElems](_ => false);
      head, tail, reserved := 0, 0, 0;
      contents := [];
    }

    /** A slot is marked valid exactly when it holds one of the elements. */
    lemma ValidIffOccupied(i: nat)
      requires Valid() && i < valid.Length
      ensures valid[i] <==> exists k :: 0 <= k < |contents| && Slot(head, k, valid.Length) == i
    {
      var n := valid.Length;
      var k := if head <= i then i - head else i + n - head;
      assert Slot(head, k, n) == i;
    }

    /** `Sender::push`.  The compare-exchanges cannot fail when calls do not overlap. */
    method Push(elem: T) returns (ok: bool)
      requires Valid()
      modifies this, elements, valid
      ensures Valid()
      ensures ok <==> |old(contents)| < Capacity()
      ensures contents == if ok then old(contents) + [elem] else old(contents)
    {
      hide Slot, WrappingIncrement;
      var numElems := valid.Length;
      var sampledHead := head;
      var pushIdx := reserved;
      if pushIdx == numElems {
        FullIffSentinel(elements[..], valid[..], head, tail, contents);
        return false;
      }
      PushRepresents(elements[..], valid[..], head, tail, contents, elem);
      var newReserved := WrappingIncrement(pushIdx, numElems);
      if newReserved == sampledHead {
        newReserved := numElems;
      }
      reserved := newReserved;

      elements[pushIdx] := Some(elem);
      valid[pushIdx] := true;
      contents := contents + [elem];

      while true
        invariant head == sampledHead && reserved == newReserved == Advance(pushIdx, head, numElems)
        invariant tail == pushIdx || tail == reserved < numElems
        invariant reserved < numElems ==> reserved != pushIdx && !valid[reserved]
        invariant elements[..] == old(elements[..])[pushIdx := Some(elem)]
        invariant valid[..] == old(valid[..])[pushIdx := true]
        invariant contents == old(contents) + [elem]
        decreases if tail == pushIdx then 1 else 0
      {
        var t := tail;
        var nextTail := WrappingIncrement(t, numElems);
        if nextTail == sampledHead {
          nextTail := numElems;
        }
        if t != numElems && !valid[t] {
          break;
        }
        tail := nextTail;
        if nextTail == numElems {
          break;
        }
      }
      ok := true;
    }

    /** `Receiver::pop`.  Its assertions on `tail` and `reserved` hold, and the element taken out
        is initialised. */
    method Pop() returns (r: Option<T>)
      requires Valid()
      modifies this, elements, valid
      ensures Valid()
      ensures r.None? <==> old(contents) == []
      ensures r.None? ==> contents == old(contents)
      ensures r.Some? ==> old(contents) == [r.value] + contents
    {
      hide Slot, WrappingIncrement;
      var numElems := valid.Length;
      var h := head;
      if h == tail {
        EmptyIffMeeting(elements[..], valid[..], head, tail, contents);
        return None;
      }
      PopRepresents(elements[..], valid[..], head, tail, contents);
      r := elements[h];
      elements[h] := None;
      valid[h] := false;
      head := WrappingIncrement(h, numElems);
      contents := contents[1..];

      var t := tail;
      if t == numElems {
        tail := h;
        assert reserved == numElems;
        reserved := h;
      }
      assert r.Some?;
    }

    /** `Receiver::size` */
    method Size() returns (size: nat)
      requires Valid()
      ensures size == |contents|
    {
      var len := elements.Length;
      if tail == len {
        size := len;
      } else if tail >= head {
        size := tail - head;
      } else {
        size := len - (head - tail);
      }
    }
  }

  lemma EmptyIffMeeting<T>(es: seq<Option<T>>, vs: seq<bool>, head: nat, tail: nat, contents: seq<T>)
    requires Represents(es, vs, head, tail, tail, contents)
    ensures head == tail <==> contents == []
  {
  }

  lemma FullIffSentinel<T>(es: seq<Option<T>>, vs: seq<bool>, head: nat, tail: nat, contents: seq<T>)
    requires Represents(es, vs, head, tail, tail, contents)
    ensures tail == |vs| <==> |contents| == |vs|
  {
  }

  // ---------------------------------------------------------------- whole runs

  datatype Op<T> = PushOp(elem: T) | PopOp

  datatype Outcome<T> = Pushed(ok: bool) | Popped(r: Option<T>)

  /** A FIFO of capacity `n` on values. */
  function FifoStep<T>(n: nat, q: seq<T>, op: Op<T>): (seq<T>, Outcome<T>)
  {
    match op
    case PushOp(x) => if |q| < n then (q + [x], Pushed(true)) else (q, Pushed(false))
    case PopOp => if q == [] then (q, Popped(None)) else (q[1..], Popped(Some(q[0])))
  }

  /** The outcomes of a run that starts with `q` queued. */
  function FifoRun<T>(n: nat, q: seq<T>, ops: seq<Op<T>>): seq<Outcome<T>>
    decreases |ops|
  {
    if ops == [] then []
    else
      var (q', out) := FifoStep(n, q, ops[0]);
      [out] + FifoRun(n, q', ops[1..])
  }

  method Apply<T>(ring: Ring<T>, op: Op<T>) returns (out: Outcome<T>)
    requires ring.Valid()
    modifies ring, ring.elements, ring.valid
    ensures ring.Valid()
    ensures (ring.contents, out) == FifoStep(ring.Capacity(), old(ring.contents), op)
  {
    match op
    case PushOp(x) =>
      var ok := ring.Push(x);
      out := Pushed(ok);
    case PopOp =>
      var r := ring.Pop();
      out := Popped(r);
  }

  /** Every run of non-overlapping calls on a fresh ring has the outcomes of the bounded FIFO. */
  method Replay<T>(numElems: nat, ops: seq<Op<T>>) returns (outcomes: seq<Outcome<T>>)
    ensures outcomes == FifoRun(numElems, [], ops)
  {
    hide FifoStep;
    var ring := new Ring<T>(numElems);
    outcomes := [];
    assert ops[0..] == ops;
    for i := 0 to |ops|
      invariant ring.Valid() && ring.Capacity() == numElems
      invariant fresh(ring) && fresh(ring.elements) && fresh(ring.valid)
      invariant outcomes + FifoRun(numElems, ring.contents, ops[i..]) == FifoRun(numElems, [], ops)
    {
      ghost var q := ring.contents;
      var out := Apply(ring, ops[i]);
      assert ops[i..][1..] == ops[i + 1..];
      outcomes := outcomes + [out];
    }
  }
}
