/** `CRingBuffer<T, MAX>`: a bounded double-ended queue in a fixed array,
    addressed by two 32-bit counters that start near the middle of their
    range and are reduced modulo `MAX` on every access.  `PushBack` on a
    full buffer overwrites the oldest element, `PushFront` the newest. */
module Ring {
  import opened DebugTypes

  /** `UINT32_MAX/2`, where `Initialize` puts both counters. */
  const START: nat := 0x7FFF_FFFF

  /** The counters after `Initialize`: `START` rounded down to a multiple
      of `max`. */
  function InitialIndex(max: nat): (i: nat)
    requires max > 0
    ensures i == max * (START / max) && i <= START < i + max
  {
    START - START % max
  }

  // ----------------------------------------- the contents as a sequence

  /** The contents after `PushBack(x)`: the oldest element is dropped from
      a full buffer. */
  function PushedBack<T>(c: seq<T>, x: T, max: nat): (r: seq<T>)
    requires 0 < max && |c| <= max
    ensures |r| == if |c| < max then |c| + 1 else max
    ensures r[|r| - 1] == x
  {
    if |c| == max then c[1..] + [x] else c + [x]
  }

  /** The contents after `PushFront(x)`: the newest element is dropped
      from a full buffer. */
  function PushedFront<T>(c: seq<T>, x: T, max: nat): (r: seq<T>)
    requires 0 < max && |c| <= max
    ensures |r| == if |c| < max then |c| + 1 else max
    ensures r[0] == x
  {
    if |c| == max then [x] + c[..max - 1] else [x] + c
  }

  /** The contents after pushing every element of `xs` at the back. */
  function PushAllBack<T>(c: seq<T>, xs: seq<T>, max: nat): (r: seq<T>)
    requires 0 < max && |c| <= max
    ensures |r| <= max
    decreases |xs|
  {
    if xs == [] then c else PushAllBack(PushedBack(c, xs[0], max), xs[1..], max)
  }

  /** The last `n` elements of `s` (all of them when there are fewer). */
  function LastN<T>(s: seq<T>, n: nat): (r: seq<T>)
    ensures |r| == if |s| < n then |s| else n
  {
    if |s| <= n then s else s[|s| - n..]
  }

  /** The history property: after any sequence of back pushes the buffer
      holds exactly the last `max` elements pushed, oldest first. */
  lemma {:induction false} PushAllBackKeepsLast<T>(c: seq<T>, xs: seq<T>, max: nat)
    requires 0 < max && |c| <= max
    ensures PushAllBack(c, xs, max) == LastN(c + xs, max)
    decreases |xs|
  {
    if xs == [] {
      assert c + xs == c;
    } else {
      var c1 := PushedBack(c, xs[0], max);
      var c0 := c + [xs[0]];
      PushAllBackStep(c, xs, max);
      PushedBackIsLastN(c, xs[0], max);
      PushAllBackKeepsLast(c1, xs[1..], max);
      LastNOfLastN(c0, xs[1..], max);
      ConsSplit(c, xs);
      Chain(PushAllBack(c, xs, max), PushAllBack(c1, xs[1..], max), c1, LastN(c0, max),
        xs[1..], LastN(c0 + xs[1..], max), LastN(c + xs, max), max);
    }
  }

  lemma PushAllBackStep<T>(c: seq<T>, xs: seq<T>, max: nat)
    requires 0 < max && |c| <= max && xs != []
    ensures PushAllBack(c, xs, max) == PushAllBack(PushedBack(c, xs[0], max), xs[1..], max)
  {
  }

  lemma PushedBackIsLastN<T>(c: seq<T>, x: T, max: nat)
    requires 0 < max && |c| <= max
    ensures PushedBack(c, x, max) == LastN(c + [x], max)
  {
  }

  lemma ConsSplit<T>(c: seq<T>, xs: seq<T>)
    requires xs != []
    ensures (c + [xs[0]]) + xs[1..] == c + xs
  {
  }

  lemma Chain<T>(all: seq<T>, rest: seq<T>, c1: seq<T>, l0: seq<T>, ys: seq<T>, m: seq<T>, goal: seq<T>, max: nat)
    requires all == rest && rest == LastN(c1 + ys, max) && c1 == l0
    requires LastN(l0 + ys, max) == m && m == goal
    ensures all == goal
  {
  }

  lemma LastNOfLastN<T>(s: seq<T>, t: seq<T>, n: nat)
    ensures LastN(LastN(s, n) + t, n) == LastN(s + t, n)
  {
    if |s| > n {
      var k := |s| - n;
      DropOfAppend(s, t, k);
      LastNOfDrop(s + t, k, n);
    }
  }

  lemma DropOfAppend<T>(s: seq<T>, t: seq<T>, k: nat)
    requires k <= |s|
    ensures (s + t)[k..] == s[k..] + t
  {
  }

  /** Dropping a prefix that leaves at least `n` elements keeps the last `n`. */
  lemma LastNOfDrop<T>(x: seq<T>, k: nat, n: nat)
    requires k + n <= |x|
    ensures LastN(x[k..], n) == LastN(x, n)
  {
    if |x| > n {
      assert x[k..][|x| - k - n..] == x[|x| - n..];
    }
  }

  /** A back pop undoes a back push that dropped nothing, and a front pop
      undoes a front push that dropped nothing. */
  lemma PushPopRoundTrip<T>(c: seq<T>, x: T, max: nat)
    requires 0 < max && |c| < max
    ensures var r := PushedBack(c, x, max); r[..|r| - 1] == c && r[|r| - 1] == x
    ensures var r := PushedFront(c, x, max); r[1..] == c && r[0] == x
  {
    assert (c + [x])[..|c|] == c;
    assert ([x] + c)[1..] == c;
  }

  /** Two counters less than `m` apart, and not equal, never share a slot. */
  lemma ModDistinct(a: nat, b: nat, m: nat)
    requires 0 < m && a < b < a + m
    ensures a % m != b % m
  {
    var qa, qb := a / m, b / m;
    assert a == m * qa + a % m;
    assert b == m * qb + b % m;
    if qb <= qa {
      MulMonotone(m, qb, qa);
    } else {
      MulMonotone(m, qa + 1, qb);
    }
  }

  lemma MulMonotone(m: nat, x: int, y: int)
    requires x <= y
    ensures m * x <= m * y
  {
    var d := y - x;
    assert m * y == m * x + m * d;
  }

  // ------------------------------------------------------------- class

  class RingBuffer<T(0)> {
    /** Oldest first: `PeekAt(0)` is `Contents[0]`. */
    ghost var Contents: seq<T>
    ghost var Repr: set<object>

    /** The template parameter `MAX`. */
    const max: nat
    /** `mBuffer` */
    var buffer: array<T>
    /** `mHeadIdx` and `mTailIdx` */
    var head: nat
    var tail: nat

    ghost predicate Valid()
      reads this, Repr
      ensures Valid() ==> this in Repr
    {
      this in Repr && buffer in Repr &&
      0 < max < 0x8000_0000 && buffer.Length == max &&
      head <= tail <= head + max && tail < 0x1_0000_0000 &&
      |Contents| == tail - head &&
      forall i :: 0 <= i < |Contents| ==> Contents[i] == buffer[(head + i) % max]
    }

    /** The constructor calls `Initialize`; the array is zeroed. */
    constructor(max: nat)
      requires 0 < max < 0x8000_0000
      ensures Valid() && fresh(Repr)
      ensures Contents == [] && this.max == max
      ensures head == tail == InitialIndex(max)
    {
      this.max := max;
      buffer := new T[max];
      head := InitialIndex(max);
      tail := InitialIndex(max);
      Contents := [];
      Repr := {this, buffer};
    }

    method Initialize()
      requires Valid()
      modifies this
      ensures Valid() && Repr == old(Repr) && buffer == old(buffer)
      ensures Contents == []
      ensures head == tail == InitialIndex(max)
    {
      var offset := START % max;
      head := START - offset;
      tail := START - offset;
      Contents := [];
    }

    /** The counter difference; the branch for a negative difference is
        never taken while the counters stay in order. */
    method Size() returns (n: nat)
      requires Valid()
      ensures n == |Contents| && n <= max
    {
      n := tail - head;
    }

    /** The `i`-th element from the front; null (`None`) past the end. */
    method PeekAt(i: nat) returns (r: Option<T>)
      requires Valid()
      ensures i < |Contents| ==> r == Some(Contents[i])
      ensures i >= |Contents| ==> r == None
    {
      var size := Size();
      if i < size {
        r := Some(buffer[(head + i) % max]);
      } else {
        r := None;
      }
    }

    method PopBack() returns (r: Option<T>)
      requires Valid()
      modifies this
      ensures Valid() && Repr == old(Repr) && buffer == old(buffer)
      ensures old(Contents) == [] ==> r == None && Contents == [] && head == old(head) && tail == old(tail)
      ensures old(Contents) != [] ==>
        r == Some(old(Contents)[|old(Contents)| - 1]) &&
        Contents == old(Contents)[..|old(Contents)| - 1]
      ensures |old(Contents)| > 1 ==> head == old(head) && tail == old(tail) - 1
      ensures old(Contents) != [] && Contents == [] ==> head == tail == InitialIndex(max)
    {
      r := None;
      var size := Size();
      if size != 0 {
        tail := tail - 1;
        var idx := tail % max;
        r := Some(buffer[idx]);
        Contents := Contents[..|Contents| - 1];
        if tail == head {
          Initialize();
        }
      }
    }

    method PopFront() returns (r: Option<T>)
      requires Valid()
      modifies this
      ensures Valid() && Repr == old(Repr) && buffer == old(buffer)
      ensures old(Contents) == [] ==> r == None && Contents == [] && head == old(head) && tail == old(tail)
      ensures old(Contents) != [] ==> r == Some(old(Contents)[0]) && Contents == old(Contents)[1..]
      ensures |old(Contents)| > 1 ==> head == old(head) + 1 && tail == old(tail)
      ensures old(Contents) != [] && Contents == [] ==> head == tail == InitialIndex(max)
    {
      r := None;
      var size := Size();
      if size != 0 {
        var idx := head % max;
        head := head + 1;
        r := Some(buffer[idx]);
        Contents := Contents[1..];
        if tail == head {
          Initialize();
        }
      }
    }

    /** Nothing happens once the head counter has reached 0. */
    method PushFront(x: T)
      requires Valid()
      modifies Repr
      ensures Valid() && Repr == old(Repr) && buffer == old(buffer)
      ensures old(head) == 0 ==> Contents == old(Contents) && head == 0 && tail == old(tail)
      ensures old(head) != 0 ==> Contents == PushedFront(old(Contents), x, max)
      ensures old(head) != 0 ==>
        head == old(head) - 1 && tail == old(tail) - (if |old(Contents)| == max then 1 else 0)
    {
      if head == 0 {
        return;
      }
      ghost var c := Contents;
      head := head - 1;
      var idx := head % max;
      buffer[idx] := x;
      if tail - head > max {  // Size() > MAX
        tail := tail - 1;
      }
      Contents := PushedFront(c, x, max);
      forall i | 0 <= i < |Contents|
        ensures Contents[i] == buffer[(head + i) % max]
      {
        if i > 0 {
          ModDistinct(head, head + i, max);
        }
      }
    }

    /** The tail counter must not wrap around to 0. */
    method PushBack(x: T)
      requires Valid() && tail + 1 < 0x1_0000_0000
      modifies Repr
      ensures Valid() && Repr == old(Repr) && buffer == old(buffer)
      ensures Contents == PushedBack(old(Contents), x, max)
      ensures tail == old(tail) + 1 && head == old(head) + (if |old(Contents)| == max then 1 else 0)
    {
      ghost var c := Contents;
      ghost var last := tail;
      var idx := tail % max;
      tail := tail + 1;
      buffer[idx] := x;
      if tail - head > max {  // Size() > MAX
        head := head + 1;
      }
      Contents := PushedBack(c, x, max);
      forall i | 0 <= i < |Contents|
        ensures Contents[i] == buffer[(head + i) % max]
      {
        if head + i < last {
          ModDistinct(head + i, last, max);
        }
      }
    }
  }
}
