/** The growable ring buffer of src/ds/queue.c, its first-in first-out meaning, and the cost of
    growing it. */
module Queue {
  import opened Wrappers

  /** Initial capacities outside 1..MAX_INITIAL_CAP become 1; a ring is never grown to
      CAP_LIMIT or beyond. */
  const MAX_INITIAL_CAP: int := 1_000_000
  const CAP_LIMIT: int := 10_000_000

  // ----- Meaning

  /** What a ring holds, oldest first, and its capacity. */
  datatype Fifo<T> = Fifo(items: seq<T>, cap: nat)

  function InitialCap(cap: int): (c: nat)
    ensures 1 <= c <= MAX_INITIAL_CAP
  {
    if cap <= 0 || cap > MAX_INITIAL_CAP then 1 else cap
  }

  /** `memory` says whether an allocation would succeed. */
  datatype Op<T> = Push(item: T, memory: bool) | Pop

  predicate Full<T>(f: Fifo<T>) {
    |f.items| == f.cap
  }

  /** A push is refused only when the ring is full and cannot grow. */
  predicate Refused<T>(f: Fifo<T>, memory: bool) {
    Full(f) && (2 * f.cap >= CAP_LIMIT || !memory)
  }

  function Step<T>(f: Fifo<T>, op: Op<T>): Fifo<T> {
    match op
    case Push(x, memory) =>
      if Refused(f, memory) then f
      else Fifo(f.items + [x], if Full(f) then 2 * f.cap else f.cap)
    case Pop => if f.items == [] then f else Fifo(f.items[1..], f.cap)
  }

  /** How many elements `resize` copies during the operation. */
  function Copied<T>(f: Fifo<T>, op: Op<T>): nat {
    if op.Push? && Full(f) && !Refused(f, op.memory) then |f.items| else 0
  }

  /** An initial capacity from 1 to a million is taken as it is, any other as 1. */
  lemma InitialCapIs(cap: int)
    ensures InitialCap(cap) == if 1 <= cap <= 1_000_000 then cap else 1
  {
  }

  /** When a push succeeds, and what it leaves, by length and capacity. */
  lemma PushIs<T>(f: Fifo<T>, x: T, memory: bool)
    requires |f.items| <= f.cap
    ensures Refused(f, memory) <==> !(|f.items| < f.cap || (memory && 2 * f.cap < 10_000_000))
    ensures Step(f, Push(x, memory))
         == if |f.items| < f.cap then Fifo(f.items + [x], f.cap)
            else if memory && 2 * f.cap < 10_000_000 then Fifo(f.items + [x], 2 * f.cap)
            else f
  {
  }

  // ----- Runs

  function After<T>(f: Fifo<T>, ops: seq<Op<T>>): Fifo<T> {
    if ops == [] then f else Step(After(f, ops[..|ops| - 1]), ops[|ops| - 1])
  }

  /** The items accepted, in order. */
  function Accepted<T>(f: Fifo<T>, ops: seq<Op<T>>): seq<T> {
    if ops == [] then []
    else
      var before, op := After(f, ops[..|ops| - 1]), ops[|ops| - 1];
      Accepted(f, ops[..|ops| - 1]) + (if op.Push? && !Refused(before, op.memory) then [op.item] else [])
  }

  /** The items handed out, in order. */
  function Taken<T>(f: Fifo<T>, ops: seq<Op<T>>): seq<T> {
    if ops == [] then []
    else
      var before, op := After(f, ops[..|ops| - 1]), ops[|ops| - 1];
      Taken(f, ops[..|ops| - 1]) + (if op.Pop? && before.items != [] then [before.items[0]] else [])
  }

  function TotalCopied<T>(f: Fifo<T>, ops: seq<Op<T>>): nat {
    if ops == [] then 0
    else TotalCopied(f, ops[..|ops| - 1]) + Copied(After(f, ops[..|ops| - 1]), ops[|ops| - 1])
  }

  function Pow2(k: nat): nat {
    if k == 0 then 1 else 2 * Pow2(k - 1)
  }

  /** First in, first out: what was accepted is what was handed out followed by what is held. */
  lemma {:induction false} FirstInFirstOut<T>(f: Fifo<T>, ops: seq<Op<T>>)
    requires f.items == []
    ensures Accepted(f, ops) == Taken(f, ops) + After(f, ops).items
  {
    if ops != [] {
      FirstInFirstOut(f, ops[..|ops| - 1]);
    }
  }

  function Doublings<T>(f: Fifo<T>, ops: seq<Op<T>>): nat {
    if ops == [] then 0
    else
      var before, op := After(f, ops[..|ops| - 1]), ops[|ops| - 1];
      Doublings(f, ops[..|ops| - 1]) + (if op.Push? && Full(before) && !Refused(before, op.memory) then 1 else 0)
  }

  /** The capacity is the initial one doubled once per resize. */
  lemma {:induction false} CapacityDoubles<T>(f: Fifo<T>, ops: seq<Op<T>>)
    ensures After(f, ops).cap == f.cap * Pow2(Doublings(f, ops))
  {
    if ops != [] {
      var init := ops[..|ops| - 1];
      CapacityDoubles(f, init);
      TimesNextPower(f.cap, Doublings(f, init));
    }
  }

  lemma TimesNextPower(c: nat, k: nat)
    ensures c * Pow2(k + 1) == 2 * (c * Pow2(k))
  {
  }

  /** The capacity stays below the limit; every copy is paid for by the capacity gained, and the
      capacity by the pushes. */
  lemma {:induction false} CapacityAndCost<T>(f: Fifo<T>, ops: seq<Op<T>>)
    requires f.items == [] && 1 <= f.cap < CAP_LIMIT
    ensures |After(f, ops).items| <= After(f, ops).cap < CAP_LIMIT
    ensures TotalCopied(f, ops) == After(f, ops).cap - f.cap
    ensures After(f, ops).cap != f.cap ==> After(f, ops).cap < 2 * |Accepted(f, ops)|
  {
    if ops != [] {
      CapacityAndCost(f, ops[..|ops| - 1]);
      FirstInFirstOut(f, ops[..|ops| - 1]);
    }
  }

  /** Growing is amortised: n accepted pushes copy at most 2n elements in all. */
  lemma AmortisedGrowth<T>(f: Fifo<T>, ops: seq<Op<T>>)
    requires f.items == [] && 1 <= f.cap < CAP_LIMIT
    ensures TotalCopied(f, ops) <= 2 * |Accepted(f, ops)|
  {
    CapacityAndCost(f, ops);
  }

  /** The items that were to be pushed, in order. */
  function Pushed<T>(ops: seq<Op<T>>): seq<T> {
    if ops == [] then []
    else
      var op := ops[|ops| - 1];
      Pushed(ops[..|ops| - 1]) + (if op.Push? then [op.item] else [])
  }

  predicate MemoryLasts<T>(ops: seq<Op<T>>) {
    forall i :: 0 <= i < |ops| && ops[i].Push? ==> ops[i].memory
  }

  /** While memory lasts, no push of the first five million is refused. */
  lemma {:induction false} NothingIsRefused<T>(f: Fifo<T>, ops: seq<Op<T>>)
    requires f.items == [] && 1 <= f.cap < CAP_LIMIT && MemoryLasts(ops) && |Pushed(ops)| <= 5_000_000
    ensures Accepted(f, ops) == Pushed(ops)
  {
    if ops != [] {
      var init, op := ops[..|ops| - 1], ops[|ops| - 1];
      NothingIsRefused(f, init);
      FirstInFirstOut(f, init);
      CapacityAndCost(f, init);
      if op.Push? {
        PushIs(After(f, init), op.item, op.memory);
      }
    }
  }

  // ----- The ring

  /** (a + i) % cap for indices that wrap at most once. */
  function Wrap(a: int, cap: int): int {
    if a < cap then a else a - cap
  }

  lemma WrapIsModulo(a: int, cap: int)
    requires 0 <= a < 2 * cap
    ensures a % cap == Wrap(a, cap)
  {
    if a >= cap {
      assert a % cap == (a - cap) % cap;
    }
  }

  method Modulo(a: int, cap: int) returns (r: int)
    requires 0 <= a < 2 * cap
    ensures r == Wrap(a, cap)
  {
    WrapIsModulo(a, cap);
    r := a % cap;
  }

  /** The n elements of a ring buffer from index readAt on, in reading order. */
  function Held<T>(buffer: seq<T>, readAt: int, n: int): (items: seq<T>)
    requires 0 <= readAt < |buffer| && 0 <= n <= |buffer|
    ensures |items| == n
    ensures forall i :: 0 <= i < n ==> items[i] == buffer[Wrap(readAt + i, |buffer|)]
  {
    if readAt + n <= |buffer| then buffer[readAt..readAt + n]
    else buffer[readAt..] + buffer[..readAt + n - |buffer|]
  }

  /** Writing just behind the last element appends, wherever the ring wraps. */
  lemma WriteAppends<T>(buffer: seq<T>, readAt: int, n: int, x: T)
    requires 0 <= readAt < |buffer| && 0 <= n < |buffer|
    ensures Held(buffer[Wrap(readAt + n, |buffer|) := x], readAt, n + 1) == Held(buffer, readAt, n) + [x]
  {
  }

  /** Stepping over the first element drops it. */
  lemma StepDrops<T>(buffer: seq<T>, readAt: int, n: int)
    requires 0 <= readAt < |buffer| && 0 < n <= |buffer|
    ensures Held(buffer, Wrap(readAt + 1, |buffer|), n - 1) == Held(buffer, readAt, n)[1..]
  {
  }

  class Ring<T(0)> {
    var q: array<T>
    var cap: int
    var len: int
    var readAt: int
    var insertAt: int
    ghost var copies: nat  // elements moved by resize so far

    ghost predicate Valid()
      reads this
    {
      && q.Length == cap && 1 <= cap < CAP_LIMIT
      && 0 <= len <= cap && 0 <= readAt < cap
      && insertAt == Wrap(readAt + len, cap)
    }

    ghost function Contents(): (f: Fifo<T>)
      requires Valid()
      reads this, q
      ensures |f.items| == len && f.cap == cap
    {
      Fifo(Held(q[..], readAt, len), cap)
    }

    constructor (wanted: int)
      ensures Valid() && Contents() == Fifo([], InitialCap(wanted)) && copies == 0
      ensures cap == (if 1 <= wanted <= 1_000_000 then wanted else 1) && len == 0
      ensures fresh(q)
    {
      var c := if wanted <= 0 || wanted > MAX_INITIAL_CAP then 1 else wanted;
      cap := c;
      len := 0;
      readAt, insertAt := 0, 0;
      q := new T[c];
      copies := 0;
      new;
    }

    method IsFull() returns (full: bool)
      requires Valid()
      ensures full <==> Full(Contents())
    {
      return len == cap;
    }

    method IsEmpty() returns (empty: bool)
      requires Valid()
      ensures empty <==> Contents().items == []
    {
      return len == 0;
    }

    /** The loop of `resize`. */
    method CopyOut(newQ: array<T>)
      requires Valid() && newQ != q && newQ.Length >= len
      modifies newQ, this`copies
      ensures newQ[..len] == Contents().items && copies == old(copies) + len
    {
      for i := 0 to len
        invariant forall k :: 0 <= k < i ==> newQ[k] == q[..][Wrap(readAt + k, cap)]
        invariant copies == old(copies) + i
      {
        var at := Modulo(readAt + i, cap);
        newQ[i] := q[at];
        copies := copies + 1;
      }
    }

    /** Doubles the buffer, re-basing a wrapped ring at index 0: what it holds is unchanged. */
    method Resize(memory: bool) returns (ok: bool)
      requires Valid()
      modifies this
      ensures Valid()
      ensures ok <==> old(Full(Contents()) && !Refused(Contents(), memory))
      ensures ok <==> old(len) == old(cap) && memory && 2 * old(cap) < 10_000_000
      ensures Contents() == if ok then Fifo(old(Contents()).items, 2 * old(cap)) else old(Contents())
      ensures copies == old(copies) + if ok then len else 0
      ensures if ok then fresh(q) else q == old(q)
      ensures ok ==> len < cap
    {
      if len != cap {
        return false;
      }
      var newCap := 2 * cap;
      if newCap >= CAP_LIMIT {
        return false;
      }
      if !memory {
        return false;
      }
      var newQ := new T[newCap];
      CopyOut(newQ);
      q := newQ;
      cap := newCap;
      insertAt := len;
      readAt := 0;
      assert Contents().items == old(Contents()).items;
      return true;
    }

    method Push(val: T, memory: bool) returns (ok: bool)
      requires Valid()
      modifies this, q
      ensures Valid()
      ensures ok <==> !Refused(old(Contents()), memory)
      ensures ok <==> old(len) < old(cap) || (memory && 2 * old(cap) < 10_000_000)
      ensures Contents() == Step(old(Contents()), Op.Push(val, memory))
      ensures copies == old(copies) + Copied(old(Contents()), Op.Push(val, memory))
      ensures q == old(q) || fresh(q)
    {
      var full := IsFull();
      if full {
        ok := Resize(memory);
        if !ok {
          return;
        }
      }
      Put(val);
      ok := true;
    }

    /** The store of `push`, once there is room. */
    method Put(val: T)
      requires Valid() && len < cap
      modifies this, q
      ensures Valid() && q == old(q) && copies == old(copies)
      ensures Contents() == Fifo(old(Contents()).items + [val], old(cap))
    {
      WriteAppends(q[..], readAt, len, val);
      ghost var buffer := q[..];
      q[insertAt] := val;
      assert q[..] == buffer[insertAt := val];
      insertAt := Modulo(insertAt + 1, cap);
      len := len + 1;
    }

    method Pop() returns (ok: bool, val: Option<T>)
      requires Valid()
      modifies this
      ensures Valid() && q == old(q) && copies == old(copies)
      ensures ok <==> old(Contents()).items != []
      ensures val == if ok then Some(old(Contents()).items[0]) else None
      ensures Contents() == Step(old(Contents()), Op.Pop)
    {
      var empty := IsEmpty();
      if empty {
        return false, None;
      }
      StepDrops(q[..], readAt, len);
      val := Some(q[readAt]);
      readAt := Modulo(readAt + 1, cap);
      len := len - 1;
      ok := true;
    }
  }
}
