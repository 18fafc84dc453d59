/** The fixed-capacity circular buffer of include/ren_utils/RingBuffer.hpp. Elements live
    in the array `buf`; the logical contents run from `front` for `size` slots, wrapping
    at the end of the array, and `back` is the slot the next push writes. A push to a full
    buffer overwrites the oldest element. The ghost sequence `contents` is the buffer as
    its user sees it, oldest first. */
module RingBuffers {
  import opened Wrappers
  import opened Arith

  /** The array slot that logical index `i` lives in: `(front + i) % capacity`. */
  function Slot(front: nat, i: nat, cap: nat): (r: nat)
    requires cap > 0
    ensures r < cap
    ensures front < cap && i <= cap ==> r == (if front + i < cap then front + i else front + i - cap)
  {
    DivMod(front + i, cap);
    if front < cap && i <= cap then ModWrap(front + i, cap); (front + i) % cap
    else (front + i) % cap
  }

  /** Contents after `PushBack(x)` on a buffer of capacity `cap` holding `c`: `x` is
      appended, and when the buffer was full the oldest element is dropped. */
  function Pushed<T>(c: seq<T>, cap: nat, x: T): (r: seq<T>)
    requires 0 < cap && |c| <= cap
    ensures |r| == (if |c| < cap then |c| + 1 else cap)
    ensures r == (c + [x])[|c| + 1 - |r|..]
    ensures r[|r| - 1] == x
  {
    if |c| == cap then c[1..] + [x] else c + [x]
  }

  /** Contents after pushing every element of `xs` in turn. */
  function PushAll<T>(c: seq<T>, cap: nat, xs: seq<T>): (r: seq<T>)
    requires 0 < cap && |c| <= cap
    ensures |r| <= cap
    decreases |xs|
  {
    if xs == [] then c else PushAll(Pushed(c, cap, xs[0]), cap, xs[1..])
  }

  /** The newest `n` elements of `s`, or all of them when there are fewer. */
  function Newest<T>(s: seq<T>, n: nat): (r: seq<T>)
    ensures |r| == (if |s| < n then |s| else n)
  {
    if |s| <= n then s else s[|s| - n..]
  }

  /** Keeping the newest `n`, then appending, then keeping the newest `n` again, is the same
      as appending first. */
  lemma NewestAppend<T>(s: seq<T>, t: seq<T>, n: nat)
    ensures Newest(Newest(s, n) + t, n) == Newest(s + t, n)
  {
    if |s| > n {
      var u := Newest(s, n) + t;
      assert u == (s + t)[|s| - n..];
      var a, b := Newest(u, n), Newest(s + t, n);
      assert |a| == |b|;
      forall k | 0 <= k < |a|
        ensures a[k] == b[k]
      {
        if |u| > n {
          assert a[k] == u[|u| - n + k];
        }
      }
    }
  }

  /** Concatenation is associative. */
  lemma AppendAssoc<T>(a: seq<T>, b: seq<T>, c: seq<T>)
    ensures a + b + c == a + (b + c)
  {
    var l, r := a + b + c, a + (b + c);
    assert |l| == |r|;
    forall k | 0 <= k < |l|
      ensures l[k] == r[k]
    {
      if k >= |a| + |b| {
        assert l[k] == c[k - |a| - |b|];
      }
    }
  }

  /** One push keeps the newest `cap` elements. */
  lemma PushedIsNewest<T>(c: seq<T>, cap: nat, x: T)
    requires 0 < cap && |c| <= cap
    ensures Pushed(c, cap, x) == Newest(c + [x], cap)
  {
  }

  /** A buffer of capacity `cap` holds the newest `cap` of everything pushed into it, in
      the order pushed: pushes evict the oldest elements first. */
  lemma {:induction false} PushAllKeepsNewest<T>(c: seq<T>, cap: nat, xs: seq<T>)
    requires 0 < cap && |c| <= cap
    ensures PushAll(c, cap, xs) == Newest(c + xs, cap)
    decreases |xs|
  {
    if xs == [] {
      assert c + xs == c;
    } else {
      var x, rest := xs[0], xs[1..];
      var c1 := Pushed(c, cap, x);
      PushAllKeepsNewest(c1, cap, rest);
      PushedIsNewest(c, cap, x);
      NewestAppend(c + [x], rest, cap);
      assert [x] + rest == xs;
      AppendAssoc(c, [x], rest);
      calc {
        PushAll(c, cap, xs);
        PushAll(c1, cap, rest);
        Newest(c1 + rest, cap);
        Newest(Newest(c + [x], cap) + rest, cap);
        Newest(c + [x] + rest, cap);
      }
    }
  }

  /** The worked example of the class documentation: capacity 3, pushes of 1, 2, 3 and 4
      leave 2, 3, 4. */
  lemma DocumentedExample()
    ensures PushAll([], 3, [1, 2, 3, 4]) == [2, 3, 4]
  {
    PushAllKeepsNewest([], 3, [1, 2, 3, 4]);
    assert [] + [1, 2, 3, 4] == [1, 2, 3, 4];
  }

  /** The most negative and most positive `int` and `long long`. */
  const INT_MIN: int := -0x8000_0000
  const INT_MAX: int := 0x7fff_ffff
  const LLONG_MIN: int := -0x8000_0000_0000_0000
  const LLONG_MAX: int := 0x7fff_ffff_ffff_ffff

  /** The `size_t` value `x` converted to `long long`: values from 2^63 up wrap to
      negative, so `size_t(-1)` becomes -1. */
  function ToLongLong(x: nat): (r: int)
    requires x <= 2 * LLONG_MAX + 1
    ensures LLONG_MIN <= r <= LLONG_MAX
    ensures r >= 0 ==> r == x
    ensures r < 0 ==> r == x - 2 * (LLONG_MAX + 1)
  {
    if x <= LLONG_MAX then x else x - 2 * (LLONG_MAX + 1)
  }

  /** `iterator::operator++` as written: step, then clamp the index into `[0, size]`. */
  function AdvanceAsWritten(index: int, step: int, size: nat): (r: int)
    ensures 0 <= r <= size
    ensures 0 < index + step <= size ==> r == index + step
  {
    var i := index + step;
    if i <= 0 then 0 else if i > size then size else i
  }

  /** A reverse walk never reaches `rend()`, whose index is -1: the clamp stops it at 0,
      where each further `++` leaves it, so a loop from `rbegin()` to `rend()` over a
      buffer of two elements does not end. */
  lemma ReverseWalkStuck()
    ensures ToLongLong(2 - 1) == 1 && ToLongLong(2 * LLONG_MAX + 1) == -1
    ensures AdvanceAsWritten(1, -1, 2) == 0 && AdvanceAsWritten(0, -1, 2) == 0
  {
  }

  /** `iterator::operator++` with the lower clamp at -1, the index of `rend()`. It differs
      from the code as written only when the step takes the index below 0. */
  function Advance(index: int, step: int, size: nat): (r: int)
    ensures -1 <= r <= size
    ensures -1 <= index + step <= size ==> r == index + step
    ensures r != AdvanceAsWritten(index, step, size) <==> index + step < 0
  {
    var i := index + step;
    if i < 0 then -1 else if i > size then size else i
  }

  /** The index after `k` increments. */
  function Walk(index: int, step: int, size: nat, k: nat): int
    decreases k
  {
    if k == 0 then index else Walk(Advance(index, step, size), step, size, k - 1)
  }

  /** From `begin()`, `k` increments reach index `k`, and `size` of them reach `end()`. */
  lemma {:induction false} ForwardWalk(size: nat, i: nat, k: nat)
    requires i + k <= size
    ensures Walk(i, 1, size, k) == i + k
    decreases k
  {
    if k > 0 {
      ForwardWalk(size, i + 1, k - 1);
    }
  }

  /** From `rbegin()` of a non-empty buffer, `k` increments with step -1 reach index
      `size - 1 - k`, and `size` of them reach `rend()`. */
  lemma {:induction false} ReverseWalk(size: nat, i: int, k: nat)
    requires -1 <= i - k && i < size
    ensures Walk(i, -1, size, k) == i - k
    decreases k
  {
    if k > 0 {
      ReverseWalk(size, i - 1, k - 1);
    }
  }

  class RingBuffer<T(0)> {
    /** `m_capacity`. */
    const capacity: nat
    /** `m_buf`. */
    const buf: array<T>
    /** `m_front`: the slot of the oldest element. */
    var front: nat
    /** `m_back`: the slot the next push writes. */
    var back: nat
    /** `m_size`. */
    var size: nat
    /** The elements, oldest first. */
    ghost var contents: seq<T>

    ghost predicate Valid()
      reads this, buf
    {
      && capacity > 0 && buf.Length == capacity
      && front < capacity && back < capacity && size <= capacity
      && back == Slot(front, size, capacity)
      && |contents| == size
      && forall i :: 0 <= i < size ==> contents[i] == buf[Slot(front, i, capacity)]
    }

    /** `RingBuffer(capacity)` once the capacity check has passed: an empty buffer. */
    constructor (capacity: nat)
      requires capacity > 0
      ensures Valid() && fresh(buf)
      ensures this.capacity == capacity && contents == [] && front == 0
    {
      this.capacity := capacity;
      this.buf := new T[capacity];
      this.front := 0;
      this.back := 0;
      this.size := 0;
      this.contents := [];
    }

    /** `RingBuffer(capacity)`: invalid_argument for capacity 0. */
    static method Create(capacity: nat) returns (r: Result<RingBuffer<T>>)
      ensures r.Err? <==> capacity == 0
      ensures r.Err? ==> r.error == InvalidArgument
      ensures r.Ok? ==> fresh(r.value) && fresh(r.value.buf) && r.value.Valid()
      ensures r.Ok? ==> r.value.capacity == capacity && r.value.contents == []
    {
      if capacity == 0 {
        return Err(InvalidArgument);
      }
      var b := new RingBuffer<T>(capacity);
      return Ok(b);
    }

    /** `PushBack(item)`: write `item` at the back; on a full buffer the oldest element's
        slot is reused and the front moves on. The result is the slot written, which the
        C++ returns a reference to. */
    method PushBack(x: T) returns (slot: nat)
      requires Valid()
      modifies this, buf
      ensures Valid()
      ensures contents == Pushed(old(contents), capacity, x)
      ensures slot == old(back) && slot < buf.Length && buf[slot] == x
    {
      ghost var c := contents;
      if size == capacity {
        front := Slot(front, 1, capacity);
      } else {
        size := size + 1;
      }
      buf[back] := x;
      slot := back;
      back := Slot(back, 1, capacity);
      contents := Pushed(c, capacity, x);
      forall i | 0 <= i < size
        ensures contents[i] == buf[Slot(front, i, capacity)]
      {
        if |c| == capacity && i < size - 1 {
          assert contents[i] == c[i + 1];
          assert Slot(front, i, capacity) == Slot(old(front), i + 1, capacity);
        }
      }
    }

    /** `PopFront()`: length_error on an empty buffer, else the oldest element, which is
        removed. */
    method PopFront() returns (r: Result<T>)
      requires Valid()
      modifies this
      ensures Valid()
      ensures r.Err? <==> old(contents) == []
      ensures r.Err? ==> r.error == LengthError && contents == old(contents)
      ensures r.Ok? ==> r.value == old(contents)[0] && contents == old(contents)[1..]
    {
      if size == 0 {
        return Err(LengthError);
      }
      var t := buf[front];
      ghost var c := contents;
      front := Slot(front, 1, capacity);
      size := size - 1;
      contents := c[1..];
      forall i | 0 <= i < size
        ensures contents[i] == buf[Slot(front, i, capacity)]
      {
        assert contents[i] == c[i + 1];
        assert Slot(front, i, capacity) == Slot(old(front), i + 1, capacity);
      }
      return Ok(t);
    }

    /** `Front()`: the oldest element, or nothing on an empty buffer. */
    function Front(): (r: Option<T>)
      reads this, buf
      requires Valid()
      ensures r.None? <==> contents == []
      ensures r.Some? ==> r.value == contents[0]
    {
      if size == 0 then None else Some(buf[front])
    }

    /** `Empty()`. */
    function Empty(): (r: bool)
      reads this, buf
      requires Valid()
      ensures r <==> contents == []
    {
      size == 0
    }

    /** `Clear()`: every element is removed and the cursors return to slot 0. */
    method Clear()
      requires Valid()
      modifies this
      ensures Valid()
      ensures contents == [] && front == 0 && back == 0
    {
      front := 0;
      back := 0;
      size := 0;
      contents := [];
    }

    /** `Size()`. */
    function Size(): (n: nat)
      reads this, buf
      requires Valid()
      ensures n == |contents| && n <= capacity
    {
      size
    }

    /** `operator[](index)`: no bounds check. Below `Size()` it is the element at that
        position; on a full buffer any index reads the element at `index % capacity`. */
    function Index(index: nat): (r: T)
      reads this, buf
      requires Valid()
      ensures index < |contents| ==> r == contents[index]
      ensures |contents| == capacity ==> r == contents[index % capacity]
    {
      DivMod(index, capacity);
      ModAddMod(front, index, capacity);
      buf[Slot(front, index, capacity)]
    }

    /** `at(index)`: out_of_range from `Size()` on. */
    function At(index: nat): (r: Result<T>)
      reads this, buf
      requires Valid()
      ensures r.Err? <==> index >= |contents|
      ensures r.Err? ==> r.error == OutOfRange
      ensures r.Ok? ==> r.value == contents[index]
    {
      if index >= size then Err(OutOfRange) else Ok(buf[Slot(front, index, capacity)])
    }

    /** `try_at(index)`: nothing from `Size()` on. */
    function TryAt(index: nat): (r: Option<T>)
      reads this, buf
      requires Valid()
      ensures r.None? <==> index >= |contents|
      ensures r.Some? ==> r.value == contents[index]
    {
      if index >= size then None else Some(buf[Slot(front, index, capacity)])
    }
  }

  /** `RingBuffer::iterator`: a position in a buffer and the step `++` moves it by. */
  class Iterator<T(0)> {
    const rb: RingBuffer<T>
    const step: int
    var index: int

    /** `iterator(buf, index, step)`: the `size_t` index is stored as a `long long`, so
        `rend()`'s `size_t(-1)` becomes -1. */
    constructor (rb: RingBuffer<T>, index: nat, step: int)
      requires index <= 2 * LLONG_MAX + 1 && INT_MIN <= step <= INT_MAX
      ensures this.rb == rb && this.step == step && this.index == ToLongLong(index)
    {
      this.rb := rb;
      this.step := step;
      this.index := ToLongLong(index);
    }

    /** `operator++`: move by the step and clamp to the buffer, with -1 (`rend()`) as the
        lower end; the signed sum must not overflow. */
    method Increment()
      requires rb.Valid() && LLONG_MIN <= index + step <= LLONG_MAX
      modifies this`index
      ensures index == Advance(old(index), step, rb.size)
      ensures -1 <= index <= |rb.contents|
    {
      index := Advance(index, step, rb.size);
    }
  }
}
