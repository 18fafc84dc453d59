/** Two opposing stacks in one buffer: the class declared in
    include/ren_utils/alloc/DoubleStackAllocator.h and defined in
    src/alloc/DoubleStackAllocator.cpp, with its `new_ptr`/`delete_ptr` pair.

    The left stack grows up from offset 0 and the right stack grows down from offset
    `total`; the buffer's first byte is at address `base`. The bytes themselves are never
    read, so the model keeps only the two cursors. */
module DoubleStackAllocators {
  import opened Wrappers
  import opened Allocator

  /** `DoubleStackAllocator::Side`. */
  datatype Side = Left | Right

  /** `DoubleStackAllocator::Marker`: a side and the position of that side's cursor. */
  datatype Marker = Marker(side: Side, idx: nat)

  /** One allocation request of a run: the side and the number of bytes. */
  datatype Request = Request(side: Side, n: nat)

  /** The cursor arithmetic of the allocator as a value, which the class is specified
      against and the lemmas about runs of calls speak of. */
  datatype DoubleStack = DoubleStack(base: nat, total: nat, left: nat, right: nat)
  {
    ghost predicate Valid()
    {
      left <= right <= total
    }

    /** `Alloc(side, n)`: the new cursors and the address handed out, or None (nullptr). */
    function Alloc(side: Side, n: nat): (DoubleStack, Option<nat>)
    {
      match side
      case Left =>
        if left + n > right then (this, None)
        else (this.(left := left + n), Some(base + left))
      case Right =>
        if n > right || right - n < left then (this, None)
        else (this.(right := right - n), Some(base + right - n))
    }

    function GetMarker(side: Side): Marker
    {
      Marker(side, if side.Left? then left else right)
    }

    /** `FreeToMarker(marker)`: the rolled-back stacks, or invalid_argument. A right marker
        past the end of the buffer is refused as well (see `FreeToMarkerAsWritten`). */
    function FreeToMarker(m: Marker): Result<DoubleStack>
    {
      match m.side
      case Left =>
        if m.idx > left then Err(InvalidArgument) else Ok(this.(left := m.idx))
      case Right =>
        if m.idx < right || m.idx > total then Err(InvalidArgument) else Ok(this.(right := m.idx))
    }

    /** Runs `Alloc` on each request in turn: the final stacks and every result. */
    function AllocAll(rs: seq<Request>): (DoubleStack, seq<Option<nat>>)
      decreases |rs|
    {
      if rs == [] then (this, [])
      else
        var (s, p) := Alloc(rs[0].side, rs[0].n);
        var (t, ps) := s.AllocAll(rs[1..]);
        (t, [p] + ps)
    }
  }

  /** Every block of a run of allocations on either side lies in the free gap between the
      two cursors before the run, the gap only shrinks, and no two blocks overlap. */
  lemma {:induction false} AllocAllDisjoint(s: DoubleStack, rs: seq<Request>)
    requires s.Valid()
    ensures var (t, ps) := s.AllocAll(rs);
            && t.Valid() && t.base == s.base && t.total == s.total
            && s.left <= t.left && t.right <= s.right
            && |ps| == |rs|
            && (forall i :: 0 <= i < |ps| && ps[i].Some? ==>
                  s.base + s.left <= ps[i].value && ps[i].value + rs[i].n <= s.base + s.right)
            && (forall i, j :: 0 <= i < j < |ps| && ps[i].Some? && ps[j].Some? ==>
                  ps[i].value + rs[i].n <= ps[j].value || ps[j].value + rs[j].n <= ps[i].value)
    decreases |rs|
  {
    if rs != [] {
      var (s1, p) := s.Alloc(rs[0].side, rs[0].n);
      AllocAllDisjoint(s1, rs[1..]);
      var (t, ps) := s.AllocAll(rs);
      var qs := s1.AllocAll(rs[1..]).1;
      assert ps == [p] + qs;
      forall i | 0 < i < |ps| && ps[i].Some?
        ensures s1.base + s1.left <= ps[i].value && ps[i].value + rs[i].n <= s1.base + s1.right
      {
        assert ps[i] == qs[i - 1] && rs[i] == rs[1..][i - 1];
      }
    }
  }

  /** A marker taken before a run of allocations rolls its own side back to where it was
      and leaves the other side as the run left it. */
  lemma MarkerRestores(s: DoubleStack, rs: seq<Request>, side: Side)
    requires s.Valid()
    ensures var t := s.AllocAll(rs).0;
            t.FreeToMarker(s.GetMarker(side))
              == Ok(if side.Left? then t.(left := s.left) else t.(right := s.right))
  {
    AllocAllDisjoint(s, rs);
  }

  /** After rolling a side back to a marker, a marker of the same side taken later is
      refused: the wrong-order `delete_ptr` fails. */
  lemma StaleMarkerRefused(s: DoubleStack, earlier: Marker, later: Marker)
    requires s.Valid() && earlier.side == later.side
    requires s.FreeToMarker(earlier).Ok? && s.GetMarker(later.side) == later
    requires if later.side.Left? then earlier.idx < later.idx else later.idx < earlier.idx
    ensures s.FreeToMarker(earlier).value.FreeToMarker(later) == Err(InvalidArgument)
  {
  }

  /** The left guard as compiled, `m_left + n_bytes > m_right` in size_t arithmetic, and the
      left cursor it then stores. */
  function AllocLeftAsWritten(left: nat, right: nat, n: nat): (r: Option<nat>)
    ensures left + n < WORD ==> (r.Some? <==> left + n <= right)
    ensures left + n < WORD && r.Some? ==> r.value == left + n
  {
    if AddWrap(left, n) > right then None else Some(AddWrap(left, n))
  }

  /** The 64-bit sum wraps: with cursors 1 and 10, a left request of 2^64 - 1 bytes passes
      the guard and moves the left cursor back to 0. The right guard, written as two
      comparisons, has no such case. */
  lemma AllocLeftGuardWraps()
    ensures AllocLeftAsWritten(1, 10, WORD - 1) == Some(0)
    ensures DoubleStack(0, 10, 1, 10).Alloc(Left, WORD - 1).1 == None
  {
  }

  /** `FreeToMarker` as written: a right marker is refused only when it is below the right
      cursor. */
  function FreeToMarkerAsWritten(s: DoubleStack, m: Marker): (r: Result<DoubleStack>)
    ensures r.Ok? ==> (m.side.Left? ==> r.value.left <= s.left) && (m.side.Right? ==> r.value.right >= s.right)
  {
    match m.side
    case Left => if m.idx > s.left then Err(InvalidArgument) else Ok(s.(left := m.idx))
    case Right => if m.idx < s.right then Err(InvalidArgument) else Ok(s.(right := m.idx))
  }

  /** A right marker beyond the buffer passes: on a 100-byte allocator it moves the right
      cursor to 200, after which `GetCurrentSize(RIGHT)` wraps and a right allocation of 50
      bytes lands at offset 150, outside the buffer. */
  lemma RightMarkerPastEnd()
    ensures FreeToMarkerAsWritten(DoubleStack(0, 100, 0, 100), Marker(Right, 200))
            == Ok(DoubleStack(0, 100, 0, 200))
    ensures DoubleStack(0, 100, 0, 200).Alloc(Right, 50).1 == Some(150)
    ensures DoubleStack(0, 100, 0, 100).FreeToMarker(Marker(Right, 200)) == Err(InvalidArgument)
  {
  }

  /** On every marker that names a position inside the buffer, the corrected `FreeToMarker`
      agrees with the code as written. */
  lemma FreeToMarkerAgrees(s: DoubleStack, m: Marker)
    requires m.idx <= s.total
    ensures s.FreeToMarker(m) == FreeToMarkerAsWritten(s, m)
  {
  }

  class DoubleStackAllocator {
    /** Address of `m_memory`. */
    const base: nat
    /** `m_totalMemSize`. */
    const total: nat
    /** `m_left`. */
    var left: nat
    /** `m_right`. */
    var right: nat

    ghost predicate Valid()
      reads this
    {
      left <= right <= total && total != WORD - 1 && 0 < base && base + total < WORD
    }

    function State(): DoubleStack
      reads this
    {
      DoubleStack(base, total, left, right)
    }

    /** `DoubleStackAllocator(total_size)`, which asserts that the size is not `size_t(-1)`;
        `base` is where `new uint8_t[]` put the buffer. */
    constructor (totalSize: nat, base: nat)
      requires totalSize != WORD - 1 && 0 < base && base + totalSize < WORD
      ensures Valid() && this.total == totalSize && this.base == base
      ensures left == 0 && right == totalSize
    {
      this.base := base;
      this.total := totalSize;
      this.left := 0;
      this.right := totalSize;
    }

    /** `Alloc(side, n_bytes)`: take `n` bytes from the gap, at the left or the right end. */
    method Alloc(side: Side, n: nat) returns (p: Option<nat>)
      requires Valid()
      modifies this
      ensures Valid() && (State(), p) == old(State()).Alloc(side, n)
      ensures p.Some? <==> old(left) + n <= old(right)
      ensures p.None? ==> left == old(left) && right == old(right)
      ensures p.Some? && side.Left? ==>
                p.value == base + old(left) && left == old(left) + n && right == old(right)
      ensures p.Some? && side.Right? ==>
                p.value == base + right && right == old(right) - n && left == old(left)
    {
      var m := left;
      if side.Left? {
        if left + n > right {
          return None;
        }
        left := left + n;
      } else {
        if n > right || right - n < left {
          return None;
        }
        right := right - n;
        m := right;
      }
      return Some(base + m);
    }

    /** `Alloc(side, n_bytes, Align)`: reserve `n + align - 1` bytes and round the block's
        start up with `AlignPtr`. */
    method AllocAligned(side: Side, n: nat, align: nat) returns (p: Option<nat>)
      requires Valid() && IsPowerOfTwo(align) && align < WORD
      modifies this
      ensures Valid()
      ensures (State(), p.Some?) == (old(State()).Alloc(side, n + align - 1).0,
                                      old(State()).Alloc(side, n + align - 1).1.Some?)
      ensures p.Some? <==> old(left) + (n + align - 1) <= old(right)
      ensures p.Some? ==> IsAligned(p.value, align)
      ensures p.Some? ==> p.value == AlignPtr(base + (if side.Left? then old(left) else right), align)
      ensures p.Some? && side.Left? ==> base + old(left) <= p.value && p.value + n <= base + left
      ensures p.Some? && side.Right? ==> base + right <= p.value && p.value + n <= base + old(right)
    {
      var block := Alloc(side, n + align - 1);
      if block.None? {
        return None;
      }
      return Some(AlignPtr(block.value, align));
    }

    /** `GetMarker(side)`. */
    function GetMarker(side: Side): (m: Marker)
      reads this
      requires Valid()
      ensures m.side == side && m.idx <= total
      ensures side.Left? ==> m.idx == GetCurrentSize(Left)
      ensures side.Right? ==> m.idx == total - GetCurrentSize(Right)
    {
      State().GetMarker(side)
    }

    /** `FreeToMarker(marker)`: roll the marker's side back to it, or throw
        invalid_argument when the marker is above the left cursor or below the right one. */
    method FreeToMarker(m: Marker) returns (o: Outcome)
      requires Valid()
      modifies this
      ensures Valid()
      ensures old(State()).FreeToMarker(m) == (if o.Pass? then Ok(State()) else Err(o.error))
      ensures o.Fail? <==> (if m.side.Left? then m.idx > old(left) else m.idx < old(right) || m.idx > total)
      ensures o.Fail? ==> o.error == InvalidArgument && left == old(left) && right == old(right)
      ensures o.Pass? && m.side.Left? ==> left == m.idx && right == old(right)
      ensures o.Pass? && m.side.Right? ==> right == m.idx && left == old(left)
    {
      if m.side.Left? {
        if m.idx > left {
          return Fail(InvalidArgument);
        }
        left := m.idx;
      } else {
        if m.idx < right || m.idx > total {
          return Fail(InvalidArgument);
        }
        right := m.idx;
      }
      return Pass;
    }

    /** `ClearAll()`. */
    method ClearAll()
      requires Valid()
      modifies this
      ensures Valid() && left == 0 && right == total && EmptyBoth()
    {
      left := 0;
      right := total;
    }

    /** `Clear(side)`: empty one stack, leaving the other alone. */
    method Clear(side: Side)
      requires Valid()
      modifies this
      ensures Valid() && Empty(side)
      ensures side.Left? ==> left == 0 && right == old(right)
      ensures side.Right? ==> right == total && left == old(left)
    {
      if side.Left? {
        left := 0;
      } else {
        right := total;
      }
    }

    /** `GetSize()`. */
    function GetSize(): (n: nat)
      reads this
      requires Valid()
      ensures n == GetCurrentSize(Left) + GetCurrentSize(Right) + (right - left)
    {
      total
    }

    /** `GetCurrentSize(side)`: the bytes used on one side. */
    function GetCurrentSize(side: Side): (n: nat)
      reads this
      requires Valid()
      ensures n <= total
      ensures side.Left? ==> n == left
      ensures side.Right? ==> n + right == total
    {
      if side.Left? then left else total - right
    }

    /** `Empty(side)`. */
    predicate Empty(side: Side)
      reads this
      requires Valid()
      ensures Empty(side) <==> GetCurrentSize(side) == 0
    {
      if side.Left? then left == 0 else right == total
    }

    /** `EmptyBoth()`. */
    predicate EmptyBoth()
      reads this
      requires Valid()
      ensures EmptyBoth() <==> left == 0 && right == total
    {
      Empty(Left) && Empty(Right)
    }
  }

  /** `DoubleStackAllocator::PtrData`. */
  datatype PtrData = PtrData(marker: Marker, alloc: DoubleStackAllocator)

  /** The part of `new_ptr` after the allocation: a handle, or runtime_error for nullptr. */
  function WrapPtr(marker: Marker, alloc: DoubleStackAllocator, p: Option<nat>): (r: Result<Ptr<PtrData>>)
    ensures r.Err? <==> p.None?
    ensures r.Err? ==> r.error == RuntimeError
    ensures r.Ok? ==> r.value.NonNull() && r.value.ptr == p && r.value.data == PtrData(marker, alloc)
  {
    if p.None? then Err(RuntimeError) else Ok(Ptr(p, PtrData(marker, alloc)))
  }

  /** `new_ptr<T>(alloc, side)` for an object of `objSize` bytes: the side's marker is taken
      before the allocation, which throws when the stacks would overlap. */
  method NewPtr(alloc: DoubleStackAllocator, side: Side, objSize: nat) returns (r: Result<Ptr<PtrData>>)
    requires alloc.Valid()
    modifies alloc
    ensures alloc.Valid()
    ensures r.Err? <==> old(alloc.left) + objSize > old(alloc.right)
    ensures r.Err? ==> r.error == RuntimeError && alloc.left == old(alloc.left) && alloc.right == old(alloc.right)
    ensures r.Ok? ==> r.value.data == PtrData(old(alloc.State()).GetMarker(side), alloc)
    ensures r.Ok? ==> (alloc.State(), r.value.ptr) == old(alloc.State()).Alloc(side, objSize)
  {
    var marker := alloc.GetMarker(side);
    var p := alloc.Alloc(side, objSize);
    r := WrapPtr(marker, alloc, p);
  }

  /** `new_ptr<T>(alloc, side, Align(align), args...)`: with an `Align` as the first
      argument the object is built by `New(side, align, ...)`, through the aligned
      allocation of `objSize + align - 1` bytes. */
  method NewPtrAligned(alloc: DoubleStackAllocator, side: Side, align: nat, objSize: nat)
    returns (r: Result<Ptr<PtrData>>)
    requires alloc.Valid() && IsPowerOfTwo(align) && align < WORD
    modifies alloc
    ensures alloc.Valid()
    ensures r.Err? <==> old(alloc.left) + (objSize + align - 1) > old(alloc.right)
    ensures r.Err? ==> r.error == RuntimeError && alloc.left == old(alloc.left) && alloc.right == old(alloc.right)
    ensures r.Ok? ==> r.value.data == PtrData(old(alloc.State()).GetMarker(side), alloc)
    ensures r.Ok? ==> r.value.NonNull() && IsAligned(r.value.Get(), align)
    ensures r.Ok? ==> r.value.ptr == Some(AlignPtr(alloc.base + (if side.Left? then old(alloc.left) else alloc.right), align))
    ensures r.Ok? && side.Left? ==>
              alloc.base + old(alloc.left) <= r.value.Get() && r.value.Get() + objSize <= alloc.base + alloc.left
    ensures r.Ok? && side.Right? ==>
              alloc.base + alloc.right <= r.value.Get() && r.value.Get() + objSize <= alloc.base + old(alloc.right)
    ensures r.Ok? ==> alloc.State() == old(alloc.State()).Alloc(side, objSize + align - 1).0
  {
    var marker := alloc.GetMarker(side);
    var p := alloc.AllocAligned(side, objSize, align);
    r := WrapPtr(marker, alloc, p);
  }

  /** `delete_ptr(ptr)`: destroy the object, roll its side back to the handle's marker and
      null the handle; invalid_argument, with the handle unchanged, for a stale marker. */
  method DeletePtr(h: Ptr<PtrData>) returns (h': Ptr<PtrData>, o: Outcome)
    requires h.NonNull() && h.data.alloc.Valid()
    modifies h.data.alloc
    ensures h.data.alloc.Valid()
    ensures old(h.data.alloc.State()).FreeToMarker(h.data.marker)
            == (if o.Pass? then Ok(h.data.alloc.State()) else Err(o.error))
    ensures o.Fail? ==> o.error == InvalidArgument && h' == h
                        && h.data.alloc.left == old(h.data.alloc.left) && h.data.alloc.right == old(h.data.alloc.right)
    ensures o.Pass? ==> h' == h.(ptr := None)
  {
    o := h.data.alloc.FreeToMarker(h.data.marker);
    if o.Fail? {
      return h, o;
    }
    h' := h.(ptr := None);
  }
}
