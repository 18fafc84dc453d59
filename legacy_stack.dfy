/** The header-only stack allocator of include/ren_utils/alloc/stack.hpp, the revision that
    preceded StackAllocator.h. Its cursor arithmetic is the `Stack` value of the current
    allocator except for two points: the constructor accepts size 0, and `Alloc` refuses a
    request that would fill the stack exactly (`>=` where the later revision has `>`). */
module LegacyStack {
  import opened Wrappers
  import opened Allocator
  import S = StackAllocators

  /** `Alloc(n_bytes)` of this revision on the stack `s`: nullptr once the new cursor would
      reach the end of the stack, otherwise the block at the old cursor. */
  function AllocOn(s: S.Stack, n: nat): (r: (S.Stack, Option<nat>))
    ensures r.1.Some? <==> s.top + n < s.size
    ensures r.1.Some? ==> r == (s.(top := s.top + n), Some(s.base + s.top))
    ensures r.1.None? ==> r.0 == s
  {
    if s.top + n >= s.size then (s, None) else (s.(top := s.top + n), Some(s.base + s.top))
  }

  /** This revision and the current one agree on every request except one that fills the
      stack exactly, which only this revision refuses. So whatever this revision hands out,
      the current one hands out too, and the lemmas about runs of the current `Stack` cover
      it. */
  lemma AllocAgrees(s: S.Stack, n: nat)
    ensures AllocOn(s, n) != s.Alloc(n) <==> s.top + n == s.size
    ensures AllocOn(s, n).1.Some? ==> AllocOn(s, n) == s.Alloc(n)
  {
  }

  /** The last byte of the stack is never handed out: a cursor below the size stays below
      it, so a 16-byte stack can hold at most 15 bytes. */
  lemma LastByteUnused(s: S.Stack, n: nat)
    requires s.top < s.size
    ensures AllocOn(s, n).0.top < s.size
    ensures AllocOn(s, n).1.Some? ==> AllocOn(s, n).1.value + n < s.base + s.size
  {
  }

  /** A request that exactly fills an empty 16-byte stack is refused by this revision and
      granted by the current one. */
  lemma ExactFillRefused()
    ensures AllocOn(S.Stack(0, 16, 0), 16).1 == None
    ensures S.Stack(0, 16, 0).Alloc(16).1 == Some(0)
  {
  }

  /** The corrected guard grants every request that fits, the exact fill included. */
  lemma ExactFillGranted(s: S.Stack)
    requires s.Valid()
    ensures s.Alloc(s.size - s.top) == (s.(top := s.size), Some(s.base + s.top))
  {
  }

  /** A stack constructed with size 0, which this revision accepts, refuses every
      allocation, even of zero bytes; the current constructor rejects size 0 instead. */
  lemma ZeroSizeUseless(base: nat, n: nat)
    ensures AllocOn(S.Stack(base, 0, 0), n).1 == None
    ensures !S.ValidStackSize(0)
  {
  }

  class StackAllocator {
    /** Address of `m_stack`. */
    const base: nat
    /** `m_totalStackSize`. */
    const size: nat
    /** The bytes of `m_stack`. */
    const mem: array<byte>
    /** `m_pTop`. */
    var top: nat

    ghost predicate Valid()
      reads this
    {
      && size != S.INVALID_MARKER && mem.Length == size && top <= size
      && 0 < base && base + size < WORD
    }

    function State(): S.Stack
      reads this
    {
      S.Stack(base, size, top)
    }

    /** `StackAllocator(stack_size)`: the size is only asserted to differ from
        `size_t(-1)`; `base` is where `new uint8_t[]` put the stack. */
    constructor (stackSize: nat, base: nat)
      requires stackSize != S.INVALID_MARKER && 0 < base && base + stackSize < WORD
      ensures Valid() && fresh(mem)
      ensures this.size == stackSize && this.base == base && top == 0
    {
      this.base := base;
      this.size := stackSize;
      this.mem := new byte[stackSize];
      this.top := 0;
    }

    /** `Alloc(n_bytes)`. */
    method Alloc(n: nat) returns (p: Option<nat>)
      requires Valid()
      modifies this`top
      ensures Valid() && (State(), p) == AllocOn(old(State()), n)
      ensures p.Some? <==> old(top) + n < size
      ensures p.Some? ==> p.value == base + old(top) && top == old(top) + n
      ensures p.None? ==> top == old(top)
    {
      if top + n >= size {
        return None;
      }
      var offset := top;
      top := top + n;
      return Some(base + offset);
    }

    /** `GetMarker()`. */
    function GetMarker(): (m: S.Marker)
      reads this
      requires Valid()
      ensures m <= GetSize() && m == GetCurrentSize()
    {
      top
    }

    /** `FreeToMarker(marker)`: invalid_argument for a marker above the cursor. */
    method FreeToMarker(m: S.Marker) returns (o: Outcome)
      requires Valid()
      modifies this`top
      ensures Valid()
      ensures old(State()).FreeToMarker(m) == (if o.Pass? then Ok(State()) else Err(o.error))
      ensures o.Fail? <==> m > old(top)
      ensures o.Fail? ==> o.error == InvalidArgument && top == old(top)
      ensures o.Pass? ==> top == m
    {
      if m > top {
        return Fail(InvalidArgument);
      }
      top := m;
      return Pass;
    }

    /** `Clear()`. */
    method Clear()
      requires Valid()
      modifies this`top
      ensures Valid() && top == 0 && GetCurrentSize() == 0 && Empty()
    {
      top := 0;
    }

    /** `GetSize()`: any size but `size_t(-1)`, zero included. */
    function GetSize(): (n: nat)
      reads this
      requires Valid()
      ensures n != S.INVALID_MARKER && n == mem.Length
    {
      size
    }

    /** `GetCurrentSize()`. */
    function GetCurrentSize(): (n: nat)
      reads this
      requires Valid()
      ensures n <= GetSize()
    {
      top
    }

    /** `Empty()`. */
    predicate Empty()
      reads this
      requires Valid()
      ensures Empty() <==> GetCurrentSize() == 0 && GetMarker() == 0
    {
      top == 0
    }
  }

  /** `StackAllocator::PtrData` of this revision. */
  datatype PtrData = PtrData(marker: S.Marker, alloc: StackAllocator)

  /** `new_ptr<T>(alloc, args...)` for an object of `objSize` bytes: the marker is taken
      before `Alloc`, and a failed allocation throws runtime_error. */
  method NewPtr(alloc: StackAllocator, objSize: nat) returns (r: Result<Ptr<PtrData>>)
    requires alloc.Valid()
    modifies alloc`top
    ensures alloc.Valid()
    ensures r.Err? <==> old(alloc.top) + objSize >= alloc.size
    ensures r.Err? ==> r.error == RuntimeError && alloc.top == old(alloc.top)
    ensures r.Ok? ==> r.value.ptr == Some(alloc.base + old(alloc.top))
    ensures r.Ok? ==> r.value.data == PtrData(old(alloc.top), alloc)
    ensures r.Ok? ==> alloc.top == old(alloc.top) + objSize
  {
    var marker := alloc.GetMarker();
    var p := alloc.Alloc(objSize);
    if p.None? {
      return Err(RuntimeError);
    }
    return Ok(Ptr(p, PtrData(marker, alloc)));
  }

  /** `delete_ptr(ptr)`: destroy the object, roll back to the handle's marker and null the
      handle; a marker above the cursor throws invalid_argument before the handle is
      nulled. */
  method DeletePtr(h: Ptr<PtrData>) returns (h': Ptr<PtrData>, o: Outcome)
    requires h.NonNull() && h.data.alloc.Valid()
    modifies h.data.alloc`top
    ensures h.data.alloc.Valid()
    ensures o.Fail? <==> h.data.marker > old(h.data.alloc.top)
    ensures o.Fail? ==> o.error == InvalidArgument && h' == h && h.data.alloc.top == old(h.data.alloc.top)
    ensures o.Pass? ==> h' == h.(ptr := None) && h.data.alloc.top == h.data.marker
  {
    o := h.data.alloc.FreeToMarker(h.data.marker);
    if o.Fail? {
      return h, o;
    }
    h' := h.(ptr := None);
  }
}
