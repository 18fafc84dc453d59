/** Scenarios, proved from the contracts, that follow the unit tests
    (tests/StackAllocator.cpp, tests/StackAllocator_tests.cpp, tests/DoubleStackAllocator.cpp)
    and the ring buffer's documented example: each assertion states what the test expects. */
module Scenarios {
  import opened Wrappers
  import opened Allocator
  import Stk = StackAllocators
  import Dbl = DoubleStackAllocators
  import Legacy = LegacyStack
  import opened PoolAllocators
  import opened RingBuffers

  /** `TEST(StackAllocator, Alloc)`: 5, 4 and 1 bytes fill a 10-byte stack, with three
      different addresses, and further requests fail. */
  method StackAllocFills() {
    var r := Stk.StackAllocator.Create(10, 4096);
    assert r.Ok?;
    var a := r.value;
    var b := a.Alloc(5);
    var c := a.Alloc(4);
    var d := a.Alloc(1);
    var e := a.Alloc(1);
    var f := a.Alloc(100);
    assert b.Some? && c.Some? && d.Some? && e.None? && f.None?;
    assert b != c && c != d && b != d;
    assert a.GetCurrentSize() == a.GetSize();
  }

  /** `TEST(StackAllocator, Constructor_InvalidArg)`. */
  method StackRejectsZero() {
    var r := Stk.StackAllocator.Create(0, 4096);
    assert r == Err(InvalidArgument);
  }

  /** `TEST(StackAllocator, FreeToMarker_invalid_marker)`: after rolling back to a lower
      marker, the top marker is refused; the empty marker is still accepted. */
  method StackStaleMarker() {
    var a := new Stk.StackAllocator(10, 4096);
    var empty := a.GetMarker();
    var _ := a.Alloc(2);
    var between := a.GetMarker();
    var _ := a.Alloc(5);
    var top := a.GetMarker();
    var o1 := a.FreeToMarker(between);
    assert o1.Pass? && a.GetCurrentSize() == 2;
    var o2 := a.FreeToMarker(top);
    assert o2 == Fail(InvalidArgument);
    var o3 := a.FreeToMarker(empty);
    assert o3.Pass? && a.Empty();
  }

  /** `TEST(StackAllocator_Ptr, delete_ptr_wrong_order)`, with 4-, 1- and 8-byte objects:
      deleting the middle handle first makes deleting the top one throw. */
  method StackDeleteWrongOrder() {
    var a := new Stk.StackAllocator(30, 4096);
    var r1 := Stk.NewPtr(a, 4);
    var r2 := Stk.NewPtr(a, 1);
    var r3 := Stk.NewPtr(a, 8);
    assert r1.Ok? && r2.Ok? && r3.Ok?;
    var _, o2 := Stk.DeletePtr(r2.value);
    assert o2.Pass? && a.GetCurrentSize() == 4;
    var _, o3 := Stk.DeletePtr(r3.value);
    assert o3 == Fail(InvalidArgument);
    var _, o1 := Stk.DeletePtr(r1.value);
    assert o1.Pass? && a.Empty();
  }

  /** `TEST(StackAllocator, GetCurrentSize)` run against stack.hpp, the header that test
      file includes: the second 5-byte request would fill the 10-byte stack exactly and is
      refused, so the current size stays 5 where the test expects 10. */
  method LegacyExactFill() {
    var a := new Legacy.StackAllocator(10, 4096);
    var p1 := a.Alloc(5);
    var p2 := a.Alloc(5);
    assert p1.Some? && p2.None?;
    assert a.GetCurrentSize() == 5;
  }

  /** `Alloc_sides` and `Alloc_not_enough_space` of tests/DoubleStackAllocator.cpp on a
      100-byte allocator. */
  method DoubleStackSides() {
    var a := new Dbl.DoubleStackAllocator(100, 4096);
    var p1 := a.Alloc(Dbl.Left, 10);
    var p2 := a.Alloc(Dbl.Right, 25);
    var p3 := a.Alloc(Dbl.Right, 25);
    assert p1 == Some(4096) && p2 == Some(4096 + 75) && p3 == Some(4096 + 50);
    var p4 := a.Alloc(Dbl.Left, 50);
    var p5 := a.Alloc(Dbl.Left, 40);
    var p6 := a.Alloc(Dbl.Left, 41);
    assert p4.None? && p5 == Some(4096 + 10) && p6.None?;
  }

  /** `TEST_F(DoubleStackAllocatorTest, FreeToMarker)`: markers of both sides roll each
      side back on its own. */
  method DoubleStackMarkers() {
    var a := new Dbl.DoubleStackAllocator(100, 4096);
    var emptyL, emptyR := a.GetMarker(Dbl.Left), a.GetMarker(Dbl.Right);
    var _ := a.Alloc(Dbl.Left, 10);
    var m1R := a.GetMarker(Dbl.Right);
    var _ := a.Alloc(Dbl.Right, 25);
    var _ := a.Alloc(Dbl.Right, 25);
    var m3L, m3R := a.GetMarker(Dbl.Left), a.GetMarker(Dbl.Right);
    var _ := a.Alloc(Dbl.Left, 40);
    assert a.GetCurrentSize(Dbl.Left) == 50 && a.GetCurrentSize(Dbl.Right) == 50;
    var o1 := a.FreeToMarker(m3L);
    var o2 := a.FreeToMarker(m3R);
    assert o1.Pass? && o2.Pass?;
    assert a.GetCurrentSize(Dbl.Left) == 10 && a.GetCurrentSize(Dbl.Right) == 50;
    var o3 := a.FreeToMarker(m1R);
    assert o3.Pass? && a.GetCurrentSize(Dbl.Right) == 0;
    var o4 := a.FreeToMarker(emptyL);
    var o5 := a.FreeToMarker(emptyR);
    assert o4.Pass? && o5.Pass? && a.EmptyBoth();
  }

  /** A pool of two 16-byte slots aligned to 8: both slots are handed out, aligned, then
      the pool is exhausted; freeing the first slot makes it the next one handed out. */
  method PoolReuse() {
    var pool := new PoolAllocator(2, 8, 16, 4096);
    var a := pool.Alloc();
    var b := pool.Alloc();
    var c := pool.Alloc();
    assert a.Some? && b.Some? && c.None?;
    assert IsAligned(a.value, 8) && IsAligned(b.value, 8);
    assert pool.GetFree() == 0;
    pool.Free(a);
    assert pool.GetFree() == 1;
    var d := pool.Alloc();
    assert d == a;
  }

  /** The four pushes of the documented example, one at a time. */
  lemma PushedExample()
    ensures Pushed(Pushed(Pushed(Pushed([], 3, 1), 3, 2), 3, 3), 3, 4) == [2, 3, 4]
  {
    var c1 := Pushed([], 3, 1);
    assert |c1| == 1 && c1[0] == 1;
    var c2 := Pushed(c1, 3, 2);
    assert |c2| == 2 && c2[0] == c1[0] && c2[1] == 2;
    var c3 := Pushed(c2, 3, 3);
    assert |c3| == 3 && c3[0] == c2[0] && c3[1] == c2[1] && c3[2] == 3;
    var c4 := Pushed(c3, 3, 4);
    assert |c4| == 3 && c4[0] == c3[1] && c4[1] == c3[2] && c4[2] == 4;
    assert c4 == [2, 3, 4];
  }

  /** The class documentation's example: a buffer of capacity 3 after pushes of 1, 2, 3,
      4 holds 2, 3, 4; popping returns 2. */
  method RingDocumented() {
    var r := RingBuffer<int>.Create(3);
    assert r.Ok?;
    var rb := r.value;
    var _ := rb.PushBack(1);
    var _ := rb.PushBack(2);
    var _ := rb.PushBack(3);
    var _ := rb.PushBack(4);
    PushedExample();
    assert rb.contents == [2, 3, 4];
    assert rb.At(0) == Ok(2) && rb.At(2) == Ok(4) && rb.At(3) == Err(OutOfRange);
    assert rb.Front() == Some(2) && rb.TryAt(5).None?;
    var x := rb.PopFront();
    assert x == Ok(2) && rb.Size() == 2;
    rb.Clear();
    assert rb.Empty();
    var y := rb.PopFront();
    assert y == Err(LengthError);
  }
}
