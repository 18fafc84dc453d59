# ren-utils allocators and ring buffer in Dafny

This project models the memory allocators of the ren-utils C++ library and its
fixed-capacity ring buffer, and proves what their interfaces promise.

- **Alignment helpers** (`allocator.hpp`, module `Allocator`):
  - `Align::AlignPtr` is modelled on 64-bit words: `(addr + mask) & ~mask`, with the
    bitwise AND written out. It is proved to round up to the next multiple of the
    alignment.
  - `AlignPtrStore` moves a pointer up by 1 to `align` bytes and stores the shift in the
    byte before the result. `UnalignPtr` reads that byte back, with 0 standing for 256.
    The two form a round trip.
  - `Ptr` is the handle type that `new_ptr` returns.
- **Stack allocator** (`StackAllocator.h` / `StackAllocator.cpp`, module `StackAllocators`):
  - A class over a byte array and a cursor.
  - Its methods are specified against the value `Stack`, on which runs of allocations are
    proved to hand out disjoint, in-order blocks inside the stack.
  - A marker taken before a run rolls the stack back to exactly where it was.
  - Once the stack has been rolled back below a later marker, that later marker is
    refused. This is the "wrong order" `delete_ptr` of the tests.
- **Legacy stack allocator** (`stack.hpp`, module `LegacyStack`): the header-only revision.
  It is proved to agree with the current allocator except on a request that fills the
  stack exactly, which it refuses. It also accepts a stack of size 0.
- **Double-ended stack** (`DoubleStackAllocator.h` / `.cpp`, module
  `DoubleStackAllocators`):
  - Two stacks grow towards each other in one buffer.
  - Across any run of left and right allocations, no two blocks overlap and every block
    stays in the gap.
  - Each side's marker restores that side and leaves the other alone.
- **Pool allocator** (`PoolAllocator.hpp`, module `PoolAllocators`):
  - Fixed-size slots `item_size + align` bytes apart. A free slot stores the address of the
    next free slot, forming an intrusive free list.
  - The class invariant proves that `m_first` and the stored pointers spell out a
    repetition-free list of free slots.
  - Every allocated slot holds its shift byte.
  - `Alloc` hands out an aligned address whose object stays inside its slot.
  - `Free` pushes the slot back at the head of the list.
- **Ring buffer** (`RingBuffer.hpp`, module `RingBuffers`):
  - A class over an array with front, back and size cursors, and a ghost sequence of
    logical contents.
  - A push to a full buffer drops the oldest element. The buffer is proved to hold the
    newest `capacity` elements of everything pushed, oldest first.
  - `operator[]`, `at` and `try_at` read the logical contents.
  - The iterator's `++` is modelled with its `long long` index.
- **Test scenarios** (module `Scenarios`): scenarios, proved from the contracts, that follow the
  unit tests.

Modelling conventions:
- Addresses are natural numbers below 2^64, and nullptr is `None`.
- The place where `new uint8_t[]` or `malloc` put a buffer is a constructor parameter.
- Exceptions become `Err`/`Fail` results: the `Wrappers` module holds `Result` and
  `Outcome` with the four exception kinds the code throws.
- Placement-new and destructors act on opaque objects of which only the size matters.

Where the code and its documentation disagree, the model follows the code. Two cases:
- `StackAllocator::GetAlignedBase` is documented for memory from `AllocAligned`. That
  function is declared but never defined, and `Alloc(n, Align)` stores no shift byte (see
  `StackAllocators.AlignedAllocNotRecoverable`).
- `PoolAllocator::Alloc` calls `Align::Ptr`, which `allocator.hpp` does not declare. The
  model reads it as `Align::AlignPtr`, the only aligning function there.

## Model

| member | source | states |
|---|---|---|
| Allocator.AlignPtr | include/ren_utils/alloc/allocator.hpp:29-47 | the result is a multiple of the power-of-two alignment, below 2^64, and when no wrap occurs it lies in `[addr, addr + align)`: the smallest aligned address at or above `addr` |
| Allocator.AlignPtrFixesAligned | include/ren_utils/alloc/allocator.hpp:43-47 | `AlignPtr` leaves an address unchanged exactly when it is already aligned |
| Allocator.StoreShift | include/ren_utils/alloc/allocator.hpp:58-68 | the shift `AlignPtrStore` applies is between 1 and `align`, lands on a boundary, and is a whole `align` exactly when the pointer was already aligned |
| Allocator.StoreShiftIsNextMultiple | include/ren_utils/alloc/allocator.hpp:58-68 | the shift is `align - orig % align`, the distance to the next multiple strictly above |
| Allocator.ShiftCodec | include/ren_utils/alloc/allocator.hpp:71-85 | a shift of 1..256 stored as one byte, with 0 for 256, reads back unchanged |
| Allocator.UnalignPtr | include/ren_utils/alloc/allocator.hpp:80-88 | the result is below 2^64, and at most 256 bytes below the aligned pointer |
| Allocator.UnalignReadsShift | include/ren_utils/alloc/allocator.hpp:80-88 | where the byte before `aligned` holds the distance back to `orig`, `UnalignPtr` returns `orig` |
| Allocator.UnalignAfterStore | include/ren_utils/alloc/allocator.hpp:57-88 | after storing the shift byte, `UnalignPtr` recovers the original pointer |
| Allocator.AlignPtrStore | include/ren_utils/alloc/allocator.hpp:57-73 | returns an aligned pointer 1..align bytes above `orig`, changes only the byte before it, and `UnalignPtr` of the new memory gives back `orig` |
| Allocator.IsAligned | include/ren_utils/alloc/allocator.hpp:90-93 | an address is aligned exactly when rounding it down to a multiple of the alignment leaves it unchanged |
| Allocator.Ptr.NonNull | include/ren_utils/alloc/allocator.hpp:119 | a handle converts to false exactly when it is the null handle, whatever allocator data it carries |
| Allocator.Ptr.Get | include/ren_utils/alloc/allocator.hpp:110-117 | `Get` of a non-null handle is its stored pointer |
| StackAllocators.AllocAllInside | src/alloc/StackAllocator.cpp:26-32 | over any run of `Alloc` calls, every block handed out lies between the cursor before and after the run, the blocks are in address order and pairwise disjoint, and the cursor never passes the size |
| StackAllocators.AllocAllFits | src/alloc/StackAllocator.cpp:26-32 | requests whose sizes add up to the free room all succeed, each block directly after the previous one, and the cursor advances by their sum |
| StackAllocators.MarkerRestores | src/alloc/StackAllocator.cpp:45-49 | `FreeToMarker` with a marker taken before any run of allocations restores the stack exactly |
| StackAllocators.StaleMarkerRefused | src/alloc/StackAllocator.cpp:45-49 | after rolling back below a marker, that marker is refused with invalid_argument |
| StackAllocators.AllocAsWritten | src/alloc/StackAllocator.cpp:27-30 | the size_t guard as written: when the sum does not wrap, it grants exactly the requests that fit and stores the new cursor |
| StackAllocators.AllocGuardWraps | src/alloc/StackAllocator.cpp:27-30 | a request of 2^64 - 1 bytes with one byte used passes the wrapping guard and moves the cursor back to 0, while the model refuses it |
| StackAllocators.AlignedAllocNotRecoverable | src/alloc/StackAllocator.cpp:34-43 | `GetAlignedBase` applied to a block from `Alloc(n, Align)` can return an address below the stack, because no shift byte was stored |
| StackAllocators.StackAllocator.constructor | src/alloc/StackAllocator.cpp:13-20 | an accepted size gives an empty stack of that size over a fresh array |
| StackAllocators.StackAllocator.Create | src/alloc/StackAllocator.cpp:13-20 | invalid_argument exactly for size 0 and `InvalidMarker`, otherwise a valid empty stack |
| StackAllocators.StackAllocator.Alloc | src/alloc/StackAllocator.cpp:26-32 | returns the old cursor's address and advances by `n` exactly when `n` fits; otherwise nullptr and no change; agrees with `Stack.Alloc` |
| StackAllocators.StackAllocator.AllocAligned | src/alloc/StackAllocator.cpp:34-37 | reserves `n + align - 1` bytes and returns an aligned address whose `n` bytes lie inside the reserved block, or nullptr with no change |
| StackAllocators.StackAllocator.GetAlignedBase | src/alloc/StackAllocator.cpp:39-43 | nullptr exactly for nullptr; otherwise the `UnalignPtr` of the pointer over the stack's bytes |
| StackAllocators.StackAllocator.GetMarker | include/ren_utils/alloc/StackAllocator.h:77 | the marker is the current size and never exceeds the stack size |
| StackAllocators.StackAllocator.FreeToMarker | src/alloc/StackAllocator.cpp:45-49 | invalid_argument, with no change, exactly for a marker above the cursor; otherwise the cursor becomes the marker; agrees with `Stack.FreeToMarker` |
| StackAllocators.StackAllocator.Clear | include/ren_utils/alloc/StackAllocator.h:85 | leaves the stack empty |
| StackAllocators.StackAllocator.GetSize | include/ren_utils/alloc/StackAllocator.h:87 | the size is never 0 or `InvalidMarker` |
| StackAllocators.StackAllocator.GetCurrentSize | include/ren_utils/alloc/StackAllocator.h:89 | the used size never exceeds the total |
| StackAllocators.StackAllocator.Empty | include/ren_utils/alloc/StackAllocator.h:91 | empty exactly when nothing is used and the marker is at the bottom |
| StackAllocators.WrapPtr | include/ren_utils/alloc/StackAllocator.h:102-110 | runtime_error exactly when the allocation gave nullptr; otherwise a non-null handle that carries the marker and the allocator |
| StackAllocators.NewPtr | include/ren_utils/alloc/StackAllocator.h:121-127 | `new_ptr`, which is `_new_ptr` over `New`: runtime_error, with no change, exactly when the object does not fit; otherwise a handle to the old top, carrying the marker taken before the allocation |
| StackAllocators.NewPtrAligned | include/ren_utils/alloc/StackAllocator.h:138-144 | runtime_error exactly when `size + align - 1` bytes do not fit; otherwise a handle carrying the earlier marker whose pointer is the top aligned up, with the object inside the reserved block |
| StackAllocators.DeletePtr | include/ren_utils/alloc/StackAllocator.h:153-158 | rolls back to the handle's marker and nulls the handle; invalid_argument, with the handle and stack unchanged, exactly when the marker is above the cursor |
| LegacyStack.AllocOn | include/ren_utils/alloc/stack.hpp:52-58 | a block is handed out exactly when the new cursor stays strictly below the size; it starts at the old cursor |
| LegacyStack.AllocAgrees | include/ren_utils/alloc/stack.hpp:52-58 | this revision and the current `Alloc` differ exactly on requests that fill the stack exactly; whatever this revision grants, the current one grants identically |
| LegacyStack.LastByteUnused | include/ren_utils/alloc/stack.hpp:52-58 | the last byte of the stack is never handed out |
| LegacyStack.ExactFillRefused | include/ren_utils/alloc/stack.hpp:53 | a 16-byte request on an empty 16-byte stack is refused here and granted by the current guard |
| LegacyStack.ExactFillGranted | src/alloc/StackAllocator.cpp:27 | the current guard grants the request that fills the stack exactly |
| LegacyStack.ZeroSizeUseless | include/ren_utils/alloc/stack.hpp:34-40 | a size-0 stack, which this revision accepts, refuses every request; the current constructor rejects size 0 |
| LegacyStack.StackAllocator.constructor | include/ren_utils/alloc/stack.hpp:34-40 | any size but `size_t(-1)` gives an empty stack |
| LegacyStack.StackAllocator.Alloc | include/ren_utils/alloc/stack.hpp:52-58 | returns the old cursor's address and advances exactly when the new cursor stays below the size; otherwise nullptr and no change; agrees with `AllocOn` |
| LegacyStack.StackAllocator.GetMarker | include/ren_utils/alloc/stack.hpp:61 | the marker is the current size and never exceeds the stack size |
| LegacyStack.StackAllocator.FreeToMarker | include/ren_utils/alloc/stack.hpp:68-72 | invalid_argument, with no change, exactly for a marker above the cursor; otherwise rollback to it |
| LegacyStack.StackAllocator.Clear | include/ren_utils/alloc/stack.hpp:75 | leaves the stack empty |
| LegacyStack.StackAllocator.GetSize | include/ren_utils/alloc/stack.hpp:78 | the size is any value but `size_t(-1)`, equal to the array length |
| LegacyStack.StackAllocator.GetCurrentSize | include/ren_utils/alloc/stack.hpp:80 | the used size never exceeds the total |
| LegacyStack.StackAllocator.Empty | include/ren_utils/alloc/stack.hpp:82 | empty exactly when nothing is used and the marker is at the bottom |
| LegacyStack.NewPtr | include/ren_utils/alloc/stack.hpp:101-111 | runtime_error, with no change, exactly when the new cursor would reach the size; otherwise a handle to the old top, carrying the marker taken first |
| LegacyStack.DeletePtr | include/ren_utils/alloc/stack.hpp:120-125 | rolls back to the handle's marker and nulls the handle; invalid_argument, with no change, for a marker above the cursor |
| DoubleStackAllocators.AllocAllDisjoint | src/alloc/DoubleStackAllocator.cpp:24-36 | over any run of left and right allocations, every block lies in the gap between the cursors before the run, the gap only shrinks, and no two blocks overlap |
| DoubleStackAllocators.MarkerRestores | src/alloc/DoubleStackAllocator.cpp:43-58 | a side's marker taken before a run restores that side and leaves the other side as the run left it |
| DoubleStackAllocators.StaleMarkerRefused | src/alloc/DoubleStackAllocator.cpp:43-58 | after rolling a side back past a later marker of the same side, that marker is refused |
| DoubleStackAllocators.AllocLeftAsWritten | src/alloc/DoubleStackAllocator.cpp:27-29 | the left guard in size_t arithmetic: when the sum does not wrap, it grants exactly the requests that fit in the gap |
| DoubleStackAllocators.AllocLeftGuardWraps | src/alloc/DoubleStackAllocator.cpp:27-29 | a left request of 2^64 - 1 bytes passes the wrapping guard and moves the left cursor back to 0, while the model refuses it |
| DoubleStackAllocators.FreeToMarkerAsWritten | src/alloc/DoubleStackAllocator.cpp:43-58 | as written, an accepted marker only lowers the left cursor or raises the right one |
| DoubleStackAllocators.RightMarkerPastEnd | src/alloc/DoubleStackAllocator.cpp:53-56 | a right marker beyond the buffer is accepted as written, after which a right allocation lands outside the buffer; the corrected rollback refuses it |
| DoubleStackAllocators.FreeToMarkerAgrees | src/alloc/DoubleStackAllocator.cpp:43-58 | on every marker inside the buffer, the corrected rollback and the code as written agree |
| DoubleStackAllocators.DoubleStackAllocator.constructor | src/alloc/DoubleStackAllocator.cpp:12-20 | both stacks start empty: left cursor 0, right cursor at the total size |
| DoubleStackAllocators.DoubleStackAllocator.Alloc | src/alloc/DoubleStackAllocator.cpp:24-36 | a block is handed out exactly when it fits in the gap: a left block at the old left cursor, a right block ending at the old right cursor; otherwise nullptr and no change; agrees with `DoubleStack.Alloc` |
| DoubleStackAllocators.DoubleStackAllocator.AllocAligned | src/alloc/DoubleStackAllocator.cpp:38-41 | reserves `n + align - 1` bytes on the side and returns the block's start rounded up by `AlignPtr`, an aligned address whose `n` bytes lie in the reserved block, or nullptr |
| DoubleStackAllocators.DoubleStackAllocator.GetMarker | include/ren_utils/alloc/DoubleStackAllocator.h:84-88 | the marker names the side and the position bounding that side's used bytes |
| DoubleStackAllocators.DoubleStackAllocator.FreeToMarker | src/alloc/DoubleStackAllocator.cpp:43-58 | invalid_argument, with no change, for a left marker above the left cursor, or a right marker below the right cursor or past the end; otherwise only the marker's side moves |
| DoubleStackAllocators.DoubleStackAllocator.ClearAll | include/ren_utils/alloc/DoubleStackAllocator.h:96-99 | both stacks end up empty |
| DoubleStackAllocators.DoubleStackAllocator.Clear | include/ren_utils/alloc/DoubleStackAllocator.h:101-106 | the given side ends up empty and the other side is unchanged |
| DoubleStackAllocators.DoubleStackAllocator.GetSize | include/ren_utils/alloc/DoubleStackAllocator.h:108 | the total is the left used size plus the right used size plus the free gap |
| DoubleStackAllocators.DoubleStackAllocator.GetCurrentSize | include/ren_utils/alloc/DoubleStackAllocator.h:110-114 | the bytes used on a side, never more than the total |
| DoubleStackAllocators.DoubleStackAllocator.Empty | include/ren_utils/alloc/DoubleStackAllocator.h:116-120 | a side is empty exactly when it uses no bytes |
| DoubleStackAllocators.DoubleStackAllocator.EmptyBoth | include/ren_utils/alloc/DoubleStackAllocator.h:122 | both sides are empty exactly when the cursors are at their starting positions |
| DoubleStackAllocators.WrapPtr | include/ren_utils/alloc/DoubleStackAllocator.h:147-155 | runtime_error exactly when the allocation gave nullptr; otherwise a non-null handle with the marker and the allocator |
| DoubleStackAllocators.NewPtr | include/ren_utils/alloc/DoubleStackAllocator.h:143-156 | runtime_error, with no change, exactly when the stacks would overlap; otherwise the side's marker taken before the allocation and the block `Alloc` hands out |
| DoubleStackAllocators.NewPtrAligned | include/ren_utils/alloc/DoubleStackAllocator.h:77-81 | with an `Align` first, `new_ptr` builds through the aligned allocation: runtime_error exactly when `size + align - 1` bytes do not fit, otherwise a handle with the earlier marker whose pointer is the reserved block's start aligned up, with the object inside that block |
| DoubleStackAllocators.DeletePtr | include/ren_utils/alloc/DoubleStackAllocator.h:163-168 | the rollback of the handle's side to its marker, and the handle nulled exactly when the rollback succeeds; on a stale marker, invalid_argument with the handle and both cursors unchanged |
| PoolAllocators.ItemSize | include/ren_utils/alloc/PoolAllocator.hpp:101-102 | the item size is the object size raised to at least the size of a pointer |
| PoolAllocators.Layout.AlignedSlot | include/ren_utils/alloc/PoolAllocator.hpp:130-133 | a slot's handed-out address is aligned, 1..align bytes above the slot start, and the object after it ends inside the slot and the buffer |
| PoolAllocators.Layout.ShiftIndex | include/ren_utils/alloc/PoolAllocator.hpp:135-138 | the shift byte of every slot lies inside the buffer |
| PoolAllocators.SlotAddrFormula | include/ren_utils/alloc/PoolAllocator.hpp:107-111 | slot `i` starts at `m_pool + i * step` |
| PoolAllocators.SlotsApart | include/ren_utils/alloc/PoolAllocator.hpp:107-111 | later slots start at least one step after earlier ones |
| PoolAllocators.SlotInjective | include/ren_utils/alloc/PoolAllocator.hpp:107-111 | different slots start at different addresses |
| PoolAllocators.SlotInside | include/ren_utils/alloc/PoolAllocator.hpp:107-111 | every slot lies inside the buffer that the slots need |
| PoolAllocators.BlocksDisjoint | include/ren_utils/alloc/PoolAllocator.hpp:130-141 | the bytes of two different allocated slots, from the shift byte to the object's end, do not overlap |
| PoolAllocators.LinkAvoidsSlot | include/ren_utils/alloc/PoolAllocator.hpp:111-112 | the next-pointer in the first 8 bytes of a slot shares no byte with the shift byte or the object of any other slot |
| PoolAllocators.BufferTooSmallIff | include/ren_utils/alloc/PoolAllocator.hpp:105-107 | the buffer as allocated is smaller than the slots need exactly when there are more items than bytes per item |
| PoolAllocators.PoolBufferTooSmall | include/ren_utils/alloc/PoolAllocator.hpp:105-112 | with 100 items of 8 bytes and alignment 1, 808 bytes are allocated while the constructor writes at offset 891 |
| PoolAllocators.Pigeonhole | include/ren_utils/alloc/PoolAllocator.hpp:144-162 | a repetition-free list of slots that misses an allocated slot is shorter than the slot count, so `Free` never overfills the list |
| PoolAllocators.ChainFrame | include/ren_utils/alloc/PoolAllocator.hpp:156-158 | storing a pointer in a slot that is not on the free list leaves the free list intact |
| PoolAllocators.ChainDistinct | include/ren_utils/alloc/PoolAllocator.hpp:119-128 | the chain from `m_first` visits distinct slots of the pool |
| PoolAllocators.PushFreeList | include/ren_utils/alloc/PoolAllocator.hpp:156-161 | pushing an allocated slot at the head (storing the old head in it) gives the free list with that slot in front |
| PoolAllocators.StoreKeepsShifts | include/ren_utils/alloc/PoolAllocator.hpp:136-138 | writing the head slot's shift byte keeps every other allocated slot's shift byte |
| PoolAllocators.ShiftsApart | include/ren_utils/alloc/PoolAllocator.hpp:136-138 | two different slots keep their shift bytes at different offsets of the buffer |
| PoolAllocators.AllocStep | include/ren_utils/alloc/PoolAllocator.hpp:124-138 | the head of a non-empty free list is `m_first`, the pointer stored in it heads the rest of the list, and storing the head slot's shift byte keeps the shift bytes of every slot then allocated |
| PoolAllocators.FreeStep | include/ren_utils/alloc/PoolAllocator.hpp:150-161 | for an allocated slot, the shift byte leads `Free` back to the slot's start, the list has room for it, and pushing it at the head keeps the free chain and the other slots' shift bytes |
| PoolAllocators.InitialChain | include/ren_utils/alloc/PoolAllocator.hpp:109-116 | after the constructor's loop, the chain from the first slot is every slot in address order, ending in nullptr |
| PoolAllocators.LinkSlots | include/ren_utils/alloc/PoolAllocator.hpp:107-113 | the loop stores in every slot the address of its right neighbour, and nullptr in the last |
| PoolAllocators.PoolAllocator.constructor | include/ren_utils/alloc/PoolAllocator.hpp:93-117 | all slots are free, in address order, and `m_first` is the start of the buffer |
| PoolAllocators.PoolAllocator.PopHead | include/ren_utils/alloc/PoolAllocator.hpp:124-128 | the head slot leaves the free list, `m_first` becomes the pointer stored in it, and `m_used` grows by one as at line 140; the buffer is unchanged, and once the head's shift byte is stored every allocated slot's shift byte is in place |
| PoolAllocators.PoolAllocator.Alloc | include/ren_utils/alloc/PoolAllocator.hpp:119-142 | nullptr with no change exactly when every slot is used; otherwise the head slot's aligned address, which is removed from the free list; the head becomes the stored next-pointer and the only byte written is the slot's shift byte; the invariant (free chain, shift bytes) is kept |
| PoolAllocators.PoolAllocator.Free | include/ren_utils/alloc/PoolAllocator.hpp:144-163 | nothing for nullptr; otherwise the slot the pointer came from becomes the head of the free list, in front of the old list, and the used count drops |
| PoolAllocators.PoolAllocator.Delete | include/ren_utils/alloc/PoolAllocator.hpp:165-171 | same effect on the pool as `Free` |
| PoolAllocators.PoolAllocator.GetFree | include/ren_utils/alloc/PoolAllocator.hpp:71 | the number of free slots is the free list's length, and free plus used is the total |
| PoolAllocators.PoolAllocator.GetUsed | include/ren_utils/alloc/PoolAllocator.hpp:73 | the used count is the number of slots off the free list |
| PoolAllocators.PoolAllocator.GetTotal | include/ren_utils/alloc/PoolAllocator.hpp:75 | the total is never 0 |
| PoolAllocators.PoolAllocator.GetAlign | include/ren_utils/alloc/PoolAllocator.hpp:77 | the alignment is a power of two of at most 256 |
| PoolAllocators.NewPtr | include/ren_utils/alloc/PoolAllocator.hpp:180-186 | runtime_error exactly when the pool is full, with the pool unchanged; otherwise a non-null handle to the head slot's aligned address, which leaves the free list, with only that slot's shift byte written |
| PoolAllocators.DeletePtr | include/ren_utils/alloc/PoolAllocator.hpp:194-197 | deleting through the handle puts its slot back at the head of the free list; a null handle changes nothing |
| RingBuffers.Slot | include/ren_utils/RingBuffer.hpp:139 | the slot index `(front + i) % capacity` is below the capacity, and for in-range values it wraps at most once |
| RingBuffers.Pushed | include/ren_utils/RingBuffer.hpp:135-148 | after a push the contents are the newest elements of the old contents plus the item, one more unless the buffer was full, with the item last |
| RingBuffers.PushedIsNewest | include/ren_utils/RingBuffer.hpp:135-148 | one push keeps the newest `capacity` elements |
| RingBuffers.PushAllKeepsNewest | include/ren_utils/RingBuffer.hpp:13-24 | after any sequence of pushes, the buffer holds the newest `capacity` of everything pushed, in push order |
| RingBuffers.DocumentedExample | include/ren_utils/RingBuffer.hpp:16-23 | capacity 3 with pushes 1, 2, 3, 4 leaves 2, 3, 4 |
| RingBuffers.ToLongLong | include/ren_utils/RingBuffer.hpp:81 | converting the `size_t` index to `long long` keeps values below 2^63 and wraps larger ones to negative |
| RingBuffers.AdvanceAsWritten | include/ren_utils/RingBuffer.hpp:83-90 | `++` as written clamps the index into `[0, size]` and otherwise steps by `step` |
| RingBuffers.ReverseWalkStuck | include/ren_utils/RingBuffer.hpp:83-98 | on a two-element buffer the reverse iterator reaches 0 and stays there, never reaching `rend()` at -1 |
| RingBuffers.Advance | include/ren_utils/RingBuffer.hpp:83-90 | the corrected `++` clamps into `[-1, size]`, steps exactly within that range, and differs from the code only when the step goes below 0 |
| RingBuffers.ForwardWalk | include/ren_utils/RingBuffer.hpp:95-96 | from `begin()`, `size` increments reach `end()`, passing every index in between |
| RingBuffers.ReverseWalk | include/ren_utils/RingBuffer.hpp:97-98 | with the corrected `++`, from `rbegin()`, `size` increments reach `rend()`, passing every index in between |
| RingBuffers.RingBuffer.constructor | include/ren_utils/RingBuffer.hpp:113-118 | a positive capacity gives an empty buffer over a fresh array |
| RingBuffers.RingBuffer.Create | include/ren_utils/RingBuffer.hpp:113-118 | invalid_argument exactly for capacity 0, otherwise an empty buffer of that capacity |
| RingBuffers.RingBuffer.PushBack | include/ren_utils/RingBuffer.hpp:135-148 | the contents become `Pushed` of the old ones, the invariant tying contents to array slots is kept, and the returned slot holds the item |
| RingBuffers.RingBuffer.PopFront | include/ren_utils/RingBuffer.hpp:150-159 | length_error with no change exactly on an empty buffer; otherwise returns the oldest element and removes it |
| RingBuffers.RingBuffer.Front | include/ren_utils/RingBuffer.hpp:176-181 | nothing exactly on an empty buffer, otherwise the oldest element |
| RingBuffers.RingBuffer.Empty | include/ren_utils/RingBuffer.hpp:190-193 | true exactly when there are no contents |
| RingBuffers.RingBuffer.Clear | include/ren_utils/RingBuffer.hpp:195-200 | the contents become empty and both cursors return to slot 0 |
| RingBuffers.RingBuffer.Size | include/ren_utils/RingBuffer.hpp:59 | the number of elements held, never more than the capacity |
| RingBuffers.RingBuffer.Index | include/ren_utils/RingBuffer.hpp:202-205 | below the size, the element at that logical position; on a full buffer, the element at `index % capacity` |
| RingBuffers.RingBuffer.At | include/ren_utils/RingBuffer.hpp:207-212 | out_of_range exactly from the size on, otherwise the element at that position |
| RingBuffers.RingBuffer.TryAt | include/ren_utils/RingBuffer.hpp:214-219 | nothing exactly from the size on, otherwise the element at that position |
| RingBuffers.Iterator.constructor | include/ren_utils/RingBuffer.hpp:81 | the iterator stores the `long long` conversion of the index, so `size_t(-1)` becomes -1 |
| RingBuffers.Iterator.Increment | include/ren_utils/RingBuffer.hpp:83-90 | the index moves by the corrected `Advance` and stays within `[-1, size]` |
| Scenarios.PushedExample | include/ren_utils/RingBuffer.hpp:18-22 | the four documented pushes, one at a time, give 2, 3, 4 |

## Left out

- I/O, logging (`string_format` messages), clocks and concurrency are not modelled. Memory
  ownership (`new[]`/`delete[]`, `malloc`/`free`, destructors of the allocators) is not
  modelled either: a buffer is a fresh array at a given address.
- Placement-new payloads and destructors are left out: objects are opaque and only their
  size counts. This covers `New`/`NewAligned` and the ring buffer's `newItem`/`deleteItem`,
  including `Clear`'s destructor loop.
- `StackAllocator::AllocAligned` (StackAllocator.h:57) is declared but has no definition,
  and `Alloc(size_t, Align)`, defined at StackAllocator.cpp:34-37, is not declared in
  StackAllocator.h, which declares only `Alloc(size_t)` (:49) and `AllocAligned` (:57).
  The model gives that overload the meaning of its definition and models `NewAligned`
  through it. A definition matching the documentation of `GetAlignedBase` (StackAllocator.h:68-75)
  would instead store a shift byte, as `AlignPtrStore` does; `AlignedAllocNotRecoverable`
  shows that the plain `AlignPtr` result cannot be handed to `GetAlignedBase`.
- The broken `Align` comparison operators (allocator.hpp:17-20) are not modelled; the code
  never uses them.
- `RingBuffer::PopBack` and `Back` are not modelled: their behaviour is undefined.
  `PopBack` does not return and reads the unwritten back slot.
- The ring buffer iterator's `operator*`, `==` and `!=` are not modelled. Neither are
  `begin`/`end`/`rbegin`/`rend` as members: they appear as the walk lemmas' starting
  indices.
- src/alloc/stack.cpp repeats, line for line, the definitions of the stack allocator's
  constructor, `Alloc` and `FreeToMarker` (lines 10-35) and of the double stack's
  constructor, `Alloc` and `FreeToMarker` (lines 37-78). The members that model the current
  files model it too. It includes a header `stack.h` that is not part of this model.
- `AvgSampler`, `basic.h`, `time.hpp`, `logging.hpp`, `alloc.h` and `utils.h` are not part
  of this model.
- Allocator.AlignPtr: requires a power-of-two alignment. The code only asserts
  `(align & mask) == 0`, which also lets 0 through; the result for 0 is not modelled.
- PoolAllocators.PoolAllocator.constructor: requires a power-of-two alignment, which the
  code documents but asserts only as `0 < align <= 256`. The buffer is sized for all slots,
  which is the corrected size (see Findings).
- PoolAllocators.PoolAllocator.Free: requires a pointer that this pool handed out and that
  has not been freed since. The code does not check it, and another pointer corrupts the
  list.
- PoolAllocators.PoolAllocator: the `next` pointers stored in free slots are kept in a map
  from slot address to pointer rather than as bytes of the buffer. `LinkAvoidsSlot` proves
  that the 8 bytes of a slot's pointer never overlap the shift byte or the object of a
  different slot.
- StackAllocators.StackAllocator.GetAlignedBase: requires the byte before the pointer to lie
  in the stack. The code reads wherever the pointer points.
- StackAllocators.StackAllocator.AllocAligned: reserves `n + align - 1` bytes as an
  unbounded sum. The code adds in size_t, so a request near 2^64 wraps: `n = 2^64 - 1`
  with `align = 8` reserves 6 bytes. The model does not capture that wrapped case.
- StackAllocators.NewPtrAligned: inherits the unbounded `size + align - 1` of
  `AllocAligned`, so the size_t wrap is not modelled.
- DoubleStackAllocators.DoubleStackAllocator.AllocAligned: reserves `n + align - 1` bytes
  as an unbounded sum. The code's size_t wrap for requests near 2^64 is not modelled.
- DoubleStackAllocators.NewPtrAligned: inherits the unbounded `size + align - 1` of
  `AllocAligned`, so the size_t wrap is not modelled.
- StackAllocators.StackAllocator.Alloc: compares unbounded sums, the corrected guard; the
  64-bit wrap of the code is modelled by `AllocAsWritten` (see Findings).
- DoubleStackAllocators.DoubleStackAllocator.Alloc: compares unbounded sums in the left
  guard; the 64-bit wrap is modelled by `AllocLeftAsWritten`.
- DoubleStackAllocators.DoubleStackAllocator.FreeToMarker: also refuses a right marker past
  the end of the buffer, the corrected check (see Findings).
- LegacyStack.StackAllocator.Alloc: the guard `m_pTop + n_bytes >= m_totalStackSize` is
  compared on unbounded numbers; its 64-bit wrap is the same as the current allocator's.
- RingBuffers.Iterator.Increment: requires that `index + step` does not overflow
  `long long`, which the code leaves undefined. It uses the corrected clamp (see Findings).
- RingBuffers.RingBuffer.Index: the index is unbounded, so the size_t wrap of
  `m_front + index` for indices near 2^64 is not modelled.
- The allocators' `Valid` predicates require the buffer to end below 2^64. They say nothing
  about pointer provenance.

## Findings

| source | as written | input that shows it | evidently intended | confidence | as-written member | corrected member |
|---|---|---|---|---|---|---|
| include/ren_utils/alloc/PoolAllocator.hpp:105 | the buffer is `(num_items + align) * item_size` bytes while slots are `item_size + align` apart | 100 items of 8 bytes, alignment 1: 808 bytes allocated, the last slot's pointer written at offset 891 | `num_items * (item_size + align)` bytes | high, not executed | PoolAllocators.PoolBufferTooSmall | PoolAllocators.PoolAllocator.constructor |
| src/alloc/StackAllocator.cpp:27 | `m_pTop + n_bytes > m_totalStackSize` in size_t arithmetic | a 10-byte stack with 1 byte used and a request of 2^64 - 1 bytes: the sum wraps to 0, the request is granted and the cursor drops to 0 | refuse every request larger than the free room | medium, not executed | StackAllocators.AllocGuardWraps | StackAllocators.StackAllocator.Alloc |
| src/alloc/DoubleStackAllocator.cpp:27 | `m_left + n_bytes > m_right` in size_t arithmetic | cursors 1 and 10, a left request of 2^64 - 1 bytes: granted, the left cursor drops to 0 | refuse every request larger than the gap, as the right side's two comparisons do | medium, not executed | DoubleStackAllocators.AllocLeftGuardWraps | DoubleStackAllocators.DoubleStackAllocator.Alloc |
| src/alloc/DoubleStackAllocator.cpp:54 | a right marker is refused only when below `m_right` | a 100-byte allocator and `Marker{RIGHT, 200}`: accepted, then a 50-byte right allocation lands at offset 150 | also refuse a right marker past `m_totalMemSize` | medium, not executed | DoubleStackAllocators.RightMarkerPastEnd | DoubleStackAllocators.DoubleStackAllocator.FreeToMarker |
| include/ren_utils/alloc/stack.hpp:53 | `m_pTop + n_bytes >= m_totalStackSize` refuses a request that fills the stack exactly | a 16-byte request on an empty 16-byte stack; tests/StackAllocator_tests.cpp:34-45 fill a 10-byte stack with 5 + 5 bytes and expect size 10 | `>`, as in src/alloc/StackAllocator.cpp:27 | high, not executed | LegacyStack.ExactFillRefused | LegacyStack.ExactFillGranted |
| include/ren_utils/alloc/stack.hpp:38 | the constructor only asserts `stack_size != size_t(-1)`, so size 0 is accepted | `StackAllocator(0)`: accepted, and every later `Alloc` is refused (even of 0 bytes); tests/StackAllocator_tests.cpp:17-19 expect invalid_argument | throw invalid_argument for 0, as src/alloc/StackAllocator.cpp:17 does | medium, not executed | LegacyStack.ZeroSizeUseless | StackAllocators.StackAllocator.Create |
| include/ren_utils/RingBuffer.hpp:85-86 | `operator++` clamps an index at or below 0 to 0, while `rend()` has index -1 | a buffer of two elements: from `rbegin()` (index 1) `++` gives 0 and then 0 again, so a loop from `rbegin()` to `rend()` does not end | clamp below at -1 | high, not executed | RingBuffers.ReverseWalkStuck | RingBuffers.Advance |
