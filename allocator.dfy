/** Alignment arithmetic shared by every allocator (the `Align` struct of
    include/ren_utils/alloc/allocator.hpp) and the owning handle `Ptr`.

    Addresses are naturals below 2^64 (`uintptr_t`); the C++ wrap-around of 64-bit
    arithmetic is written out with `% WORD` where it changes a result. */
module Allocator {
  import opened Wrappers
  import opened Arith

  /** `uint8_t`. */
  newtype byte = b: int | 0 <= b < 256

  /** 2^64: the modulus of `uintptr_t` and `size_t` arithmetic. */
  const WORD: nat := 0x1_0000_0000_0000_0000

  /** `size_t` addition, which wraps around at 2^64. */
  function AddWrap(x: nat, y: nat): nat
  {
    (x + y) % WORD
  }

  predicate IsPowerOfTwo(a: nat)
    decreases a
  {
    a == 1 || (a >= 2 && a % 2 == 0 && IsPowerOfTwo(a / 2))
  }

  lemma {:induction false} PowerOfTwoProduct(a: nat, b: nat)
    requires IsPowerOfTwo(a) && IsPowerOfTwo(b)
    ensures IsPowerOfTwo(a * b)
    decreases b
  {
    if b != 1 {
      PowerOfTwoProduct(a, b / 2);
      MulHalf(a, b);
    }
  }

  /** Halving an even factor halves the product. */
  lemma MulHalf(a: nat, b: nat)
    requires b % 2 == 0
    ensures (a * b) % 2 == 0 && (a * b) / 2 == a * (b / 2)
  {
    var h := b / 2;
    assert a * b == 2 * (a * h);
    DivUnique(a * b, 2, a * h, 0);
  }

  lemma WordIsPowerOfTwo()
    ensures IsPowerOfTwo(WORD)
  {
    assert IsPowerOfTwo(4);
    PowerOfTwoProduct(4, 4);
    PowerOfTwoProduct(16, 16);
    PowerOfTwoProduct(256, 256);
    PowerOfTwoProduct(65536, 65536);
    PowerOfTwoProduct(0x1_0000_0000, 0x1_0000_0000);
  }

  /** Bitwise AND of two naturals, taken one bit at a time from the least significant. */
  function BitAnd(x: nat, y: nat): nat
    decreases x
  {
    if x == 0 || y == 0 then 0
    else 2 * BitAnd(x / 2, y / 2) + (if x % 2 == 1 && y % 2 == 1 then 1 else 0)
  }

  /** AND with a mask of all ones below a power of two leaves a smaller value unchanged. */
  lemma {:induction false} BitAndAllOnes(x: nat, m: nat)
    requires IsPowerOfTwo(m) && x < m
    ensures BitAnd(x, m - 1) == x
    decreases m
  {
    if m >= 2 && x > 0 {
      assert (m - 1) / 2 == m / 2 - 1 && (m - 1) % 2 == 1;
      BitAndAllOnes(x / 2, m / 2);
    }
  }

  lemma HalvePowerOfTwo(a: nat)
    requires IsPowerOfTwo(a) && a != 1
    ensures a == 2 * (a / 2) && 1 <= a / 2 && IsPowerOfTwo(a / 2)
  {
  }

  lemma BitAndEven(x: nat, y: nat)
    requires y % 2 == 0
    ensures BitAnd(x, y) == 2 * BitAnd(x / 2, y / 2)
  {
  }

  /** The arithmetic of one halving step of `BitAndComplement`. */
  lemma ComplementHalving(x: nat, a: nat, m: nat)
    requires a >= 2 && a % 2 == 0 && m % 2 == 0 && a <= m && x < m
    ensures (m - a) % 2 == 0 && (m - a) / 2 == m / 2 - a / 2
    ensures x / 2 < m / 2 && a / 2 <= m / 2
    ensures 2 * ((x / 2) / (a / 2) * (a / 2)) == x / a * a
  {
    var h := a / 2;
    DivMod(x, 2);
    DivHalf(x, h);
    assert a == 2 * h;
    var q := x / a;
    assert 2 * (q * h) == q * a;
  }

  /** `x & ~(a - 1)` in a word of `m` values clears the bits below the power of two `a`,
      that is, rounds `x` down to a multiple of `a`. */
  lemma {:induction false} BitAndComplement(x: nat, a: nat, m: nat)
    requires IsPowerOfTwo(a) && IsPowerOfTwo(m) && a <= m && x < m
    ensures BitAnd(x, m - a) == x / a * a
    decreases a
  {
    if a == 1 {
      BitAndAllOnes(x, m);
    } else {
      HalvePowerOfTwo(a);
      HalvePowerOfTwo(m);
      ComplementHalving(x, a, m);
      BitAndEven(x, m - a);
      BitAndComplement(x / 2, a / 2, m / 2);
    }
  }

  /** The mask `~(align - 1)` of a 64-bit word clears the bits below `align`: AND with it
      rounds down to a multiple of `align`. */
  lemma MaskRoundsDown(x: nat, align: nat)
    requires IsPowerOfTwo(align) && align < WORD && x < WORD
    ensures BitAnd(x, WORD - 1 - (align - 1)) == x / align * align
  {
    WordIsPowerOfTwo();
    BitAndComplement(x, align, WORD);
  }

  /** Adding the mask does not wrap when the aligned block still fits in the word. */
  lemma AddMaskNoWrap(addr: nat, align: nat)
    requires align >= 1 && addr + align <= WORD
    ensures AddWrap(addr, align - 1) == addr + align - 1
  {
  }

  /** `Align::AlignPtr`: `(addr + mask) & ~mask` with `mask = align - 1`, in 64-bit arithmetic.
      The pointer overload only casts to and from `uintptr_t`, so one function models both. */
  function AlignPtr(addr: nat, align: nat): (r: nat)
    requires addr < WORD
    requires IsPowerOfTwo(align) && align < WORD
    ensures r < WORD && IsAligned(r, align)
    ensures addr + align <= WORD ==> addr <= r < addr + align
  {
    var mask := align - 1;
    var sum := AddWrap(addr, mask);
    MaskRoundsDown(sum, align);
    RoundDown(sum, align);
    if addr + align <= WORD then AddMaskNoWrap(addr, align); BitAnd(sum, WORD - 1 - mask)
    else BitAnd(sum, WORD - 1 - mask)
  }

  /** `Align::IsAligned`: the remainder of the address by the alignment is zero. Every
      address is aligned to 1, the alignment itself is aligned, and no non-null address
      below the alignment is. */
  predicate IsAligned(p: nat, align: nat): (b: bool)
    requires align > 0
    ensures align == 1 ==> b
    ensures p == align ==> b
    ensures b ==> p == 0 || align <= p
  {
    p % align == 0
  }

  /** An address that is already aligned is returned unchanged; any other moves forward. */
  lemma AlignPtrFixesAligned(addr: nat, align: nat)
    requires addr < WORD && IsPowerOfTwo(align) && align < WORD && addr + align <= WORD
    ensures AlignPtr(addr, align) == addr <==> IsAligned(addr, align)
  {
    if IsAligned(addr, align) {
      MultiplesApart(addr, AlignPtr(addr, align), align);
    }
  }

  /** How far `AlignPtrStore` moves `orig`: up to the next boundary, or a whole `align`
      when `orig` is already aligned, so that the byte before the result is free. */
  function StoreShift(orig: nat, align: nat): (s: nat)
    requires IsPowerOfTwo(align) && orig + align < WORD
    ensures 1 <= s <= align
    ensures IsAligned(orig + s, align)
    ensures s == align <==> IsAligned(orig, align)
  {
    AlignPtrFixesAligned(orig, align);
    var aligned := AlignPtr(orig, align);
    if aligned == orig then
      MultiplePlus(orig, align);
      align
    else
      aligned - orig
  }

  /** The shift is the distance to the next multiple of `align` strictly above `orig`. */
  lemma StoreShiftIsNextMultiple(orig: nat, align: nat)
    requires IsPowerOfTwo(align) && orig + align < WORD
    ensures StoreShift(orig, align) == align - orig % align
  {
    var s := StoreShift(orig, align);
    var t := align - orig % align;
    NextMultiple(orig, align);
    if s < t {
      MultiplesApart(orig + s, orig + t, align);
    } else if t < s {
      MultiplesApart(orig + t, orig + s, align);
    }
  }

  /** The shift byte: `static_cast<uint8_t>(shift & 0xff)`. */
  function EncodeShift(shift: nat): byte
  {
    (shift % 256) as byte
  }

  /** Reading the shift byte back, where 0 stands for 256. */
  function DecodeShift(b: byte): nat
  {
    if b == 0 then 256 else b as nat
  }

  lemma ShiftCodec(shift: nat)
    requires 1 <= shift <= 256
    ensures DecodeShift(EncodeShift(shift)) == shift
  {
  }

  /** `Align::UnalignPtr`: step back by the shift stored in the byte before `aligned`.
      The arena `mem` starts at address `memBase`; the subtraction is pointer arithmetic
      and wraps like `uintptr_t`. */
  function UnalignPtr(mem: seq<byte>, memBase: nat, aligned: nat): (r: nat)
    requires memBase < aligned <= memBase + |mem|
    ensures r < WORD
    ensures 256 <= aligned < WORD ==> aligned - 256 <= r < aligned
  {
    (aligned - DecodeShift(mem[aligned - memBase - 1])) % WORD
  }

  /** Wherever the byte before `aligned` holds the distance back to `orig` (1 to 256),
      `UnalignPtr` returns `orig`. */
  lemma UnalignReadsShift(mem: seq<byte>, memBase: nat, aligned: nat, orig: nat)
    requires memBase < aligned <= memBase + |mem| && orig < aligned <= orig + 256 && aligned < WORD
    requires mem[aligned - memBase - 1] == EncodeShift(aligned - orig)
    ensures UnalignPtr(mem, memBase, aligned) == orig
  {
    ShiftCodec(aligned - orig);
  }

  /** The round trip: once `AlignPtrStore` has written its byte, `UnalignPtr` recovers the
      original address. */
  lemma UnalignAfterStore(mem: seq<byte>, memBase: nat, orig: nat, align: nat)
    requires IsPowerOfTwo(align) && orig + align < WORD
    requires StoreShift(orig, align) <= 256
    requires memBase <= orig && orig + align <= memBase + |mem|
    ensures var aligned := orig + StoreShift(orig, align);
            UnalignPtr(mem[aligned - 1 - memBase := EncodeShift(aligned - orig)], memBase, aligned) == orig
  {
    var aligned := orig + StoreShift(orig, align);
    var mem' := mem[aligned - 1 - memBase := EncodeShift(aligned - orig)];
    assert mem'[aligned - memBase - 1] == EncodeShift(aligned - orig);
    UnalignReadsShift(mem', memBase, aligned, orig);
  }

  /** `Align::AlignPtrStore`: align `orig`, moving it by 1..align bytes, and write the shift
      into the byte just before the result. The arena `mem` starts at address `memBase`
      and must hold `align` bytes from `orig` on. */
  method AlignPtrStore(mem: array<byte>, memBase: nat, orig: nat, align: nat) returns (aligned: nat)
    requires IsPowerOfTwo(align) && memBase + mem.Length < WORD
    requires memBase <= orig && orig + align <= memBase + mem.Length
    requires StoreShift(orig, align) <= 256
    modifies mem
    ensures aligned == orig + StoreShift(orig, align)
    ensures IsAligned(aligned, align) && orig < aligned <= orig + align
    ensures aligned == orig + align <==> IsAligned(orig, align)
    ensures mem[..] == old(mem[..])[aligned - 1 - memBase := EncodeShift(aligned - orig)]
    ensures UnalignPtr(mem[..], memBase, aligned) == orig
  {
    AlignPtrFixesAligned(orig, align);
    aligned := AlignPtr(orig, align);
    if aligned == orig {
      aligned := aligned + align;
    }
    var shift := aligned - orig;
    UnalignAfterStore(mem[..], memBase, orig, align);
    mem[aligned - 1 - memBase] := EncodeShift(shift);
  }

  /** `Ptr<T, Alloc>`: the object's address (`m_Ptr`, None for nullptr) and the
      allocator-specific data needed to release it (`m_PtrData`). The object itself is opaque. */
  datatype Ptr<D> = Ptr(ptr: Option<nat>, data: D)
  {
    /** `operator bool`: false exactly for the null handle, whatever its allocator data. */
    predicate NonNull(): (b: bool)
      ensures !b <==> this == Ptr(None, data)
    {
      ptr.Some?
    }

    /** `Get` and `operator->`, which assert a non-null pointer. */
    function Get(): (p: nat)
      requires NonNull()
      ensures ptr == Some(p)
    {
      ptr.value
    }
  }
}
