/**
 * The owning fixed-size buffers of gl/immutable_array.hpp: `immutable_array_t<T>`
 * (storage from malloc/free) and its twin `aligned_array_t<T>` (storage from
 * _mm_malloc/_mm_free). Each holds an element count and a nullable pointer
 * to its storage; a null pointer is Dafny's `null`, the storage an `array<T>`.
 *
 * The C runtime heap is modelled by `Allocator`, which records which blocks
 * are live in each of the two allocation families, so that "allocate frees the
 * previous storage", "release_ptr hands the storage to the caller" and "the
 * destructor frees the storage exactly once" are statements the verifier checks.
 * Allocation failure is a nondeterministic choice inside the allocator.
 *
 * The element type's value-initialised value `T()` and the value that reads
 * back from all-zero bytes (what `clear` writes with memset) are one constant
 * `zero` per buffer: they coincide for the arithmetic and vector element types
 * the program stores (bytes, floats, glm vectors).
 */
module OwningBuffer {

  /** One more than the largest `unsigned int`: sizes, indices and counts are below it. */
  const UINT_LIMIT: int := 0x1_0000_0000

  /** The value `v` repeated `n` times. */
  function Repeat<T>(v: T, n: nat): (r: seq<T>)
    ensures |r| == n
    ensures forall k :: 0 <= k < n ==> r[k] == v
  {
    seq(n, _ => v)
  }

  /**
   * `s` with the `count` elements starting at `base` replaced by `v`: what a
   * range fill or a range memset leaves behind.
   */
  function Overwrite<T>(s: seq<T>, base: nat, count: nat, v: T): (r: seq<T>)
    requires base + count <= |s|
    ensures |r| == |s|
    ensures forall k :: base <= k < base + count ==> r[k] == v
    ensures forall k :: 0 <= k < |s| && !(base <= k < base + count) ==> r[k] == s[k]
  {
    s[..base] + Repeat(v, count) + s[base + count..]
  }

  /** A range overwrite that covers the whole sequence is the whole-buffer fill. */
  lemma {:induction false} OverwriteAll<T>(s: seq<T>, v: T)
    ensures Overwrite(s, 0, |s|, v) == Repeat(v, |s|)
  {
  }

  /** Overwriting an empty range changes nothing. */
  lemma {:induction false} OverwriteNothing<T>(s: seq<T>, base: nat, v: T)
    requires base <= |s|
    ensures Overwrite(s, base, 0, v) == s
  {
  }

  /**
   * Two adjacent range overwrites with the same value are one overwrite of the
   * joined range: filling [b, b+c1) and then [b+c1, b+c1+c2) is filling [b, b+c1+c2).
   */
  lemma {:induction false} OverwriteAdjacent<T>(s: seq<T>, base: nat, c1: nat, c2: nat, v: T)
    requires base + c1 + c2 <= |s|
    ensures Overwrite(Overwrite(s, base, c1, v), base + c1, c2, v) == Overwrite(s, base, c1 + c2, v)
  {
    var lhs := Overwrite(Overwrite(s, base, c1, v), base + c1, c2, v);
    var rhs := Overwrite(s, base, c1 + c2, v);
    assert |lhs| == |rhs|;
    forall k | 0 <= k < |s| ensures lhs[k] == rhs[k] {
      if base <= k < base + c1 + c2 {
        assert rhs[k] == v;
      } else {
        assert rhs[k] == s[k];
      }
    }
  }

  /**
   * The C runtime heap as the buffers see it: the blocks currently live from
   * malloc (`live`) and from _mm_malloc (`alignedLive`). Freeing requires a live
   * block of the matching family, so a double free or a free through the wrong
   * family does not verify.
   */
  class Allocator {
    ghost var live: set<object>
    ghost var alignedLive: set<object>

    constructor ()
      ensures live == {} && alignedLive == {}
    {
      live, alignedLive := {}, {};
    }

    /** `malloc(n * sizeof(T))`: either null (failure) or a fresh block of `n` elements. */
    method Malloc<T(0)>(n: nat) returns (p: array?<T>)
      modifies this
      ensures alignedLive == old(alignedLive)
      ensures p == null ==> live == old(live)
      ensures p != null ==> fresh(p) && p.Length == n && live == old(live) + {p}
    {
      if * {
        p := null;
      } else {
        p := new T[n];
        live := live + {p};
      }
    }

    /** `_mm_malloc(n * sizeof(T), alignment)`: as Malloc, in the aligned family. */
    method AlignedMalloc<T(0)>(alignment: nat, n: nat) returns (p: array?<T>)
      modifies this
      ensures live == old(live)
      ensures p == null ==> alignedLive == old(alignedLive)
      ensures p != null ==> fresh(p) && p.Length == n && alignedLive == old(alignedLive) + {p}
    {
      if * {
        p := null;
      } else {
        p := new T[n];
        alignedLive := alignedLive + {p};
      }
    }

    /** `free(p)` for a block that malloc returned and that is still live. */
    method Free(p: object)
      requires p in live
      modifies this
      ensures live == old(live) - {p} && alignedLive == old(alignedLive)
    {
      live := live - {p};
    }

    /** `_mm_free(p)` for a block that _mm_malloc returned and that is still live. */
    method AlignedFree(p: object)
      requires p in alignedLive
      modifies this
      ensures alignedLive == old(alignedLive) - {p} && live == old(live)
    {
      alignedLive := alignedLive - {p};
    }
  }

  /**
   * The loop of placement-new calls that follows a successful allocation:
   * every element of the fresh block is constructed from `value`.
   */
  method ConstructEach<T>(p: array<T>, value: T)
    modifies p
    ensures p[..] == Repeat(value, p.Length)
  {
    var i := 0;
    while i < p.Length
      invariant 0 <= i <= p.Length
      invariant forall k :: 0 <= k < i ==> p[k] == value
    {
      p[i] := value;
      i := i + 1;
    }
  }

  /** `immutable_array_t<T>`: a malloc-backed buffer of `size` elements. */
  class ImmutableArray<T(0)> {
    var size: nat
    var data: array?<T>
    /** `T()`, which is also the value of an element whose bytes are all zero. */
    const zero: T
    /** The heap the storage comes from and goes back to. */
    const heap: Allocator

    /**
     * The buffer invariant: a null pointer goes with size 0, and a non-null
     * pointer is a live malloc block holding exactly `size` elements.
     */
    ghost predicate Valid()
      reads this, heap
    {
      && size < UINT_LIMIT
      && (data == null ==> size == 0)
      && (data != null ==> data.Length == size && data in heap.live)
    }

    /** The elements, in order. */
    function Contents(): (s: seq<T>)
      reads this, data
    {
      if data == null then [] else data[..]
    }

    /** Default construction: size 0 and a null pointer. */
    constructor (heap: Allocator, zero: T)
      ensures Valid() && this.heap == heap && this.zero == zero
      ensures size == 0 && data == null && !ToBool()
    {
      this.heap, this.zero := heap, zero;
      size, data := 0, null;
    }

    /**
     * Sized construction: either the allocation succeeds and every one of the
     * `n` elements is `T()`, or it fails and the buffer is empty with a null pointer.
     */
    constructor WithSize(heap: Allocator, zero: T, n: nat)
      requires n < UINT_LIMIT
      modifies heap
      ensures Valid() && this.heap == heap && this.zero == zero
      ensures (data == null && size == 0) || (fresh(data) && size == n && Contents() == Repeat(zero, n))
      ensures heap.live == old(heap.live) + (if data == null then {} else {data})
      ensures heap.alignedLive == old(heap.alignedLive)
    {
      var p := heap.Malloc<T>(n);
      if p != null {
        ConstructEach(p, zero);
      }
      this.heap, this.zero := heap, zero;
      size, data := if p == null then 0 else n, p;
    }

    /** Construction with a value: as WithSize, every element a copy of `value`. */
    constructor WithValue(heap: Allocator, zero: T, n: nat, value: T)
      requires n < UINT_LIMIT
      modifies heap
      ensures Valid() && this.heap == heap && this.zero == zero
      ensures (data == null && size == 0) || (fresh(data) && size == n && Contents() == Repeat(value, n))
      ensures heap.live == old(heap.live) + (if data == null then {} else {data})
      ensures heap.alignedLive == old(heap.alignedLive)
    {
      var p := heap.Malloc<T>(n);
      if p != null {
        ConstructEach(p, value);
      }
      this.heap, this.zero := heap, zero;
      size, data := if p == null then 0 else n, p;
    }

    /** The move constructor: takes over size and storage and leaves `other` empty. */
    constructor Move(other: ImmutableArray<T>)
      requires other.Valid()
      modifies other
      ensures Valid() && heap == other.heap && zero == other.zero
      ensures size == old(other.size) && data == old(other.data)
      ensures other.size == 0 && other.data == null && other.Valid()
    {
      heap, zero := other.heap, other.zero;
      size, data := other.size, other.data;
      new;
      other.size, other.data := 0, null;
    }

    /** Move assignment: swaps size and storage with `other`; `other` is not emptied. */
    method MoveAssign(other: ImmutableArray<T>)
      requires Valid() && other.Valid() && other.heap == heap
      modifies this, other
      ensures Valid() && other.Valid()
      ensures size == old(other.size) && data == old(other.data)
      ensures other.size == old(size) && other.data == old(data)
    {
      size, other.size := other.size, size;
      data, other.data := other.data, data;
    }

    /** `operator bool`: whether the pointer is non-null; false means the buffer is empty. */
    function ToBool(): (b: bool)
      reads this, heap
      ensures b <==> data != null
      ensures Valid() && !b ==> size == 0 && Contents() == []
    {
      data != null
    }

    /**
     * `allocate(n)`: frees the previous storage (if any), then allocates `n`
     * elements of `T()`; on failure the buffer is left empty with a null pointer.
     */
    method Allocate(n: nat)
      requires Valid() && n < UINT_LIMIT
      modifies this, heap
      ensures Valid()
      ensures (data == null && size == 0) || (fresh(data) && size == n && Contents() == Repeat(zero, n))
      ensures heap.live == (if old(data) == null then old(heap.live) else old(heap.live) - {old(data)})
                           + (if data == null then {} else {data})
      ensures heap.alignedLive == old(heap.alignedLive)
    {
      if data != null {
        heap.Free(data);
      }
      var p := heap.Malloc<T>(n);
      if p != null {
        ConstructEach(p, zero);
      }
      size, data := if p == null then 0 else n, p;
    }

    /** `allocate(n, value)`: as Allocate, every new element a copy of `value`. */
    method AllocateWith(n: nat, value: T)
      requires Valid() && n < UINT_LIMIT
      modifies this, heap
      ensures Valid()
      ensures (data == null && size == 0) || (fresh(data) && size == n && Contents() == Repeat(value, n))
      ensures heap.live == (if old(data) == null then old(heap.live) else old(heap.live) - {old(data)})
                           + (if data == null then {} else {data})
      ensures heap.alignedLive == old(heap.alignedLive)
    {
      if data != null {
        heap.Free(data);
      }
      var p := heap.Malloc<T>(n);
      if p != null {
        ConstructEach(p, value);
      }
      size, data := if p == null then 0 else n, p;
    }

    /** `copy(src)`: memcpy of exactly `size` elements from the front of `src`. */
    method Copy(src: array<T>)
      requires Valid() && size <= src.Length
      modifies data
      ensures Valid() && size == old(size) && data == old(data)
      ensures Contents() == old(src[..size])
    {
      if data != null {
        forall k | 0 <= k < size {
          data[k] := src[k];
        }
      }
    }

    /** `operator[]` for reading: unchecked, so the index must be in range. */
    method Get(index: nat) returns (x: T)
      requires Valid() && index < size
      ensures x == Contents()[index]
    {
      x := data[index];
    }

    /** `operator[]` used as an lvalue: writes one element and nothing else. */
    method Set(index: nat, x: T)
      requires Valid() && index < size
      modifies data
      ensures Valid() && size == old(size) && data == old(data)
      ensures Contents() == old(Contents())[index := x]
    {
      data[index] := x;
    }

    /** `clear()`: memset of all `size` elements to zero bytes. */
    method Clear()
      requires Valid()
      modifies data
      ensures Valid() && size == old(size) && data == old(data)
      ensures Contents() == Repeat(zero, size)
    {
      if data != null {
        forall k | 0 <= k < size {
          data[k] := zero;
        }
      }
    }

    /** `clear(base, count)`: memset of the elements [base, base + count) to zero bytes. */
    method ClearRange(base: nat, count: nat)
      requires Valid() && base + count <= size
      modifies data
      ensures Valid() && size == old(size) && data == old(data)
      ensures Contents() == Overwrite(old(Contents()), base, count, zero)
    {
      if data != null {
        forall k | base <= k < base + count {
          data[k] := zero;
        }
      }
    }

    /** `fill(value)`: assigns `value` to every element. */
    method Fill(value: T)
      requires Valid()
      modifies data
      ensures Valid() && size == old(size) && data == old(data)
      ensures Contents() == Repeat(value, size)
    {
      var i := 0;
      while i < size
        invariant 0 <= i <= size
        invariant forall k :: 0 <= k < i ==> data[k] == value
      {
        data[i] := value;
        i := i + 1;
      }
    }

    /**
     * `fill(value, base, count)`: assigns `value` to the elements
     * [base, base + count) and to no other.
     */
    method FillRange(value: T, base: nat, count: nat)
      requires Valid() && base + count <= size
      modifies data
      ensures Valid() && size == old(size) && data == old(data)
      ensures Contents() == Overwrite(old(Contents()), base, count, value)
    {
      var i := base;
      while i < base + count
        invariant base <= i <= base + count
        invariant Contents() == Overwrite(old(Contents()), base, i - base, value)
      {
        OverwriteAdjacent(old(Contents()), base, i - base, 1, value);
        data[i] := value;
        i := i + 1;
      }
    }

    /**
     * `release_ptr()`: hands the storage to the caller, who must free it with
     * `free`; the block stays live and the buffer is left empty.
     */
    method ReleasePtr() returns (p: array?<T>)
      requires Valid()
      modifies this
      ensures Valid() && size == 0 && data == null
      ensures p == old(data) && (p != null ==> p in heap.live && p.Length == old(size))
    {
      p := data;
      data := null;
      size := 0;
    }

    /**
     * The destructor: frees the storage if the pointer is non-null. After
     * ReleasePtr the pointer is null, so nothing is freed twice.
     */
    method Destroy()
      requires Valid()
      modifies heap
      ensures heap.live == (if data == null then old(heap.live) else old(heap.live) - {data})
      ensures heap.alignedLive == old(heap.alignedLive)
    {
      if data != null {
        heap.Free(data);
      }
    }
  }

  /** `aligned_array_t<T>`: the same buffer with storage from _mm_malloc/_mm_free. */
  class AlignedArray<T(0)> {
    var size: nat
    var data: array?<T>
    /** `T()`, which is also the value of an element whose bytes are all zero. */
    const zero: T
    /** The heap the storage comes from and goes back to. */
    const heap: Allocator

    /**
     * The buffer invariant: a null pointer goes with size 0, and a non-null
     * pointer is a live _mm_malloc block holding exactly `size` elements.
     */
    ghost predicate Valid()
      reads this, heap
    {
      && size < UINT_LIMIT
      && (data == null ==> size == 0)
      && (data != null ==> data.Length == size && data in heap.alignedLive)
    }

    /** The elements, in order. */
    function Contents(): (s: seq<T>)
      reads this, data
    {
      if data == null then [] else data[..]
    }

    /** Default construction: size 0 and a null pointer. */
    constructor (heap: Allocator, zero: T)
      ensures Valid() && this.heap == heap && this.zero == zero
      ensures size == 0 && data == null && !ToBool()
    {
      this.heap, this.zero := heap, zero;
      size, data := 0, null;
    }

    /** Sized construction with an alignment: `n` elements of `T()`, or empty on failure. */
    constructor WithSize(heap: Allocator, zero: T, alignment: nat, n: nat)
      requires n < UINT_LIMIT
      modifies heap
      ensures Valid() && this.heap == heap && this.zero == zero
      ensures (data == null && size == 0) || (fresh(data) && size == n && Contents() == Repeat(zero, n))
      ensures heap.alignedLive == old(heap.alignedLive) + (if data == null then {} else {data})
      ensures heap.live == old(heap.live)
    {
      var p := heap.AlignedMalloc<T>(alignment, n);
      if p != null {
        ConstructEach(p, zero);
      }
      this.heap, this.zero := heap, zero;
      size, data := if p == null then 0 else n, p;
    }

    /** Construction with an alignment and a value: `n` copies of `value`, or empty on failure. */
    constructor WithValue(heap: Allocator, zero: T, alignment: nat, n: nat, value: T)
      requires n < UINT_LIMIT
      modifies heap
      ensures Valid() && this.heap == heap && this.zero == zero
      ensures (data == null && size == 0) || (fresh(data) && size == n && Contents() == Repeat(value, n))
      ensures heap.alignedLive == old(heap.alignedLive) + (if data == null then {} else {data})
      ensures heap.live == old(heap.live)
    {
      var p := heap.AlignedMalloc<T>(alignment, n);
      if p != null {
        ConstructEach(p, value);
      }
      this.heap, this.zero := heap, zero;
      size, data := if p == null then 0 else n, p;
    }

    /** The move constructor: takes over size and storage and leaves `other` empty. */
    constructor Move(other: AlignedArray<T>)
      requires other.Valid()
      modifies other
      ensures Valid() && heap == other.heap && zero == other.zero
      ensures size == old(other.size) && data == old(other.data)
      ensures other.size == 0 && other.data == null && other.Valid()
    {
      heap, zero := other.heap, other.zero;
      size, data := other.size, other.data;
      new;
      other.size, other.data := 0, null;
    }

    /** Move assignment: swaps size and storage with `other`; `other` is not emptied. */
    method MoveAssign(other: AlignedArray<T>)
      requires Valid() && other.Valid() && other.heap == heap
      modifies this, other
      ensures Valid() && other.Valid()
      ensures size == old(other.size) && data == old(other.data)
      ensures other.size == old(size) && other.data == old(data)
    {
      size, other.size := other.size, size;
      data, other.data := other.data, data;
    }

    /** `operator bool`: whether the pointer is non-null; false means the buffer is empty. */
    function ToBool(): (b: bool)
      reads this, heap
      ensures b <==> data != null
      ensures Valid() && !b ==> size == 0 && Contents() == []
    {
      data != null
    }

    /** `allocate(alignment, n)`: frees the previous storage, then allocates `n` elements of `T()`. */
    method Allocate(alignment: nat, n: nat)
      requires Valid() && n < UINT_LIMIT
      modifies this, heap
      ensures Valid()
      ensures (data == null && size == 0) || (fresh(data) && size == n && Contents() == Repeat(zero, n))
      ensures heap.alignedLive == (if old(data) == null then old(heap.alignedLive) else old(heap.alignedLive) - {old(data)})
                                  + (if data == null then {} else {data})
      ensures heap.live == old(heap.live)
    {
      if data != null {
        heap.AlignedFree(data);
      }
      var p := heap.AlignedMalloc<T>(alignment, n);
      if p != null {
        ConstructEach(p, zero);
      }
      size, data := if p == null then 0 else n, p;
    }

    /** `allocate(alignment, n, value)`: as Allocate, every new element a copy of `value`. */
    method AllocateWith(alignment: nat, n: nat, value: T)
      requires Valid() && n < UINT_LIMIT
      modifies this, heap
      ensures Valid()
      ensures (data == null && size == 0) || (fresh(data) && size == n && Contents() == Repeat(value, n))
      ensures heap.alignedLive == (if old(data) == null then old(heap.alignedLive) else old(heap.alignedLive) - {old(data)})
                                  + (if data == null then {} else {data})
      ensures heap.live == old(heap.live)
    {
      if data != null {
        heap.AlignedFree(data);
      }
      var p := heap.AlignedMalloc<T>(alignment, n);
      if p != null {
        ConstructEach(p, value);
      }
      size, data := if p == null then 0 else n, p;
    }

    /** `copy(src)`: memcpy of exactly `size` elements from the front of `src`. */
    method Copy(src: array<T>)
      requires Valid() && size <= src.Length
      modifies data
      ensures Valid() && size == old(size) && data == old(data)
      ensures Contents() == old(src[..size])
    {
      if data != null {
        forall k | 0 <= k < size {
          data[k] := src[k];
        }
      }
    }

    /** `operator[]` for reading: unchecked, so the index must be in range. */
    method Get(index: nat) returns (x: T)
      requires Valid() && index < size
      ensures x == Contents()[index]
    {
      x := data[index];
    }

    /** `operator[]` used as an lvalue: writes one element and nothing else. */
    method Set(index: nat, x: T)
      requires Valid() && index < size
      modifies data
      ensures Valid() && size == old(size) && data == old(data)
      ensures Contents() == old(Contents())[index := x]
    {
      data[index] := x;
    }

    /** `clear()`: memset of all `size` elements to zero bytes. */
    method Clear()
      requires Valid()
      modifies data
      ensures Valid() && size == old(size) && data == old(data)
      ensures Contents() == Repeat(zero, size)
    {
      if data != null {
        forall k | 0 <= k < size {
          data[k] := zero;
        }
      }
    }

    /** `clear(base, count)`: memset of the elements [base, base + count) to zero bytes. */
    method ClearRange(base: nat, count: nat)
      requires Valid() && base + count <= size
      modifies data
      ensures Valid() && size == old(size) && data == old(data)
      ensures Contents() == Overwrite(old(Contents()), base, count, zero)
    {
      if data != null {
        forall k | base <= k < base + count {
          data[k] := zero;
        }
      }
    }

    /** `fill(value)`: assigns `value` to every element. */
    method Fill(value: T)
      requires Valid()
      modifies data
      ensures Valid() && size == old(size) && data == old(data)
      ensures Contents() == Repeat(value, size)
    {
      var i := 0;
      while i < size
        invariant 0 <= i <= size
        invariant forall k :: 0 <= k < i ==> data[k] == value
      {
        data[i] := value;
        i := i + 1;
      }
    }

    /** `fill(value, base, count)`: assigns `value` to [base, base + count) and to no other element. */
    method FillRange(value: T, base: nat, count: nat)
      requires Valid() && base + count <= size
      modifies data
      ensures Valid() && size == old(size) && data == old(data)
      ensures Contents() == Overwrite(old(Contents()), base, count, value)
    {
      var i := base;
      while i < base + count
        invariant base <= i <= base + count
        invariant Contents() == Overwrite(old(Contents()), base, i - base, value)
      {
        OverwriteAdjacent(old(Contents()), base, i - base, 1, value);
        data[i] := value;
        i := i + 1;
      }
    }

    /**
     * `release_ptr()`: hands the storage to the caller, who must free it with
     * `_mm_free`; the block stays live and the buffer is left empty.
     */
    method ReleasePtr() returns (p: array?<T>)
      requires Valid()
      modifies this
      ensures Valid() && size == 0 && data == null
      ensures p == old(data) && (p != null ==> p in heap.alignedLive && p.Length == old(size))
    {
      p := data;
      data := null;
      size := 0;
    }

    /** The destructor: `_mm_free`s the storage if the pointer is non-null. */
    method Destroy()
      requires Valid()
      modifies heap
      ensures heap.alignedLive == (if data == null then old(heap.alignedLive) else old(heap.alignedLive) - {data})
      ensures heap.live == old(heap.live)
    {
      if data != null {
        heap.AlignedFree(data);
      }
    }
  }
}
