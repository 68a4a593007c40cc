/**
 * The growable vector of Library/VectorLib/VectorLib.c (VECTOR).
 *
 * A VECTOR is a caller-owned structure holding a buffer of `CountAllocated`
 * fixed-size slots of which the first `CountUsed` are in use. Elements are
 * modelled by a type parameter instead of raw bytes; `ObjectSize` is kept as
 * the size the caller declared. Every routine of the C library takes a
 * `This` pointer, so the routines are module-level methods and functions
 * over a nullable `Vector?<T>`.
 */
module VectorLib {
  import opened Uefi
  import opened Wrappers

  class Vector<T(0)> {
    /** The buffer; meaningful only while `hasMemory` holds. */
    var allocatedMemory: array<T>
    /** AllocatedMemory != NULL */
    var hasMemory: bool
    var countUsed: nat
    var countAllocated: nat
    var objectSize: nat

    /** A VECTOR variable that exists but has not been constructed yet. */
    constructor ()
      ensures Valid() && !hasMemory
    {
      allocatedMemory := new T[0];
      hasMemory := false;
      countUsed := 0;
      countAllocated := 0;
      objectSize := 0;
    }

    /** The invariant every operation keeps: CountUsed <= CountAllocated, and the
        buffer, when present, has room for exactly CountAllocated elements. */
    ghost predicate Valid()
      reads this
    {
      countUsed <= countAllocated &&
      (hasMemory ==> 0 < countAllocated == allocatedMemory.Length)
    }

    /** Constructed successfully and not yet destructed. */
    ghost predicate Constructed()
      reads this
    {
      Valid() && hasMemory
    }

    /** The elements in use, in order. */
    ghost function Items(): seq<T>
      reads this, allocatedMemory
      requires Constructed()
    {
      allocatedMemory[..countUsed]
    }
  }

  /** Vector_Construct: rejects a zero element size or a zero initial count,
      otherwise allocates `initialCount` slots (`allocOk` is the outcome of
      AllocatePool). AllocatedMemory is set to NULL before anything else. */
  method Construct<T(0)>(v: Vector<T>, sizeOfElement: nat, initialCount: nat, allocOk: bool)
    returns (status: Status)
    requires v.Valid()
    modifies v
    ensures v.Valid()
    ensures sizeOfElement == 0 || initialCount == 0 ==>
      status == InvalidParameter && !v.hasMemory &&
      v.countUsed == old(v.countUsed) && v.countAllocated == old(v.countAllocated) &&
      v.objectSize == old(v.objectSize)
    ensures 0 < sizeOfElement && 0 < initialCount && !allocOk ==>
      status == OutOfResources && !v.hasMemory &&
      v.countUsed == old(v.countUsed) && v.countAllocated == old(v.countAllocated) &&
      v.objectSize == old(v.objectSize)
    ensures 0 < sizeOfElement && 0 < initialCount && allocOk ==>
      status == Success && v.Constructed() && fresh(v.allocatedMemory) &&
      v.Items() == [] && v.countAllocated == initialCount && v.objectSize == sizeOfElement
  {
    v.hasMemory := false;
    if sizeOfElement == 0 || initialCount == 0 {
      return InvalidParameter;
    }
    if !allocOk {
      return OutOfResources;
    }
    v.allocatedMemory := new T[initialCount];
    v.hasMemory := true;
    v.objectSize := sizeOfElement;
    v.countAllocated := initialCount;
    v.countUsed := 0;
    status := Success;
  }

  /** Vector_Destruct: frees the buffer if there is one and sets it to NULL.
      Counts are left as they were. */
  method Destruct<T(0)>(v: Vector<T>)
    requires v.Valid()
    modifies v
    ensures v.Valid() && !v.hasMemory
    ensures v.countUsed == old(v.countUsed) && v.countAllocated == old(v.countAllocated)
    ensures v.objectSize == old(v.objectSize) && v.allocatedMemory == old(v.allocatedMemory)
  {
    if v.hasMemory {
      v.hasMemory := false;
    }
  }

  /** CopyMem of the first `n` slots of `src` into `dst`. */
  method CopyElements<T>(dst: array<T>, src: array<T>, n: nat)
    requires n <= dst.Length && n <= src.Length && dst != src
    modifies dst
    ensures dst[..n] == src[..n]
  {
    var i := 0;
    while i < n
      invariant i <= n
      invariant dst[..i] == src[..i]
    {
      dst[i] := src[i];
      i := i + 1;
    }
  }

  /** Vector_PushBack: appends a copy of `obj`, doubling the capacity first
      when the vector is full. `allocOk` is the outcome of the AllocatePool call
      made for growth; when it fails nothing changes. */
  method PushBack<T(0)>(v: Vector?<T>, obj: Option<T>, allocOk: bool) returns (status: Status)
    requires v != null ==> v.Constructed()
    modifies v
    modifies if v != null then {v.allocatedMemory} else {}
    ensures v != null ==>
      v.Constructed() && v.objectSize == old(v.objectSize) &&
      (v.allocatedMemory == old(v.allocatedMemory) || fresh(v.allocatedMemory))
    ensures v == null || obj.None? ==>
      status == InvalidParameter &&
      (v != null ==> v.countUsed == old(v.countUsed) && v.countAllocated == old(v.countAllocated) &&
                     v.allocatedMemory == old(v.allocatedMemory) && v.Items() == old(v.Items()))
    ensures v != null && obj.Some? && old(v.countUsed) == old(v.countAllocated) && !allocOk ==>
      status == OutOfResources &&
      v.countUsed == old(v.countUsed) && v.countAllocated == old(v.countAllocated) &&
      v.allocatedMemory == old(v.allocatedMemory) && v.Items() == old(v.Items())
    ensures v != null && obj.Some? && (old(v.countUsed) < old(v.countAllocated) || allocOk) ==>
      status == Success &&
      v.Items() == old(v.Items()) + [obj.value] &&
      v.countAllocated == (if old(v.countUsed) == old(v.countAllocated)
                           then 2 * old(v.countAllocated) else old(v.countAllocated))
  {
    if v == null || obj.None? {
      return InvalidParameter;
    }
    if v.countUsed == v.countAllocated {
      var newCountAllocated := v.countAllocated * 2;
      if !allocOk {
        return OutOfResources;
      }
      var newAllocatedMemory := new T[newCountAllocated];
      CopyElements(newAllocatedMemory, v.allocatedMemory, v.countAllocated);
      v.countAllocated := newCountAllocated;
      v.allocatedMemory := newAllocatedMemory;
    }
    v.allocatedMemory[v.countUsed] := obj.value;
    v.countUsed := v.countUsed + 1;
    status := Success;
  }

  /** Vector_PopBack: removes the last element and returns it; NULL when the
      vector is empty. Capacity is never reduced. */
  method PopBack<T(0)>(v: Vector?<T>) returns (last: Option<T>)
    requires v != null ==> v.Constructed()
    modifies v
    ensures v != null ==>
      v.Constructed() && v.countAllocated == old(v.countAllocated) &&
      v.allocatedMemory == old(v.allocatedMemory) && v.objectSize == old(v.objectSize)
    ensures v == null || old(v.countUsed) == 0 ==>
      last.None? && (v != null ==> v.countUsed == old(v.countUsed))
    ensures v != null && old(v.countUsed) > 0 ==>
      last == Some(old(v.Items())[old(v.countUsed) - 1]) &&
      v.Items() == old(v.Items())[..old(v.countUsed) - 1]
  {
    if v == null || v.countUsed == 0 {
      return None;
    }
    last := Some(v.allocatedMemory[v.countUsed - 1]);
    v.countUsed := v.countUsed - 1;
  }

  /** Vector_Get: element `index`, or NULL when the index is out of range. */
  function Get<T(0)>(v: Vector?<T>, index: nat): (r: Option<T>)
    requires v != null ==> v.Constructed()
    reads v, if v != null then {v.allocatedMemory} else {}
    ensures r.None? <==> v == null || index >= v.countUsed
    ensures r.Some? ==> index < |v.Items()| && r.value == v.Items()[index]
  {
    if v == null || index >= v.countUsed then None else Some(v.allocatedMemory[index])
  }

  /** Vector_GetBegin: offset (in elements) of the first slot, NULL when empty. */
  function GetBegin<T(0)>(v: Vector?<T>): (r: Option<nat>)
    reads v
    ensures r.None? <==> v == null || v.countUsed == 0
    ensures r.Some? ==> r.value == 0
  {
    if v == null || v.countUsed == 0 then None else Some(0)
  }

  /** Vector_GetEnd: offset one past the last element, NULL when empty.
      Together with GetBegin it spans exactly Size elements, which is what
      FOR_EACH_VCT iterates over. */
  function GetEnd<T(0)>(v: Vector?<T>): (r: Option<nat>)
    reads v
    ensures r.None? <==> GetBegin(v).None?
    ensures r.Some? ==> r.value - GetBegin(v).value == Size(v)
  {
    if v == null || v.countUsed == 0 then None else Some(v.countUsed)
  }

  /** Vector_GetLast: the last element, NULL when empty. */
  function GetLast<T(0)>(v: Vector?<T>): (r: Option<T>)
    requires v != null ==> v.Constructed()
    reads v, if v != null then {v.allocatedMemory} else {}
    ensures r.None? <==> v == null || v.countUsed == 0
    ensures r.Some? ==> r == Get(v, v.countUsed - 1)
  {
    if v == null || v.countUsed == 0 then None else Some(v.allocatedMemory[v.countUsed - 1])
  }

  /** Vector_Size: CountUsed, and 0 for a NULL vector. */
  function Size<T(0)>(v: Vector?<T>): (n: nat)
    reads v
    ensures v == null ==> n == 0
    ensures v != null && v.Valid() ==> n <= v.countAllocated
    ensures v != null && v.Constructed() ==> n == |v.Items()|
  {
    if v == null then 0 else v.countUsed
  }

  /** Vector_Clear: forgets every element but keeps the buffer and capacity. */
  method Clear<T(0)>(v: Vector?<T>)
    requires v != null ==> v.Valid()
    modifies v
    ensures v != null ==>
      v.Valid() && v.countUsed == 0 && v.countAllocated == old(v.countAllocated) &&
      v.hasMemory == old(v.hasMemory) && v.allocatedMemory == old(v.allocatedMemory) &&
      v.objectSize == old(v.objectSize)
    ensures v != null && v.hasMemory ==> v.Items() == []
  {
    if v == null {
      return;
    }
    v.countUsed := 0;
  }
}
