/**
 * The older, unchecked vector of Source/Vector.c (struct Vector).
 *
 * Unlike VectorLib it validates nothing: no NULL checks, no status codes,
 * and the results of AllocatePool are ignored. The structure is created
 * and constructed in one step by the VECTOR macro of Source/Vector.h, so
 * Vector_Construct is the class constructor here.
 */
module LegacyVector {
  import opened Wrappers

  class Vector<T(0)> {
    var allocatedMemory: array<T>
    /** AllocatedMemory != NULL */
    var hasMemory: bool
    var countUsed: nat
    var countAllocated: nat
    var objectSize: nat

    /** CountUsed <= CountAllocated, and the buffer, while present, holds
        exactly CountAllocated slots. */
    ghost predicate Valid()
      reads this
    {
      countUsed <= countAllocated &&
      (hasMemory ==> 0 < countAllocated == allocatedMemory.Length)
    }

    ghost function Items(): seq<T>
      reads this, allocatedMemory
      requires Valid() && hasMemory
    {
      allocatedMemory[..countUsed]
    }

    /** Vector_Construct: records the element size and the capacity and
        allocates the buffer. A zero initial count would make the doubling in
        PushBack keep the capacity at zero and write past the buffer, so it is
        excluded. */
    constructor Construct(sizeOfType: nat, initialCount: nat)
      requires 0 < initialCount
      ensures Valid() && hasMemory && fresh(allocatedMemory)
      ensures objectSize == sizeOfType && countAllocated == initialCount && Items() == []
    {
      objectSize := sizeOfType;
      countAllocated := initialCount;
      countUsed := 0;
      allocatedMemory := new T[initialCount];
      hasMemory := true;
    }

    /** Vector_Destruct: frees the buffer if present and forgets it. */
    method Destruct()
      requires Valid()
      modifies this
      ensures Valid() && !hasMemory
      ensures countUsed == old(countUsed) && countAllocated == old(countAllocated)
    {
      if hasMemory {
        hasMemory := false;
      }
    }

    /** Vector_PushBack: doubles the capacity when full, copying the old
        contents, then stores `obj` at index CountUsed. */
    method PushBack(obj: T)
      requires Valid() && hasMemory
      modifies this, allocatedMemory
      ensures Valid() && hasMemory && objectSize == old(objectSize)
      ensures allocatedMemory == old(allocatedMemory) || fresh(allocatedMemory)
      ensures Items() == old(Items()) + [obj]
      ensures countAllocated == if old(countUsed) == old(countAllocated)
                                then 2 * old(countAllocated) else old(countAllocated)
    {
      if countUsed == countAllocated {
        var newCountAllocated := countAllocated * 2;
        var newAllocatedMemory := new T[newCountAllocated];
        var i := 0;
        while i < countAllocated
          invariant i <= countAllocated
          invariant newAllocatedMemory[..i] == allocatedMemory[..i]
          modifies newAllocatedMemory
        {
          newAllocatedMemory[i] := allocatedMemory[i];
          i := i + 1;
        }
        countAllocated := newCountAllocated;
        allocatedMemory := newAllocatedMemory;
      }
      allocatedMemory[countUsed] := obj;
      countUsed := countUsed + 1;
    }

    /** Vector_PopBack: NULL on an empty vector, otherwise the last element,
        which is removed. */
    method PopBack() returns (last: Option<T>)
      requires Valid() && hasMemory
      modifies this
      ensures Valid() && hasMemory && countAllocated == old(countAllocated)
      ensures allocatedMemory == old(allocatedMemory)
      ensures old(countUsed) == 0 ==> last.None? && countUsed == 0
      ensures old(countUsed) > 0 ==>
        last == Some(old(Items())[old(countUsed) - 1]) && Items() == old(Items())[..old(countUsed) - 1]
    {
      if countUsed == 0 {
        return None;
      }
      last := Some(allocatedMemory[countUsed - 1]);
      countUsed := countUsed - 1;
    }

    /** Vector_GetBegin: the buffer itself, i.e. element offset 0, even when
        the vector is empty. */
    function GetBegin(): (offset: nat)
      reads this
      ensures offset == 0
    {
      0
    }

    /** Vector_GetEnd: one past the last element in use. FOR_EACH_VCT walks from
        GetBegin to GetEnd, that is, over exactly Size elements. */
    function GetEnd(): (offset: nat)
      reads this
      requires Valid()
      ensures offset - GetBegin() == Size() <= countAllocated
    {
      countUsed
    }

    /** Vector_Size: CountUsed. */
    function Size(): (n: nat)
      reads this
      ensures Valid() && hasMemory ==> n == |Items()|
    {
      countUsed
    }

    /** Vector_Clear: resets CountUsed but keeps the buffer. */
    method Clear()
      requires Valid()
      modifies this
      ensures Valid() && countUsed == 0 && countAllocated == old(countAllocated)
      ensures hasMemory == old(hasMemory) && allocatedMemory == old(allocatedMemory)
    {
      countUsed := 0;
    }
  }
}
