/**
 The pool of fixed-size objects of src/core/objpool.c: an address range carved into `num` slots, and a bitmap of those
 in use. Each method is one section under the pool's lock. Where `num` fills whole words, the word that lies behind the
 bitmap counts in, because the range test of objpool_free admits the address one past the last slot.
 */
module ObjPool {
  import opened Arith
  import opened Bitmap

  const ULONG_MAX: nat := 0xFFFF_FFFF_FFFF_FFFF

  datatype Option<T> = None | Some(value: T)

  class ObjPool {
    const pool: nat
    const objsize: nat
    const num: nat
    const bitmap: array<bv32>

    ghost predicate Valid()
      reads this
    {
      objsize > 0 && num < GRANULE * bitmap.Length && 0 < pool && pool + objsize * num <= ULONG_MAX
    }

    ghost predicate InUse(n: nat)
      requires Valid()
      reads this, bitmap
    {
      n < num && Bit(bitmap[..], n)
    }

    // The bit behind those of the slots.
    ghost predicate Spare()
      requires Valid()
      reads this, bitmap
    {
      Bit(bitmap[..], num)
    }

    ghost function Address(n: nat): nat
      reads this
    {
      pool + objsize * n
    }

    // OBJPOOL_ALLOC, in zeroed storage.
    constructor (pool: nat, objsize: nat, num: nat)
      requires objsize > 0 && 0 < pool && pool + objsize * num <= ULONG_MAX
      ensures Valid() && this.pool == pool && this.objsize == objsize && this.num == num && fresh(bitmap)
      ensures forall n: nat :: !InUse(n)
    {
      this.pool, this.objsize, this.num := pool, objsize, num;
      bitmap := new bv32[num / GRANULE + 1];
      new;
      ClearConsecutive(bitmap, 0, num);
    }

    // The least free slot, if there is one.
    method Alloc() returns (obj: Option<nat>, ghost slot: nat)
      requires Valid()
      modifies bitmap
      ensures obj.None? <==> forall n: nat | n < num :: old(InUse(n))
      ensures obj.None? ==> forall n: nat :: InUse(n) == old(InUse(n))
      ensures obj.Some? ==> obj.value == Address(slot) && slot < num && !old(InUse(slot))
      ensures obj.Some? ==> forall n: nat | n < slot :: old(InUse(n))
      ensures obj.Some? ==> forall n: nat :: InUse(n) == (n == slot || old(InUse(n)))
    {
      hide Bit;
      obj, slot := None, 0;
      ghost var was := bitmap[..];
      var n := FindNth(bitmap, num, 1, 0, false);
      if n >= 0 {
        CountZero(was, 0, n, false);
        Set(bitmap, n);
        obj, slot := Some(pool + objsize * n), n;
        assert !old(InUse(slot));
      } else if num > 0 {
        CountZero(bitmap[..], 0, num, false);
      }
    }

    // Only the address of a slot frees one, its own. Any other address changes nothing, but the one past the last slot,
    // which passes the range test and clears the bit behind.
    method Free(obj: nat)
      requires Valid()
      modifies bitmap
      ensures forall n: nat :: InUse(n) <==> old(InUse(n)) && obj != Address(n)
      ensures Spare() <==> old(Spare()) && obj != Address(num)
      ensures forall i: nat | num < i < GRANULE * bitmap.Length :: Bit(bitmap[..], i) == old(Bit(bitmap[..], i))
    {
      hide Bit;
      var inPool := obj >= pool && obj <= pool + objsize * num;
      var aligned := obj >= pool && (obj - pool) % objsize == 0;
      if inPool && aligned {
        var k := (obj - pool) / objsize;
        SlotBound(obj);
        Clear(bitmap, k);
        forall n: nat | n <= num ensures obj == Address(n) <==> n == k { SlotUnique(obj, n); }
      } else {
        forall n: nat | n <= num ensures obj != Address(n) { SlotAligned(n); }
      }
    }

    lemma SlotBound(obj: nat)
      requires Valid() && pool <= obj <= Address(num) && (obj - pool) % objsize == 0
      ensures (obj - pool) / objsize <= num && obj == Address((obj - pool) / objsize)
    {
      var k := (obj - pool) / objsize;
      assert obj - pool == objsize * k;
      Distribute(objsize, num, 1);
      MulLt(k, num + 1, objsize);
    }

    lemma SlotAligned(n: nat)
      requires Valid() && n <= num
      ensures pool <= Address(n) <= Address(num) && (Address(n) - pool) % objsize == 0
      ensures (Address(n) - pool) / objsize == n
    {
      MulLe(n, num, objsize);
      DivUnique(objsize * n, objsize, n, 0);
    }

    lemma SlotUnique(obj: nat, n: nat)
      requires Valid() && n <= num && pool <= obj <= Address(num) && (obj - pool) % objsize == 0
      ensures obj == Address(n) <==> n == (obj - pool) / objsize
    {
      SlotBound(obj);
      SlotAligned(n);
    }
  }
}
