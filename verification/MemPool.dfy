/** The fixed-capacity object pool (common/mem_pool.h). An object is named by the index of its block; a
    method that fails where the source aborts returns false. */
module MemPool {

  /** The blocks in use. */
  ghost function UsedIn(free: seq<bool>): set<nat> {
    set i: nat | i < |free| && !free[i]
  }

  /** The numbers below n. */
  ghost function Below(n: nat): (s: set<nat>)
    ensures |s| == n && forall i: nat :: i in s <==> i < n
  {
    if n == 0 then {} else Below(n - 1) + {n - 1}
  }

  /** Between two positions of a ring of n, going up and round. */
  predicate Between(from: nat, to: nat, wrapped: bool, i: nat, n: nat) {
    if wrapped then from <= i < n || i < to else from <= i < to
  }

  // ---------------------------------------------------------------------- every sequence of operations

  datatype Operation = Take(index: nat) | Give(index: nat)

  /** What the pool allows with these blocks in use: taking an unused block while the search finds another
      one free, and giving back a used one. */
  ghost predicate Allowed(used: set<nat>, size: nat, op: Operation) {
    match op
    case Take(i) => i < size && i !in used && exists j: nat :: j < size && j != i && j !in used
    case Give(i) => i in used
  }

  /** Another block is free exactly while fewer than size - 1 are in use. */
  lemma AllowedWhileRoom(used: set<nat>, size: nat, i: nat)
    requires used <= Below(size) && i < size && i !in used
    ensures Allowed(used, size, Take(i)) <==> |used| < size - 1
  {
    var rest := Below(size) - used - {i};
    assert Below(size) == used + {i} + rest && |Below(size)| == |used| + 1 + |rest|;
    if rest == {} {
      forall j: nat | j < size && j != i
        ensures j in used
      {
        assert j in Below(size);
      }
    } else {
      var j :| j in rest;
    }
  }

  ghost function After(used: set<nat>, op: Operation): set<nat> {
    match op
    case Take(i) => used + {i}
    case Give(i) => used - {i}
  }

  ghost predicate AllowedAll(used: set<nat>, size: nat, ops: seq<Operation>)
    decreases |ops|
  {
    ops == [] || (Allowed(used, size, ops[0]) && AllowedAll(After(used, ops[0]), size, ops[1..]))
  }

  ghost function AfterAll(used: set<nat>, ops: seq<Operation>): set<nat>
    decreases |ops|
  {
    if ops == [] then used else AfterAll(After(used, ops[0]), ops[1..])
  }

  lemma StepWithin(used: set<nat>, size: nat, op: Operation)
    requires size > 0 && |used| < size && used <= Below(size) && Allowed(used, size, op)
    ensures |After(used, op)| < size && After(used, op) <= Below(size)
  {
    if op.Take? {
      AllowedWhileRoom(used, size, op.index);
    }
  }

  /** Whatever is taken and given back, a pool of n blocks never holds n objects, and some block can be
      taken next exactly when it holds fewer than n - 1. */
  lemma {:induction false} Capacity(used: set<nat>, size: nat, ops: seq<Operation>)
    requires size > 0 && |used| < size && used <= Below(size) && AllowedAll(used, size, ops)
    ensures |AfterAll(used, ops)| < size
    ensures |AfterAll(used, ops)| < size - 1 <==> exists i :: Allowed(AfterAll(used, ops), size, Take(i))
    decreases |ops|
  {
    if ops == [] {
      assert Below(size) == used + (Below(size) - used);
      var i :| i in Below(size) - used;
      AllowedWhileRoom(used, size, i);
      forall k | Allowed(used, size, Take(k))
        ensures |used| < size - 1
      {
        AllowedWhileRoom(used, size, k);
      }
    } else {
      StepWithin(used, size, ops[0]);
      Capacity(After(used, ops[0]), size, ops[1..]);
    }
  }

  class MemPool<T> {
    const objects: array<T>
    const free: array<bool>
    var nextFree: nat

    ghost function Used(): set<nat>
      reads free
    {
      UsedIn(free[..])
    }

    /** Between successful operations the next block is free. */
    ghost predicate Valid()
      reads this, free
    {
      objects.Length == free.Length && objects != free && nextFree < free.Length && free[nextFree]
    }

    constructor (size: nat, default: T)
      requires size > 0
      ensures Valid() && fresh(objects) && fresh(free) && free.Length == size && Used() == {}
    {
      objects := new T[size](_ => default);
      free := new bool[size](_ => true);
      nextFree := 0;
    }

    /** allocate (mem_pool.h:23-32): a free block, unless that would leave none. */
    method Allocate(value: T) returns (ok: bool, index: nat)
      requires Valid()
      modifies `nextFree, objects, free
      ensures index < free.Length && index !in old(Used()) && Used() == After(old(Used()), Take(index))
      ensures ok <==> Allowed(old(Used()), free.Length, Take(index))
      ensures objects[..] == old(objects[..])[index := value]
      ensures ok ==> Valid()
    {
      index := nextFree;
      ghost var used := Used();
      objects[index] := value;
      free[index] := false;
      assert Used() == used + {index};
      assert forall j: nat :: j < free.Length ==> (free[j] <==> j != index && j !in used);
      ok := UpdateNextFreeIndex();
    }

    /** updateNextFreeIndex (mem_pool.h:50-61): the first free block going round, if there is one. */
    method UpdateNextFreeIndex() returns (ok: bool)
      requires objects.Length == free.Length && objects != free && nextFree < free.Length
      modifies `nextFree
      ensures ok <==> exists i :: 0 <= i < free.Length && free[i]
      ensures ok ==> Valid()
    {
      var initial := nextFree;
      ghost var wrapped := false;
      while !free[nextFree]
        invariant nextFree < free.Length && (wrapped ==> nextFree < initial) && (!wrapped ==> initial <= nextFree)
        invariant forall i: nat :: i < free.Length && Between(initial, nextFree, wrapped, i, free.Length) ==> !free[i]
        decreases if wrapped then initial - nextFree else free.Length - nextFree + initial + 1
      {
        nextFree := nextFree + 1;
        if nextFree == free.Length {
          nextFree := 0;
          wrapped := true;
        }
        if initial == nextFree {
          assert forall i: nat :: i < free.Length ==> Between(initial, nextFree, wrapped, i, free.Length) || i == initial;
          return false;
        }
      }
      ok := true;
    }

    /** deallocate (mem_pool.h:34-41). */
    method Deallocate(index: int) returns (ok: bool)
      requires Valid()
      modifies free
      ensures ok <==> 0 <= index < free.Length && Allowed(old(Used()), free.Length, Give(index))
      ensures Valid() && Used() == if ok then After(old(Used()), Give(index)) else old(Used())
    {
      if index < 0 || index >= free.Length || free[index] {
        return false;
      }
      ghost var used := Used();
      free[index] := true;
      assert Used() == used - {index};
      ok := true;
    }
  }
}
