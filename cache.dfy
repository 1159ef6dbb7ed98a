/**
  cast_impl: the single-slot cache in front of dynamic_cast. Each (To, From)
  instantiation owns one slot per thread, the two statics `offset` and
  `src_vtable_ptr`. A call on a non-null pointer whose vtable matches a warm slot
  returns the pointer moved by the cached offset; any other non-null call asks
  dynamic_cast and, only when that succeeds, overwrites the slot.

  The slot is given twice: as the value Slot with the function CastStep that
  specifies one call, and as the class CastCache whose method Cast updates the
  two fields in place as cast_impl does.
*/
module Cache {
  import opened Wrappers
  import opened Oracle
  import opened Types

  /** The two statics of one instantiation. `offset == None` stands for the
      sentinel NO_OFFSET and `srcVTable == None` for the null vtable pointer.
      (In the C++ code a real displacement equal to NO_OFFSET would read as cold;
      with Option that cannot happen.) */
  datatype Slot = Slot(offset: Option<int>, srcVTable: Option<VTable>)

  /** The slot as it starts in every thread. */
  const Cold := Slot(None, None)

  /** The fast-path test: the slot is warm and holds the object's vtable. */
  predicate Hit(s: Slot, o: Obj)
  {
    s.offset.Some? && s.srcVTable == Some(o.vtable)
  }

  /** The slot's invariant: a warm slot records, for its vtable, the displacement
      dynamic_cast gives every object with that vtable. */
  ghost predicate Consistent(s: Slot, dc: DynamicCast)
  {
    s.offset.Some? ==>
      s.srcVTable.Some? &&
      forall o: Obj :: o.vtable == s.srcVTable.value ==> Offset(dc, o) == s.offset
  }

  /** The slot after one call and the pointer the call returns. */
  datatype CallResult = CallResult(after: Slot, result: Option<Addr>)

  /** One call of cast_impl on slot `s`, with `dc` as this instantiation's
      dynamic_cast. */
  function CastStep(s: Slot, ptr: Option<Obj>, dc: DynamicCast): (c: CallResult)
    // a null pointer is returned before the slot is looked at
    ensures ptr.None? ==> c == CallResult(s, None)
    // a failing cast leaves the slot as it was
    ensures c.result.None? ==> c.after == s
    // the slot is only ever written with a vtable and an offset together
    ensures c.after != s ==> c.after.offset.Some? && c.after.srcVTable.Some?
  {
    if ptr.None? then CallResult(s, None)
    else
      var o := ptr.value;
      if Hit(s, o) then CallResult(s, Some(o.addr + s.offset.value))
      else
        match dc(o)
        case None => CallResult(s, None)
        case Some(a) => CallResult(Slot(Some(a - o.addr), Some(o.vtable)), Some(a))
  }

  /** Under the vtable assumption a call keeps the slot's invariant and returns
      exactly what dynamic_cast returns on the same pointer. */
  lemma CastStepAgreesWithOracle(s: Slot, ptr: Option<Obj>, dc: DynamicCast)
    requires VTableDetermined(dc) && Consistent(s, dc)
    ensures Consistent(CastStep(s, ptr, dc).after, dc)
    ensures CastStep(s, ptr, dc).result == DynamicCastPtr(dc, ptr)
  {
    if ptr.Some? {
      var o := ptr.value;
      if Hit(s, o) {
        assert Offset(dc, o) == s.offset;
      } else if dc(o).Some? {
        var s' := CastStep(s, ptr, dc).after;
        assert s' == Slot(Offset(dc, o), Some(o.vtable));
      }
    }
  }

  /** On the fast path dynamic_cast is not consulted: the call does the same
      whatever dynamic_cast would say, leaves the slot as it is and returns the
      pointer moved by the cached offset. */
  lemma FastPathIgnoresOracle(s: Slot, o: Obj, dc1: DynamicCast, dc2: DynamicCast)
    requires Hit(s, o)
    ensures CastStep(s, Some(o), dc1) == CastStep(s, Some(o), dc2)
    ensures CastStep(s, Some(o), dc1) == CallResult(s, Some(o.addr + s.offset.value))
  {
  }

  /** A null pointer yields null whatever the slot holds and whatever dynamic_cast
      would say, and the slot is untouched. */
  lemma NullIgnoresSlotAndOracle(s1: Slot, s2: Slot, dc1: DynamicCast, dc2: DynamicCast)
    ensures CastStep(s1, None, dc1).result == CastStep(s2, None, dc2).result == None
    ensures CastStep(s1, None, dc1).after == s1
  {
  }

  /** On a miss the call returns exactly what dynamic_cast returns; when that is a
      pointer the slot now holds the object's vtable and the displacement to the
      result, and when it is null the slot keeps its previous contents. */
  lemma MissDefersToOracle(s: Slot, o: Obj, dc: DynamicCast)
    requires !Hit(s, o)
    ensures CastStep(s, Some(o), dc).result == dc(o)
    ensures dc(o).Some? ==>
              CastStep(s, Some(o), dc).after == Slot(Some(dc(o).value - o.addr), Some(o.vtable))
    ensures dc(o).None? ==> CastStep(s, Some(o), dc).after == s
  {
  }

  /** Failures are not memoised: after a cast that missed and failed, casting any
      object with the same vtable misses again and so asks dynamic_cast again. */
  lemma FailureIsNotMemoised(s: Slot, o: Obj, o': Obj, dc: DynamicCast)
    requires !Hit(s, o) && dc(o).None?
    requires o'.vtable == o.vtable
    ensures !Hit(CastStep(s, Some(o), dc).after, o')
    ensures CastStep(CastStep(s, Some(o), dc).after, Some(o'), dc).result == dc(o')
  {
    MissDefersToOracle(s, o, dc);
    MissDefersToOracle(CastStep(s, Some(o), dc).after, o', dc);
  }

  /** The slot holds one vtable at a time: after a miss that succeeded, exactly
      the objects with the vtable just seen take the fast path, so an offset
      learnt for one concrete type is never applied to another. */
  lemma SlotHoldsOneVTable(s: Slot, o: Obj, o': Obj, dc: DynamicCast)
    requires !Hit(s, o) && dc(o).Some?
    ensures Hit(CastStep(s, Some(o), dc).after, o') <==> o'.vtable == o.vtable
  {
    MissDefersToOracle(s, o, dc);
  }

  /** The warm-up scenario: once a cast of `o` succeeded, casting an object of the
      same concrete type takes the fast path and agrees with dynamic_cast. */
  lemma SecondCastIsFastAndExact(s: Slot, o: Obj, o': Obj, dc: DynamicCast)
    requires VTableDetermined(dc) && Consistent(s, dc)
    requires dc(o).Some? && o'.vtable == o.vtable
    ensures Hit(CastStep(s, Some(o), dc).after, o')
    ensures CastStep(CastStep(s, Some(o), dc).after, Some(o'), dc).result == dc(o')
    ensures CastStep(CastStep(s, Some(o), dc).after, Some(o'), dc).after
            == CastStep(s, Some(o), dc).after
  {
    var s1 := CastStep(s, Some(o), dc).after;
    CastStepAgreesWithOracle(s, Some(o), dc);
    CastStepAgreesWithOracle(s1, Some(o'), dc);
    if !Hit(s, o) {
      SlotHoldsOneVTable(s, o, o', dc);
    } else {
      assert s1 == s;
    }
  }

  /** The vtable assumption cannot be dropped: for a dynamic_cast whose result
      depends on more than the vtable, the cache hands out a stale offset. */
  lemma StaleOffsetWithoutVTableAssumption()
    ensures var dc := (o: Obj) => if o.addr == 0 then Some(8) else Some(o.addr);
            var o1 := Obj(0, VTable(1));
            var o2 := Obj(100, VTable(1));
            var s1 := CastStep(Cold, Some(o1), dc).after;
            !VTableDetermined(dc) &&
            CastStep(s1, Some(o2), dc).result != DynamicCastPtr(dc, Some(o2))
  {
    var dc := (o: Obj) => if o.addr == 0 then Some(8) else Some(o.addr);
    var o1 := Obj(0, VTable(1));
    var o2 := Obj(100, VTable(1));
    assert Offset(dc, o1) == Some(8) && Offset(dc, o2) == Some(0);
  }

  /** The results of a run of calls through one slot, and the final slot. */
  datatype Trace = Trace(after: Slot, results: seq<Option<Addr>>)

  /** A sequence of calls through the same instantiation in one thread. */
  function Run(s: Slot, ptrs: seq<Option<Obj>>, dc: DynamicCast): (t: Trace)
    ensures |t.results| == |ptrs|
    decreases ptrs
  {
    if ptrs == [] then Trace(s, [])
    else
      var first := CastStep(s, ptrs[0], dc);
      var rest := Run(first.after, ptrs[1..], dc);
      Trace(rest.after, [first.result] + rest.results)
  }

  /** Equivalence with dynamic_cast: starting from a consistent slot (a cold one
      in particular), every call of any run, however the concrete types
      alternate, returns what dynamic_cast returns on the same pointer. */
  lemma {:induction false} RunAgreesWithOracle(s: Slot, ptrs: seq<Option<Obj>>, dc: DynamicCast)
    requires VTableDetermined(dc) && Consistent(s, dc)
    ensures Consistent(Run(s, ptrs, dc).after, dc)
    ensures forall i :: 0 <= i < |ptrs| ==> Run(s, ptrs, dc).results[i] == DynamicCastPtr(dc, ptrs[i])
    decreases ptrs
  {
    if ptrs != [] {
      var first := CastStep(s, ptrs[0], dc);
      CastStepAgreesWithOracle(s, ptrs[0], dc);
      RunAgreesWithOracle(first.after, ptrs[1..], dc);
      var t := Run(s, ptrs, dc);
      forall i | 0 <= i < |ptrs|
        ensures t.results[i] == DynamicCastPtr(dc, ptrs[i])
      {
        if i > 0 {
          assert t.results[i] == Run(first.after, ptrs[1..], dc).results[i - 1];
          assert ptrs[1..][i - 1] == ptrs[i];
        }
      }
    }
  }

  /** A cold slot is consistent with every dynamic_cast. */
  lemma ColdIsConsistent(dc: DynamicCast)
    ensures Consistent(Cold, dc)
  {
  }

  /** The statics of one cast_impl<To, From> instantiation in one thread:
      `instantiation` is (To, From) and `dynamicCast` is dynamic_cast<To> on a
      From pointer. */
  class CastCache {
    ghost const instantiation: CastKey
    const dynamicCast: DynamicCast
    var offset: Option<int>
    var srcVTable: Option<VTable>

    function State(): Slot
      reads this
    {
      Slot(offset, srcVTable)
    }

    ghost predicate Valid()
      reads this
    {
      VTableDetermined(dynamicCast) && Consistent(State(), dynamicCast)
    }

    /** The statics at first use: offset is NO_OFFSET, the vtable pointer null. */
    constructor (key: CastKey, dc: DynamicCast)
      requires VTableDetermined(dc)
      ensures Valid()
      ensures instantiation == key && dynamicCast == dc && State() == Cold
    {
      instantiation := key;
      dynamicCast := dc;
      offset := None;
      srcVTable := None;
    }

    /** cast_impl<To>(ptr). */
    method Cast(ptr: Option<Obj>) returns (r: Option<Addr>)
      requires Valid()
      modifies this
      ensures Valid()
      ensures CallResult(State(), r) == CastStep(old(State()), ptr, dynamicCast)
      ensures r == DynamicCastPtr(dynamicCast, ptr)
    {
      CastStepAgreesWithOracle(State(), ptr, dynamicCast);
      if ptr.None? {
        return None;
      }
      var thisVTable := ptr.value.vtable;
      if offset.Some? && srcVTable == Some(thisVTable) {
        return Some(ptr.value.addr + offset.value);
      }
      var result := dynamicCast(ptr.value);
      if result.Some? {
        srcVTable := Some(thisVTable);
        offset := Some(result.value - ptr.value.addr);
      }
      return result;
    }
  }
}
