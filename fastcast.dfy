/**
  The public cast facade and the statics of one thread. Every (To, From)
  instantiation of cast_impl owns its own slot; the map from instantiation to
  slot is filled lazily, one entry the first time a non-null pointer reaches
  that instantiation. In C++ both statics have constant initializers and exist,
  cold, from the thread's start; in the model an absent entry reads as Cold, so
  the lazily filled map cannot be told apart from that (EagerSlotAgrees).
  The pointer, reference and shared_ptr overloads compute the instantiation
  from the requested and the source type and delegate to it; the identity
  overload returns its argument.
*/
module FastCast {
  import opened Wrappers
  import opened Oracle
  import opened Types
  import opened Cache

  /** The slots of one thread, by instantiation. */
  type Statics = map<CastKey, Slot>

  /** The slot of `key`, cold when the instantiation has not run yet. */
  function SlotAt(slots: Statics, key: CastKey): Slot
  {
    if key in slots then slots[key] else Cold
  }

  /** Every slot is consistent with its own instantiation's dynamic_cast. */
  ghost predicate StaticsConsistent(slots: Statics, dcs: CastKey -> DynamicCast)
  {
    forall k :: k in slots ==> Consistent(slots[k], dcs(k))
  }

  /** Every instantiation's dynamic_cast meets the vtable assumption. */
  ghost predicate AllVTableDetermined(dcs: CastKey -> DynamicCast)
  {
    forall k :: VTableDetermined(dcs(k))
  }

  /** The thread's slots after the one call and the pointer it returns. */
  datatype StaticsResult = StaticsResult(after: Statics, result: Option<Addr>)

  /** One call of cast_impl at instantiation `key`; `dcs(key)` is that
      instantiation's dynamic_cast. */
  function StaticsStep(slots: Statics, key: CastKey, ptr: Option<Obj>, dcs: CastKey -> DynamicCast): (c: StaticsResult)
    // a null pointer returns null and leaves every slot as it was
    ensures ptr.None? ==> c == StaticsResult(slots, None)
    // other instantiations' slots are neither created, removed nor changed
    ensures forall k :: k != key ==> (k in c.after <==> k in slots)
    ensures forall k :: k != key && k in slots ==> c.after[k] == slots[k]
  {
    if ptr.None? then StaticsResult(slots, None)
    else
      var c := CastStep(SlotAt(slots, key), ptr, dcs(key));
      StaticsResult(slots[key := c.after], c.result)
  }

  /** Entering a cold slot for `key` before the call changes neither the result
      nor any slot as read through SlotAt: filling the map lazily behaves like
      statics that exist, cold, from the thread's start. */
  lemma EagerSlotAgrees(slots: Statics, key: CastKey, ptr: Option<Obj>, dcs: CastKey -> DynamicCast, k: CastKey)
    requires key !in slots
    ensures StaticsStep(slots[key := Cold], key, ptr, dcs).result == StaticsStep(slots, key, ptr, dcs).result
    ensures SlotAt(StaticsStep(slots[key := Cold], key, ptr, dcs).after, k) == SlotAt(StaticsStep(slots, key, ptr, dcs).after, k)
  {
  }

  /** On a non-null pointer, a call on the slots with `key` already entered is
      the same call as on the slots without it. */
  lemma EnteredSlotSameStep(slots: Statics, key: CastKey, ptr: Option<Obj>, dcs: CastKey -> DynamicCast)
    requires ptr.Some?
    ensures StaticsStep(slots[key := SlotAt(slots, key)], key, ptr, dcs) == StaticsStep(slots, key, ptr, dcs)
  {
    var c := CastStep(SlotAt(slots, key), ptr, dcs(key));
    assert slots[key := SlotAt(slots, key)][key := c.after] == slots[key := c.after];
  }

  /** Under the vtable assumption a call keeps every slot consistent and returns
      what the instantiation's dynamic_cast returns. */
  lemma StaticsStepAgreesWithOracle(slots: Statics, key: CastKey, ptr: Option<Obj>, dcs: CastKey -> DynamicCast)
    requires AllVTableDetermined(dcs) && StaticsConsistent(slots, dcs)
    ensures StaticsConsistent(StaticsStep(slots, key, ptr, dcs).after, dcs)
    ensures StaticsStep(slots, key, ptr, dcs).result == DynamicCastPtr(dcs(key), ptr)
  {
    if ptr.Some? {
      CastStepAgreesWithOracle(SlotAt(slots, key), ptr, dcs(key));
    }
  }

  /** One call of a run: the instantiation it reaches and the pointer it casts. */
  datatype Call = Call(key: CastKey, ptr: Option<Obj>)

  /** The thread's slots after a run of calls and the run's results. */
  datatype StaticsTrace = StaticsTrace(after: Statics, results: seq<Option<Addr>>)

  /** A run of calls, interleaved over any instantiations, in one thread. */
  function StaticsRun(slots: Statics, calls: seq<Call>, dcs: CastKey -> DynamicCast): (t: StaticsTrace)
    ensures |t.results| == |calls|
    decreases calls
  {
    if calls == [] then StaticsTrace(slots, [])
    else
      var first := StaticsStep(slots, calls[0].key, calls[0].ptr, dcs);
      var rest := StaticsRun(first.after, calls[1..], dcs);
      StaticsTrace(rest.after, [first.result] + rest.results)
  }

  /** Two maps of statics that agree on every slot as read through SlotAt. */
  ghost predicate SameSlots(a: Statics, b: Statics)
  {
    forall k :: SlotAt(a, k) == SlotAt(b, k)
  }

  /** One call on statics that read the same gives the same result and leaves
      statics that still read the same. */
  lemma SameSlotsSameStep(a: Statics, b: Statics, key: CastKey, ptr: Option<Obj>, dcs: CastKey -> DynamicCast)
    requires SameSlots(a, b)
    ensures StaticsStep(a, key, ptr, dcs).result == StaticsStep(b, key, ptr, dcs).result
    ensures SameSlots(StaticsStep(a, key, ptr, dcs).after, StaticsStep(b, key, ptr, dcs).after)
  {
    assert SlotAt(a, key) == SlotAt(b, key);
    var ca, cb := StaticsStep(a, key, ptr, dcs), StaticsStep(b, key, ptr, dcs);
    forall k
      ensures SlotAt(ca.after, k) == SlotAt(cb.after, k)
    {
      assert SlotAt(a, k) == SlotAt(b, k);
    }
  }

  /** Filling the map lazily is unobservable over whole runs: statics that read
      the same (an empty map and any map of Cold entries, say) give the same
      results for every run and still read the same afterwards. */
  lemma {:induction false} SameSlotsSameRun(a: Statics, b: Statics, calls: seq<Call>, dcs: CastKey -> DynamicCast)
    requires SameSlots(a, b)
    ensures StaticsRun(a, calls, dcs).results == StaticsRun(b, calls, dcs).results
    ensures SameSlots(StaticsRun(a, calls, dcs).after, StaticsRun(b, calls, dcs).after)
    decreases calls
  {
    if calls != [] {
      SameSlotsSameStep(a, b, calls[0].key, calls[0].ptr, dcs);
      SameSlotsSameRun(StaticsStep(a, calls[0].key, calls[0].ptr, dcs).after,
                       StaticsStep(b, calls[0].key, calls[0].ptr, dcs).after, calls[1..], dcs);
    }
  }

  /** Instantiations are independent: however calls at different instantiations
      interleave, every call returns what its own dynamic_cast returns. */
  lemma {:induction false} StaticsRunAgreesWithOracle(slots: Statics, calls: seq<Call>, dcs: CastKey -> DynamicCast)
    requires AllVTableDetermined(dcs) && StaticsConsistent(slots, dcs)
    ensures StaticsConsistent(StaticsRun(slots, calls, dcs).after, dcs)
    ensures forall i :: 0 <= i < |calls| ==>
              StaticsRun(slots, calls, dcs).results[i] == DynamicCastPtr(dcs(calls[i].key), calls[i].ptr)
    decreases calls
  {
    if calls != [] {
      var first := StaticsStep(slots, calls[0].key, calls[0].ptr, dcs);
      StaticsStepAgreesWithOracle(slots, calls[0].key, calls[0].ptr, dcs);
      StaticsRunAgreesWithOracle(first.after, calls[1..], dcs);
      var t := StaticsRun(slots, calls, dcs);
      forall i | 0 <= i < |calls|
        ensures t.results[i] == DynamicCastPtr(dcs(calls[i].key), calls[i].ptr)
      {
        if i > 0 {
          assert t.results[i] == StaticsRun(first.after, calls[1..], dcs).results[i - 1];
          assert calls[1..][i - 1] == calls[i];
        }
      }
    }
  }

  /** A run that never reaches instantiation `key` leaves its slot as it was. */
  lemma {:induction false} StaticsRunElsewhereKeepsSlot(slots: Statics, calls: seq<Call>, dcs: CastKey -> DynamicCast, key: CastKey)
    requires forall i :: 0 <= i < |calls| ==> calls[i].key != key
    ensures SlotAt(StaticsRun(slots, calls, dcs).after, key) == SlotAt(slots, key)
    decreases calls
  {
    if calls != [] {
      var first := StaticsStep(slots, calls[0].key, calls[0].ptr, dcs);
      assert SlotAt(first.after, key) == SlotAt(slots, key);
      StaticsRunElsewhereKeepsSlot(first.after, calls[1..], dcs, key);
    }
  }

  /** The error the reference overload raises: std::bad_cast. */
  datatype CastError = BadCast

  /** The identity overload fast_dynamic_cast<To, From>(ptr). From is not
      deducible from the argument, so the overload is reached only when both
      template arguments are written out, and then only when the two pointer
      types agree up to their own top-level cv-qualifiers. The argument comes
      back unchanged; no slot and no dynamic_cast is involved. A call naming only
      the target type goes through the pointer overload instead. */
  function IdentityCast<P>(to: QualType, from: QualType, p: P): (r: P)
    requires IdentitySelected(to, from)
    ensures r == p
  {
    p
  }

  /** The ownership group (control block) of a shared_ptr. */
  class ControlBlock {
    var useCount: nat

    constructor ()
      ensures useCount == 1
    {
      useCount := 1;
    }
  }

  /** A shared_ptr: the ownership group it belongs to (None when empty) and the
      pointer it stores, which may be null while the group is shared. */
  datatype SharedPtr<T> = SharedPtr(control: Option<ControlBlock>, stored: Option<T>)

  /** The thread_local statics of one thread; `dynamicCasts(k)` is
      dynamic_cast<To> on a From pointer for the instantiation k = (To, From). */
  class ThreadStatics {
    const dynamicCasts: CastKey -> DynamicCast
    var caches: map<CastKey, CastCache>
    /** The abstract value: the slot of every instantiation that has run. */
    ghost var slots: Statics
    /** The statics objects of this thread. */
    ghost var Repr: set<CastCache>

    ghost predicate Valid()
      reads this, Repr
    {
      && AllVTableDetermined(dynamicCasts)
      && caches.Keys == slots.Keys
      && (forall k :: k in caches ==>
            && caches[k] in Repr
            && caches[k].dynamicCast == dynamicCasts(k)
            && caches[k].Valid()
            && caches[k].instantiation == k
            && caches[k].State() == slots[k])
    }

    constructor (dcs: CastKey -> DynamicCast)
      requires AllVTableDetermined(dcs)
      ensures Valid() && dynamicCasts == dcs && slots == map[]
      ensures fresh(Repr)
    {
      dynamicCasts := dcs;
      caches := map[];
      slots := map[];
      Repr := {};
    }

    /** The slots are consistent with their instantiations' dynamic_casts. */
    lemma ValidIsConsistent()
      requires Valid()
      ensures StaticsConsistent(slots, dynamicCasts)
    {
    }

    /** The statics object of instantiation `key`, entered cold into the map on
        first non-null use (an absent entry already reads as Cold). */
    method CacheFor(key: CastKey) returns (cache: CastCache)
      requires Valid()
      modifies this
      ensures Valid()
      ensures key in caches && caches[key] == cache
      ensures slots == old(slots)[key := SlotAt(old(slots), key)]
      ensures key in old(caches) ==> cache == old(caches[key])
      ensures key !in old(caches) ==> fresh(cache)
      ensures Repr == old(Repr) + {cache}
    {
      if key in caches {
        cache := caches[key];
      } else {
        cache := new CastCache(key, dynamicCasts(key));
        caches, slots, Repr := caches[key := cache], slots[key := Cold], Repr + {cache};
        forall k | k in caches && k != key
          ensures caches[k] in Repr && caches[k].dynamicCast == dynamicCasts(k)
          ensures caches[k].Valid() && caches[k].instantiation == k && caches[k].State() == slots[k]
        {
          assert caches[k] == old(caches[k]);
        }
      }
    }

    /** The call through the statics of `key` once they exist. */
    method CastAt(key: CastKey, cache: CastCache, ptr: Option<Obj>) returns (r: Option<Addr>)
      requires Valid() && key in caches && caches[key] == cache
      modifies this, cache
      ensures Valid() && key in slots
      ensures CallResult(slots[key], r) == CastStep(old(slots[key]), ptr, dynamicCasts(key))
      ensures r == DynamicCastPtr(dynamicCasts(key), ptr)
      ensures slots == old(slots)[key := slots[key]]
      ensures ptr.Some? ==> StaticsResult(slots, r) == StaticsStep(old(slots), key, ptr, dynamicCasts)
      ensures caches == old(caches) && Repr == old(Repr)
    {
      r := cache.Cast(ptr);
      slots := slots[key := cache.State()];
      forall k | k in caches && k != key
        ensures caches[k].Valid() && caches[k].State() == slots[k]
      {
        assert caches[k].instantiation != cache.instantiation;
      }
    }

    /** cast_impl at instantiation `key`: the slot's object is entered into the map
        at first non-null use. */
    method Cast(key: CastKey, ptr: Option<Obj>) returns (r: Option<Addr>)
      requires Valid()
      modifies this, Repr
      ensures Valid()
      ensures StaticsResult(slots, r) == StaticsStep(old(slots), key, ptr, dynamicCasts)
      ensures r == DynamicCastPtr(dynamicCasts(key), ptr)
      ensures fresh(Repr - old(Repr))
    {
      if ptr.None? {
        return None;
      }
      ghost var s0 := slots;
      var cache := CacheFor(key);
      EnteredSlotSameStep(s0, key, ptr, dynamicCasts);
      r := CastAt(key, cache, ptr);
    }

    /** fast_dynamic_cast<To *>(ptr) with ptr a possibly-null pointer to From. */
    method PointerCast(to: QualType, from: QualType, ptr: Option<Obj>) returns (r: Option<Addr>)
      requires Valid()
      requires PointerCastCompiles(to, from)
      modifies this, Repr
      ensures Valid()
      ensures StaticsResult(slots, r) == StaticsStep(old(slots), PointerKey(to, from), ptr, dynamicCasts)
      ensures r == DynamicCastPtr(dynamicCasts(PointerKey(to, from)), ptr)
      ensures fresh(Repr - old(Repr))
    {
      r := Cast(PointerKey(to, from), ptr);
    }

    /** fast_dynamic_cast<To &>(ref): the referent's address when the pointer cast
        succeeds, std::bad_cast when it yields null. */
    method ReferenceCast(to: QualType, from: QualType, ref: Obj) returns (r: Result<Addr, CastError>)
      requires Valid()
      requires PointerCastCompiles(to, from)
      modifies this, Repr
      ensures Valid()
      ensures slots == StaticsStep(old(slots), PointerKey(to, from), Some(ref), dynamicCasts).after
      ensures r.Success? <==> dynamicCasts(PointerKey(to, from))(ref).Some?
      ensures r.Success? ==> Some(r.value) == dynamicCasts(PointerKey(to, from))(ref)
      ensures fresh(Repr - old(Repr))
    {
      var castedPtr := PointerCast(to, from, Some(ref));
      if castedPtr.None? {
        return Failure(BadCast);
      }
      return Success(castedPtr.value);
    }

    /** fast_dynamic_pointer_cast<To>(ptr): an aliasing shared_ptr that joins the
        input's ownership group and stores the pointer cast of ptr.get(). */
    method SharedPointerCast(to: QualType, from: QualType, ptr: SharedPtr<Obj>) returns (r: SharedPtr<Addr>)
      requires Valid()
      requires PointerCastCompiles(to, from)
      modifies this, Repr, if ptr.control.Some? then {ptr.control.value} else {}
      ensures Valid()
      ensures slots == StaticsStep(old(slots), PointerKey(to, from), ptr.stored, dynamicCasts).after
      ensures r.control == ptr.control
      ensures r.stored == DynamicCastPtr(dynamicCasts(PointerKey(to, from)), ptr.stored)
      ensures ptr.control.Some? ==> ptr.control.value.useCount == old(ptr.control.value.useCount) + 1
      ensures fresh(Repr - old(Repr))
    {
      var casted := PointerCast(to, from, ptr.stored);
      if ptr.control.Some? {
        ptr.control.value.useCount := ptr.control.value.useCount + 1;
      }
      r := SharedPtr(ptr.control, casted);
    }
  }

  /** The instantiations the test cases reach: SimpleB from SimpleA, ComplexG
      from ComplexA, and the cross-cast ComplexF from ComplexA. */
  const SimpleDown := PointerKey(QualType("SimpleB", false), QualType("SimpleA", false))
  const ComplexDown := PointerKey(QualType("ComplexG", false), QualType("ComplexA", false))
  const ComplexCross := PointerKey(QualType("ComplexF", false), QualType("ComplexA", false))

  /** The five calls of the test cases, in order, on one fresh thread: a
      reference cast of a SimpleB seen as a SimpleA and a null pointer cast at
      the same instantiation; the same two at (ComplexG, ComplexA) on a ComplexG;
      and a cross-cast of another ComplexG, g2, to ComplexF, at a third
      instantiation.
      Every call agrees with its own instantiation's dynamic_cast. */
  method TestsSequence(dcs: CastKey -> DynamicCast, b: Obj, g: Obj, g2: Obj)
    returns (fb: Result<Addr, CastError>, simpleNull: Option<Addr>,
             fg: Result<Addr, CastError>, complexNull: Option<Addr>, ff: Option<Addr>)
    requires AllVTableDetermined(dcs)
    ensures fb.Success? <==> dcs(SimpleDown)(b).Some?
    ensures fb.Success? ==> Some(fb.value) == dcs(SimpleDown)(b)
    ensures simpleNull == None
    ensures fg.Success? <==> dcs(ComplexDown)(g).Some?
    ensures fg.Success? ==> Some(fg.value) == dcs(ComplexDown)(g)
    ensures complexNull == None
    ensures ff == dcs(ComplexCross)(g2)
  {
    var simpleA, simpleB := QualType("SimpleA", false), QualType("SimpleB", false);
    var complexA, complexF, complexG := QualType("ComplexA", false), QualType("ComplexF", false), QualType("ComplexG", false);
    var t := new ThreadStatics(dcs);
    fb := t.ReferenceCast(simpleB, simpleA, b);
    simpleNull := t.PointerCast(simpleB, simpleA, None);
    fg := t.ReferenceCast(complexG, complexA, g);
    complexNull := t.PointerCast(complexG, complexA, None);
    ff := t.PointerCast(complexF, complexA, Some(g2));
  }
}
