/**
  The platform's checked cast, dynamic_cast, which the fast-cast layer wraps and
  trusts. Nothing about C++ object layout is modelled: an address is an integer,
  a vtable pointer is an identity that can only be compared, and dynamic_cast of
  one (To, From) pair is an arbitrary function of the object it is given.
*/
module Oracle {
  import opened Wrappers

  /** A byte address. A null pointer is represented by None, never by an Addr. */
  type Addr = int

  /** The vtable pointer stored in a polymorphic object; only compared for equality. */
  datatype VTable = VTable(id: nat)

  /** A non-null pointer to a polymorphic object, as seen through the source type
      of a cast: the pointer value and the vtable pointer found at that address. */
  datatype Obj = Obj(addr: Addr, vtable: VTable)

  /** dynamic_cast<To>(ptr) for one fixed (To, From) pair on a non-null ptr:
      the address of the target subobject, or None for a null result. */
  type DynamicCast = Obj -> Option<Addr>

  /** dynamic_cast on a possibly-null pointer: a null pointer casts to null. */
  function DynamicCastPtr(dc: DynamicCast, ptr: Option<Obj>): Option<Addr>
  {
    if ptr.None? then None else dc(ptr.value)
  }

  /** The byte displacement from the source pointer to the cast's result, or None
      when the cast fails. */
  function Offset(dc: DynamicCast, o: Obj): Option<int>
  {
    match dc(o)
    case None => None
    case Some(a) => Some(a - o.addr)
  }

  /** The assumption the cache relies on: whether dynamic_cast succeeds, and by
      which displacement, depends only on the vtable of the object, not on where
      the object sits in memory. */
  ghost predicate VTableDetermined(dc: DynamicCast)
  {
    forall o1: Obj, o2: Obj :: o1.vtable == o2.vtable ==> Offset(dc, o1) == Offset(dc, o2)
  }

  /** The dynamic_cast described by a table giving, per vtable, the displacement
      of the target subobject (None where the cast fails). */
  function FromOffsetTable(table: VTable -> Option<int>): (dc: DynamicCast)
    ensures VTableDetermined(dc)
    ensures forall o: Obj :: Offset(dc, o) == table(o.vtable)
  {
    (o: Obj) => if table(o.vtable).Some? then Some(o.addr + table(o.vtable).value) else None
  }

  /** The displacement table of a dynamic_cast, sampled at address 0. */
  function OffsetTableOf(dc: DynamicCast): VTable -> Option<int>
  {
    (vt: VTable) => Offset(dc, Obj(0, vt))
  }

  /** A dynamic_cast meets the assumption exactly when it is the cast described by
      its own displacement table. */
  lemma VTableDeterminedIffTable(dc: DynamicCast)
    ensures VTableDetermined(dc) <==> forall o: Obj :: dc(o) == FromOffsetTable(OffsetTableOf(dc))(o)
  {
    var table := OffsetTableOf(dc);
    var tabled := FromOffsetTable(table);
    if VTableDetermined(dc) {
      forall o: Obj
        ensures dc(o) == tabled(o)
      {
        assert Offset(dc, o) == Offset(dc, Obj(0, o.vtable));
      }
    }
    if forall o: Obj :: dc(o) == tabled(o) {
      forall o1: Obj, o2: Obj | o1.vtable == o2.vtable
        ensures Offset(dc, o1) == Offset(dc, o2)
      {
        assert Offset(dc, o1) == Offset(tabled, o1);
        assert Offset(dc, o2) == Offset(tabled, o2);
      }
    }
  }
}
