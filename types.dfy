/**
  The compile-time type computations of the cast facade: which cast_impl
  instantiation a call reaches, and how const qualification flows from the
  source pointer to the target pointer. Only const is modelled among the
  cv-qualifiers, and a type is named by a string.
*/
module Types {

  /** A polymorphic class type together with its const qualification. */
  datatype QualType = QualType(name: string, isConst: bool)

  /** The template arguments of one cast_impl<To, From> instantiation: the type
      the target pointer points to, and the source type From (with its const). */
  datatype CastKey = CastKey(target: QualType, source: QualType)

  /** The pointee of the pointer type the pointer overload hands to cast_impl when
      asked for a pointer to `to` from a pointer to `from`: const is added when
      `from` is const and otherwise taken from `to` as requested. */
  function PointerTarget(to: QualType, from: QualType): (t: QualType)
    ensures t.name == to.name
    ensures from.isConst ==> t.isConst
    ensures to.isConst ==> t.isConst
    ensures !to.isConst ==> (t.isConst <==> from.isConst)
  {
    if from.isConst then QualType(to.name, true) else to
  }

  /** The pointer overload returns cast_impl's result as a pointer to `to`; that
      implicit conversion may add const but never remove it, so the call compiles
      only when the computed target is no more qualified than `to`. */
  predicate PointerCastCompiles(to: QualType, from: QualType)
  {
    PointerTarget(to, from).isConst ==> to.isConst
  }

  /** A pointer cast compiles exactly when it does not drop the source's const,
      and then the instantiation reached targets precisely the requested type. */
  lemma CompilesIffKeepsConst(to: QualType, from: QualType)
    ensures PointerCastCompiles(to, from) <==> (from.isConst ==> to.isConst)
    ensures PointerCastCompiles(to, from) ==> PointerTarget(to, from) == to
  {
  }

  /** The cast_impl instantiation the pointer overload reaches. */
  function PointerKey(to: QualType, from: QualType): (k: CastKey)
    ensures k.source == from
    ensures k.target.name == to.name
    ensures from.isConst ==> k.target.isConst
  {
    CastKey(PointerTarget(to, from), from)
  }

  /** The identity overload is viable for the pointer types `to *` and `from *`
      when they are the same type once their own top-level cv-qualifiers are
      removed. remove_cv_t does not reach the pointee, so the pointees must agree
      in class and in const. */
  predicate IdentitySelected(to: QualType, from: QualType)
  {
    to == from
  }

  /** Whenever the identity overload is viable it never drops const, and the
      pointer overload would reach an instantiation targeting the same type. */
  lemma IdentityKeepsConst(to: QualType, from: QualType)
    requires IdentitySelected(to, from)
    ensures from.isConst ==> to.isConst
    ensures PointerCastCompiles(to, from)
    ensures PointerKey(to, from) == CastKey(from, from)
  {
  }
}
