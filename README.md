# FastCast: a verified model of the memoising dynamic_cast layer

FastCast (`fastcast.hpp`) puts a small cache in front of C++ `dynamic_cast`.
Every instantiation `cast_impl<To, From>` owns, per thread, one slot made of two
`thread_local` statics: `offset` (initially the sentinel `NO_OFFSET`) and
`src_vtable_ptr` (initially null). A call on a non-null pointer reads the
object's vtable pointer. If the slot is warm and holds that vtable, the call
returns the pointer moved by the cached offset without calling `dynamic_cast`.
Otherwise it calls `dynamic_cast`, and only when that succeeds overwrites the
slot with the vtable and the displacement `result - ptr`. A failed cast returns
null and leaves the slot alone. The public overloads `fast_dynamic_cast` (pointer,
reference, identity) and `fast_dynamic_pointer_cast` (`shared_ptr`) pick the
instantiation and present the result.

The model proves that the cache is exact: under the assumption that
`dynamic_cast`'s verdict and displacement depend only on the object's vtable,
every call returns what `dynamic_cast` returns on the same pointer. This holds
for any sequence of calls, however concrete types alternate and however calls
at different instantiations interleave. The model also shows the assumption
cannot be dropped.

Files and modules:

- `wrappers.dfy` (`Wrappers`): `Option` (a possibly-null pointer) and `Result` (a call that may throw).
- `oracle.dfy` (`Oracle`): addresses as `int`; vtables as identities that can only be compared; `dynamic_cast<To>` of one instantiation as an arbitrary function `Obj -> Option<Addr>`; and the vtable assumption `VTableDetermined`.
- `types.dfy` (`Types`): the compile-time side. `QualType` is a class name plus a const flag. `CastKey` is a `(To, From)` instantiation. The module also holds the const computation of the pointer overload.
- `cache.dfy` (`Cache`): the slot of `cast_impl`. It is given as the value `Slot` specified by the function `CastStep`, and as the class `CastCache` whose method `Cast` updates the two fields in place the way `cast_impl` does.
- `fastcast.dfy` (`FastCast`): one thread's statics as a map from instantiation to slot, filled lazily. The class `ThreadStatics` holds one `CastCache` object per instantiation, plus the facade overloads as its methods. It also has the identity overload and the `shared_ptr` handle.

The model follows the code in these points, where a reader might expect otherwise:

- The code does not memoise failures. A cast that misses and fails leaves the slot unchanged, so the next cast of the same concrete type calls `dynamic_cast` again (`Cache.FailureIsNotMemoised`).
- The code has no static bypass for upcasts: every non-null cast through the pointer, reference or `shared_ptr` overload goes through the slot or through `dynamic_cast`.
- The pointer overload's target is const when `From` is const. When `From` is not const, the requested `To` is kept as given, so the target is const exactly when the source is only for an unqualified `To`. A call that would return a `const T*` as a `T*` does not compile (`Types.PointerCastCompiles`).
- Both statics have constant initializers (`fastcast.hpp:27-28`), so in C++ every instantiation's slot exists, cold, from the thread's start. The model instead enters a slot into the map on first non-null use. An absent slot reads as `Cold`, so the difference cannot be observed: for one call (`FastCast.EagerSlotAgrees`) and for whole runs (`FastCast.SameSlotsSameRun`).
- The identity overload (`fastcast.hpp:80-85`) is reached only when both template arguments are written out, because `From` cannot be deduced from the argument. It also needs the two pointer types to agree up to their own top-level cv-qualifiers; `remove_cv_t` does not reach the pointee, so `fast_dynamic_cast<A *, const A *>` does not select it. A call naming only the target, such as `fast_dynamic_cast<A *>(a)`, goes through the pointer overload, the slot and `dynamic_cast`.

## Model

| member | source | states |
|---|---|---|
| `Oracle.FromOffsetTable` | fastcast.hpp:43-47 | a dynamic_cast given by a per-vtable displacement table meets the vtable assumption, and its displacement at every object is the table's entry for that object's vtable |
| `Oracle.VTableDeterminedIffTable` | fastcast.hpp:31-47 | a dynamic_cast meets the vtable assumption if and only if it coincides, at every object, with the cast described by its own displacement table |
| `Types.PointerTarget` | fastcast.hpp:56-58 | the pointee handed to cast_impl keeps the requested class; it is const whenever the source or the requested type is const; for an unqualified request it is const exactly when the source is |
| `Types.CompilesIffKeepsConst` | fastcast.hpp:55-59 | a pointer cast compiles if and only if it does not drop the source's const, and then the instantiation reached targets exactly the requested type |
| `Types.PointerKey` | fastcast.hpp:59 | the instantiation reached keeps From as its source and the requested class as its target, const whenever From is const |
| `Cache.CastStep` | fastcast.hpp:21-50 | a null pointer returns null without touching the slot; a null result leaves the slot as it was; the slot is only ever written with a vtable and an offset together |
| `Cache.CastStepAgreesWithOracle` | fastcast.hpp:27-49 | under the vtable assumption, a call from a consistent slot returns exactly dynamic_cast's result on the same pointer and leaves the slot consistent |
| `Cache.FastPathIgnoresOracle` | fastcast.hpp:35-40 | on a warm slot holding the object's vtable, the call's outcome is the same whatever dynamic_cast would answer: the slot is unchanged and the result is ptr + offset |
| `Cache.NullIgnoresSlotAndOracle` | fastcast.hpp:24-25 | a null pointer yields null whatever the slot holds and whatever dynamic_cast would answer, and the slot is untouched |
| `Cache.MissDefersToOracle` | fastcast.hpp:43-49 | on a miss the result is dynamic_cast's result; on success the slot becomes (this vtable, result - ptr), on failure it keeps its previous contents |
| `Cache.FailureIsNotMemoised` | fastcast.hpp:44-49 | after a miss that failed, an object with the same vtable misses again and gets dynamic_cast's own answer |
| `Cache.SlotHoldsOneVTable` | fastcast.hpp:35-48 | after a miss that succeeded, an object takes the fast path if and only if its vtable is the one just cached |
| `Cache.SecondCastIsFastAndExact` | fastcast.hpp:35-48 | after a successful cast, a second cast of the same concrete type takes the fast path, leaves the slot alone and equals dynamic_cast |
| `Cache.StaleOffsetWithoutVTableAssumption` | fastcast.hpp:35-40 | for a dynamic_cast whose displacement depends on more than the vtable, the cached offset gives a result different from dynamic_cast's |
| `Cache.Run` | fastcast.hpp:21-50 | a sequence of calls through one slot, each on the slot the previous call left, yields exactly one result per call |
| `Cache.RunAgreesWithOracle` | fastcast.hpp:27-49 | from any consistent slot (a cold one included), every call of any sequence returns dynamic_cast's result on its pointer, and the slot stays consistent |
| `Cache.ColdIsConsistent` | fastcast.hpp:27-28 | the initial slot (NO_OFFSET, null vtable) is consistent with every dynamic_cast |
| `Cache.CastCache.constructor` | fastcast.hpp:27-28 | fresh statics are cold and bound to their instantiation's dynamic_cast |
| `Cache.CastCache.Cast` | fastcast.hpp:21-50 | the fields are updated as CastStep says, the invariant is kept, and the result equals dynamic_cast's |
| `FastCast.StaticsStep` | fastcast.hpp:24-28 | a null pointer returns null and leaves every slot as it was; a call enters or changes no slot but its own instantiation's |
| `FastCast.EagerSlotAgrees` | fastcast.hpp:27-28 | entering a cold slot before a call changes neither its result nor any slot as read, so filling the map lazily behaves like statics that are cold from the thread's start |
| `FastCast.StaticsStepAgreesWithOracle` | fastcast.hpp:27-49 | with consistent slots, a call at any instantiation returns that instantiation's dynamic_cast result and keeps every slot consistent |
| `FastCast.SameSlotsSameRun` | fastcast.hpp:27-28 | statics that read the same slot at every instantiation, such as an empty map and one holding cold entries, give equal results over any run and still read the same afterwards |
| `FastCast.StaticsRun` | fastcast.hpp:21-50 | a sequence of calls over any instantiations, each on the statics the previous call left, yields exactly one result per call |
| `FastCast.StaticsRunAgreesWithOracle` | fastcast.hpp:27-49 | however calls at different instantiations interleave, each returns its own instantiation's dynamic_cast result |
| `FastCast.StaticsRunElsewhereKeepsSlot` | fastcast.hpp:27-28 | a sequence of calls that never reaches an instantiation leaves that instantiation's slot as it was |
| `Types.IdentityKeepsConst` | fastcast.hpp:81-83 | whenever the identity overload is viable (the pointees agree in class and const) it drops no const, and the pointer overload would reach an instantiation targeting the same type |
| `FastCast.IdentityCast` | fastcast.hpp:80-85 | when both pointer types are written out and agree up to their top-level cv-qualifiers, the argument is returned unchanged |
| `FastCast.ThreadStatics.constructor` | fastcast.hpp:27-28 | a thread starts with no slot entered in the map, so every slot reads as cold, and with no statics objects of its own yet |
| `FastCast.ThreadStatics.ValidIsConsistent` | fastcast.hpp:27-28 | every existing slot of a thread is consistent with its instantiation's dynamic_cast |
| `FastCast.ThreadStatics.CacheFor` | fastcast.hpp:27-28 | an instantiation's statics object is entered, cold, into the map on first use and reused afterwards; the slot it reads is the one an absent entry already stood for |
| `FastCast.ThreadStatics.CastAt` | fastcast.hpp:30-49 | a call through existing statics changes only that instantiation's slot, as CastStep says, and returns dynamic_cast's result |
| `FastCast.ThreadStatics.Cast` | fastcast.hpp:21-50 | cast_impl at one instantiation: the thread's slots change as StaticsStep says and the result equals that instantiation's dynamic_cast |
| `FastCast.ThreadStatics.PointerCast` | fastcast.hpp:53-60 | the pointer overload runs cast_impl at the instantiation PointerKey(To, From) and returns that dynamic_cast's result, null for null |
| `FastCast.ThreadStatics.ReferenceCast` | fastcast.hpp:62-71 | the reference overload returns the referent's target address exactly when dynamic_cast succeeds, and bad_cast exactly when it fails |
| `FastCast.ThreadStatics.SharedPointerCast` | fastcast.hpp:73-78 | the result joins the input's ownership group, whose use count goes up by one, and stores the pointer cast of ptr.get(), which may be null |
| `FastCast.TestsSequence` | tests.cpp:11-50 | on one fresh thread, the five calls of the test cases in order (a reference cast and a null pointer cast at (SimpleB, SimpleA), the same at (ComplexG, ComplexA), a cross-cast of a second ComplexG at (ComplexF, ComplexA)) each agree with their own instantiation's dynamic_cast; a reference cast gives bad_cast exactly when dynamic_cast fails, and null gives null |

## Left out

- Reading the vtable pointer through `reinterpret_cast` (`fastcast.hpp:31-32`) and byte-pointer arithmetic: an object is given as its address plus its vtable identity, and addresses are unbounded integers, so pointer overflow and the alignment of the result are not modelled.
- `dynamic_cast` itself: it is a parameter, an arbitrary function per instantiation. The vtable assumption is a precondition of the statics' constructors. The C++ object layout of the fixture hierarchies in `utilities.hpp` is not modelled.
- The sentinel `NO_OFFSET`: a cold slot is `None`, so the C++ code's confusion of a real displacement equal to `PTRDIFF_MAX` with a cold slot has no counterpart.
- `thread_local` and concurrency: one `ThreadStatics` object stands for one thread's statics. That two threads do not see each other's slots is a storage-class fact and is not proved across objects.
- Compile-time checks: `static_assert(std::is_polymorphic_v<From>)` and the `requires` clauses that select an overload are not modelled, with two exceptions: the const conversion of the pointer overload's return value (the precondition `PointerCastCompiles`) and the identity overload's `is_same_v` guard (`IdentitySelected`).
- Only `const` is modelled among the cv-qualifiers; `volatile` is not.
- FastCast.ThreadStatics.SharedPointerCast: only the use count and the control block of `std::shared_ptr` are modelled. Weak counts, the deleter and destruction are not.
- `benchmark.cpp` is a measurement and is not modelled. Of `tests.cpp`, the sequence of calls is `FastCast.TestsSequence`. The class hierarchies of `utilities.hpp` and the member functions the tests call on the results are not modelled. So the model does not show that these particular casts succeed, only that each agrees with `dynamic_cast`.
