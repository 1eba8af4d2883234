# CustomSrc subclass registration, modelled in Dafny

gstreamer-java lets a Java class extend `CustomSrc` to become a GStreamer
source element. The first time a subclass is used, `CustomSrc` works out
which of its annotated callback methods (`srcFillBuffer`, `srcSeek`,
`srcGetSize`, ...) the subclass overrides. It stores one fixed adapter
per overridden callback in a per-class info record. The record is cached
and the subclass is registered with the native type system. When the
native class is initialised, a hook copies the record's callback fields,
by name, into the native base-source class structure. At run time each
adapter calls the user's method. It turns a normal return or an exception
into the result the native side expects.

This project models that logic and proves its properties:

- `reflection.dfy` (module `Reflection`): methods and classes as values.
  It has the override test (`IsOverridingMethod`), a reference definition
  of the chain search (`FirstOverriding`, with a declarative
  characterisation) and the imperative nested-loop search
  `FindOverridingMethod`, proved equal to it.
- `slots.dfy` (module `Slots`): the callback slots, the adapters and the
  fixed name table (`srcFillBuffer` and `srcCreateBuffer` share the
  `create` slot). It also has the per-method contribution of `init` and the
  fold `AssignSlots` that specifies the slot-assignment loop.
- `registry.dfy` (module `Registry`): the info record `CustomSrcInfo` (a
  class whose slots `init` updates in place) and its class-init hook
  `ClassInit`, a loop that copies same-named fields into the native class
  structure. It also has the cache `SubclassRegistry` with `Init` and
  `GetSubclassInfo`, which keeps a log of native type registrations so
  that "registered at most once per class" can be stated.
- `adapters.dfy` (module `Adapters`): the callback adapters as total
  functions from the user method's outcome (`Returned(v)` or `Threw`) to
  the native result and the out-parameters written.
- `scenarios.dfy` (module `Scenarios`): CustomSrc's thirteen annotated
  callbacks with their signatures, and a subclass that overrides only
  `srcFillBuffer`. It also declares a `srcSeek` with the wrong parameter
  type. The lemma shows that only `create` is filled.
- `options.dfy` (module `Options`): the `Option` type standing for a
  nullable reference.

Inputs that reflection or the native library supply become parameters:

- `assignable(a, b)` stands for `a.isAssignableFrom(b)`.
- `chain` is the subclass's superclass chain, most-derived class first.
  Each class carries its declared methods in declared order.
- `baseMethods` is `CustomSrc.class.getDeclaredMethods()` in the JVM's
  order.
- `newType` is the handle `g_type_register_static` returns.

Three facts about the code that the model keeps:

- `getTimesCallback` writes nothing when the user method throws. It writes
  -1 only for an output that the user left alone on a normal return.
- The cache is checked once, under the per-class lock, and `init` runs on
  a miss.
- `init` caches the info record before filling it.

## Model

| member | source | states |
|---|---|---|
| `Reflection.IsOverridingMethod` | tags/1.0/gstreamer-java/src/org/gstreamer/elements/CustomSrc.java:335-343 | An override declared in the base method's own class is the base method itself, in the sense of `Method.equals`. When `isAssignableFrom` is reflexive, the base method counts as its own override. |
| `Reflection.SameMethod` | tags/1.0/gstreamer-java/src/org/gstreamer/elements/CustomSrc.java:379 | `Method.equals` holds exactly when the two methods agree on everything reflection reports except the annotation. |
| `Reflection.OverridingElementwise` | tags/1.0/gstreamer-java/src/org/gstreamer/elements/CustomSrc.java:335-343 | A method overrides another exactly when it is declared in the base method's class or a subclass, and the name, return type, parameter count and each parameter type are equal. The repeated declaring-class clause is one condition. |
| `Reflection.NameAloneIsNotOverriding` | tags/1.0/gstreamer-java/src/org/gstreamer/elements/CustomSrc.java:338-342 | A same-named method with different parameter types is never an override (no widening). |
| `Reflection.FirstOverridingSpec` | tags/1.0/gstreamer-java/src/org/gstreamer/elements/CustomSrc.java:352-361 | The search yields nothing exactly when no class of the chain declares an overriding method. Otherwise it yields an overriding method at some position with no overriding method earlier in scan order (classes most-derived first, methods in declared order). |
| `Reflection.FirstOverridingAt` | tags/1.0/gstreamer-java/src/org/gstreamer/elements/CustomSrc.java:352-361 | Conversely, an overriding method with none before it in scan order is the one the search returns. |
| `Reflection.FoundOverrides` | tags/1.0/gstreamer-java/src/org/gstreamer/elements/CustomSrc.java:355-356 | Whatever the search returns overrides the base method. |
| `Reflection.FindOverridingMethod` | tags/1.0/gstreamer-java/src/org/gstreamer/elements/CustomSrc.java:352-361 | The nested loop with early return computes the reference search. It returns null exactly when no class in the chain has an override; otherwise it returns the first override in scan order. |
| `Slots.AdapterSlot` | tags/1.0/gstreamer-java/src/org/gstreamer/elements/CustomSrc.java:385-411 | The slot each adapter is assigned to. Only the fill-buffer and create-buffer adapters go to `create`. |
| `Slots.NameTable` | tags/1.0/gstreamer-java/src/org/gstreamer/elements/CustomSrc.java:385-411 | Each table entry pairs an adapter with that adapter's slot, so the slot is derived from the adapter. A name fills the `create` slot exactly when it is `srcFillBuffer` or `srcCreateBuffer`. |
| `Slots.Installation` | tags/1.0/gstreamer-java/src/org/gstreamer/elements/CustomSrc.java:371-383 | A base method contributes only when it is annotated, the search finds an override, and that override is not the base method itself. What it contributes is its name's table entry. |
| `Slots.InstallationIff` | tags/1.0/gstreamer-java/src/org/gstreamer/elements/CustomSrc.java:370-383 | A base method installs an adapter exactly when it is annotated, has a table entry, and the search finds a method declared in another class, so not the base method itself. What it installs is its table entry. |
| `Slots.Step` | tags/1.0/gstreamer-java/src/org/gstreamer/elements/CustomSrc.java:385-411 | One loop step sets its own slot to its adapter, and every other slot keeps its presence and value. |
| `Slots.AssignSlotsAbsent` | tags/1.0/gstreamer-java/src/org/gstreamer/elements/CustomSrc.java:370-411 | After the loop, a slot is null exactly when no visited base method writes it. Unannotated, not-found and not-overridden methods write nothing. |
| `Slots.AssignSlotsLastWins` | tags/1.0/gstreamer-java/src/org/gstreamer/elements/CustomSrc.java:385-411 | A filled slot holds the adapter of the last visited base method that writes it. |
| `Slots.OtherSlotsUnchanged` | tags/1.0/gstreamer-java/src/org/gstreamer/elements/CustomSrc.java:385-411 | Visiting one more base method leaves every slot outside its table entry unchanged. |
| `Slots.CreateLaterWins` | tags/1.0/gstreamer-java/src/org/gstreamer/elements/CustomSrc.java:389-392 | When `srcFillBuffer` or `srcCreateBuffer` is the last of the two visited and it is overridden, `create` holds that method's adapter. |
| `Slots.OnlyCreateIsShared` | tags/1.0/gstreamer-java/src/org/gstreamer/elements/CustomSrc.java:385-411 | Two different table names share a slot only if they are `srcFillBuffer` and `srcCreateBuffer`, and the shared slot is `create`. |
| `Slots.AdapterDeterminesName` | tags/1.0/gstreamer-java/src/org/gstreamer/elements/CustomSrc.java:385-411 | Each adapter is installed for one base-method name only. |
| `Slots.SlotField` | tags/1.0/gstreamer-java/src/org/gstreamer/elements/CustomSrc.java:70-81 | Each slot's field name, shared by the info record and the native class structure. It is a lower-case C member name and is none of the record's non-callback fields. |
| `Slots.FieldSlot` | tags/1.0/gstreamer-java/src/org/gstreamer/elements/CustomSrc.java:69-81 | A field name that denotes a slot is that slot's field name. |
| `Slots.SlotFieldRoundTrip` | tags/1.0/gstreamer-java/src/org/gstreamer/elements/CustomSrc.java:69-81 | Each slot's field name maps back to that slot. |
| `Scenarios.OnlyFillBufferInstalled` | tags/1.0/gstreamer-java/src/org/gstreamer/elements/CustomSrc.java:370-411 | A subclass that overrides only `srcFillBuffer`, and declares `srcSeek(long)` instead of `srcSeek(GstSegmentStruct)`, gets exactly one slot: `create` with the fill-buffer adapter. |
| `Scenarios.OthersNotOverridden` | tags/1.0/gstreamer-java/src/org/gstreamer/elements/CustomSrc.java:375-383 | For that subclass, every callback other than `srcFillBuffer` is found in CustomSrc itself, so it installs nothing. This includes the mistyped `srcSeek`. |
| `Registry.InfoFieldType` | tags/1.0/gstreamer-java/src/org/gstreamer/elements/CustomSrc.java:60-81 | The info record declares a field for every slot. Apart from those, it declares exactly five fields: the type handle, the pad template, the caps and the two init hooks. |
| `Registry.SlotsAreInfoFields` | tags/1.0/gstreamer-java/src/org/gstreamer/elements/CustomSrc.java:60-81 | Every slot is a declared field of the info record. |
| `Registry.Copyable` | tags/1.0/gstreamer-java/src/org/gstreamer/elements/CustomSrc.java:419-420 | The structure field has a same-named info field whose type it accepts. A field with no same-named info field is skipped. |
| `Registry.InfoFieldValue` | tags/1.0/gstreamer-java/src/org/gstreamer/elements/CustomSrc.java:419-421 | Reading an info field yields an adapter only for a filled slot, and then that slot's adapter. A slot field whose slot is empty reads as null. |
| `Registry.CopyFieldsAt` | tags/1.0/gstreamer-java/src/org/gstreamer/elements/CustomSrc.java:413-427 | After the class-init copy, a structure field that has a same-named info field of an accepted type holds that info field's value. Every other structure field is as it was (missing info fields are skipped). |
| `Registry.SlotFieldCopied` | tags/1.0/gstreamer-java/src/org/gstreamer/elements/CustomSrc.java:417-423 | A copyable structure field named after a slot receives that slot's adapter, or null when the subclass did not override it. |
| `Registry.BaseSrcClassStruct.constructor` | tags/1.0/gstreamer-java/src/org/gstreamer/elements/CustomSrc.java:415 | The native class structure is built over its declared fields and their current values. |
| `Registry.CustomSrcInfo.constructor` | tags/1.0/gstreamer-java/src/org/gstreamer/elements/CustomSrc.java:363 | A new info record has no type and every slot null. |
| `Registry.CustomSrcInfo.ClassInit` | tags/1.0/gstreamer-java/src/org/gstreamer/elements/CustomSrc.java:413-427 | The copy loop leaves the structure's values equal to the reference copy `CopyFields` over its declared fields in order. |
| `Registry.SubclassRegistry.constructor` | tags/1.0/gstreamer-java/src/org/gstreamer/elements/CustomSrc.java:58 | The cache starts empty, with no native registrations. |
| `Registry.SubclassRegistry.Init` | tags/1.0/gstreamer-java/src/org/gstreamer/elements/CustomSrc.java:362-451 | A fresh record is cached under the class before the loop fills it, and the loop invariant keeps it cached. Its slots end equal to `AssignSlots` over the base methods in order, it holds the returned type handle, and exactly one native registration is logged. |
| `Registry.SubclassRegistry.GetSubclassInfo` | tags/1.0/gstreamer-java/src/org/gstreamer/elements/CustomSrc.java:86-95 | Afterwards the class is cached and the cached record is returned. On a hit nothing changes: the same record, the same cache, no registration. On a miss there is one new fresh record and one registration. Existing records are untouched, and the invariant "each cached class is registered exactly once" is kept. |
| `Registry.SubclassRegistry.RegistrationsMatchCache` | tags/1.0/gstreamer-java/src/org/gstreamer/elements/CustomSrc.java:448-450 | Under the invariant, the number of native registrations equals the number of cached subclasses. |
| `Registry.LookupTwice` | tags/1.0/gstreamer-java/src/org/gstreamer/elements/CustomSrc.java:86-95 | Two lookups of one class return the same record and add at most one native registration. |
| `Adapters.FillBufferCallback` | tags/1.0/gstreamer-java/src/org/gstreamer/elements/CustomSrc.java:195-207 | A normal return passes the user's flow result on and hands out the allocated buffer. An exception gives UNEXPECTED and leaves `bufRef` untouched. |
| `Adapters.CreateBufferCallback` | tags/1.0/gstreamer-java/src/org/gstreamer/elements/CustomSrc.java:212-225 | A normal return passes the flow result on. `bufRef` is written only with a non-null buffer left in slot 0. An exception gives UNEXPECTED and writes nothing. |
| `Adapters.BooleanCallback` | tags/1.0/gstreamer-java/src/org/gstreamer/elements/CustomSrc.java:237-243 | The result is true exactly when the user returned true, and false on an exception. The same rule covers `seekCallback`, `setCapsCallback` and `eventCallback` (lines 252-311). |
| `Adapters.GetCapsCallback` | tags/1.0/gstreamer-java/src/org/gstreamer/elements/CustomSrc.java:272-282 | The result is the user's caps. When the user throws, or returns null so that `.copy()` fails, it is the empty caps. |
| `Adapters.GetTimesCallback` | tags/1.0/gstreamer-java/src/org/gstreamer/elements/CustomSrc.java:286-293 | On a normal return both outputs are written, with -1 for an output the user did not set. On an exception neither is written. |
| `Adapters.FixateCallback` | tags/1.0/gstreamer-java/src/org/gstreamer/elements/CustomSrc.java:297-301 | The callback always returns normally: an exception does not escape. |
| `Adapters.GetSizeCallback` | tags/1.0/gstreamer-java/src/org/gstreamer/elements/CustomSrc.java:315-326 | The size is known exactly when the user returned a size of at least 0, and then `sizeRef` holds it. A negative size or an exception gives false and leaves `sizeRef` untouched. |

## Left out

- Native and JNA calls: `g_object_new`, `g_type_register_static` (its result is the `newType` parameter), `gst_base_src_get_type`, `gst_element_class_add_pad_template`, `GstBaseSrcClass.write()`, and the class and instance struct sizes in `GTypeInfo`. Their behaviour lives in the native library.
- The reflection API itself (`getDeclaredMethods`, annotations, `getDeclaredField`, `Method.invoke`, `Field.set`). It is replaced by the method, class and field values given as inputs. The JVM's declared-method order is an input sequence.
- `synchronized (subClass)` and the `ConcurrentHashMap`: concurrency is not modelled, and the cache is sequential.
- `Buffer.disown()` and `Caps.disown()`: the ownership transfer affects native memory only.
- `baseInit` (any-caps pad template), logging, and the `CustomSrc` constructor and `getSubclassType`. These are native wrappers. `getSubclassType` is the `gtype` of the record `GetSubclassInfo` returns.
- The default bodies of the base callbacks (lines 113-191). The adapters reach them only through the user's own override (for example a `super` call), which is part of the user outcome `Invocation`.
- Throwables that are not `Exception`s (a Java `Error`) thrown by a user method that an adapter calls directly: `seekCallback`, `setCapsCallback`, `eventCallback`, `getCapsCallback`, `getTimesCallback`, `fixateCallback`, `getSizeCallback` and both create adapters. Their `catch (Exception)` would let such a throwable escape, and for them `Invocation.Threw` stands for exceptions only. `BooleanFunc1` calls the user method through `Method.invoke`, which wraps any throwable in an exception that its `catch` handles, so for it `BooleanCallback`'s `Threw` stands for any throwable.
- `init` failing partway through. In the source the partly filled record would stay cached. The model's reflection cannot fail.
- The null checks on `getParameterTypes()`: reflection never returns null there, and parameter lists are sequences.
- A user method returning a null `FlowReturn`: flow results are non-null values here.
- `BooleanFunc1`'s constructor, which looks up the base method by name through reflection.
- `GetCapsCallback`: `Caps.copy()` is modelled as the same caps value, because a native copy has no other observable content here.
- `MediaEvent.java`: its only logic is a `toString` concatenation.
