/**
 * The per-class registration of CustomSrc subclasses: the info record of
 * one subclass, the `init` routine that fills it, the class-init hook that
 * copies its callback fields into the native class structure, and the
 * process-wide cache from subclass to info record.
 */
module Registry {
  import opened Options
  import opened Reflection
  import opened Slots

  /** The type handle the native type system returns on registration. */
  datatype GType = GType(handle: nat)

  /** A declared field of the native base-source class structure. */
  datatype FieldDecl = FieldDecl(name: string, fieldType: ClassName)

  /**
   * The value a class-structure field holds: null, one of the adapters, or
   * the object held by the info record's non-callback field `field` (a type
   * handle, template, caps or init hook, whose content is native).
   */
  datatype FieldValue = Null | Callback(adapter: Adapter) | InfoRef(field: string)

  /**
   * The declared type of each field of the info record, by name: one field
   * per slot, and besides those exactly the type handle, the pad template,
   * the caps and the two init hooks.
   */
  function InfoFieldType(name: string): (r: Option<ClassName>)
    ensures FieldSlot(name).Some? ==> r.Some?
    ensures FieldSlot(name).None? ==>
      (r.Some? <==> name in {"type", "template", "caps", "classInit", "baseInit"})
  {
    if name == "type" then Some("GType")
    else if name == "template" then Some("PadTemplate")
    else if name == "caps" then Some("Caps")
    else if name == "classInit" then Some("GClassInitFunc")
    else if name == "baseInit" then Some("GBaseInitFunc")
    else if name == "create" then Some("BaseAPI.Create")
    else if name == "seek" then Some("BaseAPI.Seek")
    else if name in {"is_seekable", "start", "stop", "negotiate"} then Some("CustomSrc.BooleanFunc1")
    else if name == "get_caps" then Some("BaseAPI.GetCaps")
    else if name == "set_caps" then Some("BaseAPI.SetCaps")
    else if name == "get_size" then Some("BaseAPI.GetSize")
    else if name == "get_times" then Some("BaseAPI.GetTimes")
    else if name == "fixate" then Some("BaseAPI.Fixate")
    else if name == "event" then Some("BaseAPI.EventNotify")
    else None
  }

  /** Every slot is a declared field of the info record. */
  lemma SlotsAreInfoFields(s: Slot)
    ensures InfoFieldType(SlotField(s)).Some?
  {
  }

  /** The value of the info record's field `name`, given its slots. */
  function InfoFieldValue(slots: map<Slot, Adapter>, name: string): (v: FieldValue)
    ensures v.Callback? ==> FieldSlot(name).Some? && FieldSlot(name).value in slots
    ensures FieldSlot(name).Some? && FieldSlot(name).value !in slots ==> v == Null
    ensures FieldSlot(name).Some? && FieldSlot(name).value in slots ==> v == Callback(slots[FieldSlot(name).value])
  {
    match FieldSlot(name)
    case Some(s) => if s in slots then Callback(slots[s]) else Null
    case None => InfoRef(name)
  }

  /** The class-init hook copies field `f`: the info record has a field of that name whose type `f` accepts. */
  predicate Copyable(assignable: Assignable, f: FieldDecl): (b: bool)
    // a structure field with no same-named info field is skipped
    ensures b ==> InfoFieldType(f.name).Some?
    // otherwise it is copied exactly when its type accepts the info field's type
    ensures InfoFieldType(f.name).Some? ==> (b <==> assignable(f.fieldType, InfoFieldType(f.name).value))
  {
    InfoFieldType(f.name).Some? && assignable(f.fieldType, InfoFieldType(f.name).value)
  }

  /** The class-structure values after the copy loop has visited `fields` in order. */
  function CopyFields(assignable: Assignable, fields: seq<FieldDecl>, slots: map<Slot, Adapter>,
                      values: map<string, FieldValue>): map<string, FieldValue>
  {
    if fields == [] then values
    else
      var f := fields[0];
      var next := if Copyable(assignable, f) then values[f.name := InfoFieldValue(slots, f.name)] else values;
      CopyFields(assignable, fields[1..], slots, next)
  }

  /**
   * After the copy, a field that some declared field of that name made
   * copyable holds the info record's value; any other field is as it was.
   */
  lemma {:induction false} CopyFieldsAt(assignable: Assignable, fields: seq<FieldDecl>, slots: map<Slot, Adapter>,
                                        values: map<string, FieldValue>, name: string)
    ensures (exists i :: 0 <= i < |fields| && fields[i].name == name && Copyable(assignable, fields[i])) ==>
      var r := CopyFields(assignable, fields, slots, values);
      name in r && r[name] == InfoFieldValue(slots, name)
    ensures (forall i :: 0 <= i < |fields| && fields[i].name == name ==> !Copyable(assignable, fields[i])) ==>
      var r := CopyFields(assignable, fields, slots, values);
      (name in r <==> name in values) && (name in values ==> r[name] == values[name])
  {
    if fields != [] {
      var f := fields[0];
      var next := if Copyable(assignable, f) then values[f.name := InfoFieldValue(slots, f.name)] else values;
      CopyFieldsAt(assignable, fields[1..], slots, next, name);
      assert forall i :: 0 < i < |fields| ==> fields[i] == fields[1..][i - 1];
      if exists i :: 0 <= i < |fields| && fields[i].name == name && Copyable(assignable, fields[i]) {
        var i :| 0 <= i < |fields| && fields[i].name == name && Copyable(assignable, fields[i]);
        if i > 0 {
          assert fields[1..][i - 1].name == name && Copyable(assignable, fields[1..][i - 1]);
        } else if !exists k :: 0 <= k < |fields[1..]| && fields[1..][k].name == name && Copyable(assignable, fields[1..][k]) {
          assert name in next && next[name] == InfoFieldValue(slots, name);
        }
      }
    }
  }

  /**
   * A class-structure field named after a slot, whose type accepts the
   * info record's field, ends up holding that slot's adapter when the
   * subclass overrode it and null when it did not.
   */
  lemma SlotFieldCopied(assignable: Assignable, fields: seq<FieldDecl>, slots: map<Slot, Adapter>,
                        values: map<string, FieldValue>, k: nat, s: Slot)
    requires k < |fields| && fields[k].name == SlotField(s) && Copyable(assignable, fields[k])
    ensures SlotField(s) in CopyFields(assignable, fields, slots, values)
    ensures CopyFields(assignable, fields, slots, values)[SlotField(s)] ==
      if s in slots then Callback(slots[s]) else Null
  {
    CopyFieldsAt(assignable, fields, slots, values, SlotField(s));
    SlotFieldRoundTrip(s);
  }

  /** The native base-source class structure, as the class-init hook sees it. */
  class BaseSrcClassStruct {
    const fields: seq<FieldDecl>
    var values: map<string, FieldValue>

    constructor (fields: seq<FieldDecl>, values: map<string, FieldValue>)
      ensures this.fields == fields && this.values == values
    {
      this.fields := fields;
      this.values := values;
    }
  }

  /** The info record of one subclass. */
  class CustomSrcInfo {
    var gtype: Option<GType>
    var slots: map<Slot, Adapter>

    constructor ()
      ensures gtype == None && slots == map[]
    {
      gtype := None;
      slots := map[];
    }

    /**
     * The class-init hook: for each declared field of the class structure,
     * in order, copy the info record's field of the same name when there is
     * one and its type is accepted; fields without a counterpart are skipped.
     */
    method ClassInit(assignable: Assignable, base: BaseSrcClassStruct)
      modifies base
      ensures base.values == CopyFields(assignable, base.fields, slots, old(base.values))
    {
      var i := 0;
      while i < |base.fields|
        invariant 0 <= i <= |base.fields|
        invariant CopyFields(assignable, base.fields, slots, old(base.values)) ==
                  CopyFields(assignable, base.fields[i..], slots, base.values)
      {
        var f := base.fields[i];
        if Copyable(assignable, f) {
          base.values := base.values[f.name := InfoFieldValue(slots, f.name)];
        }
        assert base.fields[i..][1..] == base.fields[i + 1..];
        i := i + 1;
      }
    }
  }

  /** A sequence without repeated elements has as many distinct elements as entries. */
  lemma {:induction false} DistinctCount(s: seq<ClassName>)
    requires forall i, j :: 0 <= i < j < |s| ==> s[i] != s[j]
    ensures |set c | c in s| == |s|
  {
    if s != [] {
      var rest := s[1..];
      DistinctCount(rest);
      assert (set c | c in s) == {s[0]} + (set c | c in rest);
      assert s[0] !in rest;
    }
  }

  /** The process-wide cache from subclass to info record. */
  class SubclassRegistry {
    var infos: map<ClassName, CustomSrcInfo>
    /** The subclasses registered with the native type system, in order. */
    var registrations: seq<ClassName>

    /** Every cached class was registered once, and only cached classes were registered. */
    ghost predicate Valid()
      reads this
    {
      && (forall c :: c in infos <==> c in registrations)
      && (forall i, j :: 0 <= i < j < |registrations| ==> registrations[i] != registrations[j])
    }

    constructor ()
      ensures Valid() && infos == map[] && registrations == []
    {
      infos := map[];
      registrations := [];
    }

    /**
     * `init`: creates the info record and caches it before filling it, then
     * visits CustomSrc's declared methods `baseMethods` in order, storing an
     * adapter for each annotated one the subclass overrides, and finally
     * registers the subclass with the native type system, which answers
     * `newType`.
     */
    method Init(assignable: Assignable, baseMethods: seq<Method>, srcClass: ClassName,
                chain: seq<ClassDecl>, newType: GType) returns (info: CustomSrcInfo)
      modifies this
      ensures fresh(info)
      ensures infos == old(infos)[srcClass := info]
      ensures info.slots == AssignSlots(assignable, chain, baseMethods)
      ensures info.gtype == Some(newType)
      ensures registrations == old(registrations) + [srcClass]
    {
      info := new CustomSrcInfo();
      infos := infos[srcClass := info];
      var i := 0;
      while i < |baseMethods|
        invariant 0 <= i <= |baseMethods|
        invariant infos == old(infos)[srcClass := info]
        invariant registrations == old(registrations)
        invariant info.gtype == None
        invariant info.slots == AssignSlots(assignable, chain, baseMethods[..i])
      {
        var m := baseMethods[i];
        assert Installations(assignable, chain, baseMethods[..i + 1])[..i] ==
               Installations(assignable, chain, baseMethods[..i]);
        i := i + 1;
        if !m.annotated {
          continue;
        }
        var srcMethod := FindOverridingMethod(assignable, chain, m);
        if srcMethod.None? {
          continue;
        }
        if SameMethod(srcMethod.value, m) {
          continue;
        }
        match NameTable(m.name)
        case Some((slot, adapter)) =>
          info.slots := info.slots[slot := adapter];
        case None =>
      }
      assert baseMethods[..i] == baseMethods;
      registrations := registrations + [srcClass];
      info.gtype := Some(newType);
    }

    /**
     * `getSubclassInfo`: the cached record for `subClass`; on a miss `init`
     * runs once and the record it cached is returned.
     */
    method GetSubclassInfo(assignable: Assignable, baseMethods: seq<Method>, subClass: ClassName,
                           chain: seq<ClassDecl>, newType: GType) returns (info: CustomSrcInfo)
      requires Valid()
      modifies this
      ensures Valid()
      ensures subClass in infos && info == infos[subClass]
      ensures unchanged(old(infos.Values))
      ensures subClass in old(infos) ==>
        info == old(infos[subClass]) && infos == old(infos) && registrations == old(registrations)
      ensures subClass !in old(infos) ==>
        && fresh(info)
        && infos == old(infos)[subClass := info]
        && registrations == old(registrations) + [subClass]
        && info.slots == AssignSlots(assignable, chain, baseMethods)
        && info.gtype == Some(newType)
    {
      if subClass !in infos {
        var created := Init(assignable, baseMethods, subClass, chain, newType);
      }
      info := infos[subClass];
    }

    /** There are exactly as many native registrations as cached subclasses. */
    lemma RegistrationsMatchCache()
      requires Valid()
      ensures |infos| == |registrations|
    {
      DistinctCount(registrations);
      assert infos.Keys == set c | c in registrations;
    }
  }

  /**
   * Looking the same subclass up twice yields the same record, and the
   * native type system is asked at most once.
   */
  method LookupTwice(registry: SubclassRegistry, assignable: Assignable, baseMethods: seq<Method>,
                     subClass: ClassName, chain: seq<ClassDecl>, t1: GType, t2: GType)
    returns (first: CustomSrcInfo, second: CustomSrcInfo)
    requires registry.Valid()
    modifies registry
    ensures registry.Valid()
    ensures first == second
    ensures |registry.registrations| <= |old(registry.registrations)| + 1
    ensures first.slots == second.slots && first.gtype == second.gtype
  {
    first := registry.GetSubclassInfo(assignable, baseMethods, subClass, chain, t1);
    second := registry.GetSubclassInfo(assignable, baseMethods, subClass, chain, t2);
  }
}
