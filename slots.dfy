/**
 * The callback slots of a CustomSrc subclass and how `init` fills them.
 *
 * A slot is one per-instance callback field of the native base-source
 * class structure; an adapter is one of the fixed native-callable shims.
 * `init` visits CustomSrc's declared methods and, for each annotated one the
 * subclass overrides, stores that method's adapter in its slot.
 */
module Slots {
  import opened Options
  import opened Reflection

  datatype Slot =
    | Create | Seek | IsSeekable | Start | Stop | Negotiate
    | GetCaps | SetCaps | GetSize | GetTimes | Fixate | Event

  datatype Adapter =
    | FillBufferAdapter | CreateBufferAdapter | SeekAdapter | IsSeekableAdapter
    | StartAdapter | StopAdapter | NegotiateAdapter | SetCapsAdapter
    | GetCapsAdapter | GetSizeAdapter | GetTimesAdapter | FixateAdapter | EventAdapter

  /** The slot each adapter is written for; only the two buffer adapters share one. */
  function AdapterSlot(a: Adapter): (r: Slot)
    ensures r == Create <==> a == FillBufferAdapter || a == CreateBufferAdapter
  {
    match a
    case FillBufferAdapter => Create
    case CreateBufferAdapter => Create
    case SeekAdapter => Seek
    case IsSeekableAdapter => IsSeekable
    case StartAdapter => Start
    case StopAdapter => Stop
    case NegotiateAdapter => Negotiate
    case SetCapsAdapter => SetCaps
    case GetCapsAdapter => GetCaps
    case GetSizeAdapter => GetSize
    case GetTimesAdapter => GetTimes
    case FixateAdapter => Fixate
    case EventAdapter => Event
  }

  /**
   * The fixed table from a base method's name to the slot it fills and the
   * adapter it installs. Each entry pairs an adapter with its own slot, and
   * only the two buffer-producing names fill the create slot.
   */
  function NameTable(name: string): (r: Option<(Slot, Adapter)>)
    ensures r.Some? ==> AdapterSlot(r.value.1) == r.value.0
    ensures r.Some? && r.value.0 == Create <==> name == "srcFillBuffer" || name == "srcCreateBuffer"
  {
    var adapter :=
      if name == "srcSeek" then Some(SeekAdapter)
      else if name == "srcIsSeekable" then Some(IsSeekableAdapter)
      else if name == "srcFillBuffer" then Some(FillBufferAdapter)
      else if name == "srcCreateBuffer" then Some(CreateBufferAdapter)
      else if name == "srcStart" then Some(StartAdapter)
      else if name == "srcStop" then Some(StopAdapter)
      else if name == "srcNegotiate" then Some(NegotiateAdapter)
      else if name == "srcSetCaps" then Some(SetCapsAdapter)
      else if name == "srcGetCaps" then Some(GetCapsAdapter)
      else if name == "srcGetSize" then Some(GetSizeAdapter)
      else if name == "srcGetTimes" then Some(GetTimesAdapter)
      else if name == "srcFixate" then Some(FixateAdapter)
      else if name == "srcEvent" then Some(EventAdapter)
      else None;
    match adapter
    case Some(a) => Some((AdapterSlot(a), a))
    case None => None
  }

  /** Every name but the two buffer-producing ones owns its slot alone. */
  lemma OnlyCreateIsShared(n1: string, n2: string)
    requires n1 != n2 && NameTable(n1).Some? && NameTable(n2).Some?
    requires NameTable(n1).value.0 == NameTable(n2).value.0
    ensures NameTable(n1).value.0 == Create
    ensures {n1, n2} == {"srcFillBuffer", "srcCreateBuffer"}
  {
  }

  /** Each adapter belongs to exactly one name. */
  lemma AdapterDeterminesName(n1: string, n2: string)
    requires NameTable(n1).Some? && NameTable(n2).Some?
    requires NameTable(n1).value.1 == NameTable(n2).value.1
    ensures n1 == n2
  {
  }

  /**
   * The field of the info record, and of the native class structure, that
   * holds a slot: a lower-case C member name, distinct from the record's
   * non-callback fields.
   */
  function SlotField(s: Slot): (r: string)
    ensures r !in {"type", "template", "caps", "classInit", "baseInit"}
    ensures |r| > 0 && forall k :: 0 <= k < |r| ==> 'a' <= r[k] <= 'z' || r[k] == '_'
  {
    match s
    case Create => "create"
    case Seek => "seek"
    case IsSeekable => "is_seekable"
    case Start => "start"
    case Stop => "stop"
    case Negotiate => "negotiate"
    case GetCaps => "get_caps"
    case SetCaps => "set_caps"
    case GetSize => "get_size"
    case GetTimes => "get_times"
    case Fixate => "fixate"
    case Event => "event"
  }

  /** The slot a field name stands for, if any. */
  function FieldSlot(name: string): (r: Option<Slot>)
    ensures r.Some? ==> SlotField(r.value) == name
  {
    if name == "create" then Some(Create)
    else if name == "seek" then Some(Seek)
    else if name == "is_seekable" then Some(IsSeekable)
    else if name == "start" then Some(Start)
    else if name == "stop" then Some(Stop)
    else if name == "negotiate" then Some(Negotiate)
    else if name == "get_caps" then Some(GetCaps)
    else if name == "set_caps" then Some(SetCaps)
    else if name == "get_size" then Some(GetSize)
    else if name == "get_times" then Some(GetTimes)
    else if name == "fixate" then Some(Fixate)
    else if name == "event" then Some(Event)
    else None
  }

  /** Slot names and field names are in one-to-one correspondence. */
  lemma SlotFieldRoundTrip(s: Slot)
    ensures FieldSlot(SlotField(s)) == Some(s)
  {
  }

  /**
   * What one base method contributes in `init`: nothing when it is not
   * annotated, when the search finds nothing, or when the search finds the
   * base method itself; otherwise the table entry for its name.
   */
  function Installation(assignable: Assignable, chain: seq<ClassDecl>, m: Method): (r: Option<(Slot, Adapter)>)
    ensures r.Some? ==> m.annotated && r == NameTable(m.name)
    ensures r.Some? ==>
      && FirstOverriding(assignable, chain, m).Some?
      && !SameMethod(FirstOverriding(assignable, chain, m).value, m)
  {
    if !m.annotated then None
    else match FirstOverriding(assignable, chain, m)
      case None => None
      case Some(found) => if SameMethod(found, m) then None else NameTable(m.name)
  }

  /**
   * A base method installs an adapter exactly when it is annotated, has a
   * table entry, and the method the search finds is declared in another
   * class than the base method.
   */
  lemma InstallationIff(assignable: Assignable, chain: seq<ClassDecl>, m: Method)
    ensures Installation(assignable, chain, m).Some? <==>
      && m.annotated
      && NameTable(m.name).Some?
      && FirstOverriding(assignable, chain, m).Some?
      && FirstOverriding(assignable, chain, m).value.declaringClass != m.declaringClass
    ensures Installation(assignable, chain, m).Some? ==> Installation(assignable, chain, m) == NameTable(m.name)
  {
    if FirstOverriding(assignable, chain, m).Some? {
      FoundOverrides(assignable, chain, m);
    }
  }

  /** A contribution that writes slot `s`. */
  predicate Writes(inst: Option<(Slot, Adapter)>, s: Slot)
  {
    inst.Some? && inst.value.0 == s
  }

  /** Base method `m` writes slot `s`. */
  predicate Installs(assignable: Assignable, chain: seq<ClassDecl>, m: Method, s: Slot)
  {
    Writes(Installation(assignable, chain, m), s)
  }

  /** One step of the slot-assignment loop: sets the contributed slot, if any, and nothing else. */
  function Step(slots: map<Slot, Adapter>, inst: Option<(Slot, Adapter)>): (r: map<Slot, Adapter>)
    ensures forall s :: !Writes(inst, s) ==> (s in r <==> s in slots)
    ensures forall s :: s in slots && !Writes(inst, s) ==> r[s] == slots[s]
    ensures forall s :: Writes(inst, s) ==> s in r && r[s] == inst.value.1
  {
    match inst
    case None => slots
    case Some((s, a)) => slots[s := a]
  }

  /** The slots after applying the contributions `insts` in order to empty slots. */
  function Fold(insts: seq<Option<(Slot, Adapter)>>): map<Slot, Adapter>
    decreases |insts|
  {
    if insts == [] then map[]
    else Step(Fold(insts[..|insts| - 1]), insts[|insts| - 1])
  }

  /** The contributions of the base methods `ms`, in visiting order. */
  function Installations(assignable: Assignable, chain: seq<ClassDecl>, ms: seq<Method>): (r: seq<Option<(Slot, Adapter)>>)
    ensures |r| == |ms|
    ensures forall i :: 0 <= i < |ms| ==> r[i] == Installation(assignable, chain, ms[i])
  {
    seq(|ms|, i requires 0 <= i < |ms| => Installation(assignable, chain, ms[i]))
  }

  /** The slots after `init` has visited the base methods `ms`, in order. */
  function AssignSlots(assignable: Assignable, chain: seq<ClassDecl>, ms: seq<Method>): map<Slot, Adapter>
  {
    Fold(Installations(assignable, chain, ms))
  }

  lemma {:induction false} FoldAbsent(insts: seq<Option<(Slot, Adapter)>>, s: Slot)
    ensures s !in Fold(insts) <==> forall i :: 0 <= i < |insts| ==> !Writes(insts[i], s)
    decreases |insts|
  {
    if insts != [] {
      var front := insts[..|insts| - 1];
      FoldAbsent(front, s);
      assert forall i :: 0 <= i < |front| ==> insts[i] == front[i];
    }
  }

  lemma {:induction false} FoldLastWins(insts: seq<Option<(Slot, Adapter)>>, s: Slot)
    requires s in Fold(insts)
    ensures exists i ::
      && 0 <= i < |insts| && Writes(insts[i], s) && Fold(insts)[s] == insts[i].value.1
      && forall j :: i < j < |insts| ==> !Writes(insts[j], s)
    decreases |insts|
  {
    var front := insts[..|insts| - 1];
    var last := |insts| - 1;
    if !Writes(insts[last], s) {
      FoldLastWins(front, s);
      var i :| && 0 <= i < |front| && Writes(front[i], s) && Fold(front)[s] == front[i].value.1
               && forall j :: i < j < |front| ==> !Writes(front[j], s);
      assert insts[i] == front[i];
      assert forall j :: i < j < last ==> insts[j] == front[j];
    }
  }

  /** A slot is left empty exactly when no visited base method writes it. */
  lemma AssignSlotsAbsent(assignable: Assignable, chain: seq<ClassDecl>, ms: seq<Method>, s: Slot)
    ensures s !in AssignSlots(assignable, chain, ms) <==>
      forall i :: 0 <= i < |ms| ==> !Installs(assignable, chain, ms[i], s)
  {
    FoldAbsent(Installations(assignable, chain, ms), s);
  }

  /**
   * A filled slot holds the adapter of the LAST visited base method that
   * writes it; so of `srcFillBuffer` and `srcCreateBuffer`, which share the
   * `create` slot, the one visited later wins.
   */
  lemma AssignSlotsLastWins(assignable: Assignable, chain: seq<ClassDecl>, ms: seq<Method>, s: Slot)
    requires s in AssignSlots(assignable, chain, ms)
    ensures exists i ::
      && 0 <= i < |ms| && Installs(assignable, chain, ms[i], s)
      && AssignSlots(assignable, chain, ms)[s] == Installation(assignable, chain, ms[i]).value.1
      && forall j :: i < j < |ms| ==> !Installs(assignable, chain, ms[j], s)
  {
    FoldLastWins(Installations(assignable, chain, ms), s);
  }

  /** Visiting one more base method changes at most the slot that method owns. */
  lemma OtherSlotsUnchanged(assignable: Assignable, chain: seq<ClassDecl>, ms: seq<Method>, m: Method, s: Slot)
    requires NameTable(m.name).Some? ==> NameTable(m.name).value.0 != s
    ensures s in AssignSlots(assignable, chain, ms + [m]) <==> s in AssignSlots(assignable, chain, ms)
    ensures s in AssignSlots(assignable, chain, ms) ==>
      AssignSlots(assignable, chain, ms + [m])[s] == AssignSlots(assignable, chain, ms)[s]
  {
    var insts := Installations(assignable, chain, ms + [m]);
    assert insts[..|insts| - 1] == Installations(assignable, chain, ms);
    InstallationIff(assignable, chain, m);
  }

  /**
   * When both buffer-producing methods are overridden, the `create` slot
   * holds the adapter of whichever of them `init` visits last.
   */
  lemma CreateLaterWins(assignable: Assignable, chain: seq<ClassDecl>, ms: seq<Method>, k: nat)
    requires k < |ms| && ms[k].name in {"srcFillBuffer", "srcCreateBuffer"}
    requires Installation(assignable, chain, ms[k]).Some?
    requires forall j :: k < j < |ms| ==> ms[j].name !in {"srcFillBuffer", "srcCreateBuffer"}
    ensures Create in AssignSlots(assignable, chain, ms)
    ensures AssignSlots(assignable, chain, ms)[Create] ==
      if ms[k].name == "srcFillBuffer" then FillBufferAdapter else CreateBufferAdapter
  {
    InstallationIff(assignable, chain, ms[k]);
    assert Installs(assignable, chain, ms[k], Create);
    AssignSlotsAbsent(assignable, chain, ms, Create);
    AssignSlotsLastWins(assignable, chain, ms, Create);
    var i :| 0 <= i < |ms| && Installs(assignable, chain, ms[i], Create) &&
      AssignSlots(assignable, chain, ms)[Create] == Installation(assignable, chain, ms[i]).value.1 &&
      forall j :: i < j < |ms| ==> !Installs(assignable, chain, ms[j], Create);
    InstallationIff(assignable, chain, ms[i]);
    assert ms[i].name in {"srcFillBuffer", "srcCreateBuffer"};
    assert i == k;
  }
}
