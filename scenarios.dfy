/**
 * A worked subclass: it overrides `srcFillBuffer` exactly and declares a
 * `srcSeek` whose parameter type differs from the base one.
 */
module Scenarios {
  import opened Options
  import opened Reflection
  import opened Slots

  /** The annotated callbacks CustomSrc declares, with their signatures. */
  const CustomSrcCallbacks: seq<Method> := [
    Method("srcCreateBuffer", "FlowReturn", ["long", "int", "Buffer[]"], "CustomSrc", true),
    Method("srcFillBuffer", "FlowReturn", ["long", "int", "Buffer"], "CustomSrc", true),
    Method("srcIsSeekable", "boolean", [], "CustomSrc", true),
    Method("srcSeek", "boolean", ["GstSegmentStruct"], "CustomSrc", true),
    Method("srcStart", "boolean", [], "CustomSrc", true),
    Method("srcStop", "boolean", [], "CustomSrc", true),
    Method("srcNegotiate", "boolean", [], "CustomSrc", true),
    Method("srcGetCaps", "Caps", [], "CustomSrc", true),
    Method("srcSetCaps", "boolean", ["Caps"], "CustomSrc", true),
    Method("srcGetSize", "long", [], "CustomSrc", true),
    Method("srcEvent", "boolean", ["Event"], "CustomSrc", true),
    Method("srcGetTimes", "void", ["Buffer", "long[]", "long[]"], "CustomSrc", true),
    Method("srcFixate", "void", ["Caps"], "CustomSrc", true)
  ]

  /** `MySrc extends CustomSrc`; every class is assignable from itself. */
  function MySrcAssignable(a: ClassName, b: ClassName): bool
  {
    a == b || (a == "CustomSrc" && b == "MySrc")
  }

  const MySrcChain: seq<ClassDecl> := [
    ClassDecl("MySrc", [
      Method("srcFillBuffer", "FlowReturn", ["long", "int", "Buffer"], "MySrc", false),
      Method("srcSeek", "boolean", ["long"], "MySrc", false)
    ]),
    ClassDecl("CustomSrc", CustomSrcCallbacks)
  ]

  /** The search for `srcFillBuffer` stops at MySrc's override. */
  lemma FillBufferOverridden()
    ensures Installation(MySrcAssignable, MySrcChain, CustomSrcCallbacks[1]) == Some((Create, FillBufferAdapter))
  {
    assert OverridesAt(MySrcAssignable, MySrcChain, CustomSrcCallbacks[1], 0, 0);
    FirstOverridingAt(MySrcAssignable, MySrcChain, CustomSrcCallbacks[1], 0, 0);
  }

  /** Every other callback, `srcSeek` included, is found in CustomSrc itself. */
  lemma OthersNotOverridden(k: nat)
    requires k < |CustomSrcCallbacks| && k != 1
    ensures Installation(MySrcAssignable, MySrcChain, CustomSrcCallbacks[k]) == None
  {
    var m := CustomSrcCallbacks[k];
    assert !IsOverridingMethod(MySrcAssignable, m, MySrcChain[0].methods[0]);
    assert !IsOverridingMethod(MySrcAssignable, m, MySrcChain[0].methods[1]);
    assert OverridesAt(MySrcAssignable, MySrcChain, m, 1, k);
    FirstOverridingAt(MySrcAssignable, MySrcChain, m, 1, k);
  }

  /** Only the `create` slot is filled, with the fill-buffer adapter; `seek` stays empty. */
  lemma OnlyFillBufferInstalled()
    ensures AssignSlots(MySrcAssignable, MySrcChain, CustomSrcCallbacks) == map[Create := FillBufferAdapter]
  {
    var insts := Installations(MySrcAssignable, MySrcChain, CustomSrcCallbacks);
    FillBufferOverridden();
    forall k | 0 <= k < |insts| && k != 1 ensures insts[k] == None {
      OthersNotOverridden(k);
    }
    var r := Fold(insts);
    forall s: Slot ensures s in r <==> s == Create {
      FoldAbsent(insts, s);
    }
    FoldLastWins(insts, Create);
    assert r == map[Create := FillBufferAdapter];
  }
}
