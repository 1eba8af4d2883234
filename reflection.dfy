/**
 * Override detection for CustomSrc subclasses.
 *
 * Java reflection is abstracted to values: a class is its name and the
 * methods it declares, a superclass chain is a sequence of classes with the
 * most-derived class first, and the subtype relation of the running program
 * is an input predicate.
 */
module Reflection {
  import opened Options

  /** A Java class (or primitive type) name. */
  type ClassName = string

  /** `assignable(a, b)` stands for `a.isAssignableFrom(b)`. */
  type Assignable = (ClassName, ClassName) -> bool

  /**
   * A declared method as reflection reports it. `annotated` says whether
   * the method carries the SrcCallback annotation.
   */
  datatype Method = Method(
    name: string,
    returnType: ClassName,
    paramTypes: seq<ClassName>,
    declaringClass: ClassName,
    annotated: bool)

  /** A class and the methods it declares, in declared order. */
  datatype ClassDecl = ClassDecl(name: ClassName, methods: seq<Method>)

  /**
   * `m2` overrides `m1`: declared in `m1`'s class or a subclass of it, with
   * the same name, return type and parameter types (no widening).
   */
  predicate IsOverridingMethod(assignable: Assignable, m1: Method, m2: Method): (b: bool)
    // an override declared in the base method's own class is the base method itself
    ensures b && m1.declaringClass == m2.declaringClass ==> SameMethod(m1, m2)
    // the base method counts as its own override, as `isAssignableFrom` is reflexive
    ensures SameMethod(m1, m2) && assignable(m1.declaringClass, m1.declaringClass) ==> b
  {
    && assignable(m1.declaringClass, m2.declaringClass)
    && m1.name == m2.name
    && m1.returnType == m2.returnType
    && m1.paramTypes == m2.paramTypes
  }

  /**
   * Java's `Method.equals`: same declaring class, name, return and parameter
   * types. It agrees with equality of everything reflection reports except
   * the annotation.
   */
  predicate SameMethod(m1: Method, m2: Method): (b: bool)
    ensures b <==> m1.(annotated := m2.annotated) == m2
  {
    && m1.declaringClass == m2.declaringClass
    && m1.name == m2.name
    && m1.returnType == m2.returnType
    && m1.paramTypes == m2.paramTypes
  }

  /** The override relation spelled out parameter by parameter, as `Arrays.equals` compares. */
  lemma OverridingElementwise(assignable: Assignable, m1: Method, m2: Method)
    ensures IsOverridingMethod(assignable, m1, m2) <==>
      && assignable(m1.declaringClass, m2.declaringClass)
      && m1.name == m2.name
      && m1.returnType == m2.returnType
      && |m1.paramTypes| == |m2.paramTypes|
      && (forall k :: 0 <= k < |m1.paramTypes| ==> m1.paramTypes[k] == m2.paramTypes[k])
  {
    if |m1.paramTypes| == |m2.paramTypes| &&
       (forall k :: 0 <= k < |m1.paramTypes| ==> m1.paramTypes[k] == m2.paramTypes[k]) {
      assert m1.paramTypes == m2.paramTypes;
    }
  }

  /** A same-named method whose parameter types differ is never an override. */
  lemma NameAloneIsNotOverriding(assignable: Assignable, m1: Method, m2: Method)
    requires m1.name == m2.name && m1.paramTypes != m2.paramTypes
    ensures !IsOverridingMethod(assignable, m1, m2)
  {
  }

  /** The first method of `ms` that overrides `base`, in declared order. */
  function FirstInClass(assignable: Assignable, ms: seq<Method>, base: Method): Option<Method>
  {
    if ms == [] then None
    else if IsOverridingMethod(assignable, base, ms[0]) then Some(ms[0])
    else FirstInClass(assignable, ms[1..], base)
  }

  /** The first overriding method met walking `chain` from the most-derived class up. */
  function FirstOverriding(assignable: Assignable, chain: seq<ClassDecl>, base: Method): Option<Method>
  {
    if chain == [] then None
    else match FirstInClass(assignable, chain[0].methods, base)
      case Some(m) => Some(m)
      case None => FirstOverriding(assignable, chain[1..], base)
  }

  /** Method `j` of class `i` of the chain overrides `base`. */
  ghost predicate OverridesAt(assignable: Assignable, chain: seq<ClassDecl>, base: Method, i: int, j: int)
  {
    && 0 <= i < |chain|
    && 0 <= j < |chain[i].methods|
    && IsOverridingMethod(assignable, base, chain[i].methods[j])
  }

  /** No method before position (i, j) in scan order overrides `base`. */
  ghost predicate NoneBefore(assignable: Assignable, chain: seq<ClassDecl>, base: Method, i: int, j: int)
  {
    forall i', j' :: 0 <= i' < |chain| && 0 <= j' < |chain[i'].methods| && (i' < i || (i' == i && j' < j)) ==>
      !IsOverridingMethod(assignable, base, chain[i'].methods[j'])
  }

  /** No method anywhere in the chain overrides `base`. */
  ghost predicate NoneInChain(assignable: Assignable, chain: seq<ClassDecl>, base: Method)
  {
    forall i, j :: 0 <= i < |chain| && 0 <= j < |chain[i].methods| ==>
      !IsOverridingMethod(assignable, base, chain[i].methods[j])
  }

  lemma {:induction false} FirstInClassSpec(assignable: Assignable, ms: seq<Method>, base: Method)
    ensures FirstInClass(assignable, ms, base).None? <==>
      forall j :: 0 <= j < |ms| ==> !IsOverridingMethod(assignable, base, ms[j])
    ensures FirstInClass(assignable, ms, base).Some? ==>
      exists j :: 0 <= j < |ms| && ms[j] == FirstInClass(assignable, ms, base).value &&
        IsOverridingMethod(assignable, base, ms[j]) &&
        forall j' :: 0 <= j' < j ==> !IsOverridingMethod(assignable, base, ms[j'])
  {
    if ms != [] && !IsOverridingMethod(assignable, base, ms[0]) {
      FirstInClassSpec(assignable, ms[1..], base);
      var r := FirstInClass(assignable, ms[1..], base);
      if r.Some? {
        var j :| 0 <= j < |ms[1..]| && ms[1..][j] == r.value &&
          IsOverridingMethod(assignable, base, ms[1..][j]) &&
          forall j' :: 0 <= j' < j ==> !IsOverridingMethod(assignable, base, ms[1..][j']);
        assert ms[j + 1] == r.value;
        assert forall j' :: 0 <= j' < j + 1 ==> !IsOverridingMethod(assignable, base, ms[j']) by {
          forall j' | 0 <= j' < j + 1 ensures !IsOverridingMethod(assignable, base, ms[j']) {
            if j' > 0 { assert ms[j'] == ms[1..][j' - 1]; }
          }
        }
      } else {
        forall j | 0 <= j < |ms| ensures !IsOverridingMethod(assignable, base, ms[j]) {
          if j > 0 { assert ms[j] == ms[1..][j - 1]; }
        }
      }
    }
  }

  /**
   * The reference search returns the first overriding method in scan
   * order (classes from most-derived up, methods in declared order), and
   * nothing exactly when no class of the chain declares one.
   */
  lemma {:induction false} FirstOverridingSpec(assignable: Assignable, chain: seq<ClassDecl>, base: Method)
    ensures FirstOverriding(assignable, chain, base).None? <==> NoneInChain(assignable, chain, base)
    ensures FirstOverriding(assignable, chain, base).Some? ==>
      exists i, j :: OverridesAt(assignable, chain, base, i, j) &&
        chain[i].methods[j] == FirstOverriding(assignable, chain, base).value &&
        NoneBefore(assignable, chain, base, i, j)
  {
    if chain != [] {
      var ms := chain[0].methods;
      FirstInClassSpec(assignable, ms, base);
      match FirstInClass(assignable, ms, base)
      case Some(m) =>
        var j :| 0 <= j < |ms| && ms[j] == m && IsOverridingMethod(assignable, base, ms[j]) &&
          forall j' :: 0 <= j' < j ==> !IsOverridingMethod(assignable, base, ms[j']);
        assert OverridesAt(assignable, chain, base, 0, j);
        assert NoneBefore(assignable, chain, base, 0, j);
      case None =>
        var rest := chain[1..];
        FirstOverridingSpec(assignable, rest, base);
        assert forall i :: 0 < i < |chain| ==> chain[i] == rest[i - 1];
        if FirstOverriding(assignable, rest, base).Some? {
          var i, j :| OverridesAt(assignable, rest, base, i, j) &&
            rest[i].methods[j] == FirstOverriding(assignable, rest, base).value &&
            NoneBefore(assignable, rest, base, i, j);
          assert OverridesAt(assignable, chain, base, i + 1, j);
          forall i', j' | 0 <= i' < |chain| && 0 <= j' < |chain[i'].methods| && (i' < i + 1 || (i' == i + 1 && j' < j))
            ensures !IsOverridingMethod(assignable, base, chain[i'].methods[j'])
          {
            if i' > 0 { assert chain[i'] == rest[i' - 1]; }
          }
        } else {
          forall i, j | 0 <= i < |chain| && 0 <= j < |chain[i].methods|
            ensures !IsOverridingMethod(assignable, base, chain[i].methods[j])
          {
            if i > 0 { assert chain[i] == rest[i - 1]; }
          }
        }
    }
  }

  /** Conversely, an overriding method with none before it in scan order is what the search finds. */
  lemma FirstOverridingAt(assignable: Assignable, chain: seq<ClassDecl>, base: Method, i: int, j: int)
    requires OverridesAt(assignable, chain, base, i, j) && NoneBefore(assignable, chain, base, i, j)
    ensures FirstOverriding(assignable, chain, base) == Some(chain[i].methods[j])
  {
    FirstOverridingSpec(assignable, chain, base);
    var i', j' :| OverridesAt(assignable, chain, base, i', j') &&
      chain[i'].methods[j'] == FirstOverriding(assignable, chain, base).value &&
      NoneBefore(assignable, chain, base, i', j');
    assert i' == i && j' == j;
  }

  /** Whatever the search finds overrides `base`. */
  lemma FoundOverrides(assignable: Assignable, chain: seq<ClassDecl>, base: Method)
    requires FirstOverriding(assignable, chain, base).Some?
    ensures IsOverridingMethod(assignable, base, FirstOverriding(assignable, chain, base).value)
  {
    FirstOverridingSpec(assignable, chain, base);
  }

  /**
   * `findOverridingMethod`: scans the chain from the most-derived class
   * upward and each class's methods in declared order, returning the first
   * method that overrides `base`, or nothing.
   */
  method FindOverridingMethod(assignable: Assignable, chain: seq<ClassDecl>, base: Method) returns (r: Option<Method>)
    ensures r == FirstOverriding(assignable, chain, base)
    ensures r.None? <==> NoneInChain(assignable, chain, base)
    ensures r.Some? ==>
      exists i, j :: OverridesAt(assignable, chain, base, i, j) &&
        chain[i].methods[j] == r.value && NoneBefore(assignable, chain, base, i, j)
  {
    FirstOverridingSpec(assignable, chain, base);
    var k := 0;
    while k < |chain|
      invariant 0 <= k <= |chain|
      invariant FirstOverriding(assignable, chain, base) == FirstOverriding(assignable, chain[k..], base)
    {
      var ms := chain[k].methods;
      var l := 0;
      while l < |ms|
        invariant 0 <= l <= |ms|
        invariant FirstInClass(assignable, ms, base) == FirstInClass(assignable, ms[l..], base)
      {
        if IsOverridingMethod(assignable, base, ms[l]) {
          r := Some(ms[l]);
          return;
        }
        assert ms[l..][1..] == ms[l + 1..];
        l := l + 1;
      }
      assert chain[k..][1..] == chain[k + 1..];
      k := k + 1;
    }
    r := None;
  }
}
