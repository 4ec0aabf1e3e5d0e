/**
  Collection of the private names that a class body declares.

  A private name may be declared once, or twice as one getter and one setter that are both static or
  both not. `CollectClassPrivateNames` is the analyzer's single pass over the body followed by its
  marking pass; the lemmas say what that pass decides in terms of pairs of declarations.
 */
module PrivateNames {
  import opened Ast
  import opened ParseErrors

  datatype Usage = Usage(isStatic: bool, hasGetter: bool, hasSetter: bool)

  predicate IsGet(e: Element) { e.Method? && e.kind.Get? }
  predicate IsSet(e: Element) { e.Method? && e.kind.Set? }
  predicate IsAccessor(e: Element) { IsGet(e) || IsSet(e) }

  /** The usage recorded for the first declaration of a name. */
  function FirstUsage(e: Element): Usage {
    Usage(e.Method? && e.isStatic, !IsSet(e), !IsGet(e))
  }

  /** The usage recorded after one more declaration of a name. */
  function LaterUsage(u: Usage, e: Element): Usage {
    if IsGet(e) then u.(hasGetter := true) else if IsSet(e) then u.(hasSetter := true) else u
  }

  /** Whether a declaration clashes with the usage recorded by earlier declarations of its name. */
  predicate Clashes(u: Usage, e: Element) {
    if IsGet(e) then u.hasGetter || e.isStatic != u.isStatic
    else if IsSet(e) then u.hasSetter || e.isStatic != u.isStatic
    else true
  }

  /** The usages after one more element. */
  function Recorded(names: map<Name, Usage>, e: Element): map<Name, Usage> {
    if !e.key.Private? then names
    else if e.key.name in names then names[e.key.name := LaterUsage(names[e.key.name], e)]
    else names[e.key.name := FirstUsage(e)]
  }

  /** The usages recorded by a prefix of a class body. */
  function Usages(els: seq<Element>): map<Name, Usage> {
    if els == [] then map[] else Recorded(Usages(els[..|els| - 1]), els[|els| - 1])
  }

  /** Whether an element completes the usage of a repeated name. */
  predicate Completes(names: map<Name, Usage>, e: Element) {
    && e.key.Private? && e.Method? && e.key.name in names
    && LaterUsage(names[e.key.name], e).hasGetter && LaterUsage(names[e.key.name], e).hasSetter
  }

  /** The errors for a single declaration, given the usages recorded before it. */
  function DeclarationErrors(names: map<Name, Usage>, e: Element): seq<Error> {
    if !e.key.Private? then []
    else
      (if e.key.name in names && Clashes(names[e.key.name], e) then [DuplicatePrivateName(e.key.name)] else [])
      + (if e.key.name == HASH_CONSTRUCTOR then [PrivateNameConstructor] else [])
  }

  function PrivateErrors(els: seq<Element>): seq<Error> {
    if els == [] then []
    else
      var rest := els[..|els| - 1];
      PrivateErrors(rest) + DeclarationErrors(Usages(rest), els[|els| - 1])
  }

  predicate Declares(els: seq<Element>, i: int, name: Name) {
    0 <= i < |els| && els[i].key == Private(name)
  }

  /** Element `i` is the first accessor of a name that ends up with both a getter and a setter. */
  predicate StartsPair(els: seq<Element>, i: int)
    requires 0 <= i < |els|
  {
    var e := els[i];
    && e.key.Private? && IsAccessor(e)
    && e.key.name in Usages(els)
    && Usages(els)[e.key.name].hasGetter && Usages(els)[e.key.name].hasSetter
    && forall j | 0 <= j < i :: !(Declares(els, j, e.key.name) && IsAccessor(els[j]))
  }

  /** The pass over the class body, followed by the marking pass if an accessor pair was seen. */
  method CollectClassPrivateNames(els: seq<Element>)
    returns (names: map<Name, Usage>, errors: seq<Error>, starts: seq<bool>)
    ensures names == Usages(els)
    ensures errors == PrivateErrors(els)
    ensures |starts| == |els|
    ensures forall i | 0 <= i < |els| :: starts[i] == StartsPair(els, i)
  {
    hide Recorded, Usages, PrivateErrors, DeclarationErrors, Completes, NoPair, StartsPair;
    NothingRecorded();
    assert els[..0] == [];
    names, errors := map[], [];
    var hasAccessorPair := false;
    for i := 0 to |els|
      invariant names == Usages(els[..i])
      invariant errors == PrivateErrors(els[..i])
      invariant !hasAccessorPair ==> NoPair(els[..i])
    {
      OneMoreElement(els, i);
      var completed, errs;
      names, errs, completed := Declare(names, els[i]);
      errors := errors + errs;
      hasAccessorPair := hasAccessorPair || completed;
    }
    assert els[..|els|] == els;
    if hasAccessorPair {
      starts := MarkPairStarts(els, names);
    } else {
      NoPairStarts(els);
      starts := seq(|els|, _ => false);
    }
  }

  /** Records one class element, and says whether it completed the usage of a repeated name. */
  method Declare(names: map<Name, Usage>, e: Element)
    returns (names': map<Name, Usage>, errors: seq<Error>, completed: bool)
    ensures names' == Recorded(names, e)
    ensures errors == DeclarationErrors(names, e)
    ensures completed <==> Completes(names, e)
  {
    names', errors, completed := names, [], false;
    if !e.key.Private? { return; }
    var name := e.key.name;
    if e.Property? {
      if name !in names {
        names' := names[name := Usage(false, true, true)];
      } else {
        errors := [DuplicatePrivateName(name)];
      }
    } else if name !in names {
      var usage :=
        if e.kind.Get? then Usage(e.isStatic, true, false)
        else if e.kind.Set? then Usage(e.isStatic, false, true)
        else Usage(e.isStatic, true, true);
      names' := names[name := usage];
    } else {
      var usage := names[name];
      var isDuplicate := true;
      if e.kind.Get? {
        isDuplicate := usage.hasGetter || e.isStatic != usage.isStatic;
        usage := usage.(hasGetter := true);
      } else if e.kind.Set? {
        isDuplicate := usage.hasSetter || e.isStatic != usage.isStatic;
        usage := usage.(hasSetter := true);
      }
      names' := names[name := usage];
      completed := usage.hasGetter && usage.hasSetter;
      if isDuplicate {
        errors := [DuplicatePrivateName(name)];
      }
    }
    if name == HASH_CONSTRUCTOR {
      errors := errors + [PrivateNameConstructor];
    }
  }

  method MarkPairStarts(els: seq<Element>, names: map<Name, Usage>) returns (starts: seq<bool>)
    requires names == Usages(els)
    ensures |starts| == |els|
    ensures forall i | 0 <= i < |els| :: starts[i] == StartsPair(els, i)
  {
    starts := [];
    var marked: set<Name> := {};
    for i := 0 to |els|
      invariant |starts| == i
      invariant forall j | 0 <= j < i :: starts[j] == StartsPair(els, j)
      invariant forall n :: n in marked <==>
        n in names && names[n].hasGetter && names[n].hasSetter
        && exists j | 0 <= j < i :: Declares(els, j, n) && IsAccessor(els[j])
    {
      var e := els[i];
      var start := false;
      if e.key.Private? && e.Method? && (e.kind.Get? || e.kind.Set?) {
        DeclaredIsRecorded(els, i);
        var usage := names[e.key.name];
        if usage.hasGetter && usage.hasSetter && e.key.name !in marked {
          marked := marked + {e.key.name};
          start := true;
        }
      }
      starts := starts + [start];
    }
  }

  /** No accessor belongs to a name with both a getter and a setter. */
  ghost predicate NoPair(els: seq<Element>) {
    forall i | 0 <= i < |els| && els[i].key.Private? && IsAccessor(els[i]) ::
      els[i].key.name in Usages(els)
      && !(Usages(els)[els[i].key.name].hasGetter && Usages(els)[els[i].key.name].hasSetter)
  }

  /** A body without a pair stays so, unless its next element completes the usage of a repeated name. */
  lemma PairFound(els: seq<Element>, e: Element)
    ensures (NoPair(els) ==> NoPair(els + [e])) || Completes(Usages(els), e)
  {
    assert (els + [e])[..|els|] == els;
    forall i | 0 <= i < |els| + 1 && (els + [e])[i].key.Private? ensures (els + [e])[i].key.name in Usages(els + [e]) {
      DeclaredIsRecorded(els + [e], i);
    }
  }

  lemma NothingRecorded()
    ensures Usages([]) == map[] && PrivateErrors([]) == [] && NoPair([])
  {
  }

  /** One more element of a class body. */
  lemma OneMoreElement(els: seq<Element>, i: nat)
    requires i < |els|
    ensures Usages(els[..i + 1]) == Recorded(Usages(els[..i]), els[i])
    ensures PrivateErrors(els[..i + 1]) == PrivateErrors(els[..i]) + DeclarationErrors(Usages(els[..i]), els[i])
    ensures (NoPair(els[..i]) ==> NoPair(els[..i + 1])) || Completes(Usages(els[..i]), els[i])
  {
    hide Recorded, DeclarationErrors, Completes, NoPair;
    assert els[..i + 1][..i] == els[..i];
    assert els[..i] + [els[i]] == els[..i + 1];
    PairFound(els[..i], els[i]);
  }

  /** Without a pair no element starts one. */
  lemma NoPairStarts(els: seq<Element>)
    requires NoPair(els)
    ensures forall i | 0 <= i < |els| :: !StartsPair(els, i)
  {
    hide Usages;
  }

  lemma {:induction false} DeclaredIsRecorded(els: seq<Element>, i: int)
    requires 0 <= i < |els| && els[i].key.Private?
    ensures els[i].key.name in Usages(els)
  {
    if i < |els| - 1 {
      DeclaredIsRecorded(els[..|els| - 1], i);
    }
  }

  // What the recorded usages mean.

  ghost predicate IsFirst(els: seq<Element>, i: int, name: Name) {
    Declares(els, i, name) && forall j | 0 <= j < i :: !Declares(els, j, name)
  }

  /** Element `i` is the first declaration of a name, and with the later accessors explains its usage. */
  ghost predicate Explains(els: seq<Element>, i: int, name: Name)
    requires name in Usages(els)
  {
    var u := Usages(els)[name];
    && IsFirst(els, i, name)
    && u.isStatic == FirstUsage(els[i]).isStatic
    && (u.hasGetter <==> FirstUsage(els[i]).hasGetter || exists j :: Declares(els, j, name) && IsGet(els[j]))
    && (u.hasSetter <==> FirstUsage(els[i]).hasSetter || exists j :: Declares(els, j, name) && IsSet(els[j]))
  }

  lemma {:induction false} UsagesMeaning(els: seq<Element>, name: Name)
    ensures name in Usages(els) <==> exists i :: Declares(els, i, name)
    ensures name in Usages(els) ==> exists i :: Explains(els, i, name)
  {
    if els != [] {
      var n := |els| - 1;
      var rest := els[..n];
      UsagesMeaning(rest, name);
      assert forall j :: Declares(rest, j, name) <==> Declares(els, j, name) && j < n;
      if name in Usages(rest) {
        var i :| Explains(rest, i, name);
        assert Explains(els, i, name);
      } else if Declares(els, n, name) {
        assert Explains(els, n, name);
      }
    }
  }

  /** One getter and one setter with the same staticness. */
  predicate Complementary(a: Element, b: Element) {
    ((IsGet(a) && IsSet(b)) || (IsSet(a) && IsGet(b))) && a.isStatic == b.isStatic
  }

  /** Every two declarations of the same private name are a getter and a setter of equal staticness. */
  ghost predicate NoDuplicates(els: seq<Element>) {
    forall i, j, name | 0 <= i < j < |els| && Declares(els, i, name) && Declares(els, j, name) ::
      Complementary(els[i], els[j])
  }

  predicate ReportsDuplicate(errors: seq<Error>) {
    exists i | 0 <= i < |errors| :: errors[i].DuplicatePrivateName?
  }

  /**
    Soundness and completeness of the duplicate check: a class body is free of duplicate errors
    exactly when each private name is declared once or as a matching accessor pair.
   */
  lemma {:induction false} DuplicatesReported(els: seq<Element>)
    ensures !ReportsDuplicate(PrivateErrors(els)) <==> NoDuplicates(els)
  {
    if els != [] {
      var n := |els| - 1;
      var rest, e := els[..n], els[n];
      DuplicatesReported(rest);
      var last := DeclarationErrors(Usages(rest), e);
      var before := PrivateErrors(rest);
      assert PrivateErrors(els) == before + last;
      assert ReportsDuplicate(before + last) <==> ReportsDuplicate(before) || ReportsDuplicate(last) by {
        if ReportsDuplicate(before) {
          var k :| 0 <= k < |before| && before[k].DuplicatePrivateName?;
          assert (before + last)[k].DuplicatePrivateName?;
        }
        if ReportsDuplicate(last) {
          var k :| 0 <= k < |last| && last[k].DuplicatePrivateName?;
          assert (before + last)[|before| + k].DuplicatePrivateName?;
        }
      }
      assert NoDuplicates(els) ==> NoDuplicates(rest) by {
        assert forall i, name :: Declares(rest, i, name) ==> Declares(els, i, name);
      }
      if NoDuplicates(rest) {
        LastDeclaration(els);
      }
    }
  }

  /** In a body whose earlier part has no duplicates, the last element clashes exactly when it breaks the rule. */
  lemma LastDeclaration(els: seq<Element>)
    requires els != []
    requires NoDuplicates(els[..|els| - 1])
    ensures
      var rest := els[..|els| - 1];
      !ReportsDuplicate(DeclarationErrors(Usages(rest), els[|els| - 1])) <==> NoDuplicates(els)
  {
    var n := |els| - 1;
    var rest, e := els[..n], els[n];
    assert forall i, name :: Declares(rest, i, name) <==> Declares(els, i, name) && i < n;
    var errors := DeclarationErrors(Usages(rest), e);
    if e.key.Private? {
      var name := e.key.name;
      ClashMeaning(rest, e);
      assert Declares(els, n, name);
      if name in Usages(rest) && Clashes(Usages(rest)[name], e) {
        assert errors[0].DuplicatePrivateName?;
      }
      if i :| Declares(rest, i, name) && !Complementary(rest[i], e) {
        assert Declares(els, i, name) && !Complementary(els[i], els[n]);
        assert !NoDuplicates(els);
      }
    }
  }

  /** Every two declarations of a name are a getter and a setter of equal staticness. */
  ghost predicate DeclaredOnce(els: seq<Element>, name: Name) {
    forall i, j | 0 <= i < j < |els| && Declares(els, i, name) && Declares(els, j, name) ::
      Complementary(els[i], els[j])
  }

  /** One more declaration of a name without duplicates clashes with an earlier one, or matches all of them. */
  lemma ClashMeaning(els: seq<Element>, e: Element)
    requires e.key.Private? && DeclaredOnce(els, e.key.name)
    ensures
      var name := e.key.name;
      (name in Usages(els) && Clashes(Usages(els)[name], e))
      <==> exists i :: Declares(els, i, name) && !Complementary(els[i], e)
  {
    var name := e.key.name;
    UsagesMeaning(els, name);
    if name in Usages(els) {
      var f :| Explains(els, f, name);
      if !Clashes(Usages(els)[name], e) {
        forall i | Declares(els, i, name) ensures Complementary(els[i], e) {
          assert i == f || Complementary(els[f], els[i]);
        }
      } else if Complementary(els[f], e) {
        // A third declaration, of the same kind as the new one, was recorded.
        var i :| Declares(els, i, name) && IsGet(els[i]) == IsGet(e) && IsSet(els[i]) == IsSet(e);
        assert !Complementary(els[i], e);
      }
    }
  }

  /** The duplicate errors of a class body name exactly the names with two declarations that are no accessor pair. */
  lemma {:induction false} DuplicateNames(els: seq<Element>, name: Name)
    ensures DuplicatePrivateName(name) in PrivateErrors(els) <==> !DeclaredOnce(els, name)
  {
    if els != [] {
      var n := |els| - 1;
      var rest, e := els[..n], els[n];
      DuplicateNames(rest, name);
      OneMoreOfName(els, name);
      hide DeclaredOnce, Usages, Clashes;
      if DeclaredOnce(rest, name) && e.key == Private(name) { ClashMeaning(rest, e); }
      assert DuplicatePrivateName(name) in DeclarationErrors(Usages(rest), e)
        <==> e.key == Private(name) && name in Usages(rest) && Clashes(Usages(rest)[name], e);
      hide DeclarationErrors, Declares;
    }
  }

  lemma OneMoreOfName(els: seq<Element>, name: Name)
    requires els != []
    ensures
      var rest, e := els[..|els| - 1], els[|els| - 1];
      DeclaredOnce(els, name)
      <==> DeclaredOnce(rest, name)
           && !(e.key == Private(name) && exists i :: Declares(rest, i, name) && !Complementary(rest[i], e))
  {
    hide Complementary;
    var n := |els| - 1;
    assert forall i :: Declares(els[..n], i, name) <==> Declares(els, i, name) && i < n;
    assert Declares(els, n, name) <==> els[n].key == Private(name);
  }

  /** The positions at which a class body declares a name. */
  function Declarations(els: seq<Element>, name: Name): set<nat> {
    set i: nat | 0 <= i < |els| && els[i].key == Private(name)
  }

  /** One error for each declaration of the private name `#constructor`. */
  lemma {:induction false} ConstructorErrors(els: seq<Element>)
    ensures multiset(PrivateErrors(els))[PrivateNameConstructor] == |Declarations(els, Name("#constructor"))|
    ensures PrivateNameConstructor in PrivateErrors(els) <==> exists i :: Declares(els, i, Name("#constructor"))
  {
    hide DeclarationErrors, Usages;
    ConstructorCount(els);
    var all := Declarations(els, Name("#constructor"));
    assert PrivateNameConstructor in PrivateErrors(els) <==> |all| > 0;
    if i :| Declares(els, i, Name("#constructor")) { assert i in all; }
    if |all| > 0 {
      var i :| i in all;
      assert Declares(els, i, Name("#constructor"));
    }
  }

  lemma {:induction false} ConstructorCount(els: seq<Element>)
    ensures multiset(PrivateErrors(els))[PrivateNameConstructor] == |Declarations(els, Name("#constructor"))|
  {
    if els == [] {
      assert Declarations(els, Name("#constructor")) == {};
    } else {
      var n := |els| - 1;
      ConstructorCount(els[..n]);
      OneMoreDeclaration(els, Name("#constructor"));
      LastErrors(Usages(els[..n]), els[n]);
      hide DeclarationErrors, Declarations, Usages;
    }
  }

  /** All other errors are duplicates of declared names. */
  lemma {:induction false} OtherErrors(els: seq<Element>, error: Error)
    requires error in PrivateErrors(els) && error != PrivateNameConstructor
    ensures error.DuplicatePrivateName? && !DeclaredOnce(els, error.name)
  {
    OnlyDuplicates(els, error);
    DuplicateNames(els, error.name);
  }

  lemma {:induction false} OnlyDuplicates(els: seq<Element>, error: Error)
    requires error in PrivateErrors(els) && error != PrivateNameConstructor
    ensures error.DuplicatePrivateName?
  {
    var n := |els| - 1;
    LastErrors(Usages(els[..n]), els[n]);
    hide DeclarationErrors, Usages;
    if error in PrivateErrors(els[..n]) { OnlyDuplicates(els[..n], error); }
  }

  /** All errors of a class body. */
  lemma PrivateErrorsMeaning(els: seq<Element>, error: Error)
    ensures
      error in PrivateErrors(els) <==>
        || (error == PrivateNameConstructor && exists e :: e in els && e.key == Private(Name("#constructor")))
        || (error.DuplicatePrivateName? && !DeclaredOnce(els, error.name))
  {
    hide PrivateErrors, DeclaredOnce;
    if error == PrivateNameConstructor {
      ConstructorErrors(els);
      ConstructorDeclared(els);
    } else if error.DuplicatePrivateName? {
      DuplicateNames(els, error.name);
    } else if error in PrivateErrors(els) {
      OtherErrors(els, error);
    }
  }

  lemma ConstructorDeclared(els: seq<Element>)
    ensures (exists i :: Declares(els, i, Name("#constructor")))
      <==> exists e :: e in els && e.key == Private(Name("#constructor"))
  {
    if i :| Declares(els, i, Name("#constructor")) { assert els[i] in els; }
    if e :| e in els && e.key == Private(Name("#constructor")) {
      var i :| 0 <= i < |els| && els[i] == e;
      assert Declares(els, i, Name("#constructor"));
    }
  }

  lemma LastErrors(names: map<Name, Usage>, e: Element)
    ensures
      var last := DeclarationErrors(names, e);
      && multiset(last)[PrivateNameConstructor] == (if e.key == Private(Name("#constructor")) then 1 else 0)
      && forall x | x in last && x != PrivateNameConstructor :: e.key.Private? && x == DuplicatePrivateName(e.key.name)
  {
    hide Clashes;
  }

  lemma OneMoreDeclaration(els: seq<Element>, name: Name)
    requires els != []
    ensures
      var n := |els| - 1;
      |Declarations(els, name)| == |Declarations(els[..n], name)| + if els[n].key == Private(name) then 1 else 0
  {
    var n := |els| - 1;
    var before := Declarations(els[..n], name);
    if els[n].key == Private(name) {
      assert Declarations(els, name) == before + {n} && n !in before;
    } else {
      assert Declarations(els, name) == before;
    }
  }

  /**
    In an accepted class body exactly the first member of each accessor pair is marked: the marked
    element is an accessor whose partner comes later.
   */
  lemma PairStartMeaning(els: seq<Element>, i: int)
    requires 0 <= i < |els|
    requires NoDuplicates(els)
    ensures StartsPair(els, i) <==>
      els[i].key.Private? && IsAccessor(els[i])
      && exists j | i < j < |els| :: Declares(els, j, els[i].key.name) && Complementary(els[i], els[j])
  {
    var e := els[i];
    if e.key.Private? && IsAccessor(e) {
      var name := e.key.name;
      assert Declares(els, i, name);
      UsagesMeaning(els, name);
      var f :| Explains(els, f, name);
      if f != i {
        assert f < i && Complementary(els[f], els[i]);
        assert forall j | i < j < |els| :: !Declares(els, j, name);
      }
      if StartsPair(els, i) {
        assert f == i;
        var j :| Declares(els, j, name) && IsGet(els[j]) != IsGet(e);
        assert i < j && Complementary(els[i], els[j]);
      }
    }
  }
}
