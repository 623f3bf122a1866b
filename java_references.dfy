/** JavaReferencesCodeLensProvider: puts a "references" lens on every type and
    every visible method of a Java compilation unit (a second one on interfaces
    and abstract types), and later resolves a lens by searching the workspace
    for references to the element under it. */
module JavaReferences {
  import opened JavaStrings
  import opened CodeLensApi

  /** The outcome of a JDT call that may throw JavaModelException (or another
      exception the caller catches). */
  datatype Attempt<T> = Done(value: T) | Threw

  /** A jface Range, as JDTUtils.toRange computes it from a name's offset and
      length. */
  datatype Range = Range(startLine: nat, startColumn: nat, endLine: nat, endColumn: nat)

  /** A child of a compilation unit or of a type, as far as the provider looks
      at it. `nameRange` is what getNameRange (then toRange) yields;
      `membersReadable` is false when the type's getChildren throws. */
  datatype Decl =
    | TypeDecl(nameRange: Attempt<Range>, isInterface: bool, isAbstract: bool,
               members: seq<Decl>, membersReadable: bool)
    | MethodDecl(nameRange: Attempt<Range>, hidden: bool)
    | OtherDecl

  /** The compilation unit the editor shows: whether its resource exists, and
      its top-level children (`childrenReadable` is false when getChildren
      throws). */
  datatype CompilationUnit = CompilationUnit(resourceExists: bool, children: seq<Decl>, childrenReadable: bool)

  const ReferencesType: string := "references"
  const ImplementationType: string := "implementations"

  // ---------------------------------------------------------------------
  // Which declarations get lenses

  /** The declarations collectCodeLenses makes lenses for: types, and methods
      that are not hidden generated elements. */
  predicate Forwarded(d: Decl)
  {
    d.TypeDecl? || (d.MethodDecl? && !d.hidden)
  }

  /** Types that get a second lens: interfaces and abstract types. */
  predicate HasSecondLens(d: Decl)
  {
    d.TypeDecl? && (d.isInterface || d.isAbstract)
  }

  function Members(d: Decl): seq<Decl>
  {
    if d.TypeDecl? then d.members else []
  }

  /** Every declaration of the tree, each parent before its members, in source
      order. */
  function Nodes(ds: seq<Decl>): seq<Decl>
    decreases ds
  {
    if ds == [] then [] else Nodes(ds[..|ds| - 1]) + NodesOf(ds[|ds| - 1])
  }

  function NodesOf(d: Decl): seq<Decl>
    decreases d
  {
    match d
    case TypeDecl(_, _, _, members, _) => [d] + Nodes(members)
    case _ => [d]
  }

  /** The order in which collectCodeLenses reaches the declarations it makes
      lenses for: a type's members (recursively) first, then the type. */
  function Enumerate(ds: seq<Decl>): seq<Decl>
    decreases ds
  {
    if ds == [] then [] else Enumerate(ds[..|ds| - 1]) + EnumerateDecl(ds[|ds| - 1])
  }

  function EnumerateDecl(d: Decl): seq<Decl>
    decreases d
  {
    match d
    case TypeDecl(_, _, _, members, _) => Enumerate(members) + [d]
    case MethodDecl(_, hidden) => if hidden then [] else [d]
    case OtherDecl => []
  }

  /** The anchors of the lenses made for `d` itself: one at its name, and a
      second, identical one for an interface or abstract type. */
  function OwnLenses(d: Decl): (r: seq<Range>)
    ensures Forwarded(d) && d.nameRange.Done? ==> |r| == if HasSecondLens(d) then 2 else 1
    ensures !Forwarded(d) ==> r == []
    ensures forall x | x in r :: d.nameRange == Done(x)
  {
    if !Forwarded(d) || d.nameRange.Threw? then []
    else [d.nameRange.value] + (if HasSecondLens(d) then [d.nameRange.value] else [])
  }

  function OwnAll(es: seq<Decl>): seq<Range>
  {
    if es == [] then [] else OwnAll(es[..|es| - 1]) + OwnLenses(es[|es| - 1])
  }

  /** The anchors of the lenses produced for `ds`, in order: sibling after
      sibling, each type's own lenses after those of its members. */
  function Lenses(ds: seq<Decl>): (r: seq<Range>)
    ensures |r| <= 2 * |Nodes(ds)|
    decreases ds
  {
    if ds == [] then [] else Lenses(ds[..|ds| - 1]) + DeclLenses(ds[|ds| - 1])
  }

  function DeclLenses(d: Decl): (r: seq<Range>)
    ensures |r| <= 2 * |NodesOf(d)|
    decreases d
  {
    if d.TypeDecl? then Lenses(d.members) + OwnLenses(d) else OwnLenses(d)
  }

  /** No JDT call made while collecting throws. */
  predicate Readable(d: Decl)
    decreases d
  {
    match d
    case TypeDecl(nameRange, _, _, members, membersReadable) =>
      nameRange.Done? && membersReadable && forall m | m in members :: Readable(m)
    case MethodDecl(nameRange, hidden) => hidden || nameRange.Done?
    case OtherDecl => true
  }

  predicate AllReadable(ds: seq<Decl>)
  {
    forall d | d in ds :: Readable(d)
  }

  predicate UnitReadable(unit: CompilationUnit)
  {
    unit.childrenReadable && AllReadable(unit.children)
  }

  // ---------------------------------------------------------------------
  // Properties of the lens layout

  lemma {:induction false} OwnAllAppend(a: seq<Decl>, b: seq<Decl>)
    ensures OwnAll(a + b) == OwnAll(a) + OwnAll(b)
  {
    if b != [] {
      var n := |b| - 1;
      assert (a + b)[..|a + b| - 1] == a + b[..n];
      OwnAllAppend(a, b[..n]);
    } else {
      assert a + b == a;
    }
  }

  /** The lenses of one more sibling come after those of the earlier ones. */
  lemma LensesStep(ds: seq<Decl>, i: nat)
    requires i < |ds|
    ensures Lenses(ds[..i + 1]) == Lenses(ds[..i]) + DeclLenses(ds[i])
  {
    assert ds[..i + 1][..i] == ds[..i];
  }

  /** The layout is the own lenses of each declaration, taken in the order
      collectCodeLenses reaches them. */
  lemma {:induction false} LensesFollowEnumeration(ds: seq<Decl>)
    ensures Lenses(ds) == OwnAll(Enumerate(ds))
    decreases ds
  {
    if ds != [] {
      var n := |ds| - 1;
      LensesFollowEnumeration(ds[..n]);
      DeclLensesFollowEnumeration(ds[n]);
      OwnAllAppend(Enumerate(ds[..n]), EnumerateDecl(ds[n]));
    }
  }

  lemma {:induction false} DeclLensesFollowEnumeration(d: Decl)
    ensures DeclLenses(d) == OwnAll(EnumerateDecl(d))
    decreases d
  {
    assert OwnAll([d]) == OwnLenses(d) by {
      assert [d][..0] == [];
    }
    match d
    case TypeDecl(_, _, _, members, _) =>
      LensesFollowEnumeration(members);
      OwnAllAppend(Enumerate(members), [d]);
    case MethodDecl(_, _) =>
    case OtherDecl =>
  }

  /** collectCodeLenses reaches every type and every visible method of the
      tree exactly once, and nothing else: its order is a rearrangement of the
      forwarded declarations in source order. */
  lemma {:induction false} EnumerateIsForwardedNodes(ds: seq<Decl>)
    ensures multiset(Enumerate(ds)) == multiset(Filter(Nodes(ds), Forwarded))
    decreases ds
  {
    if ds != [] {
      var n := |ds| - 1;
      EnumerateIsForwardedNodes(ds[..n]);
      EnumerateDeclIsForwardedNodes(ds[n]);
      FilterAppend(Nodes(ds[..n]), NodesOf(ds[n]), Forwarded);
    }
  }

  lemma {:induction false} EnumerateDeclIsForwardedNodes(d: Decl)
    ensures multiset(EnumerateDecl(d)) == multiset(Filter(NodesOf(d), Forwarded))
    decreases d
  {
    FilterAppend([d], Nodes(Members(d)), Forwarded);
    assert [d][..0] == [];
    match d
    case TypeDecl(_, _, _, members, _) =>
      EnumerateIsForwardedNodes(members);
    case MethodDecl(_, _) =>
      assert Nodes([]) == [];
    case OtherDecl =>
      assert Nodes([]) == [];
  }

  /** How many lenses a tree yields: one per type and per visible method, plus
      one per interface or abstract type. */
  lemma {:induction false} LensCount(ds: seq<Decl>)
    requires AllReadable(ds)
    ensures |Lenses(ds)| == CountWhere(Nodes(ds), Forwarded) + CountWhere(Nodes(ds), HasSecondLens)
    decreases ds
  {
    if ds != [] {
      var n := |ds| - 1;
      LensCount(ds[..n]);
      DeclLensCount(ds[n]);
      CountWhereAppend(Nodes(ds[..n]), NodesOf(ds[n]), Forwarded);
      CountWhereAppend(Nodes(ds[..n]), NodesOf(ds[n]), HasSecondLens);
    }
  }

  lemma {:induction false} DeclLensCount(d: Decl)
    requires Readable(d)
    ensures |DeclLenses(d)| == CountWhere(NodesOf(d), Forwarded) + CountWhere(NodesOf(d), HasSecondLens)
    decreases d
  {
    CountWhereAppend([d], Nodes(Members(d)), Forwarded);
    CountWhereAppend([d], Nodes(Members(d)), HasSecondLens);
    assert [d][..0] == [];
    match d
    case TypeDecl(_, _, _, members, _) =>
      LensCount(members);
    case MethodDecl(_, _) =>
      assert Nodes([]) == [];
    case OtherDecl =>
      assert Nodes([]) == [];
  }

  /** A type's members (recursively) are reached in one block right before the
      type itself. */
  lemma {:induction false} MembersPrecedeType(ds: seq<Decl>, j: nat)
    requires j < |Enumerate(ds)| && Enumerate(ds)[j].TypeDecl?
    ensures var k := |Enumerate(Enumerate(ds)[j].members)|;
      k <= j && Enumerate(ds)[j - k..j] == Enumerate(Enumerate(ds)[j].members)
    decreases ds
  {
    var n := |ds| - 1;
    var front := Enumerate(ds[..n]);
    var last := EnumerateDecl(ds[n]);
    assert Enumerate(ds) == front + last;
    if j < |front| {
      MembersPrecedeType(ds[..n], j);
    } else {
      MembersPrecedeTypeInDecl(ds[n], j - |front|);
    }
  }

  lemma {:induction false} MembersPrecedeTypeInDecl(d: Decl, j: nat)
    requires j < |EnumerateDecl(d)| && EnumerateDecl(d)[j].TypeDecl?
    ensures var k := |Enumerate(EnumerateDecl(d)[j].members)|;
      k <= j && EnumerateDecl(d)[j - k..j] == Enumerate(EnumerateDecl(d)[j].members)
    decreases d
  {
    match d
    case TypeDecl(_, _, _, members, _) =>
      var inner := Enumerate(members);
      if j < |inner| {
        MembersPrecedeType(members, j);
      }
    case MethodDecl(_, _) =>
    case OtherDecl =>
  }

  /** `x` appears as one contiguous block inside `y`. */
  ghost predicate Infix(x: seq<Range>, y: seq<Range>)
  {
    exists a, c :: y == a + x + c
  }

  lemma InfixWhole(x: seq<Range>)
    ensures Infix(x, x)
  {
    assert x == [] + x + [];
  }

  lemma InfixLeft(x: seq<Range>, y: seq<Range>, z: seq<Range>)
    requires Infix(x, y)
    ensures Infix(x, y + z)
  {
    var a, c :| y == a + x + c;
    assert y + z == a + x + (c + z);
  }

  lemma InfixRight(x: seq<Range>, y: seq<Range>, z: seq<Range>)
    requires Infix(x, z)
    ensures Infix(x, y + z)
  {
    var a, c :| z == a + x + c;
    assert y + z == (y + a) + x + c;
  }

  /** Wherever a type sits in the tree, the lenses of its members and then
      its own lenses (its reference lens, and for an interface or abstract
      type the second one) form one unbroken block of the produced lenses. */
  lemma {:induction false} TypeLensesFollowMembers(ds: seq<Decl>, t: Decl)
    requires t in Nodes(ds) && t.TypeDecl?
    ensures Infix(Lenses(t.members) + OwnLenses(t), Lenses(ds))
    decreases ds
  {
    var n := |ds| - 1;
    if t in Nodes(ds[..n]) {
      TypeLensesFollowMembers(ds[..n], t);
      InfixLeft(DeclLenses(t), Lenses(ds[..n]), DeclLenses(ds[n]));
    } else {
      TypeLensesFollowMembersInDecl(ds[n], t);
      InfixRight(DeclLenses(t), Lenses(ds[..n]), DeclLenses(ds[n]));
    }
  }

  lemma {:induction false} TypeLensesFollowMembersInDecl(d: Decl, t: Decl)
    requires t in NodesOf(d) && t.TypeDecl?
    ensures Infix(Lenses(t.members) + OwnLenses(t), DeclLenses(d))
    decreases d
  {
    if t == d {
      InfixWhole(DeclLenses(d));
    } else {
      TypeLensesFollowMembers(d.members, t);
      InfixLeft(DeclLenses(t), Lenses(d.members), OwnLenses(d));
    }
  }

  /** A declaration gets lenses exactly when collectCodeLenses hands it to
      getCodeLens (a type, or a method that is not hidden) and its name range
      can be read. */
  lemma LensesExactlyOnForwarded(d: Decl)
    ensures OwnLenses(d) != [] <==> Forwarded(d) && d.nameRange.Done?
  {
  }

  /** Two lenses are made only for an interface or abstract type, and the
      second repeats the first: the lens kind is not used. */
  lemma SecondLensRepeatsFirst(d: Decl)
    ensures |OwnLenses(d)| == 2 ==>
      HasSecondLens(d) && d.nameRange.Done? && OwnLenses(d) == [d.nameRange.value, d.nameRange.value]
  {
  }

  /** The example of a unit holding an interface Foo with one method bar: the
      lenses come out as bar, Foo, Foo. */
  lemma InterfaceWithOneMethod(foo: Range, bar: Range)
    ensures Lenses([TypeDecl(Done(foo), true, false, [MethodDecl(Done(bar), false)], true)]) == [bar, foo, foo]
  {
    var m := MethodDecl(Done(bar), false);
    var t := TypeDecl(Done(foo), true, false, [m], true);
    assert [t][..0] == [] && [m][..0] == [];
    assert Lenses([m]) == [bar];
    assert DeclLenses(t) == [bar] + [foo, foo];
  }

  // ---------------------------------------------------------------------
  // The objects collectCodeLenses works on

  /** JavaCodeLens: a lens at a range; its command is set on resolution. */
  class JavaCodeLens {
    const range: Range
    var command: Option<Command>

    constructor (range: Range)
      ensures this.range == range && command == None
    {
      this.range := range;
      command := None;
    }

    method SetCommand(c: Command)
      modifies this
      ensures command == Some(c)
    {
      command := Some(c);
    }
  }

  /** The ArrayList the lenses are collected into. */
  class LensList {
    var items: seq<JavaCodeLens>

    constructor ()
      ensures items == []
    {
      items := [];
    }

    method Add(lens: JavaCodeLens)
      modifies this
      ensures items == old(items) + [lens]
    {
      items := items + [lens];
    }

    method Clear()
      modifies this
      ensures items == []
    {
      items := [];
    }
  }

  /** The anchors of some lenses, in order. */
  function RangesOf(lenses: seq<JavaCodeLens>): seq<Range>
  {
    if lenses == [] then [] else RangesOf(lenses[..|lenses| - 1]) + [lenses[|lenses| - 1].range]
  }

  lemma {:induction false} RangesOfConcat(a: seq<JavaCodeLens>, b: seq<JavaCodeLens>)
    ensures RangesOf(a + b) == RangesOf(a) + RangesOf(b)
  {
    if b != [] {
      var n := |b| - 1;
      assert (a + b)[..|a + b| - 1] == a + b[..n];
      RangesOfConcat(a, b[..n]);
    } else {
      assert a + b == a;
    }
  }

  /** No lens in `lenses` has a command yet. */
  predicate Unresolved(lenses: seq<JavaCodeLens>)
    reads set l | l in lenses
  {
    forall l | l in lenses :: l.command == None
  }

  lemma UnresolvedConcat(a: seq<JavaCodeLens>, b: seq<JavaCodeLens>)
    requires Unresolved(a) && Unresolved(b)
    ensures Unresolved(a + b)
  {
  }

  /** The host's progress monitor. The host may request cancellation at any
      moment; `cancelAt` says before which poll it does (None: never), and
      once requested it stays requested. */
  class ProgressMonitor {
    var polls: nat
    const cancelAt: Option<nat>

    constructor (cancelAt: Option<nat>)
      ensures polls == 0 && this.cancelAt == cancelAt
    {
      polls := 0;
      this.cancelAt := cancelAt;
    }

    /** What isCanceled() would answer now. */
    predicate CancelRequested()
      reads this
    {
      cancelAt.Some? && cancelAt.value <= polls
    }

    method IsCanceled() returns (canceled: bool)
      modifies this
      ensures canceled == old(CancelRequested())
      ensures polls == old(polls) + 1
    {
      canceled := CancelRequested();
      polls := polls + 1;
    }
  }

  // ---------------------------------------------------------------------
  // Producing lenses

  /** getCodeLens: a new, unresolved lens at the element's name range. The
      `kind` argument is not used, so both lenses of a type are alike. Throws
      when getNameRange does. */
  method GetCodeLens(kind: string, element: Decl) returns (r: Attempt<JavaCodeLens>)
    requires element.TypeDecl? || element.MethodDecl?
    ensures r.Done? <==> element.nameRange.Done?
    ensures r.Done? ==> fresh(r.value) && r.value.range == element.nameRange.value && r.value.command == None
  {
    match element.nameRange
    case Threw =>
      r := Threw;
    case Done(range) =>
      var lens := new JavaCodeLens(range);
      r := Done(lens);
  }

  /** collectCodeLenses: walks `elements`, polling the monitor before each
      one, and appends lenses to `lenses` (`added` names what it appended). It
      returns early when a poll sees cancellation, and reports `thrown` when a
      JDT call throws. When neither happened, it has appended exactly the
      lenses of `elements`, all new and unresolved. */
  method CollectCodeLenses(elements: seq<Decl>, lenses: LensList, monitor: ProgressMonitor)
    returns (thrown: bool, ghost added: seq<JavaCodeLens>)
    modifies lenses, monitor
    decreases elements
    ensures monitor.polls >= old(monitor.polls)
    ensures lenses.items == old(lenses.items) + added
    ensures forall l | l in added :: fresh(l)
    ensures Unresolved(added)
    ensures thrown ==> !AllReadable(elements)
    ensures !thrown && !monitor.CancelRequested() ==> AllReadable(elements) && RangesOf(added) == Lenses(elements)
  {
    added := [];
    for i := 0 to |elements|
      invariant monitor.polls >= old(monitor.polls)
      invariant lenses.items == old(lenses.items) + added
      invariant forall l | l in added :: fresh(l)
      invariant Unresolved(added)
      invariant !monitor.CancelRequested() ==> AllReadable(elements[..i]) && RangesOf(added) == Lenses(elements[..i])
    {
      var element := elements[i];
      var canceled := monitor.IsCanceled();
      if canceled {
        return false, added;
      }
      if !element.TypeDecl? && (!element.MethodDecl? || element.hidden) {
        SkipStep(elements, i);
        continue;
      }
      ghost var before := added;
      var elementThrew, more := CollectElement(element, lenses, monitor);
      UnresolvedConcat(added, more);
      added := added + more;
      if elementThrew {
        assert element in elements;
        return true, added;
      }
      if !monitor.CancelRequested() {
        AllReadableStep(elements, i);
        CollectStep(elements, i, before, more);
      }
    }
    assert elements[..|elements|] == elements;
    thrown := false;
  }

  /** One pass of collectCodeLenses's loop body for a type or a visible
      method: a type's members first (by the recursive call), then the
      element's reference lens, then for an interface or abstract type its
      second lens. */
  method CollectElement(element: Decl, lenses: LensList, monitor: ProgressMonitor)
    returns (thrown: bool, ghost added: seq<JavaCodeLens>)
    requires Forwarded(element)
    modifies lenses, monitor
    decreases element
    ensures monitor.polls >= old(monitor.polls)
    ensures lenses.items == old(lenses.items) + added
    ensures forall l | l in added :: fresh(l)
    ensures Unresolved(added)
    ensures thrown ==> !Readable(element)
    ensures !thrown && !monitor.CancelRequested() ==> Readable(element) && RangesOf(added) == DeclLenses(element)
  {
    added := [];
    ghost var inner: seq<JavaCodeLens> := [];
    if element.TypeDecl? {
      if !element.membersReadable {
        return true, added;
      }
      thrown, inner := CollectCodeLenses(element.members, lenses, monitor);
      added := inner;
      if thrown {
        return true, added;
      }
    }
    var lens := GetCodeLens(ReferencesType, element);
    if lens.Threw? {
      return true, added;
    }
    lenses.Add(lens.value);
    ghost var own := [lens.value];
    if element.TypeDecl? {
      if element.isInterface || element.isAbstract {
        lens := GetCodeLens(ImplementationType, element);
        lenses.Add(lens.value);
        own := own + [lens.value];
      }
    }
    added := inner + own;
    if !monitor.CancelRequested() {
      ElementLenses(element, inner, own);
    }
    thrown := false;
  }

  /** A declaration collectCodeLenses skips yields no lens and throws
      nothing. */
  lemma SkipStep(elements: seq<Decl>, i: nat)
    requires i < |elements| && !Forwarded(elements[i])
    ensures Readable(elements[i])
    ensures AllReadable(elements[..i]) ==> AllReadable(elements[..i + 1])
    ensures Lenses(elements[..i + 1]) == Lenses(elements[..i])
  {
    LensesStep(elements, i);
    assert elements[..i + 1] == elements[..i] + [elements[i]];
  }

  /** One step of collectCodeLenses's loop: after the lenses of the earlier
      siblings come those made at element `i`. */
  lemma CollectStep(elements: seq<Decl>, i: nat, before: seq<JavaCodeLens>, more: seq<JavaCodeLens>)
    requires i < |elements|
    requires RangesOf(before) == Lenses(elements[..i])
    requires RangesOf(more) == DeclLenses(elements[i])
    ensures RangesOf(before + more) == Lenses(elements[..i + 1])
  {
    RangesOfConcat(before, more);
    LensesStep(elements, i);
  }

  /** The lenses made while at one forwarded element: those of its members
      (none for a method), then its own. */
  lemma ElementLenses(element: Decl, inner: seq<JavaCodeLens>, own: seq<JavaCodeLens>)
    requires Forwarded(element) && element.nameRange.Done?
    requires element.TypeDecl? ==> RangesOf(inner) == Lenses(element.members)
    requires element.MethodDecl? ==> inner == []
    requires |own| == |OwnLenses(element)|
    requires forall l | l in own :: element.nameRange == Done(l.range)
    ensures RangesOf(inner + own) == DeclLenses(element)
  {
    OwnRanges(element, own);
    RangesOfConcat(inner, own);
    if element.MethodDecl? {
      assert RangesOf(inner) == [];
      assert [] + OwnLenses(element) == OwnLenses(element);
    }
  }

  lemma AllReadableStep(elements: seq<Decl>, i: nat)
    requires i < |elements| && AllReadable(elements[..i]) && Readable(elements[i])
    ensures AllReadable(elements[..i + 1])
  {
    assert elements[..i + 1] == elements[..i] + [elements[i]];
  }

  /** Lenses made at an element's name have the anchors OwnLenses promises. */
  lemma OwnRanges(element: Decl, own: seq<JavaCodeLens>)
    requires Forwarded(element) && element.nameRange.Done?
    requires |own| == |OwnLenses(element)|
    requires forall l | l in own :: element.nameRange == Done(l.range)
    ensures RangesOf(own) == OwnLenses(element)
  {
    assert own[0] in own;
    RangesOfSingle(own[0]);
    if |own| == 2 {
      assert own[1] in own;
      RangesOfSingle(own[1]);
      assert own == [own[0]] + [own[1]];
      RangesOfConcat([own[0]], [own[1]]);
    } else {
      assert own == [own[0]];
    }
  }

  lemma RangesOfSingle(lens: JavaCodeLens)
    ensures RangesOf([lens]) == [lens.range]
  {
    assert [lens][..0] == [];
  }

  /** The unit was found and its resource exists. */
  predicate Opened(unit: Option<CompilationUnit>)
  {
    unit.Some? && unit.value.resourceExists
  }

  /** provideCodeLenses: null (None) when there is no unit, its resource is
      gone, cancellation was requested on entry, or a JDT call threw; an empty
      array when cancellation was requested by the end; otherwise the lenses
      of the whole unit, all new and unresolved. */
  method ProvideCodeLenses(unit: Option<CompilationUnit>, monitor: ProgressMonitor)
    returns (r: Option<seq<JavaCodeLens>>)
    modifies monitor
    ensures !Opened(unit) ==> r.None? && monitor.polls == old(monitor.polls)
    ensures Opened(unit) && old(monitor.CancelRequested()) ==> r.None?
    ensures r.Some? ==> (Opened(unit) &&
      ((r.value == [] && monitor.CancelRequested()) ||
       (UnitReadable(unit.value) && RangesOf(r.value) == Lenses(unit.value.children))))
    ensures Opened(unit) && monitor.cancelAt.None? ==> (
      (r.Some? <==> UnitReadable(unit.value)) &&
      (r.Some? ==> RangesOf(r.value) == Lenses(unit.value.children)))
    ensures r.Some? ==> (forall l | l in r.value :: fresh(l)) && Unresolved(r.value)
    ensures Opened(unit) && !old(monitor.CancelRequested()) && UnitReadable(unit.value) ==> r.Some?
    ensures r.Some? && monitor.cancelAt.Some? && monitor.cancelAt.value < monitor.polls ==> r.value == []
    ensures r.Some? && !(monitor.cancelAt.Some? && monitor.cancelAt.value < monitor.polls) ==>
      UnitReadable(unit.value) && RangesOf(r.value) == Lenses(unit.value.children)
  {
    if unit.None? || !unit.value.resourceExists {
      return None;
    }
    var canceled := monitor.IsCanceled();
    if canceled {
      return None;
    }
    if !unit.value.childrenReadable {
      return None;
    }
    var lenses := new LensList();
    var thrown, added := CollectCodeLenses(unit.value.children, lenses, monitor);
    assert lenses.items == added;
    if thrown {
      return None;
    }
    canceled := monitor.IsCanceled();
    if canceled {
      lenses.Clear();
    }
    return Some(lenses.items);
  }

  // ---------------------------------------------------------------------
  // Resolving a lens

  /** What a search hit's getElement() is: not a Java element at all, or a
      Java element with (or without) an enclosing compilation unit. */
  datatype MatchElement = OtherObject | JavaElement(compilationUnit: Option<string>)

  datatype SearchMatch = SearchMatch(element: MatchElement, offset: nat, length: nat)

  /** A location in a compilation unit. findReferences never builds one (the
      call to toLocation is commented out): it adds null instead. */
  datatype Location = Location(compilationUnit: string, offset: nat, length: nat)

  /** The matches acceptSearchMatch keeps: Java elements whose compilation
      unit ancestor is known. */
  predicate Accepted(m: SearchMatch)
  {
    m.element.JavaElement? && m.element.compilationUnit.Some?
  }

  /** Of a hit that is no Java element, one outside any compilation unit and
      one inside a unit, only the last is counted. */
  lemma OnlyElementsInUnitsCount(unitName: string, offset: nat, length: nat)
    ensures CountWhere([SearchMatch(OtherObject, offset, length),
                        SearchMatch(JavaElement(None), offset, length),
                        SearchMatch(JavaElement(Some(unitName)), offset, length)], Accepted) == 1
  {
    var a := SearchMatch(OtherObject, offset, length);
    var b := SearchMatch(JavaElement(None), offset, length);
    var c := SearchMatch(JavaElement(Some(unitName)), offset, length);
    assert [a][..0] == [];
    assert CountWhere([a], Accepted) == 0;
    assert [a, b][..1] == [a];
    assert CountWhere([a, b], Accepted) == 0;
    assert [a, b, c][..2] == [a, b];
  }

  /** findReferences: no element gives an empty list without searching;
      otherwise `search` stands for building the workspace scope and running
      the REFERENCES query (Threw when either throws or the search is
      canceled), and every accepted match adds one (null) entry. */
  method FindReferences<E>(element: Option<E>, search: E -> Attempt<seq<SearchMatch>>)
    returns (r: Attempt<seq<Option<Location>>>)
    ensures element.None? ==> r == Done([])
    ensures element.Some? ==> (r.Threw? <==> search(element.value).Threw?)
    ensures element.Some? && r.Done? ==>
      |r.value| == CountWhere(search(element.value).value, Accepted) && forall x | x in r.value :: x == None
  {
    if element.None? {
      return Done([]);
    }
    var outcome := search(element.value);
    if outcome.Threw? {
      return Threw;
    }
    var matches := outcome.value;
    var result: seq<Option<Location>> := [];
    for i := 0 to |matches|
      invariant |result| == CountWhere(matches[..i], Accepted)
      invariant forall x | x in result :: x == None
    {
      assert matches[..i + 1][..i] == matches[..i];
      var m := matches[i];
      if m.element.JavaElement? {
        if m.element.compilationUnit.Some? {
          result := result + [None];
        }
      }
    }
    assert matches[..|matches|] == matches;
    return Done(result);
  }

  /** resolveCodeLens: a null lens gives null; with no unit the lens comes
      back as it was. Otherwise the element is looked up again at the lens's
      range; if none is there the lens reads "0 references", if one is there
      it reads "<accepted matches> references"; if the lookup or the search
      throws, the lens comes back as it was. The lens itself is returned. */
  method ResolveCodeLens<E>(unit: Option<CompilationUnit>, lens: JavaCodeLens?,
                            findElementAtSelection: (CompilationUnit, Range) -> Attempt<Option<E>>,
                            search: E -> Attempt<seq<SearchMatch>>)
    returns (r: JavaCodeLens?)
    modifies lens
    ensures r == lens
    ensures lens != null && unit.None? ==> lens.command == old(lens.command)
    ensures lens != null && unit.Some? && findElementAtSelection(unit.value, lens.range).Threw? ==>
      lens.command == old(lens.command)
    ensures lens != null && unit.Some? && findElementAtSelection(unit.value, lens.range) == Done(None) ==>
      lens.command == Some(ReferencesCommand(0))
    ensures lens != null && unit.Some? && findElementAtSelection(unit.value, lens.range).Done? &&
            findElementAtSelection(unit.value, lens.range).value.Some? ==>
      var found := findElementAtSelection(unit.value, lens.range).value.value;
      lens.command == if search(found).Threw? then old(lens.command)
                      else Some(ReferencesCommand(CountWhere(search(found).value, Accepted)))
  {
    if lens == null {
      return null;
    }
    if unit.None? {
      return lens;
    }
    var range := lens.range;
    var element := findElementAtSelection(unit.value, range);
    if element.Threw? {
      return lens;
    }
    var references := FindReferences(element.value, search);
    if references.Threw? {
      return lens;
    }
    var refCount := |references.value|;
    lens.SetCommand(Command(DecimalString(refCount) + " references", ""));
    return lens;
  }

  /** The resolved count is the number of accepted matches: never more than
      the search found, and all of them exactly when each is a Java element
      inside a known compilation unit. */
  lemma ResolvedCountIsAcceptedMatches(matches: seq<SearchMatch>)
    ensures CountWhere(matches, Accepted) == |set i: nat | i < |matches| && Accepted(matches[i])|
    ensures CountWhere(matches, Accepted) <= |matches|
    ensures CountWhere(matches, Accepted) == |matches| <==> forall i :: 0 <= i < |matches| ==> Accepted(matches[i])
  {
    CountWhereIsPositionCount(matches, Accepted);
    assert PositionsWhere(matches, Accepted) == set i: nat | i < |matches| && Accepted(matches[i]);
    CountWhereAll(matches, Accepted);
  }
}
