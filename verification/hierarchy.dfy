/**
 * The supertype test that a `@MoshiAdapterFactory` class reaches `JsonAdapter.Factory`: walk the class's
 * superclass chain and, for each class on it, search its interfaces transitively.
 *
 * Types are named declarations. A declaration is a class (with an optional superclass, `None`
 * standing for the NONE type kind above `java.lang.Object`) or an interface, and lists the
 * interfaces it implements or extends. Java forbids cyclic inheritance; the model carries that as a
 * ranking of the declarations in which every supertype ranks strictly lower.
 */
module TypeHierarchy {
  import opened Wrappers

  datatype TypeDecl = TypeDecl(isInterface: bool, superclass: Option<string>, interfaces: seq<string>)

  type Hierarchy = map<string, TypeDecl>

  /** The interface a `@MoshiAdapterFactory` class must implement. */
  const FactoryInterface: string := "com.squareup.moshi.JsonAdapter.Factory"

  /**
   * Every referenced type is declared, superclasses are classes, interfaces have no superclass,
   * and what a declaration implements or extends is an interface.
   */
  predicate WellFormed(h: Hierarchy) {
    forall t :: t in h ==>
      (h[t].superclass.Some? ==> h[t].superclass.value in h && !h[h[t].superclass.value].isInterface)
      && (h[t].isInterface ==> h[t].superclass.None?)
      && (forall i :: i in h[t].interfaces ==> i in h && h[i].isInterface)
  }

  /** No type inherits from itself: each supertype ranks below its subtype. */
  predicate Ranked(h: Hierarchy, rank: map<string, nat>) {
    forall t :: t in h ==>
      t in rank
      && (h[t].superclass.Some? && h[t].superclass.value in rank ==> rank[h[t].superclass.value] < rank[t])
      && (forall i :: i in h[t].interfaces && i in rank ==> rank[i] < rank[t])
  }

  predicate Valid(h: Hierarchy, rank: map<string, nat>) {
    WellFormed(h) && Ranked(h, rank)
  }

  // ----- what the supertype test is meant to decide -----

  /** A direct supertype: the superclass or one of the interfaces. */
  predicate Edge(h: Hierarchy, a: string, b: string) {
    a in h && (h[a].superclass == Some(b) || b in h[a].interfaces)
  }

  predicate IsPath(h: Hierarchy, path: seq<string>) {
    forall k :: 0 <= k < |path| - 1 ==> Edge(h, path[k], path[k + 1])
  }

  /** `target` is a proper supertype of `t`. */
  ghost predicate Reaches(h: Hierarchy, t: string, target: string) {
    exists path :: |path| >= 2 && path[0] == t && path[|path| - 1] == target && IsPath(h, path)
  }

  // ----- the search, with the inner loop moving to the interface's own supertype -----

  /** searchInterfacesAncestry: some interface of `root` is the target or extends it. */
  function SearchInterfaces(h: Hierarchy, rank: map<string, nat>, root: string, target: string): bool
    requires Valid(h, rank) && root in h
    decreases rank[root], 1, 0
  {
    AnyInterface(h, rank, root, h[root].interfaces, target)
  }

  function AnyInterface(h: Hierarchy, rank: map<string, nat>, root: string, ifaces: seq<string>, target: string): (r: bool)
    requires Valid(h, rank) && root in h
    requires forall i :: i in ifaces ==> i in h[root].interfaces
    ensures r <==> exists k :: 0 <= k < |ifaces| && (ifaces[k] == target || SearchInterfaces(h, rank, ifaces[k], target))
    decreases rank[root], 0, |ifaces|
  {
    if |ifaces| == 0 then false
    else
      var rest := AnyInterface(h, rank, root, ifaces[1..], target);
      assert rest <==> exists k :: 1 <= k < |ifaces| && (ifaces[k] == target || SearchInterfaces(h, rank, ifaces[k], target)) by {
        forall k | 1 <= k < |ifaces| ensures ifaces[k] == ifaces[1..][k - 1] { }
      }
      ifaces[0] == target || SearchInterfaces(h, rank, ifaces[0], target) || rest
  }

  /** implementsJsonAdapterFactory: some class on the superclass chain has a searching interface. */
  function ImplementsFactory(h: Hierarchy, rank: map<string, nat>, t: string, target: string): bool
    requires Valid(h, rank) && t in h
    decreases rank[t]
  {
    SearchInterfaces(h, rank, t, target)
    || (h[t].superclass.Some? && ImplementsFactory(h, rank, h[t].superclass.value, target))
  }

  // ----- the search agrees with reachability -----

  /** A path one step longer. */
  lemma PrependEdge(h: Hierarchy, t: string, u: string, target: string)
    requires Edge(h, t, u) && Reaches(h, u, target)
    ensures Reaches(h, t, target)
  {
    var path :| |path| >= 2 && path[0] == u && path[|path| - 1] == target && IsPath(h, path);
    var longer := [t] + path;
    assert forall k :: 1 <= k < |longer| - 1 ==> longer[k] == path[k - 1] && longer[k + 1] == path[k];
    assert IsPath(h, longer);
  }

  lemma DirectEdge(h: Hierarchy, t: string, target: string)
    requires Edge(h, t, target)
    ensures Reaches(h, t, target)
  {
    assert IsPath(h, [t, target]);
  }

  lemma {:induction false} SearchReaches(h: Hierarchy, rank: map<string, nat>, root: string, target: string)
    requires Valid(h, rank) && root in h
    requires SearchInterfaces(h, rank, root, target)
    ensures Reaches(h, root, target)
    decreases rank[root]
  {
    var ifaces := h[root].interfaces;
    var k :| 0 <= k < |ifaces| && (ifaces[k] == target || SearchInterfaces(h, rank, ifaces[k], target));
    if ifaces[k] == target {
      DirectEdge(h, root, target);
    } else {
      SearchReaches(h, rank, ifaces[k], target);
      PrependEdge(h, root, ifaces[k], target);
    }
  }

  lemma {:induction false} ImplementsReaches(h: Hierarchy, rank: map<string, nat>, t: string, target: string)
    requires Valid(h, rank) && t in h
    requires ImplementsFactory(h, rank, t, target)
    ensures Reaches(h, t, target)
    decreases rank[t]
  {
    if SearchInterfaces(h, rank, t, target) {
      SearchReaches(h, rank, t, target);
    } else {
      var s := h[t].superclass.value;
      ImplementsReaches(h, rank, s, target);
      PrependEdge(h, t, s, target);
    }
  }

  /** Through an interface only interfaces follow, so a path from one is found by the search. */
  lemma {:induction false} InterfacePathSearched(h: Hierarchy, rank: map<string, nat>, path: seq<string>, target: string)
    requires Valid(h, rank)
    requires |path| >= 2 && path[|path| - 1] == target && IsPath(h, path)
    requires path[0] in h && h[path[0]].isInterface
    ensures SearchInterfaces(h, rank, path[0], target)
    decreases |path|
  {
    var i := path[1];
    assert i in h[path[0]].interfaces;
    if |path| > 2 {
      assert IsPath(h, path[1..]);
      InterfacePathSearched(h, rank, path[1..], target);
    }
    assert i == h[path[0]].interfaces[IndexIn(h[path[0]].interfaces, i)];
  }

  /** A position of an element of a sequence. */
  function IndexIn(s: seq<string>, x: string): (k: nat)
    requires x in s
    ensures k < |s| && s[k] == x
  {
    if s[0] == x then 0 else 1 + IndexIn(s[1..], x)
  }

  lemma {:induction false} PathImplements(h: Hierarchy, rank: map<string, nat>, path: seq<string>, target: string)
    requires Valid(h, rank) && target in h && h[target].isInterface
    requires |path| >= 2 && path[|path| - 1] == target && IsPath(h, path)
    requires path[0] in h
    ensures ImplementsFactory(h, rank, path[0], target)
    decreases |path|
  {
    var t, u := path[0], path[1];
    if h[t].superclass == Some(u) && u !in h[t].interfaces {
      assert |path| > 2;   // a superclass is never the interface `target`
      assert IsPath(h, path[1..]);
      PathImplements(h, rank, path[1..], target);
    } else {
      assert u in h[t].interfaces;
      if |path| > 2 {
        assert IsPath(h, path[1..]);
        InterfacePathSearched(h, rank, path[1..], target);
      }
      assert u == h[t].interfaces[IndexIn(h[t].interfaces, u)];
    }
  }

  /** The supertype test answers exactly whether the factory interface is a supertype. */
  lemma ImplementsFactoryIffReaches(h: Hierarchy, rank: map<string, nat>, t: string, target: string)
    requires Valid(h, rank) && t in h && target in h && h[target].isInterface
    ensures ImplementsFactory(h, rank, t, target) <==> Reaches(h, t, target)
  {
    if ImplementsFactory(h, rank, t, target) {
      ImplementsReaches(h, rank, t, target);
    }
    if Reaches(h, t, target) {
      var path :| |path| >= 2 && path[0] == t && path[|path| - 1] == target && IsPath(h, path);
      PathImplements(h, rank, path, target);
    }
  }

  // ----- the search as written: the inner loop moves to the ROOT's superclass -----

  /**
   * searchInterfacesAncestry as written, run for at most `fuel` steps: `None` when it has not
   * returned by then. After an interface fails, the loop variable becomes the superclass of the
   * root (not of the interface), and stays there while that superclass does not reach the target.
   */
  function SearchAsWritten(h: Hierarchy, root: string, target: string, fuel: nat): Option<bool>
    requires WellFormed(h) && root in h
    decreases fuel, 2, 0
  {
    if fuel == 0 then None else EachInterfaceAsWritten(h, root, h[root].interfaces, target, fuel - 1)
  }

  /** The `for` over the root's interfaces. */
  function EachInterfaceAsWritten(h: Hierarchy, root: string, ifaces: seq<string>, target: string, fuel: nat): Option<bool>
    requires WellFormed(h) && root in h
    requires forall i :: i in ifaces ==> i in h
    decreases fuel, 1, |ifaces|
  {
    if |ifaces| == 0 then Some(false)
    else
      match InnerLoopAsWritten(h, root, Some(ifaces[0]), target, fuel)
      case Some(false) => EachInterfaceAsWritten(h, root, ifaces[1..], target, fuel)
      case other => other
  }

  /** The `while (iface.getKind() != NONE)` loop. */
  function InnerLoopAsWritten(h: Hierarchy, root: string, iface: Option<string>, target: string, fuel: nat): Option<bool>
    requires WellFormed(h) && root in h
    requires iface.Some? ==> iface.value in h
    decreases fuel, 0, 0
  {
    if iface.None? then Some(false)
    else if fuel == 0 then None
    else if iface.value == target then Some(true)
    else
      match SearchAsWritten(h, iface.value, target, fuel - 1)
      case Some(false) => InnerLoopAsWritten(h, root, h[root].superclass, target, fuel - 1)
      case other => other
  }

  /** implementsJsonAdapterFactory over the as-written search. */
  function ImplementsAsWritten(h: Hierarchy, t: string, target: string, fuel: nat): Option<bool>
    requires WellFormed(h) && t in h
    decreases fuel
  {
    if fuel == 0 then None
    else
      match SearchAsWritten(h, t, target, fuel)
      case Some(false) =>
        if h[t].superclass.None? then Some(false) else ImplementsAsWritten(h, h[t].superclass.value, target, fuel - 1)
      case other => other
  }

  // ----- whenever the search as written returns, its answer is right -----

  lemma {:induction false} SearchAsWrittenSound(h: Hierarchy, rank: map<string, nat>, root: string, target: string, fuel: nat)
    requires Valid(h, rank) && root in h
    ensures SearchAsWritten(h, root, target, fuel) == Some(true) ==> Reaches(h, root, target)
    ensures SearchAsWritten(h, root, target, fuel) == Some(false) ==> !SearchInterfaces(h, rank, root, target)
    decreases fuel, 2, 0
  {
    if fuel > 0 {
      EachInterfaceSound(h, rank, root, h[root].interfaces, target, fuel - 1);
    }
  }

  lemma {:induction false} EachInterfaceSound(h: Hierarchy, rank: map<string, nat>, root: string, ifaces: seq<string>,
                                              target: string, fuel: nat)
    requires Valid(h, rank) && root in h
    requires forall i :: i in ifaces ==> i in h[root].interfaces
    ensures EachInterfaceAsWritten(h, root, ifaces, target, fuel) == Some(true) ==> Reaches(h, root, target)
    ensures EachInterfaceAsWritten(h, root, ifaces, target, fuel) == Some(false) ==> !AnyInterface(h, rank, root, ifaces, target)
    decreases fuel, 1, |ifaces|
  {
    if |ifaces| > 0 {
      var i := ifaces[0];
      assert i in h;
      InnerLoopSound(h, rank, root, Some(i), target, fuel);
      EachInterfaceSound(h, rank, root, ifaces[1..], target, fuel);
      var first := InnerLoopAsWritten(h, root, Some(i), target, fuel);
      if first == Some(false) {
        assert forall k :: 1 <= k < |ifaces| ==> ifaces[k] == ifaces[1..][k - 1];
      }
    }
  }

  lemma {:induction false} InnerLoopSound(h: Hierarchy, rank: map<string, nat>, root: string, iface: Option<string>,
                                          target: string, fuel: nat)
    requires Valid(h, rank) && root in h
    requires iface.Some? ==> Edge(h, root, iface.value)
    ensures InnerLoopAsWritten(h, root, iface, target, fuel) == Some(true) ==> Reaches(h, root, target)
    ensures (InnerLoopAsWritten(h, root, iface, target, fuel) == Some(false) && iface.Some?)
            ==> iface.value != target && !SearchInterfaces(h, rank, iface.value, target)
    decreases fuel, 0, 0
  {
    if iface.Some? && fuel > 0 {
      var i := iface.value;
      if i == target {
        DirectEdge(h, root, target);
      } else {
        SearchAsWrittenSound(h, rank, i, target, fuel - 1);
        var inner := SearchAsWritten(h, i, target, fuel - 1);
        if inner == Some(true) {
          PrependEdge(h, root, i, target);
        } else if inner == Some(false) {
          InnerLoopSound(h, rank, root, h[root].superclass, target, fuel - 1);
        }
      }
    }
  }

  lemma {:induction false} ImplementsAsWrittenSound(h: Hierarchy, rank: map<string, nat>, t: string, target: string, fuel: nat)
    requires Valid(h, rank) && t in h && target in h && h[target].isInterface
    ensures ImplementsAsWritten(h, t, target, fuel).Some? ==>
              ImplementsAsWritten(h, t, target, fuel).value == ImplementsFactory(h, rank, t, target)
    decreases fuel
  {
    if fuel > 0 {
      SearchAsWrittenSound(h, rank, t, target, fuel);
      var s := SearchAsWritten(h, t, target, fuel);
      if s == Some(true) {
        ImplementsFactoryIffReaches(h, rank, t, target);
      } else if s == Some(false) && h[t].superclass.Some? {
        ImplementsAsWrittenSound(h, rank, h[t].superclass.value, target, fuel - 1);
      }
    }
  }
}

/**
 * A factory `class MyFactory implements Marker, JsonAdapter.Factory`: the search as written gets
 * stuck on `java.lang.Object` after `Marker` fails and never looks at the second interface.
 */
module StuckSearch {
  import opened Wrappers
  import opened TypeHierarchy

  const Factory := FactoryInterface

  function Example(): Hierarchy {
    map[
      "java.lang.Object" := TypeDecl(false, None, []),
      Factory := TypeDecl(true, None, []),
      "Marker" := TypeDecl(true, None, []),
      "MyFactory" := TypeDecl(false, Some("java.lang.Object"), ["Marker", Factory])
    ]
  }

  function ExampleRank(): map<string, nat> {
    map["java.lang.Object" := 0, Factory := 0, "Marker" := 0, "MyFactory" := 1]
  }

  lemma ExampleValid()
    ensures Valid(Example(), ExampleRank())
  {
    var h, rank := Example(), ExampleRank();
    assert h.Keys == rank.Keys == {"java.lang.Object", Factory, "Marker", "MyFactory"};
    assert WellFormed(h) by {
      forall t | t in h
        ensures h[t].superclass.Some? ==> h[t].superclass.value in h && !h[h[t].superclass.value].isInterface
        ensures h[t].isInterface ==> h[t].superclass.None?
        ensures forall i :: i in h[t].interfaces ==> i in h && h[i].isInterface
      {
      }
    }
    assert Ranked(h, rank) by {
      forall t | t in h
        ensures t in rank
        ensures h[t].superclass.Some? && h[t].superclass.value in rank ==> rank[h[t].superclass.value] < rank[t]
        ensures forall i :: i in h[t].interfaces && i in rank ==> rank[i] < rank[t]
      {
      }
    }
  }

  /** The loop on the root's superclass never returns. */
  lemma {:induction false} ObjectLoopNeverReturns(fuel: nat)
    ensures WellFormed(Example())
    ensures InnerLoopAsWritten(Example(), "MyFactory", Some("java.lang.Object"), Factory, fuel) == None
  {
    ExampleValid();
    if fuel > 0 {
      if fuel > 1 {
        assert SearchAsWritten(Example(), "java.lang.Object", Factory, fuel - 1) == Some(false);
      }
      ObjectLoopNeverReturns(fuel - 1);
    }
  }

  /** As written: no amount of steps makes the supertype test return for this valid factory. */
  lemma SearchNeverReturnsAsWritten(fuel: nat)
    ensures WellFormed(Example())
    ensures ImplementsAsWritten(Example(), "MyFactory", Factory, fuel) == None
  {
    ExampleValid();
    var h := Example();
    if fuel > 0 {
      assert InnerLoopAsWritten(h, "MyFactory", Some("Marker"), Factory, fuel - 1) == None by {
        if fuel > 1 {
          ObjectLoopNeverReturns(fuel - 2);
          if fuel > 2 {
            assert SearchAsWritten(h, "Marker", Factory, fuel - 2) == Some(false);
          }
        }
      }
      assert h["MyFactory"].interfaces[0] == "Marker";
      assert EachInterfaceAsWritten(h, "MyFactory", h["MyFactory"].interfaces, Factory, fuel - 1) == None;
    }
  }

  /** Corrected: the search moving up the interface's own supertypes accepts the factory. */
  lemma SearchAcceptsCorrected()
    ensures Valid(Example(), ExampleRank())
    ensures ImplementsFactory(Example(), ExampleRank(), "MyFactory", Factory)
  {
    ExampleValid();
    var h := Example();
    assert h["MyFactory"].interfaces[1] == Factory;
  }
}
