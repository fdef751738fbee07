/**
 * The route table builder, `initHandlerMapping`: every `@RequestMapping`
 * method of every registered controller is put into `handlerMapping` under
 * its composed path; a later put for the same path overwrites an earlier one.
 */
module Routing {
  import opened JavaText
  import opened Wrappers
  import opened Components
  import opened Paths

  /** One `handlerMapping.put(url, method)`. */
  type RouteEntry = (JString, MethodDesc)

  /** The class-level `@RequestMapping` value, or "" when the class has none. */
  function BasePath(c: ClassDesc): JString
  {
    c.mapping.GetOr([])
  }

  /** The puts for the methods of one class, in `getMethods()` order; unannotated methods are skipped. */
  function MethodRoutes(base: JString, methods: seq<MethodDesc>): seq<RouteEntry>
  {
    if methods == [] then []
    else
      var m := methods[|methods| - 1];
      MethodRoutes(base, methods[..|methods| - 1]) +
      (if m.mapping.Some? then [(Route(base, m.mapping.value), m)] else [])
  }

  /** The puts one registered object contributes: none unless its class is a controller. */
  function ClassRoutes(c: ClassDesc): seq<RouteEntry>
  {
    if c.isController then MethodRoutes(BasePath(c), c.methods) else []
  }

  /** All puts of the pass, over the `ioc` entries in iteration order `order`. */
  function Contributions(ioc: map<JString, ObjId>, classOf: map<ObjId, ClassDesc>, order: seq<JString>): seq<RouteEntry>
  {
    if order == [] then []
    else
      var k := order[|order| - 1];
      Contributions(ioc, classOf, order[..|order| - 1]) +
      (if k in ioc && ioc[k] in classOf then ClassRoutes(classOf[ioc[k]]) else [])
  }

  /** The map after the puts `ps`, in order, starting from `h`. */
  function PutAll(h: map<JString, MethodDesc>, ps: seq<RouteEntry>): map<JString, MethodDesc>
  {
    if ps == [] then h
    else PutAll(h, ps[..|ps| - 1])[ps[|ps| - 1].0 := ps[|ps| - 1].1]
  }

  // ---------------------------------------------------------------------
  // Last write wins

  lemma {:induction false} PutAllConcat(h: map<JString, MethodDesc>, a: seq<RouteEntry>, b: seq<RouteEntry>)
    ensures PutAll(h, a + b) == PutAll(PutAll(h, a), b)
    decreases |b|
  {
    if b == [] {
      assert a + b == a;
    } else {
      assert (a + b)[..|a + b| - 1] == a + b[..|b| - 1];
      PutAllConcat(h, a, b[..|b| - 1]);
    }
  }

  /** Entries are only ever added or overwritten: the keys are the old keys and the put paths. */
  lemma {:induction false} PutAllKeys(h: map<JString, MethodDesc>, ps: seq<RouteEntry>)
    ensures forall p :: p in PutAll(h, ps) <==> p in h || exists i | 0 <= i < |ps| :: ps[i].0 == p
  {
    if ps != [] {
      var init := ps[..|ps| - 1];
      PutAllKeys(h, init);
      forall p ensures p in PutAll(h, ps) <==> p in h || exists i | 0 <= i < |ps| :: ps[i].0 == p {
        if exists i | 0 <= i < |init| :: init[i].0 == p {
          var i :| 0 <= i < |init| && init[i].0 == p;
          assert ps[i].0 == p;
        }
        if exists i | 0 <= i < |ps| :: ps[i].0 == p {
          var i :| 0 <= i < |ps| && ps[i].0 == p;
          if i < |init| {
            assert init[i].0 == p;
          }
        }
      }
    }
  }

  /** For every path, the final map holds the method of the LAST put for that path. */
  lemma {:induction false} LastWriteWins(h: map<JString, MethodDesc>, ps: seq<RouteEntry>, i: nat)
    requires i < |ps| && forall j | i < j < |ps| :: ps[j].0 != ps[i].0
    ensures ps[i].0 in PutAll(h, ps) && PutAll(h, ps)[ps[i].0] == ps[i].1
  {
    if i < |ps| - 1 {
      var init := ps[..|ps| - 1];
      assert init[i] == ps[i];
      LastWriteWins(h, init, i);
    }
  }

  /** A path that is never put keeps its old entry, or stays absent. */
  lemma {:induction false} PutAllUntouched(h: map<JString, MethodDesc>, ps: seq<RouteEntry>, p: JString)
    requires forall i | 0 <= i < |ps| :: ps[i].0 != p
    ensures p in PutAll(h, ps) <==> p in h
    ensures p in h ==> PutAll(h, ps)[p] == h[p]
  {
    if ps != [] {
      PutAllUntouched(h, ps[..|ps| - 1], p);
    }
  }

  // ---------------------------------------------------------------------
  // Which methods contribute

  /** Exactly the annotated methods contribute, each under `Route(base, value)`. */
  lemma {:induction false} MethodRoutesExactly(base: JString, methods: seq<MethodDesc>)
    ensures forall e | e in MethodRoutes(base, methods) ::
      e.1 in methods && e.1.mapping.Some? && e.0 == Route(base, e.1.mapping.value)
    ensures forall m | m in methods && m.mapping.Some? :: (Route(base, m.mapping.value), m) in MethodRoutes(base, methods)
  {
    if methods != [] {
      var init := methods[..|methods| - 1];
      MethodRoutesExactly(base, init);
      assert forall m | m in init :: m in methods;
      assert forall m | m in methods :: m in init || m == methods[|methods| - 1];
    }
  }

  /**
   * Every put comes from a visited controller and one of its annotated
   * methods, under `Route(base, value)` with `base` the class-level value or "".
   */
  lemma {:induction false} ContributionsFrom(ioc: map<JString, ObjId>, classOf: map<ObjId, ClassDesc>, order: seq<JString>)
    ensures forall e | e in Contributions(ioc, classOf, order) ::
      exists j | 0 <= j < |order| ::
        && order[j] in ioc && ioc[order[j]] in classOf
        && classOf[ioc[order[j]]].isController
        && e.1 in classOf[ioc[order[j]]].methods && e.1.mapping.Some?
        && e.0 == Route(BasePath(classOf[ioc[order[j]]]), e.1.mapping.value)
  {
    if order != [] {
      var init := order[..|order| - 1];
      var k := order[|order| - 1];
      ContributionsFrom(ioc, classOf, init);
      if k in ioc && ioc[k] in classOf && classOf[ioc[k]].isController {
        MethodRoutesExactly(BasePath(classOf[ioc[k]]), classOf[ioc[k]].methods);
      }
      forall e | e in Contributions(ioc, classOf, order)
        ensures exists j | 0 <= j < |order| ::
          && order[j] in ioc && ioc[order[j]] in classOf
          && classOf[ioc[order[j]]].isController
          && e.1 in classOf[ioc[order[j]]].methods && e.1.mapping.Some?
          && e.0 == Route(BasePath(classOf[ioc[order[j]]]), e.1.mapping.value)
      {
        if e in Contributions(ioc, classOf, init) {
          var j :| 0 <= j < |init|
            && init[j] in ioc && ioc[init[j]] in classOf
            && classOf[ioc[init[j]]].isController
            && e.1 in classOf[ioc[init[j]]].methods && e.1.mapping.Some?
            && e.0 == Route(BasePath(classOf[ioc[init[j]]]), e.1.mapping.value);
          assert order[j] == init[j];
        } else {
          assert order[|order| - 1] == k;
        }
      }
    }
  }

  /** Every annotated method of every visited controller is put under its route. */
  lemma {:induction false} ContributionsCover(ioc: map<JString, ObjId>, classOf: map<ObjId, ClassDesc>, order: seq<JString>,
                                              j: nat, m: MethodDesc)
    requires j < |order| && order[j] in ioc && ioc[order[j]] in classOf
    requires classOf[ioc[order[j]]].isController && m in classOf[ioc[order[j]]].methods && m.mapping.Some?
    ensures (Route(BasePath(classOf[ioc[order[j]]]), m.mapping.value), m) in Contributions(ioc, classOf, order)
  {
    var init := order[..|order| - 1];
    if j < |order| - 1 {
      assert init[j] == order[j];
      ContributionsCover(ioc, classOf, init, j, m);
    } else {
      var c := classOf[ioc[order[j]]];
      MethodRoutesExactly(BasePath(c), c.methods);
    }
  }

  /** Every path put into the table starts with '/' and has no repeated '/'. */
  lemma RouteKeysNormal(ioc: map<JString, ObjId>, classOf: map<ObjId, ClassDesc>, order: seq<JString>)
    ensures forall e | e in Contributions(ioc, classOf, order) ::
      |e.0| > 0 && e.0[0] == Slash && NoDoubleSlash(e.0)
  {
    ContributionsFrom(ioc, classOf, order);
    forall e | e in Contributions(ioc, classOf, order)
      ensures |e.0| > 0 && e.0[0] == Slash && NoDoubleSlash(e.0)
    {
      var j :| 0 <= j < |order|
        && order[j] in ioc && ioc[order[j]] in classOf
        && classOf[ioc[order[j]]].isController
        && e.1 in classOf[ioc[order[j]]].methods && e.1.mapping.Some?
        && e.0 == Route(BasePath(classOf[ioc[order[j]]]), e.1.mapping.value);
      RouteShape(BasePath(classOf[ioc[order[j]]]), e.1.mapping.value);
    }
  }

  /** Two methods of one controller mapped to the same composed path: the second one is kept. */
  lemma SamePathSecondWins(c: ClassDesc, m1: MethodDesc, m2: MethodDesc, h: map<JString, MethodDesc>)
    requires c.isController && c.methods == [m1, m2]
    requires m1.mapping.Some? && m2.mapping.Some?
    requires Route(BasePath(c), m1.mapping.value) == Route(BasePath(c), m2.mapping.value)
    ensures PutAll(h, ClassRoutes(c))[Route(BasePath(c), m1.mapping.value)] == m2
  {
    var base := BasePath(c);
    assert c.methods[..1] == [m1];
    assert [m1][..0] == [];
    assert MethodRoutes(base, [m1]) == [(Route(base, m1.mapping.value), m1)];
    assert ClassRoutes(c) == [(Route(base, m1.mapping.value), m1), (Route(base, m2.mapping.value), m2)];
    LastWriteWins(h, ClassRoutes(c), 1);
  }

  /** Keys that are none of them registered contribute no route; with an empty `ioc` this is the early return. */
  lemma {:induction false} ContributionsOutside(ioc: map<JString, ObjId>, classOf: map<ObjId, ClassDesc>, order: seq<JString>)
    requires forall i | 0 <= i < |order| :: order[i] !in ioc
    ensures Contributions(ioc, classOf, order) == []
  {
    if order != [] {
      ContributionsOutside(ioc, classOf, order[..|order| - 1]);
    }
  }

  /** One step of `MethodRoutes` over a prefix of `methods`. */
  lemma MethodRoutesStep(base: JString, methods: seq<MethodDesc>, j: nat)
    requires j < |methods|
    ensures MethodRoutes(base, methods[..j + 1]) ==
      MethodRoutes(base, methods[..j]) +
      (if methods[j].mapping.Some? then [(Route(base, methods[j].mapping.value), methods[j])] else [])
  {
    assert methods[..j + 1][..j] == methods[..j];
  }

  /** One put appended to a sequence of puts. */
  lemma PutAllSnoc(h: map<JString, MethodDesc>, ps: seq<RouteEntry>, e: RouteEntry)
    ensures PutAll(h, ps + [e]) == PutAll(h, ps)[e.0 := e.1]
  {
    assert (ps + [e])[..|ps|] == ps;
  }

  /** Every entry the puts added holds the value of one of the puts for its path. */
  lemma {:induction false} PutAllFrom(h: map<JString, MethodDesc>, ps: seq<RouteEntry>, p: JString)
    requires p in PutAll(h, ps) && p !in h
    ensures (p, PutAll(h, ps)[p]) in ps
  {
    if ps != [] {
      var init := ps[..|ps| - 1];
      if ps[|ps| - 1].0 != p {
        PutAllFrom(h, init, p);
        assert (p, PutAll(h, init)[p]) in init;
      }
    }
  }

  /** One step of the pass over a prefix of the iteration order, for a registered key. */
  lemma ContributionsStep(ioc: map<JString, ObjId>, classOf: map<ObjId, ClassDesc>, order: seq<JString>, i: nat)
    requires i < |order| && order[i] in ioc && ioc[order[i]] in classOf
    ensures Contributions(ioc, classOf, order[..i + 1]) ==
      Contributions(ioc, classOf, order[..i]) + ClassRoutes(classOf[ioc[order[i]]])
  {
    assert order[..i + 1][..i] == order[..i];
  }
}
