/**
 * The whole startup and one request for an application shaped like the
 * shipped demo: one controller whose `@Autowired` field is typed by an
 * interface, and one `@Service` with a blank value implementing it.
 */
module Scenario {
  import opened JavaText
  import opened Wrappers
  import opened Components
  import opened Registry
  import opened Wiring
  import opened Routing
  import opened Dispatching
  import opened Paths

  /** A controller `ctrl` and a service `svc` registered by its one interface `iface`. */
  predicate Demo(ctrl: ClassDesc, svc: ClassDesc, iface: JString)
  {
    && ctrl.isController && ctrl.instantiable && |ctrl.simpleName| > 0
    && !svc.isController && svc.isService && svc.instantiable && IsBlank(svc.serviceValue)
    && svc.interfaces == [iface]
    && LowerFirst(ctrl.simpleName) != iface
  }

  /** The container before `doLoadClassInstance`. */
  function Empty(): Registry
  {
    Registry(map[], map[], 0)
  }

  /** The container after loading the two scanned names. */
  function DemoBeans(ctrl: ClassDesc, svc: ClassDesc, cn: JString, sn: JString): Registry
  {
    LoadAll(Empty(), [cn, sn], map[cn := ctrl, sn := svc])
  }

  /** The controller is object 0 under its lower-cased simple name; the service is object 1 under the interface name. */
  lemma DemoRegistry(ctrl: ClassDesc, svc: ClassDesc, iface: JString, cn: JString, sn: JString)
    requires Demo(ctrl, svc, iface) && cn != sn
    ensures DemoBeans(ctrl, svc, cn, sn) ==
      Registry(map[LowerFirst(ctrl.simpleName) := 0, iface := 1], map[0 := ctrl, 1 := svc], 2)
  {
    var classes := map[cn := ctrl, sn := svc];
    var bean := LowerFirst(ctrl.simpleName);
    LoadAllSnoc(Empty(), [], cn, classes);
    assert [] + [cn] == [cn];
    LoadController(Empty(), ctrl);
    var r1 := Registry(map[bean := 0], map[0 := ctrl], 1);
    assert LoadAll(Empty(), [cn], classes) == r1;
    LoadAllSnoc(Empty(), [cn], sn, classes);
    assert [cn] + [sn] == [cn, sn];
    assert BeanKeys(svc) == [iface];
    PutOne(r1, iface, svc);
    assert LoadName(r1, sn, classes) == Put(r1, iface, svc);
  }

  /** Whatever the iteration order, the controller's interface-typed field ends up holding the service. */
  lemma DemoWiring(ctrl: ClassDesc, svc: ClassDesc, iface: JString, cn: JString, sn: JString,
                   order: seq<JString>, s: Slots, i: nat)
    requires Demo(ctrl, svc, iface) && cn != sn
    requires Enumerates(order, DemoBeans(ctrl, svc, cn, sn).ioc.Keys)
    requires i < |ctrl.fields| && LastAutowired(ctrl.fields, ctrl.fields[i].name, i)
    requires IsBlank(ctrl.fields[i].autowired.value) && ctrl.fields[i].typeName == iface
    ensures var r := DemoBeans(ctrl, svc, cn, sn);
      && (0, ctrl.fields[i].name) in Wire(s, r.ioc, r.classOf, order)
      && Wire(s, r.ioc, r.classOf, order)[(0, ctrl.fields[i].name)] == Some(1)
  {
    var r := DemoBeans(ctrl, svc, cn, sn);
    var bean := LowerFirst(ctrl.simpleName);
    DemoRegistry(ctrl, svc, iface, cn, sn);
    DemoControllerVisited(bean, iface, ctrl, svc, order);
    WiredField(s, r.ioc, r.classOf, order, 0, i);
    assert WireKey(ctrl.fields[i]) == iface;
  }

  /** Every iteration order of the two beans reaches the controller, object 0. */
  lemma DemoControllerVisited(bean: JString, iface: JString, ctrl: ClassDesc, svc: ClassDesc, order: seq<JString>)
    requires bean != iface && Enumerates(order, map[bean := 0, iface := 1].Keys)
    ensures Visited(map[bean := 0, iface := 1], map[0 := ctrl, 1 := svc], order, 0)
  {
    var ioc := map[bean := 0, iface := 1];
    assert bean in ioc.Keys;
    var j :| 0 <= j < |order| && order[j] == bean;
    assert order[j] in ioc && ioc[order[j]] == 0 && 0 in map[0 := ctrl, 1 := svc];
  }

  /** With `ctrl` the only controller registered, the route of its method `m` leads to `m`. */
  lemma OnlyControllerRoute(ioc: map<JString, ObjId>, classOf: map<ObjId, ClassDesc>, order: seq<JString>,
                            ctrl: ClassDesc, m: MethodDesc, j: nat)
    requires j < |order| && order[j] in ioc && ioc[order[j]] in classOf && classOf[ioc[order[j]]] == ctrl
    requires forall o | o in classOf && classOf[o].isController :: classOf[o] == ctrl
    requires ctrl.isController && m in ctrl.methods && m.mapping.Some?
    requires forall m' | m' in ctrl.methods && m'.mapping.Some? ::
      Route(BasePath(ctrl), m'.mapping.value) == Route(BasePath(ctrl), m.mapping.value) ==> m' == m
    ensures var hm := PutAll(map[], Contributions(ioc, classOf, order));
      var route := Route(BasePath(ctrl), m.mapping.value);
      route in hm && hm[route] == m
  {
    var ps := Contributions(ioc, classOf, order);
    var route := Route(BasePath(ctrl), m.mapping.value);
    ContributionsCover(ioc, classOf, order, j, m);
    PutAllKeys(map[], ps);
    var hm := PutAll(map[], ps);
    assert route in hm;
    PutAllFrom(map[], ps, route);
    ContributionsFrom(ioc, classOf, order);
    var e := (route, hm[route]);
    var j' :| 0 <= j' < |order| && order[j'] in ioc && ioc[order[j']] in classOf
      && classOf[ioc[order[j']]].isController
      && e.1 in classOf[ioc[order[j']]].methods && e.1.mapping.Some?
      && e.0 == Route(BasePath(classOf[ioc[order[j']]]), e.1.mapping.value);
    assert classOf[ioc[order[j']]] == ctrl;
  }

  /**
   * Whatever the iteration order, a request for the route of the
   * controller's method `m` invokes `m` on the controller instance.
   */
  lemma DemoDispatch(ctrl: ClassDesc, svc: ClassDesc, iface: JString, cn: JString, sn: JString,
                     order: seq<JString>, m: MethodDesc, req: Request)
    requires Demo(ctrl, svc, iface) && cn != sn
    requires Enumerates(order, DemoBeans(ctrl, svc, cn, sn).ioc.Keys)
    requires m in ctrl.methods && m.mapping.Some? && m.declaringSimpleName == ctrl.simpleName
    requires forall m' | m' in ctrl.methods && m'.mapping.Some? ::
      Route(BasePath(ctrl), m'.mapping.value) == Route(BasePath(ctrl), m.mapping.value) ==> m' == m
    requires RequestPath(req) == Route(BasePath(ctrl), m.mapping.value)
    ensures var r := DemoBeans(ctrl, svc, cn, sn);
      Resolve(PutAll(map[], Contributions(r.ioc, r.classOf, order)), r.ioc, req) ==
        Invoked(Some(0), m, Arguments(m.params, req))
  {
    DemoRegistry(ctrl, svc, iface, cn, sn);
    var r := DemoBeans(ctrl, svc, cn, sn);
    var bean := LowerFirst(ctrl.simpleName);
    assert bean in r.ioc.Keys;
    var j :| 0 <= j < |order| && order[j] == bean;
    OnlyControllerRoute(r.ioc, r.classOf, order, ctrl, m, j);
    var hm := PutAll(map[], Contributions(r.ioc, r.classOf, order));
    assert hm.Keys != {};
  }
}
