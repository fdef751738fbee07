/**
 * The servlet itself: its container state, the four startup stages run in
 * order by `init`, and per-request dispatch. Each stage is proved equal to
 * its specification in the modules it imports.
 */
module Servlet {
  import opened JavaText
  import opened Wrappers
  import opened Components
  import opened Scanning
  import opened Registry
  import opened Wiring
  import opened Routing
  import opened Dispatching
  import opened Paths

  /** The keys of `m` in some order, as iterating a `HashMap` yields them; which order is not specified. */
  method IterationOrder<V>(m: map<JString, V>) returns (order: seq<JString>)
    ensures Enumerates(order, m.Keys)
  {
    order := [];
    var rest := m.Keys;
    while rest != {}
      invariant forall i | 0 <= i < |order| :: order[i] in m.Keys && order[i] !in rest
      invariant forall k | k in m.Keys :: k in rest || k in order
      invariant rest <= m.Keys
      invariant forall i, j | 0 <= i < j < |order| :: order[i] != order[j]
      decreases rest
    {
      var k :| k in rest;
      order := order + [k];
      rest := rest - {k};
    }
  }

  class DispatcherServlet {
    /** Every class name the scan found. */
    var classNames: seq<JString>
    /** The container: bean name to instance. */
    var ioc: map<JString, ObjId>
    /** The route table: normalised path to handler method. */
    var handlerMapping: map<JString, MethodDesc>
    /** The runtime class of every instance created. */
    var classOf: map<ObjId, ClassDesc>
    /** The fields the wirer has assigned. */
    var slots: Slots
    /** The id the next `newInstance` yields. */
    var nextId: ObjId

    /** The registry part of the state as a value. */
    function Beans(): Registry
      reads this
    {
      Registry(ioc, classOf, nextId)
    }

    ghost predicate Valid()
      reads this
    {
      Consistent(Beans())
    }

    constructor ()
      ensures Valid()
      ensures classNames == [] && ioc == map[] && handlerMapping == map[]
      ensures classOf == map[] && slots == map[] && nextId == 0
    {
      classNames, ioc, handlerMapping := [], map[], map[];
      classOf, slots, nextId := map[], map[], 0;
    }

    /**
     * `init`: scan, instantiate, wire, build the route table, in that order.
     * A package that cannot be found is fatal (`ok` is false, nothing changes);
     * `order` is the iteration order of `ioc` that wiring and routing both used.
     */
    method Init(scanPackage: JString, listing: Option<seq<Entry>>, classes: map<JString, ClassDesc>)
      returns (ok: bool, order: seq<JString>)
      requires Valid()
      modifies this
      ensures Valid()
      ensures ok <==> listing.Some?
      ensures !ok ==> unchanged(this)
      ensures ok ==>
        && classNames == old(classNames) + ScanNames(scanPackage, listing.value)
        && Beans() == LoadAll(old(Beans()), classNames, classes)
        && Enumerates(order, ioc.Keys)
        && slots == Wire(old(slots), ioc, classOf, order)
        && handlerMapping == PutAll(old(handlerMapping), Contributions(ioc, classOf, order))
    {
      order := [];
      if listing.None? {
        ok := false;
        return;
      }
      ok := true;
      Scan(scanPackage, listing.value);
      LoadClassInstances(classes);
      order := IterationOrder(ioc);
      AutoWire(order);
      InitHandlerMapping(order);
    }

    /** `doSCanner`: append the class names under `pkg`, entering sub-directories as they are listed. */
    method Scan(pkg: JString, entries: seq<Entry>)
      modifies this`classNames
      ensures classNames == old(classNames) + ScanNames(pkg, entries)
      decreases entries, 1
    {
      var i := 0;
      while i < |entries|
        invariant 0 <= i <= |entries|
        invariant classNames == old(classNames) + ScanNames(pkg, entries[..i])
      {
        ScanNamesStep(pkg, entries, i);
        ScanEntry(pkg, entries[i]);
        i := i + 1;
      }
      assert entries[..i] == entries;
    }

    /** One entry of the listing: a sub-directory is scanned as package `pkg + "." + name`, a file is recorded. */
    method ScanEntry(pkg: JString, e: Entry)
      modifies this`classNames
      ensures classNames == old(classNames) + EntryNames(pkg, e)
      decreases e, 0
    {
      match e {
        case Directory(n, sub) =>
          Scan(pkg + [Dot] + n, sub);
        case PlainFile(n) =>
          AddClassName(pkg, n);
      }
    }

    /** `classNames.add(...)` for one plain file of the listing. */
    method AddClassName(pkg: JString, fileName: JString)
      modifies this`classNames
      ensures classNames == old(classNames) + [FileClassName(pkg, fileName)]
    {
      classNames := classNames + [pkg + [Dot] + Trim(RemoveAll(fileName, ClassSuffix()))];
    }

    /** `clazz.newInstance()` stored with `ioc.put(key, ...)`. */
    method NewInstance(key: JString, c: ClassDesc)
      requires Valid()
      modifies this`ioc, this`classOf, this`nextId
      ensures Valid()
      ensures Beans() == Put(old(Beans()), key, c)
    {
      classOf := classOf[nextId := c];
      ioc := ioc[key := nextId];
      nextId := nextId + 1;
    }

    /** `doLoadClassInstance`: instantiate every scanned controller and service. */
    method LoadClassInstances(classes: map<JString, ClassDesc>)
      requires Valid()
      modifies this`ioc, this`classOf, this`nextId
      ensures Valid()
      ensures Beans() == LoadAll(old(Beans()), classNames, classes)
    {
      if |classNames| == 0 {
        return;
      }
      var i := 0;
      while i < |classNames|
        invariant 0 <= i <= |classNames|
        invariant Valid()
        invariant Beans() == LoadAll(old(Beans()), classNames[..i], classes)
      {
        LoadAllSnoc(old(Beans()), classNames[..i], classNames[i], classes);
        assert classNames[..i] + [classNames[i]] == classNames[..i + 1];
        LoadClassName(classNames[i], classes);
        i := i + 1;
      }
      assert classNames[..i] == classNames;
    }

    /** The body of `doLoadClassInstance`'s loop for one scanned name; a failed lookup is caught and skipped. */
    method LoadClassName(className: JString, classes: map<JString, ClassDesc>)
      requires Valid()
      modifies this`ioc, this`classOf, this`nextId
      ensures Valid()
      ensures Beans() == LoadName(old(Beans()), className, classes)
    {
      if className !in classes {
        return;
      }
      var c := classes[className];
      if c.isController {
        if |c.simpleName| > 0 && c.instantiable {
          var beanName := LowerFirstCase(c.simpleName);
          PutOne(Beans(), beanName, c);
          NewInstance(beanName, c);
        }
      } else if c.isService {
        var beanName := c.serviceValue;
        if Trim(beanName) != [] {
          if c.instantiable {
            PutOne(Beans(), beanName, c);
            NewInstance(beanName, c);
          }
        } else if c.instantiable {
          PutInterfaces(c.interfaces, c);
        }
      }
    }

    /** The loop over `getInterfaces()`: one new instance per interface name. */
    method PutInterfaces(interfaces: seq<JString>, c: ClassDesc)
      requires Valid()
      modifies this`ioc, this`classOf, this`nextId
      ensures Valid()
      ensures Beans() == PutEach(old(Beans()), interfaces, c)
    {
      var j := 0;
      while j < |interfaces|
        invariant 0 <= j <= |interfaces|
        invariant Valid()
        invariant Beans() == PutEach(old(Beans()), interfaces[..j], c)
      {
        PutEachStep(old(Beans()), interfaces, j, c);
        NewInstance(interfaces[j], c);
        j := j + 1;
      }
      assert interfaces[..j] == interfaces;
    }

    /** `doAutoWired`: assign every `@Autowired` field of every registered object. */
    method AutoWire(order: seq<JString>)
      requires Valid() && Enumerates(order, ioc.Keys)
      modifies this`slots
      ensures slots == Wire(old(slots), ioc, classOf, order)
    {
      if |ioc| == 0 {
        WireOutside(slots, ioc, classOf, order);
        return;
      }
      var i := 0;
      while i < |order|
        invariant 0 <= i <= |order|
        invariant slots == Wire(old(slots), ioc, classOf, order[..i])
      {
        var o := ioc[order[i]];
        WireStep(old(slots), ioc, classOf, order, i);
        WireObject(o, classOf[o].fields);
        i := i + 1;
      }
      assert order[..i] == order;
    }

    /** The inner loop of `doAutoWired`: the fields of one object, in declaration order. */
    method WireObject(o: ObjId, fields: seq<FieldDesc>)
      modifies this`slots
      ensures slots == WireFields(old(slots), o, fields, ioc)
    {
      var j := 0;
      while j < |fields|
        invariant 0 <= j <= |fields|
        invariant slots == WireFields(old(slots), o, fields[..j], ioc)
      {
        WireFieldsStep(old(slots), o, fields, ioc, j);
        var field := fields[j];
        if field.autowired.Some? {
          var beanName := Trim(field.autowired.value);
          if beanName == [] {
            beanName := field.typeName;
          }
          assert beanName == WireKey(field);
          slots := slots[(o, field.name) := Get(ioc, beanName)];
        }
        j := j + 1;
      }
      assert fields[..j] == fields;
    }

    /** `initHandlerMapping`: put every annotated controller method under its route. */
    method InitHandlerMapping(order: seq<JString>)
      requires Valid() && Enumerates(order, ioc.Keys)
      modifies this`handlerMapping
      ensures handlerMapping == PutAll(old(handlerMapping), Contributions(ioc, classOf, order))
    {
      if |ioc| == 0 {
        ContributionsOutside(ioc, classOf, order);
        return;
      }
      var i := 0;
      while i < |order|
        invariant 0 <= i <= |order|
        invariant handlerMapping == PutAll(old(handlerMapping), Contributions(ioc, classOf, order[..i]))
      {
        var clazz := classOf[ioc[order[i]]];
        ContributionsStep(ioc, classOf, order, i);
        PutAllConcat(old(handlerMapping), Contributions(ioc, classOf, order[..i]), ClassRoutes(clazz));
        RouteClass(clazz);
        i := i + 1;
      }
      assert order[..i] == order;
    }

    /** The body of `initHandlerMapping`'s loop for one object's class. */
    method RouteClass(clazz: ClassDesc)
      modifies this`handlerMapping
      ensures handlerMapping == PutAll(old(handlerMapping), ClassRoutes(clazz))
    {
      if !clazz.isController {
        return;
      }
      var baseUrl: JString := [];
      if clazz.mapping.Some? {
        baseUrl := clazz.mapping.value;
      }
      PutMethods(baseUrl, clazz.methods);
    }

    /** The inner loop of `initHandlerMapping`: one controller's annotated methods under `baseUrl`. */
    method PutMethods(baseUrl: JString, methods: seq<MethodDesc>)
      modifies this`handlerMapping
      ensures handlerMapping == PutAll(old(handlerMapping), MethodRoutes(baseUrl, methods))
    {
      var j := 0;
      while j < |methods|
        invariant 0 <= j <= |methods|
        invariant handlerMapping == PutAll(old(handlerMapping), MethodRoutes(baseUrl, methods[..j]))
      {
        MethodRoutesStep(baseUrl, methods, j);
        var handler := methods[j];
        if handler.mapping.Some? {
          var url := Collapse([Slash] + baseUrl + [Slash] + handler.mapping.value);
          PutAllSnoc(old(handlerMapping), MethodRoutes(baseUrl, methods[..j]), (url, handler));
          handlerMapping := handlerMapping[url := handler];
        } else {
          assert MethodRoutes(baseUrl, methods[..j]) + [] == MethodRoutes(baseUrl, methods[..j]);
        }
        j := j + 1;
      }
      assert methods[..j] == methods;
    }

    /**
     * The loop over the parameter map for one String slot: every entry
     * overwrites the slot, so the last one decides.
     */
    method FillString(paramValues: array<Arg>, i: nat, parameterMap: seq<(JString, seq<JString>)>)
      requires i < paramValues.Length && paramValues[i] == Null
      modifies paramValues
      ensures paramValues[i] == StringArgument(parameterMap)
      ensures forall k | 0 <= k < paramValues.Length && k != i :: paramValues[k] == old(paramValues[k])
    {
      var j := 0;
      while j < |parameterMap|
        invariant 0 <= j <= |parameterMap|
        invariant paramValues[i] == StringArgument(parameterMap[..j])
        invariant forall k | 0 <= k < paramValues.Length && k != i :: paramValues[k] == old(paramValues[k])
      {
        assert parameterMap[..j + 1][j] == parameterMap[j];
        var value := Drop(Drop(ArraysToString(parameterMap[j].1), Brackets), Whitespace);
        paramValues[i] := Text(value);
        j := j + 1;
      }
      assert parameterMap[..j] == parameterMap;
    }

    /**
     * `doDispatch`: resolve the request, fill `paramValues` slot by slot and
     * name the invocation; the outcome is the one `Resolve` specifies.
     */
    method Dispatch(req: Request) returns (out: Outcome)
      ensures out == Resolve(handlerMapping, ioc, req)
    {
      if |handlerMapping| == 0 {
        return Silent;
      }
      var url := Collapse(RemoveAll(req.uri, req.contextPath));
      if url !in handlerMapping {
        return Written(NotFoundBody);
      }
      var handler := handlerMapping[url];
      var parameterTypes := handler.params;
      var parameterMap := req.parameters;
      var paramValues := new Arg[|parameterTypes|](_ => Null);
      var i := 0;
      while i < |parameterTypes|
        invariant 0 <= i <= |parameterTypes|
        invariant forall k | 0 <= k < i :: paramValues[k] == ArgumentFor(parameterTypes[k], req)
        invariant forall k | i <= k < |parameterTypes| :: paramValues[k] == Null
      {
        match parameterTypes[i] {
          case ServletRequestType =>
            paramValues[i] := RequestObject;
          case ServletResponseType =>
            paramValues[i] := ResponseObject;
          case StringType =>
            FillString(paramValues, i, parameterMap);
          case OtherType(_) =>
        }
        i := i + 1;
      }
      if |handler.declaringSimpleName| == 0 {
        return Raised;
      }
      var beanName := LowerFirstCase(handler.declaringSimpleName);
      out := Invoked(Get(ioc, beanName), handler, paramValues[..]);
    }
  }
}
