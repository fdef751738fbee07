/**
 * Per-request dispatch, `doDispatch`: path resolution against the route
 * table, argument synthesis, and the choice of the invocation target.
 */
module Dispatching {
  import opened JavaText
  import opened Wrappers
  import opened Components
  import opened Paths

  /** What `doDispatch` reads from the request: URI, context path, and the parameter map in iteration order. */
  datatype Request = Request(uri: JString, contextPath: JString, parameters: seq<(JString, seq<JString>)>)

  /** One slot of `paramValues`: the request object, the response object, a string, or null. */
  datatype Arg = RequestObject | ResponseObject | Text(value: JString) | Null

  /**
   * What one dispatch does: nothing; writes a body; calls
   * `method.invoke(target, args)` (null target is `None`); or lets an
   * exception escape (`lowerFirstCase` of an empty declaring-class name).
   */
  datatype Outcome =
    | Silent
    | Written(body: JString)
    | Invoked(target: Option<ObjId>, handler: MethodDesc, args: seq<Arg>)
    | Raised

  /** The body written for an unmatched path: "404". */
  const NotFoundBody: JString := [52, 48, 52]

  /** `uri.replace(contextPath, "").replaceAll("/+", "/")`. */
  function RequestPath(req: Request): JString
  {
    Collapse(RemoveAll(req.uri, req.contextPath))
  }

  /**
   * The value every String parameter receives: that of the last
   * parameter-map entry, cleaned up, or null when the map is empty.
   */
  function StringArgument(ps: seq<(JString, seq<JString>)>): Arg
  {
    if ps == [] then Null else Text(ParamValue(ps[|ps| - 1].1))
  }

  /** The argument for one formal parameter. */
  function ArgumentFor(kind: ParamKind, req: Request): Arg
  {
    match kind
    case ServletRequestType => RequestObject
    case ServletResponseType => ResponseObject
    case StringType => StringArgument(req.parameters)
    case OtherType(_) => Null
  }

  /** The `paramValues` array for a handler's formal parameters. */
  function Arguments(kinds: seq<ParamKind>, req: Request): seq<Arg>
  {
    seq(|kinds|, i requires 0 <= i < |kinds| => ArgumentFor(kinds[i], req))
  }

  /** The outcome of `doDispatch` against a route table and a registry. */
  function Resolve(handlerMapping: map<JString, MethodDesc>, ioc: map<JString, ObjId>, req: Request): Outcome
  {
    if |handlerMapping| == 0 then Silent
    else
      var url := RequestPath(req);
      if url !in handlerMapping then Written(NotFoundBody)
      else
        var m := handlerMapping[url];
        if |m.declaringSimpleName| == 0 then Raised
        else Invoked(Get(ioc, LowerFirst(m.declaringSimpleName)), m, Arguments(m.params, req))
  }

  // ---------------------------------------------------------------------

  /** With an empty route table nothing is written and nothing invoked. */
  lemma ResolveEmptyTable(handlerMapping: map<JString, MethodDesc>, ioc: map<JString, ObjId>, req: Request)
    requires |handlerMapping| == 0
    ensures Resolve(handlerMapping, ioc, req) == Silent
  {
  }

  /**
   * Otherwise the request is looked up under its path with every occurrence
   * of the context path removed and slashes collapsed; a miss writes exactly
   * "404" and invokes nothing.
   */
  lemma ResolveMiss(handlerMapping: map<JString, MethodDesc>, ioc: map<JString, ObjId>, req: Request)
    requires |handlerMapping| > 0
    ensures Resolve(handlerMapping, ioc, req).Written? <==> RequestPath(req) !in handlerMapping
    ensures Resolve(handlerMapping, ioc, req).Written? ==> Resolve(handlerMapping, ioc, req).body == J("404")
  {
  }

  /** The looked-up path never has two adjacent slashes. */
  lemma RequestPathNormal(req: Request)
    ensures NoDoubleSlash(RequestPath(req))
  {
    CollapseNoDoubleSlash(RemoveAll(req.uri, req.contextPath));
  }

  /**
   * A hit invokes the mapped method on `ioc.get(lowerFirstCase(declaring
   * class's simple name))` with one argument per formal parameter: the
   * request and response objects in their slots, the SAME cleaned-up value
   * of the last request parameter in every String slot, null elsewhere.
   */
  lemma ResolveHit(handlerMapping: map<JString, MethodDesc>, ioc: map<JString, ObjId>, req: Request)
    requires RequestPath(req) in handlerMapping
    requires |handlerMapping[RequestPath(req)].declaringSimpleName| > 0
    ensures var m := handlerMapping[RequestPath(req)];
      var out := Resolve(handlerMapping, ioc, req);
      && out.Invoked?
      && out.handler == m
      && out.target == Get(ioc, LowerFirst(m.declaringSimpleName))
      && |out.args| == |m.params|
      && (forall i | 0 <= i < |m.params| :: m.params[i] == ServletRequestType ==> out.args[i] == RequestObject)
      && (forall i | 0 <= i < |m.params| :: m.params[i] == ServletResponseType ==> out.args[i] == ResponseObject)
      && (forall i | 0 <= i < |m.params| :: m.params[i] == StringType ==>
            out.args[i] == if req.parameters == [] then Null
                           else Text(ParamValue(req.parameters[|req.parameters| - 1].1)))
      && (forall i | 0 <= i < |m.params| :: m.params[i].OtherType? ==> out.args[i] == Null)
  {
    assert RequestPath(req) in handlerMapping.Keys;
    assert |handlerMapping| != 0;
  }

  /** A request whose only parameter is `id=42` gives every String slot "42". */
  lemma StringArgumentOfSingleValue(name: JString, v: JString)
    requires forall i | 0 <= i < |v| :: v[i] !in Brackets && v[i] !in Whitespace
    ensures StringArgument([(name, [v])]) == Text(v)
  {
    ParamValueSingle(v);
  }

  /**
   * The context path is removed wherever it occurs, not only as a prefix:
   * "/app" + x + "/app" under context path "/app" leaves x alone.
   */
  lemma ContextPathRemovedEverywhere(contextPath: JString, x: JString)
    requires |contextPath| > 0
    requires forall i | 0 <= i < |x| :: !OccursAt(x + contextPath, contextPath, i)
    ensures RemoveAll(contextPath + x + contextPath, contextPath) == x
  {
    assert contextPath + x + contextPath == contextPath + (x + contextPath);
    RemoveAllLeading(contextPath, x + contextPath);
    RemoveAllKeeps(x, contextPath, contextPath);
    RemoveAllLeading(contextPath, []);
    assert contextPath + [] == contextPath;
    assert x + [] == x;
  }
}
