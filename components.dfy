/**
 * What the dispatcher learns about classes through reflection, as plain
 * descriptors: annotations become fields, `getMethods()` and
 * `getDeclaredFields()` become sequences in the order the runtime returns them.
 */
module Components {
  import opened JavaText
  import opened Wrappers

  /** An object created by `newInstance`; each creation gives a new id. */
  type ObjId = nat

  /** A formal parameter type, as far as `doDispatch` distinguishes it. */
  datatype ParamKind =
    | ServletRequestType    // exactly HttpServletRequest
    | ServletResponseType   // exactly HttpServletResponse
    | StringType            // exactly String
    | OtherType(typeName: JString)

  /** A declared field; `autowired` is the value of its `@Autowired`, if it carries one. */
  datatype FieldDesc = FieldDesc(name: JString, typeName: JString, autowired: Option<JString>)

  /**
   * A public method as `getMethods()` returns it: the simple name of the class
   * that declares it, the value of its `@RequestMapping` if any, and its
   * parameter types.
   */
  datatype MethodDesc = MethodDesc(
    name: JString,
    declaringSimpleName: JString,
    mapping: Option<JString>,
    params: seq<ParamKind>)

  /**
   * A loadable class: its names, its `@Controller`/`@Service` markers (with
   * the service's value), its class-level `@RequestMapping`, the directly
   * implemented interfaces (full names), declared fields, public methods,
   * and whether `newInstance()` succeeds on it.
   */
  datatype ClassDesc = ClassDesc(
    fullName: JString,
    simpleName: JString,
    isController: bool,
    isService: bool,
    serviceValue: JString,
    mapping: Option<JString>,
    interfaces: seq<JString>,
    fields: seq<FieldDesc>,
    methods: seq<MethodDesc>,
    instantiable: bool)

  /** `order` lists every key of `keys` exactly once: one iteration order of a map with those keys. */
  predicate Enumerates(order: seq<JString>, keys: set<JString>)
  {
    && (forall i | 0 <= i < |order| :: order[i] in keys)
    && (forall k | k in keys :: k in order)
    && (forall i, j | 0 <= i < j < |order| :: order[i] != order[j])
  }
}
