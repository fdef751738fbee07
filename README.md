# A verified model of the smartSpringmvc DispatcherServlet

smartSpringmvc is a minimal Spring-MVC-like framework built around one
servlet, `DispatcherServlet`. When the servlet starts, it runs four stages:

1. It scans a package directory for class names.
2. It instantiates every `@Controller` and `@Service` class into an
   `ioc` map, keyed by bean name.
3. It injects `@Autowired` fields from that map.
4. It builds a `handlerMapping` from normalised URL paths to
   `@RequestMapping` methods.

On each request it then:

- strips the context path from the URI and collapses runs of `/`;
- looks up the handler, answering "404" on a miss;
- fills an argument array from the parameter types;
- invokes the method on the controller bean named by `lowerFirstCase` of
  the declaring class's simple name.

This project models that core in Dafny and proves what each stage
computes.

- `java_text.dfy` (module `JavaText`) models the Java string operations
  the servlet relies on. A string is a sequence of 16-bit code units
  (`JChar`), so the wrap-around of `chars[0] += 32` in `lowerFirstCase` is
  explicit. The operations are:
  - `trim()`;
  - `replace(t, "")` as `RemoveAll`, scanning left to right without
    overlaps;
  - removal of a character class (`replaceAll("\\[|\\]", "")`,
    `replaceAll("\\s", "")`) as `Drop`;
  - `Arrays.toString`;
  - `lowerFirstCase`, as a method over a character array updated in place,
    proved equal to the function `LowerFirst`.
- `paths.dfy` (`Paths`) models `replaceAll("/+", "/")` as `Collapse`, and
  the route key `("/" + base + "/" + value)` collapsed.
- `components.dfy` (`Components`) holds what reflection reveals about a
  class, as data. This covers:
  - the annotations and their values;
  - the declared fields;
  - the public methods, with their parameter kinds;
  - the interfaces;
  - whether `newInstance()` succeeds.
- `scanning.dfy` (`Scanning`) models `doSCanner` over a directory listing
  tree.
- `registry.dfy` (`Registry`) models `doLoadClassInstance`. The container
  is a value made of:
  - the `ioc` map from bean names to object ids;
  - the class of every object;
  - the next fresh id.
- `wiring.dfy` (`Wiring`) models `doAutoWired`. Object fields are a map
  from (object, field name) to the object id stored there, or null.
- `routing.dfy` (`Routing`) models `initHandlerMapping` as a sequence of
  `put`s applied to the table.
- `dispatching.dfy` (`Dispatching`) models `doDispatch` as `Resolve`,
  which gives one of four outcomes:
  - nothing happens (empty table);
  - "404" is written;
  - an exception is raised (`lowerFirstCase` of an empty simple name);
  - a method is invoked with a target and an argument array.
- `servlet.dfy` (`Servlet`) is the servlet as a class with the servlet's
  fields. Each stage is a method with the source's loops, proved equal to
  the specification function of its module. `Init` runs the stages in
  order.
- `scenario.dfy` (`Scenario`) follows an application shaped like the
  shipped `UserController`: a controller with an interface-typed
  `@Autowired` field, and a service registered under that interface. It
  proves, for every iteration order:
  - the container contents;
  - that the field ends up holding the service;
  - that a request to the method's route invokes that method on the
    controller.

The order in which a `HashMap` is iterated is unspecified, so it is a
parameter. `ioc` is iterated twice, once by `doAutoWired` and once by
`initHandlerMapping`. Both passes take the same order `order`, which
enumerates the keys of `ioc`. The request's parameter map is a sequence in
its iteration order.

Behaviour of the source that the model makes visible:

- Every `String` parameter gets the cleaned-up value of the *last*
  request parameter in iteration order. `@RequestParam` names are never
  consulted (`ResolveHit`).
- `replace(contextPath, "")` removes the context path wherever it occurs,
  not only as a prefix (`ContextPathRemovedEverywhere`).
- `lowerFirstCase` adds 32 to the first code unit, modulo 2^16
  (`LowerFirstShape`). This lower-cases 'A'..'Z' (`LowerFirstUpper`) and
  also the capitals that sit 32 code units below their small letters
  (Latin-1 'À'..'Þ', with '×' becoming '÷', Greek 'Α'..'Ω', Cyrillic
  'А'..'Я', fullwidth 'Ａ'..'Ｚ'). A first letter in 'a'..'z' is pushed
  out of ASCII (`LowerFirstOfLower`).
- A service with a non-blank value is stored under that value untrimmed.
  A field's `@Autowired` value, by contrast, is trimmed before lookup.
- A later `put` under the same path replaces an earlier one
  (`SamePathSecondWins`, `LastWriteWins`).

## Model

| member | source | states |
|---|---|---|
| JavaText.TrimStart | src/main/java/com.awb/mvcframework/servlet/DispatcherServlet.java:152 | the result is a suffix of the input, everything removed is a character up to U+0020, and the kept text does not start with one (the same `trim()` is applied at lines 181 and 207) |
| JavaText.TrimEnd | src/main/java/com.awb/mvcframework/servlet/DispatcherServlet.java:152 | the result is a prefix of the input, everything removed is a character up to U+0020, and the kept text does not end with one (the same `trim()` is applied at lines 181 and 207) |
| JavaText.TrimBlankIff | src/main/java/com.awb/mvcframework/servlet/DispatcherServlet.java:153-154 | the trimmed value is "" exactly when every character is up to U+0020 (both directions) |
| JavaText.TrimIsInfix | src/main/java/com.awb/mvcframework/servlet/DispatcherServlet.java:152 | trim keeps a contiguous slice of the input whose two ends are not spaces (the same `trim()` is applied at lines 181 and 207) |
| JavaText.RemoveAll | src/main/java/com.awb/mvcframework/servlet/DispatcherServlet.java:71 | removing occurrences never lengthens the string |
| JavaText.RemoveAllAbsent | src/main/java/com.awb/mvcframework/servlet/DispatcherServlet.java:71 | removing a string that occurs nowhere leaves the input unchanged |
| JavaText.RemoveAllLeading | src/main/java/com.awb/mvcframework/servlet/DispatcherServlet.java:71 | an occurrence at the front is always removed |
| JavaText.RemoveAllKeeps | src/main/java/com.awb/mvcframework/servlet/DispatcherServlet.java:71 | a prefix in which no occurrence starts is kept as it is |
| JavaText.Drop | src/main/java/com.awb/mvcframework/servlet/DispatcherServlet.java:98-99 | the result has none of the removed characters, and only characters of the input |
| JavaText.DropNone | src/main/java/com.awb/mvcframework/servlet/DispatcherServlet.java:98-99 | a string free of the removed characters is unchanged |
| JavaText.DropConcat | src/main/java/com.awb/mvcframework/servlet/DispatcherServlet.java:98-99 | removal of a character class distributes over concatenation |
| JavaText.DropTwice | src/main/java/com.awb/mvcframework/servlet/DispatcherServlet.java:98-99 | removing brackets and then whitespace is removing both classes at once |
| JavaText.LowerFirstShape | src/main/java/com.awb/mvcframework/servlet/DispatcherServlet.java:237-241 | the first code unit becomes (c + 32) mod 2^16, and the length and every other character stay |
| JavaText.LowerFirstUpper | src/main/java/com.awb/mvcframework/servlet/DispatcherServlet.java:237-241 | on 'A'..'Z' the first letter becomes the matching 'a'..'z' |
| JavaText.LowerFirstOfLower | src/main/java/com.awb/mvcframework/servlet/DispatcherServlet.java:237-241 | a first letter already in 'a'..'z' is shifted out of ASCII |
| JavaText.LowerFirstInjective | src/main/java/com.awb/mvcframework/servlet/DispatcherServlet.java:237-241 | two different names never give the same bean name |
| JavaText.LowerFirstCase | src/main/java/com.awb/mvcframework/servlet/DispatcherServlet.java:237-241 | the in-place array update yields the shifted first character followed by the unchanged rest, which is LowerFirst |
| JavaText.JoinClean | src/main/java/com.awb/mvcframework/servlet/DispatcherServlet.java:97-99 | cleaning a ", "-joined list is the cleaned values joined by "," |
| JavaText.ParamValueJoin | src/main/java/com.awb/mvcframework/servlet/DispatcherServlet.java:97-99 | a parameter's value is its values with brackets and whitespace removed, joined by "," |
| JavaText.ParamValueSingle | src/main/java/com.awb/mvcframework/servlet/DispatcherServlet.java:97-99 | a single clean value comes through unchanged |
| Paths.Collapse | src/main/java/com.awb/mvcframework/servlet/DispatcherServlet.java:71 | collapsing never lengthens a string and keeps its first and last character |
| Paths.CollapseNoDoubleSlash | src/main/java/com.awb/mvcframework/servlet/DispatcherServlet.java:71 | after collapsing no two adjacent characters are both '/' |
| Paths.CollapseKeepsNonSlash | src/main/java/com.awb/mvcframework/servlet/DispatcherServlet.java:71 | collapsing changes nothing but '/' characters |
| Paths.CollapseOfNormal | src/main/java/com.awb/mvcframework/servlet/DispatcherServlet.java:71 | a string without adjacent slashes is unchanged |
| Paths.CollapseFixpoint | src/main/java/com.awb/mvcframework/servlet/DispatcherServlet.java:71 | a string is unchanged exactly when it has no adjacent slashes (both directions) |
| Paths.CollapseIdempotent | src/main/java/com.awb/mvcframework/servlet/DispatcherServlet.java:71 | collapsing twice is collapsing once |
| Paths.RouteShape | src/main/java/com.awb/mvcframework/servlet/DispatcherServlet.java:137 | every route starts with '/', has no repeated '/', and its non-slash text is the base's followed by the method value's |
| Paths.CollapseLeadingDouble | src/main/java/com.awb/mvcframework/servlet/DispatcherServlet.java:137 | a route whose base is "" loses one of its two leading slashes and nothing else, when the value neither starts with '/' nor contains "//" |
| Paths.RouteOfEmptyBase | src/main/java/com.awb/mvcframework/servlet/DispatcherServlet.java:125-137 | with no class-level path, "getUser" is routed at "/getUser" |
| Paths.RouteOfEmptyPaths | src/main/java/com.awb/mvcframework/servlet/DispatcherServlet.java:137 | with both values "", the route is "/" |
| Paths.RouteOfSegments | src/main/java/com.awb/mvcframework/servlet/DispatcherServlet.java:137 | base "a" and value "b" give "/a/b" |
| Paths.RouteBaseLeadingSlash | src/main/java/com.awb/mvcframework/servlet/DispatcherServlet.java:137 | a leading '/' on the class-level path alone does not change the route |
| Paths.RouteBaseTrailingSlash | src/main/java/com.awb/mvcframework/servlet/DispatcherServlet.java:137 | a trailing '/' on the class-level path alone does not change the route |
| Paths.RouteValueLeadingSlash | src/main/java/com.awb/mvcframework/servlet/DispatcherServlet.java:137 | a leading '/' on the method path alone does not change the route |
| Paths.RouteOfSlashedSegments | src/main/java/com.awb/mvcframework/servlet/DispatcherServlet.java:137 | base "/a/" and value "/b" also give "/a/b" |
| Paths.CollapseMerge | src/main/java/com.awb/mvcframework/servlet/DispatcherServlet.java:71 | two adjacent slashes anywhere in a string collapse exactly like one |
| Paths.RouteSlashPadding | src/main/java/com.awb/mvcframework/servlet/DispatcherServlet.java:137 | a leading and a trailing '/' on the class-level path together with a leading '/' on the method path do not change the route |
| Scanning.FileClassName | src/main/java/com.awb/mvcframework/servlet/DispatcherServlet.java:207 | the recorded name begins with the package followed by '.' |
| Scanning.ScanNamesShape | src/main/java/com.awb/mvcframework/servlet/DispatcherServlet.java:199-211 | there is one name per plain file anywhere in the tree, each qualified by the package and '.' |
| Scanning.ScanNamesConcat | src/main/java/com.awb/mvcframework/servlet/DispatcherServlet.java:203-209 | the names of a listing are those of its first part followed by those of the rest |
| Scanning.ScanDirectory | src/main/java/com.awb/mvcframework/servlet/DispatcherServlet.java:204-205 | a directory contributes exactly the names of its own listing under the sub-package name |
| Scanning.FileClassNameOfClassFile | src/main/java/com.awb/mvcframework/servlet/DispatcherServlet.java:207 | a file "Name.class", with a dot-free and untrimmable Name, gives "pkg.Name" |
| Scanning.RemoveAllBeforeSuffix | src/main/java/com.awb/mvcframework/servlet/DispatcherServlet.java:207 | removing ".class" keeps a dot-free prefix intact |
| Scanning.ScanSingleFile | src/main/java/com.awb/mvcframework/servlet/DispatcherServlet.java:206-207 | a plain file gives exactly one name |
| Registry.PutEach | src/main/java/com.awb/mvcframework/servlet/DispatcherServlet.java:186-188 | one put per key: exactly the keys are added, each under a fresh object, with one new object per key |
| Registry.PutEachKeeps | src/main/java/com.awb/mvcframework/servlet/DispatcherServlet.java:186-188 | every other key and every earlier object is untouched |
| Registry.PutEachFresh | src/main/java/com.awb/mvcframework/servlet/DispatcherServlet.java:186-188 | each key holds an object of the service class |
| Registry.PutEachDistinct | src/main/java/com.awb/mvcframework/servlet/DispatcherServlet.java:186-188 | different interface keys hold different instances, since newInstance runs per interface |
| Registry.PutEachConsistent | src/main/java/com.awb/mvcframework/servlet/DispatcherServlet.java:186-188 | storing instances keeps every stored object's class known |
| Registry.PutOne | src/main/java/com.awb/mvcframework/servlet/DispatcherServlet.java:174-181 | a single put adds one key and one object |
| Registry.LoadController | src/main/java/com.awb/mvcframework/servlet/DispatcherServlet.java:173-175 | a controller is stored under lowerFirstCase of its simple name, as a new object |
| Registry.LoadNamedService | src/main/java/com.awb/mvcframework/servlet/DispatcherServlet.java:176-182 | a service with a non-blank value is stored under that value, untrimmed |
| Registry.LoadServiceByInterfaces | src/main/java/com.awb/mvcframework/servlet/DispatcherServlet.java:184-188 | a service with a blank value is stored under each interface name, and not under its own class name |
| Registry.LoadUnmanaged | src/main/java/com.awb/mvcframework/servlet/DispatcherServlet.java:189-191 | a class that is neither a controller nor a service, or whose newInstance fails, changes nothing |
| Registry.LoadAllConcat | src/main/java/com.awb/mvcframework/servlet/DispatcherServlet.java:171 | the pass over names is sequential: later names start from the state earlier ones left |
| Registry.FailureIsolated | src/main/java/com.awb/mvcframework/servlet/DispatcherServlet.java:171-194 | a name whose loading fails is as if it were not scanned; the loop goes on |
| Registry.LoadAllKeys | src/main/java/com.awb/mvcframework/servlet/DispatcherServlet.java:169-197 | the registry stays consistent, and its keys are the old keys plus the bean keys of the scanned, loadable classes (both directions) |
| Registry.LoadAllConsistent | src/main/java/com.awb/mvcframework/servlet/DispatcherServlet.java:169-197 | every object stored by the pass has a known class and an id below the next one |
| Registry.LoadAllUntouched | src/main/java/com.awb/mvcframework/servlet/DispatcherServlet.java:169-197 | a key that no scanned class registers keeps the object it held, with its class |
| Registry.LoadAllLastWins | src/main/java/com.awb/mvcframework/servlet/DispatcherServlet.java:171-189 | a key registered by several scanned classes ends up holding a new instance of the last of them; the earlier puts are overwritten |
| Wiring.WireKeyShape | src/main/java/com.awb/mvcframework/servlet/DispatcherServlet.java:152-155 | a value of only characters up to U+0020 falls back to the field's type name; any other value gives a slice of itself with no such character at either end |
| Wiring.WireFieldsOverride | src/main/java/com.awb/mvcframework/servlet/DispatcherServlet.java:147-163 | wiring one object overrides its autowired fields and keeps every other field |
| Wiring.WireOverride | src/main/java/com.awb/mvcframework/servlet/DispatcherServlet.java:146-166 | the whole pass overrides the wired fields and keeps every other field |
| Wiring.WireIdempotent | src/main/java/com.awb/mvcframework/servlet/DispatcherServlet.java:144-167 | running the pass twice gives the same fields as running it once |
| Wiring.ObjectWiringDomain | src/main/java/com.awb/mvcframework/servlet/DispatcherServlet.java:147-149 | one object's assignments touch only its own autowired fields |
| Wiring.ObjectWiringValue | src/main/java/com.awb/mvcframework/servlet/DispatcherServlet.java:150-160 | the last autowired declaration of a field decides its value |
| Wiring.PassWiringAt | src/main/java/com.awb/mvcframework/servlet/DispatcherServlet.java:144-167 | the pass assigns only autowired fields of visited objects, each to ioc.get of its key |
| Wiring.WiredField | src/main/java/com.awb/mvcframework/servlet/DispatcherServlet.java:152-160 | after the pass, an autowired field holds ioc.get of its key, and null when the key is missing |
| Wiring.WireLeavesOthers | src/main/java/com.awb/mvcframework/servlet/DispatcherServlet.java:149 | a field that is not autowired keeps whatever it held |
| Wiring.PassWiringDomain | src/main/java/com.awb/mvcframework/servlet/DispatcherServlet.java:147-149 | every assigned field is an autowired field of its object's class |
| Wiring.WireOutside | src/main/java/com.awb/mvcframework/servlet/DispatcherServlet.java:145 | with no registered key, for instance an empty ioc, nothing is assigned |
| Routing.PutAllConcat | src/main/java/com.awb/mvcframework/servlet/DispatcherServlet.java:138 | the puts apply in sequence |
| Routing.PutAllKeys | src/main/java/com.awb/mvcframework/servlet/DispatcherServlet.java:138 | the table's paths are the old ones plus the put paths (both directions) |
| Routing.LastWriteWins | src/main/java/com.awb/mvcframework/servlet/DispatcherServlet.java:138 | a path holds the method of its last put |
| Routing.PutAllUntouched | src/main/java/com.awb/mvcframework/servlet/DispatcherServlet.java:138 | a path that is never put keeps its entry |
| Routing.MethodRoutesExactly | src/main/java/com.awb/mvcframework/servlet/DispatcherServlet.java:133-139 | exactly the annotated methods of a controller are put, each under Route(base, value) (both directions) |
| Routing.ContributionsFrom | src/main/java/com.awb/mvcframework/servlet/DispatcherServlet.java:121-140 | every put comes from an annotated method of a visited controller, under its class-level base or "" |
| Routing.ContributionsCover | src/main/java/com.awb/mvcframework/servlet/DispatcherServlet.java:121-140 | every annotated method of every visited controller is put |
| Routing.RouteKeysNormal | src/main/java/com.awb/mvcframework/servlet/DispatcherServlet.java:137 | every path in the table starts with '/' and has no repeated '/' |
| Routing.SamePathSecondWins | src/main/java/com.awb/mvcframework/servlet/DispatcherServlet.java:133-139 | of two methods with the same route, the later one in getMethods order stays |
| Routing.ContributionsOutside | src/main/java/com.awb/mvcframework/servlet/DispatcherServlet.java:119 | with no registered key, for instance an empty ioc, nothing is put |
| Routing.PutAllFrom | src/main/java/com.awb/mvcframework/servlet/DispatcherServlet.java:138 | every added entry is one of the puts for its path |
| Dispatching.ResolveEmptyTable | src/main/java/com.awb/mvcframework/servlet/DispatcherServlet.java:67 | with an empty route table nothing is written and nothing invoked |
| Dispatching.ResolveMiss | src/main/java/com.awb/mvcframework/servlet/DispatcherServlet.java:73-77 | "404" is written exactly when the normalised path is not in the table (both directions) |
| Dispatching.RequestPathNormal | src/main/java/com.awb/mvcframework/servlet/DispatcherServlet.java:69-71 | the looked-up path has no adjacent slashes |
| Dispatching.ResolveHit | src/main/java/com.awb/mvcframework/servlet/DispatcherServlet.java:79-107 | a hit invokes the mapped method on ioc.get(lowerFirstCase(declaring simple name)); each slot is the request, the response, the value of the last parameter (null with no parameters) or null, by parameter type |
| Dispatching.StringArgumentOfSingleValue | src/main/java/com.awb/mvcframework/servlet/DispatcherServlet.java:96-100 | the sole request parameter "id=42" gives every String slot "42" |
| Dispatching.ContextPathRemovedEverywhere | src/main/java/com.awb/mvcframework/servlet/DispatcherServlet.java:71 | a context path that also ends the URI is removed at both places |
| Servlet.IterationOrder | src/main/java/com.awb/mvcframework/servlet/DispatcherServlet.java:121-146 | the iteration order lists every key of the map exactly once |
| Servlet.DispatcherServlet.constructor | src/main/java/com.awb/mvcframework/servlet/DispatcherServlet.java:26-30 | the servlet starts with all its maps and lists empty |
| Servlet.DispatcherServlet.Init | src/main/java/com.awb/mvcframework/servlet/DispatcherServlet.java:43-64 | init runs scan, load, wire and route in order, with one iteration order of ioc shared by wiring and routing; a missing package fails and changes nothing |
| Servlet.DispatcherServlet.Scan | src/main/java/com.awb/mvcframework/servlet/DispatcherServlet.java:199-211 | the loop appends exactly ScanNames of the listing to classNames |
| Servlet.DispatcherServlet.ScanEntry | src/main/java/com.awb/mvcframework/servlet/DispatcherServlet.java:204-208 | one listed entry appends exactly its EntryNames: a directory all names of its sub-package, a file one qualified name |
| Servlet.DispatcherServlet.AddClassName | src/main/java/com.awb/mvcframework/servlet/DispatcherServlet.java:207 | the one name appended is FileClassName of the package and the file name |
| Servlet.DispatcherServlet.NewInstance | src/main/java/com.awb/mvcframework/servlet/DispatcherServlet.java:174-187 | a new object is stored under the key, and the registry stays consistent |
| Servlet.DispatcherServlet.LoadClassInstances | src/main/java/com.awb/mvcframework/servlet/DispatcherServlet.java:169-197 | the loops leave exactly the registry LoadAll specifies, and keep it consistent |
| Servlet.DispatcherServlet.LoadClassName | src/main/java/com.awb/mvcframework/servlet/DispatcherServlet.java:172-194 | one scanned name leaves exactly the registry LoadName specifies: an unknown name changes nothing, and the controller and service branches store their beans |
| Servlet.DispatcherServlet.PutInterfaces | src/main/java/com.awb/mvcframework/servlet/DispatcherServlet.java:185-188 | the interface loop performs exactly the puts PutEach specifies |
| Servlet.DispatcherServlet.AutoWire | src/main/java/com.awb/mvcframework/servlet/DispatcherServlet.java:144-167 | the loops leave exactly the fields Wire specifies; only the object fields may change, so the ioc map keeps its keys and values |
| Servlet.DispatcherServlet.WireObject | src/main/java/com.awb/mvcframework/servlet/DispatcherServlet.java:147-163 | the field loop of one object leaves exactly the fields WireFields specifies |
| Servlet.DispatcherServlet.InitHandlerMapping | src/main/java/com.awb/mvcframework/servlet/DispatcherServlet.java:118-142 | the loops leave exactly the table PutAll of Contributions specifies |
| Servlet.DispatcherServlet.RouteClass | src/main/java/com.awb/mvcframework/servlet/DispatcherServlet.java:122-139 | one object's class gives exactly its ClassRoutes: none for a non-controller, otherwise its methods under the class-level path or "" |
| Servlet.DispatcherServlet.PutMethods | src/main/java/com.awb/mvcframework/servlet/DispatcherServlet.java:132-139 | the inner loop applies exactly one controller's MethodRoutes |
| Servlet.DispatcherServlet.FillString | src/main/java/com.awb/mvcframework/servlet/DispatcherServlet.java:96-101 | the parameter-map loop leaves the value of the last entry in the String slot (null with no entries) and no other slot changed |
| Servlet.DispatcherServlet.Dispatch | src/main/java/com.awb/mvcframework/servlet/DispatcherServlet.java:66-115 | the array-filling loops give exactly the outcome Resolve specifies |
| Scenario.DemoRegistry | src/main/java/com.awb/mvcframework/servlet/DispatcherServlet.java:169-197 | a controller and an interface-registered service load as objects 0 and 1 under the controller's bean name and the interface name |
| Scenario.DemoWiring | src/main/java/com.awb/mvcframework/servlet/DispatcherServlet.java:144-167 | in every iteration order, the controller's interface-typed autowired field holds the service |
| Scenario.OnlyControllerRoute | src/main/java/com.awb/mvcframework/servlet/DispatcherServlet.java:118-142 | when all controllers are one class, the route of a method whose route is unique leads to that method |
| Scenario.DemoDispatch | src/main/java/com.awb/mvcframework/servlet/DispatcherServlet.java:66-115 | in every iteration order, a request for the method's route invokes it on the controller instance |

## Left out

- `doLoadConfig` and reading `contextConfigLocation` from the servlet
  configuration (lines 46, 213-230). They are properties-file I/O. The scan
  package is a parameter of `Init`.
- The class loader lookup and `File.listFiles()` (lines 200-202) are I/O.
  The listing is a parameter of `Scan`, and `None` stands for a package
  the class loader cannot find; `init` then fails.
- Servlet.DispatcherServlet.Scan: a sub-directory is re-resolved through
  the class loader by its dotted package name (lines 200 and 205). A
  directory whose name contains '.' is therefore looked up elsewhere, and
  the lookup throws a NullPointerException when nothing is found there,
  with the names added so far kept. The model instead descends into the
  entries listed for that directory, and only the top-level listing can be
  missing. The conversion `replaceAll("\\.", "/")` itself is not modelled.
- Servlet.DispatcherServlet.ScanEntry: its directory branch, which models
  line 205, descends into the listed entries of the sub-directory; the
  re-resolution by dotted package name and its NullPointerException,
  described for `Scan` above, are not modelled.
- `Class.forName`, annotations, `getMethods`, `getDeclaredFields` and
  `getInterfaces` are reflection. They are the `classes` parameter and the
  descriptors in `Components`.
- Initialisation errors raised by `Class.forName` (`Error`s, which
  `catch (Exception e)` does not catch) are not modelled.
- Servlet.DispatcherServlet.LoadClassInstances: newInstance failure is one
  flag per class. The interface loop thus stores either all of its
  instances or none; a constructor that fails only sometimes is not
  modelled.
- Servlet.DispatcherServlet.AutoWire: `field.set` is modelled as always
  succeeding. The `IllegalArgumentException` for a value of the wrong type
  (a bean whose class does not fit the field) is not modelled, because
  type compatibility is not part of the descriptors.
- Servlet.DispatcherServlet.Dispatch: the invocation is its outcome
  `Invoked(target, method, args)`. The handler's own behaviour is not
  modelled, nor the `NullPointerException` or `IllegalArgumentException`
  that `invoke` raises on a null target or wrong arguments. Neither is the
  printing of caught exceptions.
- `doGet` and `doPost` only forward to `doDispatch` (lines 33-40);
  the servlet container and response writing are I/O. A written response
  is the outcome `Written(body)`.
- The console message at the end of `init` (line 62) is output only.
- Concurrent requests are not modelled; dispatch reads the state only.
- Parameter arrays holding null strings, and a null request URI or
  context path, are not representable: the request is a value of Java
  strings.
- The annotation declaration `RequestMapping.java` is represented by the
  descriptor fields `mapping` of classes and methods. `RequestParam.java`
  is not modelled, because `doDispatch` never reads that annotation; the
  descriptor field `params` holds only the parameter types.
