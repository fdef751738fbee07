/**
 * The registry builder, `doLoadClassInstance`: every scanned name that
 * resolves to a controller or a service yields fresh instances stored in
 * the `ioc` map under keys derived from the class.
 */
module Registry {
  import opened JavaText
  import opened Wrappers
  import opened Components

  /** The `ioc` map, the runtime class of every created object, and the next unused object id. */
  datatype Registry = Registry(ioc: map<JString, ObjId>, classOf: map<ObjId, ClassDesc>, next: ObjId)

  /** Every stored object has a known class, and every known object is older than `next`. */
  predicate Consistent(r: Registry)
  {
    && (forall k | k in r.ioc :: r.ioc[k] in r.classOf)
    && (forall o | o in r.classOf :: o < r.next)
  }

  /** `ioc.put(key, clazz.newInstance())`. */
  function Put(r: Registry, key: JString, c: ClassDesc): Registry
  {
    Registry(r.ioc[key := r.next], r.classOf[r.next := c], r.next + 1)
  }

  /** One `put` of a newly created instance per key, in order: the keys are added and |keys| objects created. */
  function PutEach(r: Registry, keys: seq<JString>, c: ClassDesc): (r': Registry)
    ensures r'.next == r.next + |keys|
    ensures forall k :: k in r'.ioc <==> k in r.ioc || k in keys
    ensures forall k | k in keys :: r.next <= r'.ioc[k] < r'.next
    ensures forall o :: o in r'.classOf <==> o in r.classOf || r.next <= o < r'.next
  {
    if keys == [] then r
    else Put(PutEach(r, keys[..|keys| - 1], c), keys[|keys| - 1], c)
  }

  /** The service's value is blank: `"".equals(value.trim())`. */
  predicate IsBlank(s: JString)
  {
    Trim(s) == []
  }

  /**
   * The keys under which one class is registered, one instance per key.
   * `lowerFirstCase` of an empty simple name and a failing `newInstance`
   * both throw; the exception is caught and the class adds nothing.
   */
  function BeanKeys(c: ClassDesc): seq<JString>
  {
    if !c.instantiable then []
    else if c.isController then (if |c.simpleName| == 0 then [] else [LowerFirst(c.simpleName)])
    else if c.isService then (if !IsBlank(c.serviceValue) then [c.serviceValue] else c.interfaces)
    else []
  }

  /** The effect of one loaded class. */
  function LoadClass(r: Registry, c: ClassDesc): Registry
  {
    PutEach(r, BeanKeys(c), c)
  }

  /** One scanned name: `Class.forName` fails (and is caught) when `classes` does not know it. */
  function LoadName(r: Registry, name: JString, classes: map<JString, ClassDesc>): Registry
  {
    if name in classes then LoadClass(r, classes[name]) else r
  }

  /** The whole `doLoadClassInstance` pass over the scanned names, in order. */
  function LoadAll(r: Registry, names: seq<JString>, classes: map<JString, ClassDesc>): Registry
  {
    if names == [] then r
    else LoadName(LoadAll(r, names[..|names| - 1], classes), names[|names| - 1], classes)
  }

  // ---------------------------------------------------------------------

  /** Storing one instance per key keeps every other entry and every earlier object. */
  lemma {:induction false} PutEachKeeps(r: Registry, keys: seq<JString>, c: ClassDesc)
    requires Consistent(r)
    ensures forall k | k in r.ioc && k !in keys :: PutEach(r, keys, c).ioc[k] == r.ioc[k]
    ensures forall o | o in r.classOf :: PutEach(r, keys, c).classOf[o] == r.classOf[o]
  {
    if keys != [] {
      PutEachKeeps(r, keys[..|keys| - 1], c);
      assert forall k | k !in keys :: k !in keys[..|keys| - 1];
    }
  }

  /** Each key holds an object of class `c`. */
  lemma {:induction false} PutEachFresh(r: Registry, keys: seq<JString>, c: ClassDesc)
    requires Consistent(r)
    ensures forall k | k in keys :: PutEach(r, keys, c).classOf[PutEach(r, keys, c).ioc[k]] == c
  {
    if keys != [] {
      var init := keys[..|keys| - 1];
      PutEachFresh(r, init, c);
      assert forall k | k in keys && k != keys[|keys| - 1] :: k in init;
    }
  }

  /** Different keys hold different objects: every `put` creates its own instance. */
  lemma {:induction false} PutEachDistinct(r: Registry, keys: seq<JString>, c: ClassDesc)
    requires Consistent(r)
    ensures forall k1, k2 | k1 in keys && k2 in keys && k1 != k2 ::
      PutEach(r, keys, c).ioc[k1] != PutEach(r, keys, c).ioc[k2]
  {
    if keys != [] {
      var init := keys[..|keys| - 1];
      var last := keys[|keys| - 1];
      PutEachDistinct(r, init, c);
      PutEachFresh(r, init, c);
      assert forall k | k in keys && k != last :: k in init;
    }
  }

  /** Storing instances keeps the registry consistent. */
  lemma {:induction false} PutEachConsistent(r: Registry, keys: seq<JString>, c: ClassDesc)
    requires Consistent(r)
    ensures Consistent(PutEach(r, keys, c))
  {
    if keys != [] {
      PutEachConsistent(r, keys[..|keys| - 1], c);
    }
  }

  lemma PutOne(r: Registry, k: JString, c: ClassDesc)
    ensures PutEach(r, [k], c) == Put(r, k, c)
  {
    assert [k][..0] == [];
  }

  /** A controller goes under `lowerFirstCase(simpleName)`. */
  lemma LoadController(r: Registry, c: ClassDesc)
    requires c.isController && c.instantiable && |c.simpleName| > 0
    ensures LoadClass(r, c) == Registry(r.ioc[LowerFirst(c.simpleName) := r.next], r.classOf[r.next := c], r.next + 1)
  {
    PutOne(r, LowerFirst(c.simpleName), c);
  }

  /** A service with a non-blank value goes under that value exactly as written, untrimmed. */
  lemma LoadNamedService(r: Registry, c: ClassDesc)
    requires !c.isController && c.isService && c.instantiable && !IsBlank(c.serviceValue)
    ensures LoadClass(r, c) == Registry(r.ioc[c.serviceValue := r.next], r.classOf[r.next := c], r.next + 1)
  {
    PutOne(r, c.serviceValue, c);
  }

  /**
   * A service with a blank value gets one entry per interface, each holding a
   * separately created instance, and nothing under its own class name.
   */
  lemma LoadServiceByInterfaces(r: Registry, c: ClassDesc)
    requires Consistent(r)
    requires !c.isController && c.isService && c.instantiable && IsBlank(c.serviceValue)
    ensures LoadClass(r, c) == PutEach(r, c.interfaces, c)
    ensures forall k :: k in PutEach(r, c.interfaces, c).ioc <==> k in r.ioc || k in c.interfaces
    ensures forall k | k in c.interfaces ::
      && r.next <= PutEach(r, c.interfaces, c).ioc[k]
      && PutEach(r, c.interfaces, c).classOf[PutEach(r, c.interfaces, c).ioc[k]] == c
    ensures forall k1, k2 | k1 in c.interfaces && k2 in c.interfaces && k1 != k2 ::
      PutEach(r, c.interfaces, c).ioc[k1] != PutEach(r, c.interfaces, c).ioc[k2]
    ensures c.fullName !in c.interfaces ==>
      && (c.fullName in PutEach(r, c.interfaces, c).ioc <==> c.fullName in r.ioc)
      && (c.fullName in r.ioc ==> PutEach(r, c.interfaces, c).ioc[c.fullName] == r.ioc[c.fullName])
  {
    PutEachKeeps(r, c.interfaces, c);
    PutEachFresh(r, c.interfaces, c);
    PutEachDistinct(r, c.interfaces, c);
  }

  /** A class that is neither controller nor service, or that cannot be instantiated, changes nothing. */
  lemma LoadUnmanaged(r: Registry, c: ClassDesc)
    requires !c.instantiable || (!c.isController && !c.isService)
    ensures LoadClass(r, c) == r
  {
  }

  /** The pass piecewise: the names after a prefix start from the state the prefix left. */
  lemma {:induction false} LoadAllConcat(r: Registry, a: seq<JString>, b: seq<JString>, classes: map<JString, ClassDesc>)
    ensures LoadAll(r, a + b, classes) == LoadAll(LoadAll(r, a, classes), b, classes)
    decreases |b|
  {
    if b == [] {
      assert a + b == a;
    } else {
      assert (a + b)[..|a + b| - 1] == a + b[..|b| - 1];
      LoadAllConcat(r, a, b[..|b| - 1], classes);
    }
  }

  /**
   * A name that fails to load is skipped without effect: what was stored
   * before it stays, and the names after it are processed as if it were absent.
   */
  lemma FailureIsolated(r: Registry, a: seq<JString>, n: JString, b: seq<JString>, classes: map<JString, ClassDesc>)
    requires n !in classes || BeanKeys(classes[n]) == []
    ensures LoadAll(r, a + [n] + b, classes) == LoadAll(r, a + b, classes)
  {
    LoadAllConcat(r, a + [n], b, classes);
    LoadAllConcat(r, a, [n], classes);
    LoadAllConcat(r, a, b, classes);
    assert [n][..0] == [];
  }

  /**
   * After the pass, the keys are the earlier keys together with the keys of
   * every name that resolved; no key is ever removed, and the result is consistent.
   */
  lemma {:induction false} LoadAllKeys(r: Registry, names: seq<JString>, classes: map<JString, ClassDesc>)
    requires Consistent(r)
    ensures Consistent(LoadAll(r, names, classes))
    ensures forall k :: k in LoadAll(r, names, classes).ioc <==>
      k in r.ioc || exists i | 0 <= i < |names| :: names[i] in classes && k in BeanKeys(classes[names[i]])
  {
    if names != [] {
      var init := names[..|names| - 1];
      var n := names[|names| - 1];
      LoadAllKeys(r, init, classes);
      var p := LoadAll(r, init, classes);
      if n in classes {
        PutEachConsistent(p, BeanKeys(classes[n]), classes[n]);
      }
      forall k ensures k in LoadAll(r, names, classes).ioc <==>
        k in r.ioc || exists i | 0 <= i < |names| :: names[i] in classes && k in BeanKeys(classes[names[i]])
      {
        if exists i | 0 <= i < |names| :: names[i] in classes && k in BeanKeys(classes[names[i]]) {
          var i :| 0 <= i < |names| && names[i] in classes && k in BeanKeys(classes[names[i]]);
          if i < |names| - 1 {
            assert init[i] == names[i];
          }
        }
        if exists i | 0 <= i < |init| :: init[i] in classes && k in BeanKeys(classes[init[i]]) {
          var i :| 0 <= i < |init| && init[i] in classes && k in BeanKeys(classes[init[i]]);
          assert names[i] == init[i];
        }
      }
    }
  }

  /** Scanned name `n` resolves to a class that is stored under key `k`. */
  predicate Registers(classes: map<JString, ClassDesc>, n: JString, k: JString)
  {
    n in classes && k in BeanKeys(classes[n])
  }

  /** The pass keeps the registry consistent. */
  lemma {:induction false} LoadAllConsistent(r: Registry, names: seq<JString>, classes: map<JString, ClassDesc>)
    requires Consistent(r)
    ensures Consistent(LoadAll(r, names, classes))
  {
    if names != [] {
      var init := names[..|names| - 1];
      var n := names[|names| - 1];
      LoadAllConsistent(r, init, classes);
      if n in classes {
        PutEachConsistent(LoadAll(r, init, classes), BeanKeys(classes[n]), classes[n]);
      }
    }
  }

  /** A key that no scanned name registers keeps the object it held before the pass. */
  lemma {:induction false} LoadAllUntouched(r: Registry, names: seq<JString>, classes: map<JString, ClassDesc>, k: JString)
    requires Consistent(r) && k in r.ioc
    requires forall j | 0 <= j < |names| :: !Registers(classes, names[j], k)
    ensures var r' := LoadAll(r, names, classes);
      && k in r'.ioc && r'.ioc[k] == r.ioc[k]
      && r.ioc[k] in r'.classOf && r'.classOf[r.ioc[k]] == r.classOf[r.ioc[k]]
  {
    if names != [] {
      var init := names[..|names| - 1];
      var n := names[|names| - 1];
      assert forall j | 0 <= j < |init| :: init[j] == names[j];
      LoadAllUntouched(r, init, classes, k);
      LoadAllConsistent(r, init, classes);
      if n in classes {
        PutEachKeeps(LoadAll(r, init, classes), BeanKeys(classes[n]), classes[n]);
      }
    }
  }

  /**
   * When several scanned names register the same key, the last of them
   * wins: after the pass the key holds an instance created for that name,
   * of its class, and every earlier registration is overwritten.
   */
  lemma LoadAllLastWins(r: Registry, names: seq<JString>, classes: map<JString, ClassDesc>, i: nat, k: JString)
    requires Consistent(r)
    requires i < |names| && Registers(classes, names[i], k)
    requires forall j | i < j < |names| :: !Registers(classes, names[j], k)
    ensures var r' := LoadAll(r, names, classes);
      && k in r'.ioc && r'.ioc[k] in r'.classOf
      && r'.classOf[r'.ioc[k]] == classes[names[i]]
      && LoadAll(r, names[..i], classes).next <= r'.ioc[k]
  {
    var pre := names[..i];
    var n := names[i];
    var post := names[i + 1..];
    var c := classes[n];
    assert names == pre + [n] + post;
    assert forall j | 0 <= j < |post| :: post[j] == names[i + 1 + j];
    LoadAllConcat(r, pre + [n], post, classes);
    LoadAllSnoc(r, pre, n, classes);
    var p := LoadAll(r, pre, classes);
    LoadAllConsistent(r, pre, classes);
    PutEachFresh(p, BeanKeys(c), c);
    PutEachConsistent(p, BeanKeys(c), c);
    LoadAllUntouched(LoadName(p, n, classes), post, classes, k);
  }

  /** One more scanned name: the pass is the pass so far followed by that name. */
  lemma LoadAllSnoc(r: Registry, names: seq<JString>, n: JString, classes: map<JString, ClassDesc>)
    ensures LoadAll(r, names + [n], classes) == LoadName(LoadAll(r, names, classes), n, classes)
  {
    assert (names + [n])[..|names|] == names;
  }

  /** One more key: the puts so far followed by one `put` of a new instance. */
  lemma PutEachStep(r: Registry, keys: seq<JString>, j: nat, c: ClassDesc)
    requires j < |keys|
    ensures PutEach(r, keys[..j + 1], c) == Put(PutEach(r, keys[..j], c), keys[j], c)
  {
    assert keys[..j + 1][..j] == keys[..j];
  }
}
