/**
 * The dependency wirer, `doAutoWired`: every `@Autowired` field of every
 * registered object is set to `ioc.get(key)`.
 */
module Wiring {
  import opened JavaText
  import opened Wrappers
  import opened Components

  /** A field of an object, by the object's id and the field's name. */
  type Slot = (ObjId, JString)

  /**
   * The value of every field that has been assigned: null is `None`; a field
   * absent from the map keeps whatever `newInstance()` left in it.
   */
  type Slots = map<Slot, Option<ObjId>>

  /** The lookup key of an `@Autowired` field: its trimmed value, or the field's type name when that is empty. */
  function WireKey(f: FieldDesc): JString
    requires f.autowired.Some?
  {
    var name := Trim(f.autowired.value);
    if name == [] then f.typeName else name
  }

  /**
   * A value made only of characters up to U+0020 falls back to the type
   * name; any other value gives a slice of itself with no such character
   * at either end.
   */
  lemma WireKeyShape(f: FieldDesc)
    requires f.autowired.Some?
    ensures var v := f.autowired.value;
      (forall i | 0 <= i < |v| :: IsTrimSpace(v[i])) ==> WireKey(f) == f.typeName
    ensures var v := f.autowired.value; var k := WireKey(f);
      !(forall i | 0 <= i < |v| :: IsTrimSpace(v[i])) ==>
        && |k| > 0 && !IsTrimSpace(k[0]) && !IsTrimSpace(k[|k| - 1])
        && exists a, b :: 0 <= a <= b <= |v| && k == v[a..b]
  {
    var v := f.autowired.value;
    TrimBlankIff(v);
    if Trim(v) != [] {
      TrimIsInfix(v);
      assert WireKey(f) == Trim(v);
    }
  }

  /** The inner loop: each `@Autowired` field of `o`, in declaration order, gets `ioc.get(key)`. */
  function WireFields(s: Slots, o: ObjId, fields: seq<FieldDesc>, ioc: map<JString, ObjId>): Slots
  {
    if fields == [] then s
    else
      var f := fields[|fields| - 1];
      var s' := WireFields(s, o, fields[..|fields| - 1], ioc);
      if f.autowired.Some? then s'[(o, f.name) := Get(ioc, WireKey(f))] else s'
  }

  /** The whole pass over the `ioc` entries, in the map's iteration order `order`. */
  function Wire(s: Slots, ioc: map<JString, ObjId>, classOf: map<ObjId, ClassDesc>, order: seq<JString>): Slots
  {
    if order == [] then s
    else
      var k := order[|order| - 1];
      var s' := Wire(s, ioc, classOf, order[..|order| - 1]);
      if k in ioc && ioc[k] in classOf then WireFields(s', ioc[k], classOf[ioc[k]].fields, ioc) else s'
  }

  /** The assignments one object receives, independent of what its fields held before. */
  function ObjectWiring(o: ObjId, fields: seq<FieldDesc>, ioc: map<JString, ObjId>): Slots
  {
    WireFields(map[], o, fields, ioc)
  }

  /** The assignments of the whole pass, independent of what the fields held before. */
  function PassWiring(ioc: map<JString, ObjId>, classOf: map<ObjId, ClassDesc>, order: seq<JString>): Slots
  {
    Wire(map[], ioc, classOf, order)
  }

  /** Wiring an object overrides its `@Autowired` fields and leaves every other field as it was. */
  lemma {:induction false} WireFieldsOverride(s: Slots, o: ObjId, fields: seq<FieldDesc>, ioc: map<JString, ObjId>)
    ensures WireFields(s, o, fields, ioc) == s + ObjectWiring(o, fields, ioc)
  {
    if fields != [] {
      WireFieldsOverride(s, o, fields[..|fields| - 1], ioc);
    }
  }

  /** The whole pass overrides the wired fields and leaves every other field as it was. */
  lemma {:induction false} WireOverride(s: Slots, ioc: map<JString, ObjId>, classOf: map<ObjId, ClassDesc>, order: seq<JString>)
    ensures Wire(s, ioc, classOf, order) == s + PassWiring(ioc, classOf, order)
  {
    if order != [] {
      var k := order[|order| - 1];
      var init := order[..|order| - 1];
      WireOverride(s, ioc, classOf, init);
      if k in ioc && ioc[k] in classOf {
        var fs := classOf[ioc[k]].fields;
        WireFieldsOverride(Wire(s, ioc, classOf, init), ioc[k], fs, ioc);
        WireFieldsOverride(PassWiring(ioc, classOf, init), ioc[k], fs, ioc);
        var w := ObjectWiring(ioc[k], fs, ioc);
        assert (s + PassWiring(ioc, classOf, init)) + w == s + (PassWiring(ioc, classOf, init) + w);
      }
    }
  }

  /** Running the pass twice gives the same field values as running it once. */
  lemma WireIdempotent(s: Slots, ioc: map<JString, ObjId>, classOf: map<ObjId, ClassDesc>, order: seq<JString>)
    ensures Wire(Wire(s, ioc, classOf, order), ioc, classOf, order) == Wire(s, ioc, classOf, order)
  {
    var w := PassWiring(ioc, classOf, order);
    WireOverride(s, ioc, classOf, order);
    WireOverride(s + w, ioc, classOf, order);
    assert (s + w) + w == s + w;
  }

  /** The field named `name` is `@Autowired` somewhere in `fields` and index `i` is the last such. */
  predicate LastAutowired(fields: seq<FieldDesc>, name: JString, i: int)
  {
    && 0 <= i < |fields|
    && fields[i].autowired.Some? && fields[i].name == name
    && forall j | i < j < |fields| :: !(fields[j].autowired.Some? && fields[j].name == name)
  }

  /** The assignments to one object touch only that object's `@Autowired` fields. */
  lemma {:induction false} ObjectWiringDomain(o: ObjId, fields: seq<FieldDesc>, ioc: map<JString, ObjId>)
    ensures forall sl | sl in ObjectWiring(o, fields, ioc) ::
      sl.0 == o && exists i | 0 <= i < |fields| :: LastAutowired(fields, sl.1, i)
  {
    if fields != [] {
      var init := fields[..|fields| - 1];
      var f := fields[|fields| - 1];
      ObjectWiringDomain(o, init, ioc);
      forall sl | sl in ObjectWiring(o, fields, ioc)
        ensures sl.0 == o && exists i | 0 <= i < |fields| :: LastAutowired(fields, sl.1, i)
      {
        if f.autowired.Some? && sl == (o, f.name) {
          assert LastAutowired(fields, sl.1, |fields| - 1);
        } else {
          assert sl in ObjectWiring(o, init, ioc);
          var i :| 0 <= i < |init| && LastAutowired(init, sl.1, i);
          assert LastAutowired(fields, sl.1, i);
        }
      }
    }
  }

  /**
   * Each `@Autowired` field of the object receives `ioc.get` of its key (of
   * the last declaration of that name, should a name repeat).
   */
  lemma {:induction false} ObjectWiringValue(o: ObjId, fields: seq<FieldDesc>, ioc: map<JString, ObjId>, i: nat)
    requires i < |fields| && LastAutowired(fields, fields[i].name, i)
    ensures (o, fields[i].name) in ObjectWiring(o, fields, ioc)
    ensures ObjectWiring(o, fields, ioc)[(o, fields[i].name)] == Get(ioc, WireKey(fields[i]))
  {
    var init := fields[..|fields| - 1];
    if i < |fields| - 1 {
      assert init[i] == fields[i];
      ObjectWiringValue(o, init, ioc, i);
    }
  }

  /** The objects the pass visits: those stored under a key of `order`. */
  predicate Visited(ioc: map<JString, ObjId>, classOf: map<ObjId, ClassDesc>, order: seq<JString>, o: ObjId)
  {
    exists j | 0 <= j < |order| :: order[j] in ioc && ioc[order[j]] == o && o in classOf
  }

  /**
   * After the pass, every `@Autowired` field of every visited object holds
   * `ioc.get` of its key (null when the key is missing), and the pass
   * assigns nothing else.
   */
  lemma {:induction false} PassWiringAt(ioc: map<JString, ObjId>, classOf: map<ObjId, ClassDesc>, order: seq<JString>)
    ensures forall sl | sl in PassWiring(ioc, classOf, order) ::
      Visited(ioc, classOf, order, sl.0) && sl in ObjectWiring(sl.0, classOf[sl.0].fields, ioc)
    ensures forall o, i | Visited(ioc, classOf, order, o) && 0 <= i < |classOf[o].fields| &&
        LastAutowired(classOf[o].fields, classOf[o].fields[i].name, i) ::
      (o, classOf[o].fields[i].name) in PassWiring(ioc, classOf, order) &&
      PassWiring(ioc, classOf, order)[(o, classOf[o].fields[i].name)] == Get(ioc, WireKey(classOf[o].fields[i]))
  {
    if order != [] {
      var k := order[|order| - 1];
      var init := order[..|order| - 1];
      PassWiringAt(ioc, classOf, init);
      var p := PassWiring(ioc, classOf, init);
      assert forall o | Visited(ioc, classOf, init, o) :: Visited(ioc, classOf, order, o) by {
        forall o | Visited(ioc, classOf, init, o) ensures Visited(ioc, classOf, order, o) {
          var j :| 0 <= j < |init| && init[j] in ioc && ioc[init[j]] == o && o in classOf;
          assert order[j] == init[j];
        }
      }
      if k in ioc && ioc[k] in classOf {
        var o := ioc[k];
        var w := ObjectWiring(o, classOf[o].fields, ioc);
        WireFieldsOverride(p, o, classOf[o].fields, ioc);
        ObjectWiringDomain(o, classOf[o].fields, ioc);
        assert Visited(ioc, classOf, order, o) by {
          assert order[|order| - 1] == k;
        }
        forall o', i | Visited(ioc, classOf, order, o') && 0 <= i < |classOf[o'].fields| &&
            LastAutowired(classOf[o'].fields, classOf[o'].fields[i].name, i)
          ensures (o', classOf[o'].fields[i].name) in PassWiring(ioc, classOf, order) &&
            PassWiring(ioc, classOf, order)[(o', classOf[o'].fields[i].name)] == Get(ioc, WireKey(classOf[o'].fields[i]))
        {
          if o' == o {
            ObjectWiringValue(o, classOf[o].fields, ioc, i);
          } else {
            var j :| 0 <= j < |order| && order[j] in ioc && ioc[order[j]] == o' && o' in classOf;
            assert j < |order| - 1;
            assert init[j] == order[j];
            assert (o', classOf[o'].fields[i].name) !in w;
          }
        }
      } else {
        forall o | Visited(ioc, classOf, order, o) ensures Visited(ioc, classOf, init, o) {
          var j :| 0 <= j < |order| && order[j] in ioc && ioc[order[j]] == o && o in classOf;
          assert j < |order| - 1;
          assert init[j] == order[j];
        }
      }
    }
  }

  /** After the pass, an `@Autowired` field of a visited object equals `ioc.get(key)`, null when the key is missing. */
  lemma WiredField(s: Slots, ioc: map<JString, ObjId>, classOf: map<ObjId, ClassDesc>, order: seq<JString>,
                   o: ObjId, i: nat)
    requires Visited(ioc, classOf, order, o)
    requires i < |classOf[o].fields| && LastAutowired(classOf[o].fields, classOf[o].fields[i].name, i)
    ensures (o, classOf[o].fields[i].name) in Wire(s, ioc, classOf, order)
    ensures Wire(s, ioc, classOf, order)[(o, classOf[o].fields[i].name)] == Get(ioc, WireKey(classOf[o].fields[i]))
  {
    WireOverride(s, ioc, classOf, order);
    PassWiringAt(ioc, classOf, order);
  }

  /** A field that is not `@Autowired` on a visited object keeps whatever it held. */
  lemma WireLeavesOthers(s: Slots, ioc: map<JString, ObjId>, classOf: map<ObjId, ClassDesc>, order: seq<JString>,
                         sl: Slot)
    requires !Visited(ioc, classOf, order, sl.0) ||
      forall f | f in classOf[sl.0].fields :: !(f.autowired.Some? && f.name == sl.1)
    ensures sl in Wire(s, ioc, classOf, order) <==> sl in s
    ensures sl in s ==> Wire(s, ioc, classOf, order)[sl] == s[sl]
  {
    WireOverride(s, ioc, classOf, order);
    PassWiringDomain(ioc, classOf, order);
  }

  /** The pass assigns only `@Autowired` fields of visited objects. */
  lemma PassWiringDomain(ioc: map<JString, ObjId>, classOf: map<ObjId, ClassDesc>, order: seq<JString>)
    ensures forall sl | sl in PassWiring(ioc, classOf, order) ::
      Visited(ioc, classOf, order, sl.0) &&
      exists f | f in classOf[sl.0].fields :: f.autowired.Some? && f.name == sl.1
  {
    PassWiringAt(ioc, classOf, order);
    forall sl | sl in PassWiring(ioc, classOf, order)
      ensures exists f | f in classOf[sl.0].fields :: f.autowired.Some? && f.name == sl.1
    {
      ObjectWiringDomain(sl.0, classOf[sl.0].fields, ioc);
      var i :| 0 <= i < |classOf[sl.0].fields| && LastAutowired(classOf[sl.0].fields, sl.1, i);
      assert classOf[sl.0].fields[i] in classOf[sl.0].fields;
    }
  }

  /** A pass whose keys are none of them registered assigns nothing; with an empty `ioc` this is the early return. */
  lemma {:induction false} WireOutside(s: Slots, ioc: map<JString, ObjId>, classOf: map<ObjId, ClassDesc>, order: seq<JString>)
    requires forall i | 0 <= i < |order| :: order[i] !in ioc
    ensures Wire(s, ioc, classOf, order) == s
  {
    if order != [] {
      WireOutside(s, ioc, classOf, order[..|order| - 1]);
    }
  }

  /** One step of the pass over a prefix of the iteration order, for a registered key. */
  lemma WireStep(s: Slots, ioc: map<JString, ObjId>, classOf: map<ObjId, ClassDesc>, order: seq<JString>, i: nat)
    requires i < |order| && order[i] in ioc && ioc[order[i]] in classOf
    ensures Wire(s, ioc, classOf, order[..i + 1]) ==
      WireFields(Wire(s, ioc, classOf, order[..i]), ioc[order[i]], classOf[ioc[order[i]]].fields, ioc)
  {
    assert order[..i + 1][..i] == order[..i];
  }

  /** One step of the inner loop over a prefix of the fields. */
  lemma WireFieldsStep(s: Slots, o: ObjId, fields: seq<FieldDesc>, ioc: map<JString, ObjId>, j: nat)
    requires j < |fields|
    ensures WireFields(s, o, fields[..j + 1], ioc) ==
      if fields[j].autowired.Some?
      then WireFields(s, o, fields[..j], ioc)[(o, fields[j].name) := Get(ioc, WireKey(fields[j]))]
      else WireFields(s, o, fields[..j], ioc)
  {
    assert fields[..j + 1][..j] == fields[..j];
  }
}
