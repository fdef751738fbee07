/**
 * URL normalisation: `replaceAll("/+", "/")`, and the composition of a
 * controller's base path with a method's path into a route key.
 */
module Paths {
  import opened JavaText

  /** No two adjacent characters of `s` are both '/'. */
  predicate NoDoubleSlash(s: JString)
  {
    forall i | 0 <= i < |s| - 1 :: !(s[i] == Slash && s[i + 1] == Slash)
  }

  /** The characters of `s` other than '/', in order. */
  function NonSlash(s: JString): JString
  {
    if s == [] then []
    else if s[0] == Slash then NonSlash(s[1..])
    else [s[0]] + NonSlash(s[1..])
  }

  /** `s.replaceAll("/+", "/")`: every run of '/' becomes a single '/'. */
  function Collapse(s: JString): (r: JString)
    ensures |r| <= |s|
    ensures |s| > 0 ==> |r| > 0 && r[0] == s[0] && r[|r| - 1] == s[|s| - 1]
  {
    if |s| <= 1 then s
    else if s[0] == Slash && s[1] == Slash then Collapse(s[1..])
    else [s[0]] + Collapse(s[1..])
  }

  /** The result of collapsing never has two adjacent slashes. */
  lemma {:induction false} CollapseNoDoubleSlash(s: JString)
    ensures NoDoubleSlash(Collapse(s))
  {
    if |s| > 1 {
      CollapseNoDoubleSlash(s[1..]);
      if !(s[0] == Slash && s[1] == Slash) {
        var t := Collapse(s[1..]);
        assert t[0] == s[1];
        forall i | 0 <= i < |[s[0]] + t| - 1
          ensures !(([s[0]] + t)[i] == Slash && ([s[0]] + t)[i + 1] == Slash)
        {
          if i > 0 {
            assert ([s[0]] + t)[i] == t[i - 1];
          }
        }
      }
    }
  }

  /** Collapsing changes nothing but '/' characters. */
  lemma {:induction false} CollapseKeepsNonSlash(s: JString)
    ensures NonSlash(Collapse(s)) == NonSlash(s)
  {
    if |s| > 1 {
      CollapseKeepsNonSlash(s[1..]);
      if !(s[0] == Slash && s[1] == Slash) {
        assert ([s[0]] + Collapse(s[1..]))[1..] == Collapse(s[1..]);
      }
    }
  }

  /** A string without adjacent slashes is left unchanged by collapsing. */
  lemma {:induction false} CollapseOfNormal(s: JString)
    requires NoDoubleSlash(s)
    ensures Collapse(s) == s
  {
    if |s| > 1 {
      assert !(s[0] == Slash && s[1] == Slash);
      assert NoDoubleSlash(s[1..]) by {
        forall i | 0 <= i < |s[1..]| - 1 ensures !(s[1..][i] == Slash && s[1..][i + 1] == Slash) {
          assert s[1..][i] == s[i + 1] && s[1..][i + 1] == s[i + 2];
        }
      }
      CollapseOfNormal(s[1..]);
      assert s == [s[0]] + s[1..];
    }
  }

  /** A string is left unchanged by collapsing exactly when it has no adjacent slashes. */
  lemma CollapseFixpoint(s: JString)
    ensures Collapse(s) == s <==> NoDoubleSlash(s)
  {
    CollapseNoDoubleSlash(s);
    if NoDoubleSlash(s) {
      CollapseOfNormal(s);
    }
  }

  /** Collapsing twice is collapsing once. */
  lemma CollapseIdempotent(s: JString)
    ensures Collapse(Collapse(s)) == Collapse(s)
  {
    CollapseNoDoubleSlash(s);
    CollapseFixpoint(Collapse(s));
  }

  /** The route key of a method: `("/" + base + "/" + value).replaceAll("/+", "/")`. */
  function Route(base: JString, value: JString): JString
  {
    Collapse([Slash] + base + [Slash] + value)
  }

  /** Every route starts with '/', has no repeated '/', and keeps the non-slash text of both parts. */
  lemma RouteShape(base: JString, value: JString)
    ensures |Route(base, value)| > 0 && Route(base, value)[0] == Slash
    ensures NoDoubleSlash(Route(base, value))
    ensures NonSlash(Route(base, value)) == NonSlash(base) + NonSlash(value)
  {
    var a := [Slash] + base;
    var b := a + [Slash];
    var s := b + value;
    assert s[0] == Slash;
    CollapseNoDoubleSlash(s);
    CollapseKeepsNonSlash(s);
    NonSlashConcat(b, value);
    NonSlashConcat(a, [Slash]);
    NonSlashConcat([Slash], base);
    assert NonSlash([Slash]) == [] by {
      assert [Slash][1..] == [];
    }
  }

  lemma {:induction false} NonSlashConcat(a: JString, b: JString)
    ensures NonSlash(a + b) == NonSlash(a) + NonSlash(b)
  {
    if a != [] {
      assert (a + b)[1..] == a[1..] + b;
      NonSlashConcat(a[1..], b);
    } else {
      assert a + b == b;
    }
  }

  /** A string that starts with one '/' and then has no repeated '/' is its own route after a leading "//". */
  lemma CollapseLeadingDouble(v: JString)
    requires NoDoubleSlash([Slash] + v)
    ensures Collapse([Slash, Slash] + v) == [Slash] + v
  {
    CollapseDouble(v);
    CollapseOfNormal([Slash] + v);
  }

  /** With no class-level path, method path "getUser" is routed at "/getUser". */
  lemma RouteOfEmptyBase()
    ensures Route([], J("getUser")) == J("/getUser")
  {
    var v := J("getUser");
    assert [Slash] + [] + [Slash] + v == [Slash, Slash] + v;
    assert J("/getUser") == [Slash] + v;
    CollapseLeadingDouble(v);
  }

  /** With both paths empty the route is "/". */
  lemma RouteOfEmptyPaths()
    ensures Route([], []) == J("/")
  {
    assert [Slash] + [] + [Slash] + [] == [Slash, Slash];
  }

  /** Base "a" and method path "b" give "/a/b". */
  lemma RouteOfSegments()
    ensures Route(J("a"), J("b")) == J("/a/b")
  {
    var s := [Slash] + J("a") + [Slash] + J("b");
    assert s == J("/a/b");
    CollapseFixpoint(s);
  }

  /** One of two leading slashes is dropped. */
  lemma CollapseDouble(x: JString)
    ensures Collapse([Slash, Slash] + x) == Collapse([Slash] + x)
  {
    assert ([Slash, Slash] + x)[1..] == [Slash] + x;
  }

  /** Two adjacent slashes anywhere collapse like one. */
  lemma {:induction false} CollapseMerge(p: JString, q: JString)
    ensures Collapse(p + [Slash, Slash] + q) == Collapse(p + [Slash] + q)
    decreases |p|
  {
    if p == [] {
      CollapseDouble(q);
    } else {
      var s1 := p + [Slash, Slash] + q;
      var s2 := p + [Slash] + q;
      var p' := p[1..];
      assert s1[1..] == p' + [Slash, Slash] + q;
      assert s2[1..] == p' + [Slash] + q;
      CollapseMerge(p', q);
      CollapseSameStart(s1, s2);
    }
  }

  /** Two strings that agree in their first two characters and collapse alike after the first collapse alike. */
  lemma CollapseSameStart(s1: JString, s2: JString)
    requires |s1| > 1 && |s2| > 1 && s1[0] == s2[0] && s1[1] == s2[1]
    requires Collapse(s1[1..]) == Collapse(s2[1..])
    ensures Collapse(s1) == Collapse(s2)
  {
  }

  /** A leading '/' on the class-level path does not change the route. */
  lemma RouteBaseLeadingSlash(x: JString, y: JString)
    ensures Route([Slash] + x, y) == Route(x, y)
  {
    assert [Slash] + ([Slash] + x) + [Slash] + y == [] + [Slash, Slash] + (x + [Slash] + y);
    assert [Slash] + x + [Slash] + y == [] + [Slash] + (x + [Slash] + y);
    CollapseMerge([], x + [Slash] + y);
  }

  /** A trailing '/' on the class-level path does not change the route. */
  lemma RouteBaseTrailingSlash(x: JString, y: JString)
    ensures Route(x + [Slash], y) == Route(x, y)
  {
    assert [Slash] + (x + [Slash]) + [Slash] + y == ([Slash] + x) + [Slash, Slash] + y;
    CollapseMerge([Slash] + x, y);
  }

  /** A leading '/' on the method path does not change the route. */
  lemma RouteValueLeadingSlash(x: JString, y: JString)
    ensures Route(x, [Slash] + y) == Route(x, y)
  {
    assert [Slash] + x + [Slash] + ([Slash] + y) == ([Slash] + x) + [Slash, Slash] + y;
    CollapseMerge([Slash] + x, y);
  }

  /** All three paddings at once: "/" + x + "/" and "/" + y route like x and y. */
  lemma RouteSlashPadding(x: JString, y: JString)
    ensures Route([Slash] + x + [Slash], [Slash] + y) == Route(x, y)
  {
    RouteValueLeadingSlash([Slash] + x + [Slash], y);
    RouteBaseTrailingSlash([Slash] + x, y);
    RouteBaseLeadingSlash(x, y);
  }

  /** Extra slashes in either part do not change the route: "/a/" and "/b" give "/a/b" as well. */
  lemma RouteOfSlashedSegments()
    ensures Route(J("/a/"), J("/b")) == J("/a/b")
  {
    assert J("/a/") == [Slash] + J("a") + [Slash];
    assert J("/b") == [Slash] + J("b");
    RouteSlashPadding(J("a"), J("b"));
    RouteOfSegments();
  }
}
