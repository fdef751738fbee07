/**
 * The few pieces of `java.lang.String` and `java.util.Arrays` that the
 * dispatcher relies on, over strings of UTF-16 code units as Java has them.
 */
module JavaText {

  /** A Java `char`: one unsigned 16-bit UTF-16 code unit. */
  newtype JChar = c: int | 0 <= c < 0x1_0000

  /** A Java `String`: a sequence of code units. */
  type JString = seq<JChar>

  const Slash: JChar := 47        // '/'
  const Dot: JChar := 46          // '.'
  const Comma: JChar := 44        // ','
  const Space: JChar := 32        // ' '
  const OpenBracket: JChar := 91  // '['
  const CloseBracket: JChar := 93 // ']'

  /** Characters matched by the regular expression `\s` (no Unicode flag): space, \t, \n, \x0B, \f, \r. */
  const Whitespace: set<JChar> := {9, 10, 11, 12, 13, 32}

  /** Characters matched by the regular expression `\[|\]`. */
  const Brackets: set<JChar> := {OpenBracket, CloseBracket}

  /** Every character of `s` fits in one UTF-16 code unit. */
  predicate IsBmp(s: string)
  {
    forall i | 0 <= i < |s| :: s[i] as int < 0x1_0000
  }

  /** The Java string written as the Dafny literal `s`. */
  function J(s: string): JString
    requires IsBmp(s)
  {
    seq(|s|, i requires 0 <= i < |s| => s[i] as int as JChar)
  }

  // ---------------------------------------------------------------------
  // String.trim()

  /** `trim()` treats every code unit up to U+0020 as space. */
  predicate IsTrimSpace(c: JChar)
  {
    c <= Space
  }

  /** `s` without its leading run of trim-space characters. */
  function TrimStart(s: JString): (r: JString)
    ensures |r| <= |s| && r == s[|s| - |r|..]
    ensures forall i | 0 <= i < |s| - |r| :: IsTrimSpace(s[i])
    ensures |r| > 0 ==> !IsTrimSpace(r[0])
  {
    if |s| > 0 && IsTrimSpace(s[0]) then TrimStart(s[1..]) else s
  }

  /** `s` without its trailing run of trim-space characters. */
  function TrimEnd(s: JString): (r: JString)
    ensures |r| <= |s| && r == s[..|r|]
    ensures forall i | |r| <= i < |s| :: IsTrimSpace(s[i])
    ensures |r| > 0 ==> !IsTrimSpace(r[|r| - 1])
  {
    if |s| > 0 && IsTrimSpace(s[|s| - 1]) then TrimEnd(s[..|s| - 1]) else s
  }

  /** `s.trim()`. */
  function Trim(s: JString): JString
  {
    TrimEnd(TrimStart(s))
  }

  /** `"".equals(s.trim())` holds exactly when every character of `s` is a trim space. */
  lemma TrimBlankIff(s: JString)
    ensures Trim(s) == [] <==> forall i | 0 <= i < |s| :: IsTrimSpace(s[i])
  {
    var t := TrimStart(s);
    if Trim(s) != [] {
      var r := Trim(s);
      assert r[0] == t[0];
      assert t[0] == s[|s| - |t|];
    }
  }

  /** Trimming keeps a contiguous piece of the input whose two ends are not spaces. */
  lemma TrimIsInfix(s: JString)
    ensures exists a, b :: 0 <= a <= b <= |s| && Trim(s) == s[a..b]
    ensures |Trim(s)| > 0 ==> !IsTrimSpace(Trim(s)[0]) && !IsTrimSpace(Trim(s)[|Trim(s)| - 1])
  {
    var t := TrimStart(s);
    var r := TrimEnd(t);
    var a := |s| - |t|;
    assert r == s[a..a + |r|];
    if |r| > 0 {
      assert r[0] == t[0];
    }
  }

  // ---------------------------------------------------------------------
  // String.replace(target, "") and replaceAll over single characters

  /** `t` occurs in `s` starting at index `i`. */
  predicate OccursAt(s: JString, t: JString, i: int)
  {
    0 <= i && i + |t| <= |s| && s[i..i + |t|] == t
  }

  /**
   * `s.replace(t, "")`: scanning left to right, every non-overlapping
   * occurrence of `t` is removed, wherever it is; an empty `t` leaves `s` as it is.
   */
  function RemoveAll(s: JString, t: JString): (r: JString)
    ensures |r| <= |s|
    decreases |s|
  {
    if |t| == 0 || |s| < |t| then s
    else if s[..|t|] == t then RemoveAll(s[|t|..], t)
    else [s[0]] + RemoveAll(s[1..], t)
  }

  /** Removing a string that does not occur changes nothing. */
  lemma {:induction false} RemoveAllAbsent(s: JString, t: JString)
    requires forall i :: !OccursAt(s, t, i)
    ensures RemoveAll(s, t) == s
    decreases |s|
  {
    if |t| == 0 || |s| < |t| {
    } else {
      assert !OccursAt(s, t, 0);
      forall i ensures !OccursAt(s[1..], t, i) {
        if OccursAt(s[1..], t, i) {
          assert s[1..][i..i + |t|] == s[i + 1..i + 1 + |t|];
          assert OccursAt(s, t, i + 1);
        }
      }
      RemoveAllAbsent(s[1..], t);
    }
  }

  /** The result of removing `t` is what is left of `s` with some occurrences of `t` cut out: a leading one always goes. */
  lemma RemoveAllLeading(t: JString, u: JString)
    requires |t| > 0
    ensures RemoveAll(t + u, t) == RemoveAll(u, t)
  {
    assert (t + u)[..|t|] == t;
    assert (t + u)[|t|..] == u;
  }

  /** A prefix at none of whose positions `t` starts is kept as it is. */
  lemma {:induction false} RemoveAllKeeps(x: JString, u: JString, t: JString)
    requires |t| > 0
    requires forall i | 0 <= i < |x| :: !OccursAt(x + u, t, i)
    ensures RemoveAll(x + u, t) == x + RemoveAll(u, t)
  {
    if x == [] {
      assert x + u == u;
    } else {
      var x' := x[1..];
      assert (x + u)[1..] == x' + u;
      assert !OccursAt(x + u, t, 0);
      RemoveAllSkip(x + u, t);
      NoOccurrenceShift(x, u, t);
      RemoveAllKeeps(x', u, t);
      assert x == [x[0]] + x';
    }
  }

  /** A first character at which `t` does not start is kept. */
  lemma RemoveAllSkip(s: JString, t: JString)
    requires |t| > 0 && |s| > 0 && !OccursAt(s, t, 0)
    ensures RemoveAll(s, t) == [s[0]] + RemoveAll(s[1..], t)
  {
    if |s| < |t| {
      assert RemoveAll(s[1..], t) == s[1..];
      assert s == [s[0]] + s[1..];
    }
  }

  /** Without `t` at the positions of `x`, there is none at the positions of `x[1..]` either. */
  lemma NoOccurrenceShift(x: JString, u: JString, t: JString)
    requires |x| > 0
    requires forall i | 0 <= i < |x| :: !OccursAt(x + u, t, i)
    ensures forall i | 0 <= i < |x| - 1 :: !OccursAt(x[1..] + u, t, i)
  {
    var s := x + u;
    assert s[1..] == x[1..] + u;
    forall i | 0 <= i < |x| - 1 ensures !OccursAt(x[1..] + u, t, i) {
      assert !OccursAt(s, t, i + 1);
      if i + 1 + |t| <= |s| {
        SliceShift(s, i, |t|);
      }
    }
  }

  lemma SliceShift(s: JString, i: nat, n: nat)
    requires |s| > 0 && i + 1 + n <= |s|
    ensures s[1..][i..i + n] == s[i + 1..i + 1 + n]
  {
  }

  /** The characters of `s` that are not in `cs`, in order (`replaceAll` of a character class by ""). */
  function Drop(s: JString, cs: set<JChar>): (r: JString)
    ensures |r| <= |s|
    ensures forall i | 0 <= i < |r| :: r[i] !in cs
    ensures forall i | 0 <= i < |r| :: r[i] in s
  {
    if s == [] then []
    else if s[|s| - 1] in cs then Drop(s[..|s| - 1], cs)
    else Drop(s[..|s| - 1], cs) + [s[|s| - 1]]
  }

  /** A string with none of the characters is left unchanged. */
  lemma {:induction false} DropNone(s: JString, cs: set<JChar>)
    requires forall i | 0 <= i < |s| :: s[i] !in cs
    ensures Drop(s, cs) == s
  {
    if s != [] {
      DropNone(s[..|s| - 1], cs);
    }
  }

  /** Dropping works piecewise over a concatenation. */
  lemma {:induction false} DropConcat(a: JString, b: JString, cs: set<JChar>)
    ensures Drop(a + b, cs) == Drop(a, cs) + Drop(b, cs)
    decreases |b|
  {
    if b == [] {
      assert a + b == a;
    } else {
      assert (a + b)[..|a + b| - 1] == a + b[..|b| - 1];
      DropConcat(a, b[..|b| - 1], cs);
    }
  }

  /** Dropping one class then another is dropping both. */
  lemma {:induction false} DropTwice(s: JString, cs: set<JChar>, ds: set<JChar>)
    ensures Drop(Drop(s, cs), ds) == Drop(s, cs + ds)
  {
    if s != [] {
      var init := s[..|s| - 1];
      DropTwice(init, cs, ds);
      if s[|s| - 1] !in cs {
        DropConcat(Drop(init, cs), [s[|s| - 1]], ds);
        assert Drop([s[|s| - 1]], ds) == (if s[|s| - 1] in ds then [] else [s[|s| - 1]]) by {
          assert [s[|s| - 1]][..0] == [];
        }
      }
    }
  }

  // ---------------------------------------------------------------------
  // lowerFirstCase

  /**
   * The string produced by `lowerFirstCase`: 32 is added to the first code
   * unit, with the 16-bit wrap-around of a Java `char`; the rest is kept.
   */
  function LowerFirst(s: JString): (r: JString)
    requires |s| > 0
  {
    [((s[0] as int + 32) % 0x1_0000) as JChar] + s[1..]
  }

  /** The first character is shifted by 32 modulo 2^16 and nothing else changes. */
  lemma LowerFirstShape(s: JString)
    requires |s| > 0
    ensures |LowerFirst(s)| == |s|
    ensures LowerFirst(s)[0] as int == (s[0] as int + 32) % 0x1_0000
    ensures forall i | 1 <= i < |s| :: LowerFirst(s)[i] == s[i]
  {
  }

  /** On 'A'..'Z' the shift is indeed lower-casing. */
  lemma LowerFirstUpper(s: JString)
    requires |s| > 0 && 'A' as JChar <= s[0] <= 'Z' as JChar
    ensures 'a' as JChar <= LowerFirst(s)[0] <= 'z' as JChar
    ensures LowerFirst(s)[0] == s[0] + ('a' as JChar - 'A' as JChar)
  {
  }

  /** On a name that already starts with 'a'..'z' the shift leaves the ASCII letters entirely. */
  lemma LowerFirstOfLower(s: JString)
    requires |s| > 0 && 'a' as JChar <= s[0] <= 'z' as JChar
    ensures LowerFirst(s)[0] > 127
  {
  }

  /** Different names never collide after `lowerFirstCase`. */
  lemma LowerFirstInjective(s: JString, t: JString)
    requires |s| > 0 && |t| > 0 && LowerFirst(s) == LowerFirst(t)
    ensures s == t
  {
    assert LowerFirst(s)[0] == LowerFirst(t)[0];
    assert s[1..] == LowerFirst(s)[1..] == LowerFirst(t)[1..] == t[1..];
    assert s == [s[0]] + s[1..];
    assert t == [t[0]] + t[1..];
  }

  /** `lowerFirstCase` as the source writes it: over a character array updated in place. */
  method LowerFirstCase(s: JString) returns (r: JString)
    requires |s| > 0
    ensures |r| == |s|
    ensures r[0] as int == (s[0] as int + 32) % 0x1_0000
    ensures r[1..] == s[1..]
    ensures r == LowerFirst(s)
  {
    var chars := new JChar[|s|](i requires 0 <= i < |s| => s[i]);
    chars[0] := ((chars[0] as int + 32) % 0x1_0000) as JChar;
    r := chars[..];
  }

  // ---------------------------------------------------------------------
  // Arrays.toString(String[]) and the clean-up applied to it

  /** The elements of `vs` with `sep` between each two. */
  function Join(vs: seq<JString>, sep: JString): JString
  {
    if |vs| == 0 then []
    else if |vs| == 1 then vs[0]
    else Join(vs[..|vs| - 1], sep) + sep + vs[|vs| - 1]
  }

  /** `Arrays.toString(vs)` of a non-null array of non-null strings: "[a, b, c]". */
  function ArraysToString(vs: seq<JString>): JString
  {
    [OpenBracket] + Join(vs, [Comma, Space]) + [CloseBracket]
  }

  /** A request value with `[`, `]` and whitespace removed. */
  function Clean(v: JString): JString
  {
    Drop(v, Brackets + Whitespace)
  }

  /**
   * The value one request parameter contributes to a String argument:
   * `Arrays.toString(values).replaceAll("\\[|\\]", "").replaceAll("\\s", "")`.
   */
  function ParamValue(vs: seq<JString>): JString
  {
    Drop(Drop(ArraysToString(vs), Brackets), Whitespace)
  }

  /** The cleaned-up string is the cleaned values joined by a bare comma. */
  lemma {:induction false} JoinClean(vs: seq<JString>)
    ensures Clean(Join(vs, [Comma, Space]))
         == Join(seq(|vs|, i requires 0 <= i < |vs| => Clean(vs[i])), [Comma])
  {
    var cleaned := seq(|vs|, i requires 0 <= i < |vs| => Clean(vs[i]));
    if |vs| > 1 {
      var n := |vs|;
      var sep: JString := [Comma, Space];
      var init := vs[..n - 1];
      var prefix := Join(init, sep);
      JoinClean(init);
      assert seq(|init|, i requires 0 <= i < |init| => Clean(init[i])) == cleaned[..n - 1];
      assert Clean(prefix) == Join(cleaned[..n - 1], [Comma]);
      DropConcat(prefix + sep, vs[n - 1], Brackets + Whitespace);
      DropConcat(prefix, sep, Brackets + Whitespace);
      CleanSeparator();
      assert Join(vs, sep) == prefix + sep + vs[n - 1];
      assert Join(cleaned, [Comma]) == Join(cleaned[..n - 1], [Comma]) + [Comma] + cleaned[n - 1];
    }
  }

  /** The separator of `Arrays.toString` cleans to a bare comma. */
  lemma CleanSeparator()
    ensures Clean([Comma, Space]) == [Comma]
  {
    var sep: JString := [Comma, Space];
    var cs := Brackets + Whitespace;
    assert sep[..1] == [Comma];
    assert sep[..1][..0] == [];
    assert Space in cs && Comma !in cs;
    assert Drop([Comma], cs) == Drop([], cs) + [Comma];
    assert Drop(sep, cs) == Drop([Comma], cs);
  }

  /** `ParamValue` keeps every value's own characters except brackets and whitespace, joined by commas. */
  lemma ParamValueJoin(vs: seq<JString>)
    ensures ParamValue(vs) == Join(seq(|vs|, i requires 0 <= i < |vs| => Clean(vs[i])), [Comma])
  {
    var body := Join(vs, [Comma, Space]);
    DropTwice(ArraysToString(vs), Brackets, Whitespace);
    DropConcat([OpenBracket] + body, [CloseBracket], Brackets + Whitespace);
    DropConcat([OpenBracket], body, Brackets + Whitespace);
    assert [OpenBracket][..0] == [];
    assert [CloseBracket][..0] == [];
    JoinClean(vs);
  }

  /** A single value free of brackets and whitespace comes through unchanged: `id=42` gives "42". */
  lemma ParamValueSingle(v: JString)
    requires forall i | 0 <= i < |v| :: v[i] !in Brackets && v[i] !in Whitespace
    ensures ParamValue([v]) == v
  {
    ParamValueJoin([v]);
    DropNone(v, Brackets + Whitespace);
  }
}
