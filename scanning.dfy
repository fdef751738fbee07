/** The class names `doSCanner` builds from a package's directory listing. */
module Scanning {
  import opened JavaText

  /** One entry of a directory listing, in the order `listFiles()` returns them. */
  datatype Entry =
    | Directory(name: JString, entries: seq<Entry>)
    | PlainFile(name: JString)

  /** The name recorded for a file: `pkg + "." + name.replace(".class", "").trim()`. */
  function FileClassName(pkg: JString, fileName: JString): (r: JString)
    ensures |r| > |pkg| && r[..|pkg| + 1] == pkg + [Dot]
  {
    pkg + [Dot] + Trim(RemoveAll(fileName, ClassSuffix()))
  }

  /** The names found under `pkg`, depth first, directories entered as sub-packages `pkg + "." + name`. */
  function ScanNames(pkg: JString, entries: seq<Entry>): seq<JString>
    decreases entries, 1
  {
    if entries == [] then []
    else ScanNames(pkg, entries[..|entries| - 1]) + EntryNames(pkg, entries[|entries| - 1])
  }

  /** The names one listing entry contributes. */
  function EntryNames(pkg: JString, e: Entry): seq<JString>
    decreases e, 0
  {
    match e
    case Directory(n, sub) => ScanNames(pkg + [Dot] + n, sub)
    case PlainFile(n) => [FileClassName(pkg, n)]
  }

  /** The number of plain files anywhere under `entries`. */
  function FileCount(entries: seq<Entry>): nat
    decreases entries
  {
    if entries == [] then 0
    else
      var last := entries[|entries| - 1];
      FileCount(entries[..|entries| - 1]) +
      match last
      case Directory(_, sub) => FileCount(sub)
      case PlainFile(_) => 1
  }

  /** `s` begins with `p`. */
  predicate StartsWith(s: JString, p: JString)
  {
    |p| <= |s| && s[..|p|] == p
  }

  /** A string that begins with `p + q` begins with `p`. */
  lemma StartsWithPart(s: JString, p: JString, q: JString)
    requires StartsWith(s, p + q)
    ensures StartsWith(s, p)
  {
    assert s[..|p + q|][..|p|] == s[..|p|];
    assert (p + q)[..|p|] == p;
  }

  /** One name per plain file, every one of them qualified by the package followed by '.'. */
  lemma {:induction false} ScanNamesShape(pkg: JString, entries: seq<Entry>)
    ensures |ScanNames(pkg, entries)| == FileCount(entries)
    ensures forall n | n in ScanNames(pkg, entries) :: StartsWith(n, pkg + [Dot])
    decreases entries
  {
    if entries != [] {
      ScanNamesShape(pkg, entries[..|entries| - 1]);
      match entries[|entries| - 1]
      case Directory(n, sub) =>
        ScanNamesShape(pkg + [Dot] + n, sub);
        assert pkg + [Dot] + n + [Dot] == (pkg + [Dot]) + (n + [Dot]);
        forall x | x in ScanNames(pkg + [Dot] + n, sub) ensures StartsWith(x, pkg + [Dot]) {
          StartsWithPart(x, pkg + [Dot], n + [Dot]);
        }
      case PlainFile(n) =>
    }
  }

  /** Scanning a listing piecewise: names of the first part come first. */
  lemma {:induction false} ScanNamesConcat(pkg: JString, a: seq<Entry>, b: seq<Entry>)
    ensures ScanNames(pkg, a + b) == ScanNames(pkg, a) + ScanNames(pkg, b)
    decreases |b|
  {
    if b == [] {
      assert a + b == a;
    } else {
      assert (a + b)[..|a + b| - 1] == a + b[..|b| - 1];
      ScanNamesConcat(pkg, a, b[..|b| - 1]);
    }
  }

  /** A directory's names are exactly those of its listing under the sub-package name. */
  lemma ScanDirectory(pkg: JString, n: JString, sub: seq<Entry>)
    ensures ScanNames(pkg, [Directory(n, sub)]) == ScanNames(pkg + [Dot] + n, sub)
  {
    assert [Directory(n, sub)][..0] == [];
  }

  /** The class-file suffix that `doSCanner` strips. */
  function ClassSuffix(): (r: JString)
    ensures |r| == 6 && r[0] == Dot
  {
    J(".class")
  }

  /**
   * A file "<name>.class", with `name` a simple class name (no '.', no
   * leading or trailing space), is recorded as `pkg + "." + name`.
   */
  lemma FileClassNameOfClassFile(pkg: JString, name: JString)
    requires |name| > 0 && Dot !in name
    requires !IsTrimSpace(name[0]) && !IsTrimSpace(name[|name| - 1])
    ensures FileClassName(pkg, name + ClassSuffix()) == pkg + [Dot] + name
  {
    RemoveAllBeforeSuffix(name, ClassSuffix());
    RemoveAllLeading(ClassSuffix(), []);
    assert ClassSuffix() + [] == ClassSuffix();
    assert name + [] == name;
    assert J(".class") == ClassSuffix();
  }

  /** Removing a suffix that starts with '.' keeps a dot-free prefix intact. */
  lemma {:induction false} RemoveAllBeforeSuffix(x: JString, ext: JString)
    requires Dot !in x && |ext| > 0 && ext[0] == Dot
    ensures RemoveAll(x + ext, ext) == x + RemoveAll(ext, ext)
  {
    if x != [] {
      var s := x + ext;
      assert s[..|ext|][0] == x[0] != Dot;
      assert s[1..] == x[1..] + ext;
      RemoveAllBeforeSuffix(x[1..], ext);
      assert x == [x[0]] + x[1..];
    } else {
      assert x + ext == ext;
    }
  }

  /** A file listed directly in the package directory gives one name. */
  lemma ScanSingleFile(pkg: JString, name: JString)
    ensures ScanNames(pkg, [PlainFile(name)]) == [FileClassName(pkg, name)]
  {
    assert [PlainFile(name)][..0] == [];
  }

  /** One step of the scan over a prefix of the listing. */
  lemma ScanNamesStep(pkg: JString, entries: seq<Entry>, i: nat)
    requires i < |entries|
    ensures ScanNames(pkg, entries[..i + 1]) == ScanNames(pkg, entries[..i]) + EntryNames(pkg, entries[i])
  {
    assert entries[..i + 1][..i] == entries[..i];
  }
}
