/**
 * `AllClassesFromJarDetector.findAllClassesInSpringBootJar`: the class names
 * of a Spring Boot jar's `BOOT-INF/classes/` entries that lie under a package
 * prefix. Entry names are rewritten by a chain of `String.replace` calls.
 */
module AllClassesFromJarDetector {
  import opened JavaStrings

  const BootInfClasses: string := "BOOT-INF/classes/"

  /** `"BOOT-INF/classes/" + packagePrefix.replace('.', '/')` */
  function PackagePath(packagePrefix: string): string {
    BootInfClasses + ReplaceChar(packagePrefix, '.', '/')
  }

  /** The entry filter: a `.class` suffix and a raw-string prefix, not a package-segment boundary. */
  predicate Accepted(name: string, packagePath: string) {
    EndsWith(name, ".class") && StartsWith(name, packagePath)
  }

  /**
   * `name.replace("BOOT-INF/classes/", "").replace("/", ".").replace(".class", "")`,
   * each a replacement of every non-overlapping occurrence, left to right.
   */
  function ClassName(name: string): (r: string)
    ensures '/' !in r
  {
    var unprefixed := ReplaceAll(name, BootInfClasses, "");
    var dotted := ReplaceAll(unprefixed, "/", ".");
    ReplaceAllRemovesChar(unprefixed, '/', ".");
    ReplaceAllAbsentChar(dotted, ".class", "", '/');
    ReplaceAll(dotted, ".class", "")
  }

  /** The set the scan returns: the rewritten names of the accepted entries. */
  function ClassesIn(entries: seq<string>, packagePrefix: string): set<string> {
    set name | name in entries && Accepted(name, PackagePath(packagePrefix)) :: ClassName(name)
  }

  /** One more entry adds its class name exactly when it is accepted. */
  lemma ClassesInSnoc(entries: seq<string>, name: string, packagePrefix: string)
    ensures ClassesIn(entries + [name], packagePrefix) ==
            ClassesIn(entries, packagePrefix) + if Accepted(name, PackagePath(packagePrefix)) then {ClassName(name)} else {}
  {
    var l, r := ClassesIn(entries + [name], packagePrefix),
                ClassesIn(entries, packagePrefix) + if Accepted(name, PackagePath(packagePrefix)) then {ClassName(name)} else {};
    forall x | x in l ensures x in r {
      var n :| n in entries + [name] && Accepted(n, PackagePath(packagePrefix)) && ClassName(n) == x;
    }
  }

  /** The `while` loop over the jar's entries, adding each accepted entry's class name. */
  method FindAllClassesInSpringBootJar(entries: seq<string>, packagePrefix: string) returns (classes: set<string>)
    ensures classes == ClassesIn(entries, packagePrefix)
    ensures forall c :: c in classes ==> '/' !in c
  {
    classes := {};
    var packagePath := BootInfClasses + ReplaceChar(packagePrefix, '.', '/');
    for i := 0 to |entries|
      invariant classes == ClassesIn(entries[..i], packagePrefix)
    {
      var name := entries[i];
      assert entries[..i + 1] == entries[..i] + [name];
      ClassesInSnoc(entries[..i], name, packagePrefix);
      if EndsWith(name, ".class") && StartsWith(name, packagePath) {
        var className := ReplaceAll(ReplaceAll(ReplaceAll(name, "BOOT-INF/classes/", ""), "/", "."), ".class", "");
        classes := classes + {className};
      }
    }
    assert entries[..|entries|] == entries;
  }

  /** Only which names occur matters: neither entry order nor repetition changes the set. */
  lemma ClassesInOrderIndependent(entries: seq<string>, reordered: seq<string>, packagePrefix: string)
    requires forall n :: n in entries <==> n in reordered
    ensures ClassesIn(entries, packagePrefix) == ClassesIn(reordered, packagePrefix)
  {
  }

  /** A rejected entry contributes nothing, wherever it stands. */
  lemma RejectedEntryIgnored(before: seq<string>, name: string, after: seq<string>, packagePrefix: string)
    requires !Accepted(name, PackagePath(packagePrefix))
    ensures ClassesIn(before + [name] + after, packagePrefix) == ClassesIn(before + after, packagePrefix)
  {
    var l, r := ClassesIn(before + [name] + after, packagePrefix), ClassesIn(before + after, packagePrefix);
    forall x | x in l ensures x in r {
      var n :| n in before + [name] + after && Accepted(n, PackagePath(packagePrefix)) && ClassName(n) == x;
      assert n in before + after;
    }
    forall x | x in r ensures x in l {
      var n :| n in before + after && Accepted(n, PackagePath(packagePrefix)) && ClassName(n) == x;
      assert n in before + [name] + after;
    }
  }

  /** `s` with `prefix` removed from its front, when it starts with it. */
  function StripPrefix(s: string, prefix: string): (r: string)
    ensures StartsWith(s, prefix) ==> s == prefix + r
  {
    if StartsWith(s, prefix) then s[|prefix|..] else s
  }

  /** `s` with `suffix` removed from its end, when it ends with it. */
  function StripSuffix(s: string, suffix: string): (r: string)
    ensures EndsWith(s, suffix) ==> s == r + suffix
  {
    if EndsWith(s, suffix) then s[..|s| - |suffix|] else s
  }

  /**
   * The rewrite the scan evidently intends: drop the leading
   * `BOOT-INF/classes/` and the trailing `.class`, then turn `/` into `.`.
   */
  function IntendedClassName(name: string): (r: string)
    ensures '/' !in r
  {
    ReplaceChar(StripSuffix(StripPrefix(name, BootInfClasses), ".class"), '/', '.')
  }

  /** The intended rewrite of an entry `BOOT-INF/classes/<path>.class` is the dotted path, for every path. */
  lemma IntendedClassNameOfEntry(path: string)
    ensures IntendedClassName(BootInfClasses + path + ".class") == ReplaceChar(path, '/', '.')
  {
    var name := BootInfClasses + path + ".class";
    assert name == BootInfClasses + (path + ".class");
    assert StartsWith(name, BootInfClasses) by { assert name[..|BootInfClasses|] == BootInfClasses; }
    var unprefixed := StripPrefix(name, BootInfClasses);
    assert unprefixed == path + ".class";
    assert EndsWith(unprefixed, ".class") by { assert unprefixed[|unprefixed| - 6..] == ".class"; }
    assert StripSuffix(unprefixed, ".class") == path;
  }

  /** Step one of the chain: a leading `BOOT-INF/classes/` is dropped and a rest without `-` is kept. */
  lemma DropBootInfClasses(rest: string)
    requires '-' !in rest
    ensures ReplaceAll(BootInfClasses + rest, BootInfClasses, "") == rest
  {
    ReplaceAllLeading(BootInfClasses, rest, "");
    AbsentCharNoOccurrence(rest, BootInfClasses, '-');
    ReplaceAllNoOccurrence(rest, BootInfClasses, "");
  }

  /** Step two of the chain on `<path>.class`: only the path's slashes change. */
  lemma DotPath(path: string)
    ensures ReplaceAll(path + ".class", "/", ".") == ReplaceChar(path, '/', '.') + ".class"
  {
    ReplaceAllSingleChar(path + ".class", '/', '.');
    ReplaceCharConcat(path, ".class", '/', '.');
    ReplaceCharAbsent(".class", '/', '.');
  }

  /** Step three of the chain: a trailing `.class` that is the only occurrence is dropped. */
  lemma DropClassSuffix(dotted: string)
    requires forall i :: 0 <= i < |dotted| ==> !OccursAt(dotted + ".class", ".class", i)
    ensures ReplaceAll(dotted + ".class", ".class", "") == dotted
  {
    ReplaceAllCopiesPrefix(dotted, ".class", ".class", "");
    ReplaceAllLeading(".class", [], "");
    assert ".class" + [] == ".class";
  }

  /**
   * The chain of `replace` calls on an entry whose path has no `-` (so
   * `BOOT-INF/classes/` occurs only in front) and in whose dotted form
   * `.class` occurs only at the end: the dotted path.
   */
  lemma ClassNameOfEntry(path: string)
    requires '-' !in path
    requires forall i :: 0 <= i < |path| ==> !OccursAt(ReplaceChar(path, '/', '.') + ".class", ".class", i)
    ensures ClassName(BootInfClasses + path + ".class") == ReplaceChar(path, '/', '.')
  {
    var rest := path + ".class";
    assert BootInfClasses + path + ".class" == BootInfClasses + rest;
    assert '-' !in ".class";
    DropBootInfClasses(rest);
    DotPath(path);
    DropClassSuffix(ReplaceChar(path, '/', '.'));
  }

  /** Under the same conditions the chain of `replace` calls agrees with the intended rewrite. */
  lemma ClassNameAgreesWithIntended(path: string)
    requires '-' !in path
    requires forall i :: 0 <= i < |path| ==> !OccursAt(ReplaceChar(path, '/', '.') + ".class", ".class", i)
    ensures ClassName(BootInfClasses + path + ".class") == IntendedClassName(BootInfClasses + path + ".class")
  {
    ClassNameOfEntry(path);
    IntendedClassNameOfEntry(path);
  }

  /** No `.` in `d` is directly followed by `c`, so no `.class` can start inside `d`. */
  predicate NoDotC(d: string) {
    forall i :: 0 <= i < |d| - 1 && d[i] == '.' ==> d[i + 1] != 'c'
  }

  /** A segment without dots has no `.c`. */
  lemma NoDotCWithoutDot(d: string)
    requires '.' !in d
    ensures NoDotC(d)
  {
  }

  /** Joining two segments with a dot adds no `.c` when the second does not start with `c`. */
  lemma NoDotCJoin(x: string, y: string)
    requires NoDotC(x) && NoDotC(y)
    requires y == [] || y[0] != 'c'
    ensures NoDotC(x + "." + y)
  {
    var d := x + "." + y;
    forall i | 0 <= i < |d| - 1 && d[i] == '.' ensures d[i + 1] != 'c' {
      if i < |x| - 1 {
        assert d[i] == x[i] && d[i + 1] == x[i + 1];
      } else if i == |x| - 1 {
        assert d[i + 1] == '.';
      } else if i == |x| {
        assert d[i + 1] == y[0];
      } else {
        assert d[i] == y[i - |x| - 1] && d[i + 1] == y[i - |x|];
      }
    }
  }

  /** When `d` has no `.c`, the only `.class` in `d + ".class"` is the trailing one. */
  lemma ClassOnlyAtEnd(d: string)
    requires NoDotC(d)
    ensures forall i :: 0 <= i < |d| ==> !OccursAt(d + ".class", ".class", i)
  {
    var s := d + ".class";
    forall i | 0 <= i < |d| ensures !OccursAt(s, ".class", i) {
      assert s[i..i + 6][0] == s[i] && s[i..i + 6][1] == s[i + 1];
      assert s[i] == d[i];
      if i < |d| - 1 {
        assert s[i + 1] == d[i + 1];
      } else {
        assert s[i + 1] == '.';
      }
    }
  }

  /** An ordinary entry: `BOOT-INF/classes/com/a/B.class` is listed as `com.a.B`. */
  lemma ClassNameExample(name: string)
    requires name == "BOOT-INF/classes/com/a/B.class"
    ensures ClassName(name) == "com.a.B"
  {
    var path := "com" + "/" + ("a" + "/" + "B");
    assert name == BootInfClasses + path + ".class";
    ReplaceCharJoin("a", "B", '/', '.');
    ReplaceCharAbsent("B", '/', '.');
    ReplaceCharJoin("com", "a" + "/" + "B", '/', '.');
    var dotted := "com" + "." + ("a" + "." + "B");
    assert ReplaceChar(path, '/', '.') == dotted;
    NoDotCWithoutDot("a");
    NoDotCWithoutDot("B");
    NoDotCWithoutDot("com");
    NoDotCJoin("a", "B");
    NoDotCJoin("com", "a" + "." + "B");
    ClassOnlyAtEnd(dotted);
    ClassNameAgreesWithIntended(path);
    IntendedClassNameOfEntry(path);
    assert dotted == "com.a.B";
  }

  /** The prefix test is on raw strings: prefix `com.a` also admits the package `com.ab`. */
  lemma RawPrefixAdmitsSibling()
    ensures Accepted("BOOT-INF/classes/com/ab/X.class", PackagePath("com.a"))
  {
    assert ReplaceChar("com.a", '.', '/') == "com/a";
    assert "BOOT-INF/classes/com/ab/X.class"[..|PackagePath("com.a")|] == "BOOT-INF/classes/com/a";
  }

  /** The mangled path's slashes become dots. */
  lemma DotMangledPath(path: string)
    requires path == "a" + "/" + ("classes" + "/" + "B")
    ensures ReplaceChar(path, '/', '.') == "a" + "." + ("classes" + "." + "B")
  {
    ReplaceCharJoin("classes", "B", '/', '.');
    ReplaceCharAbsent("B", '/', '.');
    ReplaceCharJoin("a", "classes" + "/" + "B", '/', '.');
  }

  /** The dotted mangled path, spelt out. */
  lemma MangledDotted(dotted: string)
    requires dotted == "a" + "." + ("classes" + "." + "B")
    ensures dotted == "a.classes.B"
  {
  }

  /** Step three of the chain on `a.classes.B.class`: both occurrences of `.class` go. */
  lemma DropClassTwice(dotted: string)
    requires dotted == "a" + (".class" + (("es" + "." + "B") + ".class"))
    ensures ReplaceAll(dotted, ".class", "") == "aes.B"
  {
    var tail := "es" + "." + "B";
    var rest := ".class" + (tail + ".class");
    assert !OccursAt("a" + rest, ".class", 0) by { assert ("a" + rest)[0] == 'a'; }
    ReplaceAllCopiesPrefix("a", rest, ".class", "");
    ReplaceAllLeading(".class", tail + ".class", "");
    NoDotCWithoutDot("es");
    NoDotCWithoutDot("B");
    NoDotCJoin("es", "B");
    ClassOnlyAtEnd(tail);
    DropClassSuffix(tail);
    assert "a" + ("" + tail) == "aes.B";
  }

  /** The mangled example lies under the package `a`. */
  lemma MangledAccepted(name: string)
    requires name == "BOOT-INF/classes/a/classes/B.class"
    ensures Accepted(name, PackagePath("a"))
  {
    assert ReplaceChar("a", '.', '/') == "a";
    assert name[..|PackagePath("a")|] == PackagePath("a");
  }

  /** The dotted mangled path followed by `.class`, cut where the two `.class` occurrences lie. */
  lemma MangledDottedSplit(dotted: string)
    requires dotted == "a" + "." + ("classes" + "." + "B")
    ensures dotted + ".class" == "a" + (".class" + (("es" + "." + "B") + ".class"))
  {
  }

  /** The chain of `replace` calls on the mangled example, for its path given as a parameter. */
  lemma ClassNameOfMangled(path: string)
    requires path == "a" + "/" + ("classes" + "/" + "B")
    ensures ClassName(BootInfClasses + path + ".class") == "aes.B"
  {
    assert BootInfClasses + path + ".class" == BootInfClasses + (path + ".class");
    DropBootInfClasses(path + ".class");
    DotPath(path);
    DotMangledPath(path);
    MangledDottedSplit(ReplaceChar(path, '/', '.'));
    DropClassTwice(ReplaceChar(path, '/', '.') + ".class");
  }

  /**
   * The `/` to `.` replacement runs before `.class` is removed, so a package
   * segment that starts with `class` loses those five letters and the dot
   * in front of them.
   */
  lemma ClassNameMangles(name: string)
    requires name == "BOOT-INF/classes/a/classes/B.class"
    ensures Accepted(name, PackagePath("a"))
    ensures ClassName(name) == "aes.B"
    ensures IntendedClassName(name) == "a.classes.B"
  {
    MangledAccepted(name);
    var path := "a" + "/" + ("classes" + "/" + "B");
    assert name == BootInfClasses + path + ".class";
    ClassNameOfMangled(path);
    IntendedClassNameOfEntry(path);
    DotMangledPath(path);
    MangledDotted(ReplaceChar(path, '/', '.'));
  }
}
