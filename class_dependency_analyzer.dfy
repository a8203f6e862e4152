/**
 * `ClassDependencyAnalyzer`: for every class of a given set whose entry is
 * in the jar, the classes of that set its header names (itself, its
 * superclass and its interfaces), and the pairs of classes that name each
 * other.
 */
module ClassDependencyAnalyzer {
  import opened JavaStrings
  import opened Asm
  import opened References
  import opened JarScan
  import opened Graph
  import opened AllClassesFromJarDetector

  /** `"BOOT-INF/classes/" + className.replace('.', '/') + ".class"`: where a class's bytes are looked up. */
  function EntryPath(className: string): string {
    BootInfClasses + ReplaceChar(className, '.', '/') + ".class"
  }

  /**
   * The caller's `HashSet` that `addIfInSet` adds to and that is finally
   * stored in the result map.
   */
  class ClassSet {
    var elements: set<string>

    constructor ()
      ensures elements == {}
    {
      elements := {};
    }
  }

  /**
   * `addIfInSet`: ignores null, otherwise adds the dotted name when it is in
   * `allClasses`. Unlike the two other visitors, it does not leave out the
   * class being visited.
   */
  method AddIfInSet(internalName: Option<string>, allClasses: set<string>, dependencies: ClassSet)
    modifies dependencies
    ensures dependencies.elements == old(dependencies.elements) + Admitted(OptMentions(internalName), allClasses, None)
  {
    if internalName.None? {
      return;
    }
    var className := Dotted(internalName.value);
    AdmittedSingleton(internalName.value, allClasses, None);
    if className in allClasses {
      dependencies.elements := dependencies.elements + {className};
    }
  }

  /** The `for (String iface : interfaces) addIfInSet(iface, ...)` loop. */
  method AddEachIfInSet(names: seq<string>, allClasses: set<string>, dependencies: ClassSet)
    modifies dependencies
    ensures dependencies.elements == old(dependencies.elements) + Admitted(NamesMentions(names), allClasses, None)
  {
    for i := 0 to |names|
      invariant dependencies.elements == old(dependencies.elements) + Admitted(NamesMentions(names[..i]), allClasses, None)
    {
      AddIfInSet(Some(names[i]), allClasses, dependencies);
      NamesMentionsSnoc(names, i);
      AdmittedUnion(NamesMentions(names[..i]), {names[i]}, allClasses, None);
    }
    assert names[..|names|] == names;
  }

  /** What the anonymous visitor collects from a class header. */
  function HeaderDependencies(header: Header, allClasses: set<string>): set<string> {
    Admitted({header.name} + HeaderMentions(header), allClasses, None)
  }

  /** The anonymous `ClassVisitor`: it overrides `visit` only and adds into the captured set. */
  class HeaderDependencyVisitor {
    const allClasses: set<string>
    const classDependencies: ClassSet

    constructor (allClasses: set<string>, classDependencies: ClassSet)
      ensures this.allClasses == allClasses && this.classDependencies == classDependencies
    {
      this.allClasses := allClasses;
      this.classDependencies := classDependencies;
    }

    /** The class header: the class's own name, the superclass and every interface. */
    method Visit(header: Header)
      modifies classDependencies
      ensures classDependencies.elements == old(classDependencies.elements) + HeaderDependencies(header, allClasses)
    {
      AddIfInSet(Some(header.name), allClasses, classDependencies);
      AddIfInSet(header.superName, allClasses, classDependencies);
      AdmittedUnion({header.name}, OptMentions(header.superName), allClasses, None);
      AddEachIfInSet(header.interfaces, allClasses, classDependencies);
      AdmittedUnion({header.name} + OptMentions(header.superName), NamesMentions(header.interfaces), allClasses, None);
    }
  }

  /** A class whose entry is in the jar. */
  predicate Found(jar: map<string, Option<ClassFile>>, className: string) {
    EntryPath(className) in jar
  }

  /** A class whose entry is in the jar but whose bytes ClassReader rejects. */
  predicate Unreadable(jar: map<string, Option<ClassFile>>, className: string) {
    Found(jar, className) && jar[EntryPath(className)].None?
  }

  /**
   * The map a completed run returns: every class of `allClasses` whose
   * entry is found, mapped to its header's dependencies, even when that
   * set is empty.
   */
  function HeaderGraph(jar: map<string, Option<ClassFile>>, allClasses: set<string>): map<string, set<string>> {
    map c | c in allClasses && Found(jar, c) && jar[EntryPath(c)].Some? ::
      HeaderDependencies(jar[EntryPath(c)].value.header, allClasses)
  }

  /**
   * `findClassDependencies`, given the set of class names it computes first
   * and the jar's entries by name. An unreadable entry ends the run; which one
   * is reported first depends on the set's iteration order.
   */
  method FindClassDependencies(jar: map<string, Option<ClassFile>>, allClasses: set<string>)
    returns (dependencies: Result<map<string, set<string>>>)
    ensures dependencies.Ok? <==> forall c :: c in allClasses ==> !Unreadable(jar, c)
    ensures dependencies.Ok? ==> dependencies.value == HeaderGraph(jar, allClasses)
    ensures dependencies.Failure? ==>
              exists c :: c in allClasses && Unreadable(jar, c) && dependencies.entryName == EntryPath(c)
  {
    var found: map<string, set<string>> := map[];
    var remaining := allClasses;
    while remaining != {}
      invariant remaining <= allClasses
      invariant forall c :: c in allClasses && c !in remaining ==> !Unreadable(jar, c)
      invariant forall c :: c in found <==> c in allClasses && c !in remaining && Found(jar, c)
      invariant forall c :: c in found ==>
                  (jar[EntryPath(c)].Some? && found[c] == HeaderDependencies(jar[EntryPath(c)].value.header, allClasses))
      decreases remaining
    {
      var className :| className in remaining;
      var classPath := "BOOT-INF/classes/" + ReplaceChar(className, '.', '/') + ".class";
      if classPath in jar {
        match jar[classPath]
        case None =>
          return Failure(classPath);
        case Some(cf) =>
          var classDependencies := new ClassSet();
          var visitor := new HeaderDependencyVisitor(allClasses, classDependencies);
          visitor.Visit(cf.header);
          found := found[className := classDependencies.elements];
      }
      remaining := remaining - {className};
    }
    return Ok(found);
  }

  /**
   * `findMutualDependencies`: for every key A and every B in its set,
   * reports (A, B) when B is a key whose set contains A.
   */
  method FindMutualDependencies(dependencies: map<string, set<string>>)
    returns (mutualDependencies: set<(string, string)>)
    ensures mutualDependencies == MutualPairs(dependencies)
  {
    mutualDependencies := {};
    var keys := dependencies.Keys;
    while keys != {}
      invariant keys <= dependencies.Keys
      invariant forall a, b :: (a, b) in mutualDependencies <==> Mutual(dependencies, a, b) && a !in keys
      decreases keys
    {
      var classA :| classA in keys;
      var values := dependencies[classA];
      while values != {}
        invariant values <= dependencies[classA]
        invariant forall a, b :: (a, b) in mutualDependencies <==>
                    Mutual(dependencies, a, b) && (a !in keys || (a == classA && b !in values))
        decreases values
      {
        var classB :| classB in values;
        if classB in dependencies && classA in dependencies[classB] {
          mutualDependencies := mutualDependencies + {(classA, classB)};
        }
        values := values - {classB};
      }
      keys := keys - {classA};
    }
    forall p | p in mutualDependencies ensures p in MutualPairs(dependencies) {
      assert Mutual(dependencies, p.0, p.1);
    }
    forall p | p in MutualPairs(dependencies) ensures p in mutualDependencies {
      assert Mutual(dependencies, p.0, p.1);
    }
  }

  /**
   * The keys of a completed run: only classes of `allClasses`, none whose
   * entry is missing, and every one whose entry is found and read, even
   * when its set is empty. Every value is a subset of `allClasses`.
   */
  lemma HeaderGraphShape(jar: map<string, Option<ClassFile>>, allClasses: set<string>, c: string)
    ensures c in HeaderGraph(jar, allClasses) <==> c in allClasses && Found(jar, c) && !Unreadable(jar, c)
    ensures c in HeaderGraph(jar, allClasses) ==> HeaderGraph(jar, allClasses)[c] <= allClasses
  {
  }

  /**
   * A name is in a header's set exactly when it is in `allClasses` and is
   * the dotted form of the class's own name, of its superclass or of one of
   * its interfaces.
   */
  lemma HeaderDependenciesMember(header: Header, allClasses: set<string>, x: string)
    ensures x in HeaderDependencies(header, allClasses) <==>
            x in allClasses &&
            (x == Dotted(header.name) ||
             (header.superName.Some? && x == Dotted(header.superName.value)) ||
             exists i :: 0 <= i < |header.interfaces| && x == Dotted(header.interfaces[i]))
  {
    AdmittedMember({header.name} + HeaderMentions(header), allClasses, None, x);
    if x in allClasses && exists i :: 0 <= i < |header.interfaces| && x == Dotted(header.interfaces[i]) {
      var i :| 0 <= i < |header.interfaces| && x == Dotted(header.interfaces[i]);
      assert header.interfaces[i] in HeaderMentions(header);
    }
  }

  /**
   * There is no self-exclusion: a class of `allClasses` whose entry holds
   * that class is in its own set, so it is reported as mutual with itself.
   */
  lemma SelfDependencyReported(jar: map<string, Option<ClassFile>>, allClasses: set<string>, c: string)
    requires c in allClasses && Found(jar, c) && jar[EntryPath(c)].Some?
    requires Dotted(jar[EntryPath(c)].value.header.name) == c
    ensures c in HeaderGraph(jar, allClasses)[c]
    ensures (c, c) in MutualPairs(HeaderGraph(jar, allClasses))
  {
    HeaderDependenciesMember(jar[EntryPath(c)].value.header, allClasses, c);
  }

  /** Every class under a package prefix has its entry path accepted by the entry filter for that prefix. */
  lemma EntryPathAccepted(className: string, packagePrefix: string)
    requires StartsWith(className, packagePrefix)
    ensures Accepted(EntryPath(className), PackagePath(packagePrefix))
  {
    var path := ReplaceChar(className, '.', '/');
    ReplaceCharStartsWith(className, packagePrefix, '.', '/');
    var p := ReplaceChar(packagePrefix, '.', '/');
    var e := EntryPath(className);
    assert e == BootInfClasses + path + ".class";
    assert e[..|BootInfClasses + p|] == BootInfClasses + p by {
      assert path[..|p|] == p;
      assert e[..|BootInfClasses + p|] == BootInfClasses + path[..|p|];
    }
    assert e[|e| - 6..] == ".class";
  }

  /** The intended rewrite of a class's entry path gives the class back. */
  lemma IntendedClassNameOfEntryPath(className: string)
    requires '/' !in className
    ensures IntendedClassName(EntryPath(className)) == className
  {
    IntendedClassNameOfEntry(ReplaceChar(className, '.', '/'));
    ReplaceCharRoundTrip(className, '.', '/');
  }

  /**
   * The entry behind every name the intended rewrite produces is the one
   * this lookup reads, when the entry's path has no `.` of its own.
   */
  lemma EntryPathOfIntendedClassName(path: string)
    requires '.' !in path
    ensures EntryPath(IntendedClassName(BootInfClasses + path + ".class")) == BootInfClasses + path + ".class"
  {
    IntendedClassNameOfEntry(path);
    ReplaceCharRoundTrip(path, '/', '.');
  }

  /**
   * The as-written chain of `replace` calls gives a class back from its entry
   * path when the class name has no `-` and no `.class` but at its end.
   */
  lemma ClassNameOfEntryPath(className: string)
    requires '/' !in className && '-' !in className
    requires forall i :: 0 <= i < |className| ==> !OccursAt(className + ".class", ".class", i)
    ensures ClassName(EntryPath(className)) == className
  {
    var path := ReplaceChar(className, '.', '/');
    ReplaceCharRoundTrip(className, '.', '/');
    assert '-' !in path;
    ClassNameAgreesWithIntended(path);
    IntendedClassNameOfEntryPath(className);
  }

  /**
   * If `allClasses` held the mangled name `aes.B` that the Spring Boot scan
   * lists for the entry `BOOT-INF/classes/a/classes/B.class`, that name would
   * be looked up under another path and would get no key, although the
   * class's entry is in the jar.
   */
  lemma MangledClassNotFound(cf: ClassFile)
    ensures var jar := map["BOOT-INF/classes/a/classes/B.class" := Some(cf)];
            "aes.B" !in HeaderGraph(jar, {"aes.B"})
  {
    assert |EntryPath("aes.B")| == 28;
  }

  /**
   * The same class `pkg/A` extending `pkg/B` for the header-only visitor:
   * its own name and its superclass, {pkg.A, pkg.B}; the field is not seen.
   */
  lemma HeaderScenario(header: Header, universe: set<string>)
    requires header == Header("pkg/A", Some("pkg/B"), [])
    requires universe == {"pkg.A", "pkg.B", "pkg.C"}
    ensures HeaderDependencies(header, universe) == {"pkg.A", "pkg.B"}
  {
    DottedPkgName("pkg/A", 'A');
    DottedPkgName("pkg/B", 'B');
    assert {header.name} + HeaderMentions(header) == {"pkg/A"} + {"pkg/B"};
    AdmittedUnion({"pkg/A"}, {"pkg/B"}, universe, None);
    AdmittedSingleton("pkg/A", universe, None);
    AdmittedSingleton("pkg/B", universe, None);
  }
}
