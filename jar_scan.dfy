/**
 * The scan shared by `ClassUsageAnalyzer.findClassUsages` and
 * `BytecodeDependencyChecker.findClassDependencies`: walk the jar's entries in
 * order, feed every `.class` entry to a fresh visitor, and put the visitor's
 * non-empty result into a map under a key derived from the entry name.
 */
module JarScan {
  import opened JavaStrings
  import opened Asm
  import opened References

  /** A jar entry: its name and, for entries ClassReader can parse, the callbacks it delivers. */
  datatype Entry = Entry(name: string, classFile: Option<ClassFile>)

  /** A completed scan, or the name of the entry whose bytes ClassReader rejected. */
  datatype Result<T> = Ok(value: T) | Failure(entryName: string)

  /** Only entries whose name ends in `.class` are read. */
  predicate IsClassEntry(e: Entry) {
    EndsWith(e.name, ".class")
  }

  /** `name.replace(".class", "").replace("/", ".")`: the map key of an entry. */
  function EntryKey(name: string): (k: string)
    ensures '/' !in k
  {
    var stripped := ReplaceAll(name, ".class", "");
    ReplaceAllRemovesChar(stripped, '/', ".");
    ReplaceAll(stripped, "/", ".")
  }

  /** `BOOT-INF/classes/` with its slashes turned into dots. */
  lemma DottedBootInf(dir: string)
    requires dir == "BOOT-INF" + "/" + ("classes" + "/" + "")
    ensures ReplaceChar(dir, '/', '.') == "BOOT-INF" + "." + ("classes" + "." + "")
  {
    ReplaceCharJoin("classes", "", '/', '.');
    ReplaceCharJoin("BOOT-INF", "classes" + "/" + "", '/', '.');
  }

  /** The dotted directory, spelt out. */
  lemma DottedBootInfSpelt(d: string)
    requires d == "BOOT-INF" + "." + ("classes" + "." + "")
    ensures d == "BOOT-INF.classes."
  {
  }

  /** The key of an entry under a directory whose name has no `.`: the directory is dotted in front. */
  lemma EntryKeyOfPrefixed(dir: string, rest: string)
    requires '.' !in dir
    ensures EntryKey(dir + rest) == ReplaceChar(dir, '/', '.') + ReplaceChar(ReplaceAll(rest, ".class", ""), '/', '.')
  {
    NoOccurrenceInPrefix(dir, rest, ".class");
    ReplaceAllCopiesPrefix(dir, rest, ".class", "");
    var tail := ReplaceAll(rest, ".class", "");
    ReplaceAllSingleChar(dir + tail, '/', '.');
    ReplaceCharConcat(dir, tail, '/', '.');
  }

  /**
   * The key of an entry under `BOOT-INF/classes/` keeps that directory as
   * `BOOT-INF.classes.`: the key is the whole entry name rewritten, not the
   * class name.
   */
  lemma EntryKeyKeepsBootInf(dir: string, rest: string)
    requires dir == "BOOT-INF/classes/"
    ensures StartsWith(EntryKey(dir + rest), "BOOT-INF.classes.")
  {
    assert dir == "BOOT-INF" + "/" + ("classes" + "/" + "");
    DottedBootInf(dir);
    DottedBootInfSpelt(ReplaceChar(dir, '/', '.'));
    EntryKeyOfPrefixed(dir, rest);
    var tail := ReplaceChar(ReplaceAll(rest, ".class", ""), '/', '.');
    assert ("BOOT-INF.classes." + tail)[..17] == "BOOT-INF.classes.";
  }

  /**
   * The map the scan returns for `jar`, entry by entry: an unreadable `.class`
   * entry aborts the scan; a readable one whose result is non-empty is put
   * under its key, replacing what an earlier entry with the same key stored.
   */
  function Index(jar: seq<Entry>, refs: ClassFile -> set<string>): Result<map<string, set<string>>>
    decreases |jar|
  {
    if jar == [] then Ok(map[])
    else
      var prev := Index(jar[..|jar| - 1], refs);
      var e := jar[|jar| - 1];
      if prev.Failure? || !IsClassEntry(e) then prev
      else if e.classFile.None? then Failure(e.name)
      else
        var found := refs(e.classFile.value);
        if found == {} then prev else Ok(prev.value[EntryKey(e.name) := found])
  }

  /** The entry is read and gives a non-empty result, so it is stored. */
  predicate Contributes(e: Entry, refs: ClassFile -> set<string>) {
    IsClassEntry(e) && e.classFile.Some? && refs(e.classFile.value) != {}
  }

  /** The scan fails exactly when some `.class` entry is unreadable. */
  lemma {:induction false} IndexFailure(jar: seq<Entry>, refs: ClassFile -> set<string>)
    ensures Index(jar, refs).Failure? <==>
            exists i :: 0 <= i < |jar| && IsClassEntry(jar[i]) && jar[i].classFile.None?
    decreases |jar|
  {
    if jar != [] {
      var init := jar[..|jar| - 1];
      IndexFailure(init, refs);
      assert forall i :: 0 <= i < |init| ==> init[i] == jar[i];
    }
  }

  /** Once a prefix of the jar has failed, the whole scan reports that failure. */
  lemma {:induction false} IndexFailureFinal(jar: seq<Entry>, k: nat, refs: ClassFile -> set<string>)
    requires k <= |jar|
    requires Index(jar[..k], refs).Failure?
    ensures Index(jar, refs) == Index(jar[..k], refs)
    decreases |jar| - k
  {
    if k < |jar| {
      assert jar[..k + 1][..k] == jar[..k];
      IndexFailureFinal(jar, k + 1, refs);
    } else {
      assert jar[..k] == jar;
    }
  }

  /** The keys of a completed scan are exactly the keys of the contributing entries. */
  lemma {:induction false} IndexKeys(jar: seq<Entry>, refs: ClassFile -> set<string>, key: string)
    requires Index(jar, refs).Ok?
    ensures key in Index(jar, refs).value <==>
            exists i :: 0 <= i < |jar| && Contributes(jar[i], refs) && EntryKey(jar[i].name) == key
    decreases |jar|
  {
    if jar != [] {
      var init := jar[..|jar| - 1];
      assert forall i :: 0 <= i < |init| ==> init[i] == jar[i];
      IndexKeys(init, refs, key);
    }
  }

  /** Entry `i` contributes under `key`, and no later entry does. */
  predicate LastContributor(jar: seq<Entry>, refs: ClassFile -> set<string>, key: string, i: int) {
    0 <= i < |jar| && Contributes(jar[i], refs) && EntryKey(jar[i].name) == key &&
    forall j :: i < j < |jar| ==> !(Contributes(jar[j], refs) && EntryKey(jar[j].name) == key)
  }

  /** The last contributor of a prefix stays the last one when the next entry does not contribute under that key. */
  lemma LastContributorExtends(jar: seq<Entry>, refs: ClassFile -> set<string>, key: string, i: int)
    requires jar != [] && LastContributor(jar[..|jar| - 1], refs, key, i)
    requires !(Contributes(jar[|jar| - 1], refs) && EntryKey(jar[|jar| - 1].name) == key)
    ensures LastContributor(jar, refs, key, i)
  {
    var init := jar[..|jar| - 1];
    assert jar[i] == init[i];
    forall j | i < j < |jar| ensures !(Contributes(jar[j], refs) && EntryKey(jar[j].name) == key) {
      if j < |init| {
        assert jar[j] == init[j];
      }
    }
  }

  /**
   * A key of a completed scan holds the result of the LAST contributing entry
   * with that key; that result is non-empty and the key is free of `/`.
   */
  lemma {:induction false} IndexValue(jar: seq<Entry>, refs: ClassFile -> set<string>, key: string)
    requires Index(jar, refs).Ok? && key in Index(jar, refs).value
    ensures '/' !in key
    ensures var v := Index(jar, refs).value[key];
            v != {} && exists i :: LastContributor(jar, refs, key, i) && v == refs(jar[i].classFile.value)
    decreases |jar|
  {
    var init := jar[..|jar| - 1];
    var e := jar[|jar| - 1];
    var m := Index(jar, refs).value;
    if Contributes(e, refs) && EntryKey(e.name) == key {
      assert m[key] == refs(e.classFile.value);
      assert LastContributor(jar, refs, key, |jar| - 1);
    } else {
      assert Index(init, refs).Ok? && key in Index(init, refs).value;
      assert m[key] == Index(init, refs).value[key];
      IndexValue(init, refs, key);
      var i :| LastContributor(init, refs, key, i) && m[key] == refs(init[i].classFile.value);
      LastContributorExtends(jar, refs, key, i);
    }
  }

  /** When every per-class result lies in the universe, so does every stored set. */
  lemma IndexWithinUniverse(jar: seq<Entry>, refs: ClassFile -> set<string>, universe: set<string>, key: string)
    requires forall cf: ClassFile :: refs(cf) <= universe
    requires Index(jar, refs).Ok? && key in Index(jar, refs).value
    ensures Index(jar, refs).value[key] <= universe
  {
    IndexValue(jar, refs, key);
  }

  /**
   * When no per-class result holds the class's own name, and every class
   * entry's key is the dotted name of the class it holds (no packaging
   * prefix), no stored set contains its own key.
   */
  lemma NoSelfDependency(jar: seq<Entry>, refs: ClassFile -> set<string>, key: string)
    requires forall cf: ClassFile :: Dotted(cf.header.name) !in refs(cf)
    requires forall i :: 0 <= i < |jar| && IsClassEntry(jar[i]) && jar[i].classFile.Some? ==>
               EntryKey(jar[i].name) == Dotted(jar[i].classFile.value.header.name)
    requires Index(jar, refs).Ok? && key in Index(jar, refs).value
    ensures key !in Index(jar, refs).value[key]
  {
    IndexValue(jar, refs, key);
  }

  /** The key of an entry named `BOOT-INF/classes/...` starts with `BOOT-INF.classes.`. */
  lemma EntryKeyOfBootInfEntry(name: string)
    requires StartsWith(name, "BOOT-INF/classes/")
    ensures StartsWith(EntryKey(name), "BOOT-INF.classes.")
  {
    var rest := name[17..];
    assert name == name[..17] + rest;
    EntryKeyKeepsBootInf(name[..17], rest);
  }

  /** When every class entry lies under `BOOT-INF/classes/`, so does every key, dotted. */
  lemma KeysKeepBootInf(jar: seq<Entry>, refs: ClassFile -> set<string>, key: string)
    requires forall i :: 0 <= i < |jar| && IsClassEntry(jar[i]) ==> StartsWith(jar[i].name, "BOOT-INF/classes/")
    requires Index(jar, refs).Ok? && key in Index(jar, refs).value
    ensures StartsWith(key, "BOOT-INF.classes.")
  {
    IndexKeys(jar, refs, key);
    var i :| 0 <= i < |jar| && Contributes(jar[i], refs) && EntryKey(jar[i].name) == key;
    EntryKeyOfBootInfEntry(jar[i].name);
  }
}
