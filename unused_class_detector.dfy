/**
 * `UnusedClassDetector.findAllClassesInSpringBootJar`: a private copy of
 * the scan in `AllClassesFromJarDetector`, with the same package path, the
 * same entry filter and the same chain of `replace` calls.
 */
module UnusedClassDetector {
  import opened JavaStrings
  import AllClassesFromJarDetector

  /**
   * The copy's own `while` loop over the entries. It returns exactly the set
   * `AllClassesFromJarDetector.findAllClassesInSpringBootJar` returns.
   */
  method FindAllClassesInSpringBootJar(entries: seq<string>, packagePrefix: string) returns (classes: set<string>)
    ensures classes == AllClassesFromJarDetector.ClassesIn(entries, packagePrefix)
    ensures forall c :: c in classes ==> '/' !in c
  {
    classes := {};
    var packagePath := "BOOT-INF/classes/" + ReplaceChar(packagePrefix, '.', '/');
    for i := 0 to |entries|
      invariant classes == AllClassesFromJarDetector.ClassesIn(entries[..i], packagePrefix)
    {
      var name := entries[i];
      assert entries[..i + 1] == entries[..i] + [name];
      AllClassesFromJarDetector.ClassesInSnoc(entries[..i], name, packagePrefix);
      if EndsWith(name, ".class") && StartsWith(name, packagePath) {
        var className := ReplaceAll(ReplaceAll(ReplaceAll(name, "BOOT-INF/classes/", ""), "/", "."), ".class", "");
        classes := classes + {className};
      }
    }
    assert entries[..|entries|] == entries;
  }
}
