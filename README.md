# Unused-class detector: a Dafny model

The repository analyses a Spring Boot jar without running it. ASM's `ClassReader` parses each
compiled class and calls back a visitor: first the class header, then every field declaration,
then every method declaration with its instructions. The repository's visitors collect the
internal names these callbacks mention. Each name is turned into its dotted form, is kept only
when it lies in a given set of classes, and, in two of the three visitors, is dropped when it is
the visited class itself. On top of the visitors sit three jar drivers and two helpers:

- `ClassUsageAnalyzer.findClassUsages` maps each class entry to the target classes it uses.
- `BytecodeDependencyChecker.findClassDependencies` does the same with a visitor that does not
  look at field declarations.
- `ClassDependencyAnalyzer.findClassDependencies` looks up one entry per class and records only
  what the class header names: the class itself, its superclass and its interfaces.
- `findCircularDependencies` and `findMutualDependencies` report every pair of map keys that
  name each other.
- `findAllClassesInSpringBootJar` appears twice, once in `AllClassesFromJarDetector` and once in
  `UnusedClassDetector`. It lists the classes under a package prefix by rewriting entry names
  with a chain of `String.replace` calls.

The visitors are Dafny classes whose fields are the Java fields. Each callback is a method that
changes only those fields. Its contract says the collected set is the old set plus the admitted
names the callback mentions, so nothing is ever removed. A `Valid()` invariant says the set
stays inside the universe and never holds the current class. Each of these callback methods
follows its Java method line for line.

The jar drivers are loops proved equal to specification functions:

- `JarScan.Index`, which folds over the entries.
- `ClassDependencyAnalyzer.HeaderGraph`.
- `Graph.MutualPairs`.
- `AllClassesFromJarDetector.ClassesIn`.

The properties of the system are lemmas about those functions.

Module layout, leaf first:

- `JavaStrings` models `String.replace(char, char)`, `String.replace(CharSequence, CharSequence)`,
  `startsWith` and `endsWith`.
- `Asm` is the callback stream `ClassReader` delivers, with `Type` as `Prim | Obj | Arr`.
- `References` holds what each callback mentions, the `Admitted` filter, and the per-class
  results `UsedClasses` and `Dependencies`.
- `JarScan` is the entry loop shared by the two sequential drivers.
- `Graph` is the two-cycle report.
- One module per source class: `ClassUsageAnalyzer`, `BytecodeDependencyChecker`,
  `ClassDependencyAnalyzer`, `AllClassesFromJarDetector` and `UnusedClassDetector`.

Behaviours of the code worth noting:

- A class file that `ClassReader` rejects throws out of the scan, so the whole scan ends. The
  model returns `Failure(entryName)`.
- Both orientations of a mutual pair are reported (`Graph.TwoCycleReportedTwice`).
- The owner of a reflective call is kept like any other owner. The reflection checks only print.
- `BytecodeDependencyChecker` has no field callback, so field types are not dependencies
  (`References.DependencyScenario`).
- `ClassDependencyAnalyzer` puts a class in its own set (`ClassDependencyAnalyzer.HeaderScenario`).
- The keys of `findClassUsages` and `BytecodeDependencyChecker.findClassDependencies` are
  whole entry names rewritten. An entry under `BOOT-INF/classes/` therefore gets a key that starts
  with `BOOT-INF.classes.` (`JarScan.EntryKeyKeepsBootInf`). The stored sets hold plain class
  names. Suppose no class name has that prefix. Suppose also that every other class entry,
  such as a launcher class at the root of a repackaged jar, has a key that is not a class
  name. Then `findCircularDependencies` (called at
  src/main/java/com/gambasoftware/poc/Main.java:22) reports nothing
  (`BytecodeDependencyChecker.SpringBootJarHasNoCircularPairs`).

## Model

| member | source | states |
|---|---|---|
| JavaStrings.ReplaceChar | src/main/java/com/gambasoftware/poc/AllClassesFromJarDetector.java:12 | `replace(char, char)` keeps the length and changes exactly the positions holding the old character |
| JavaStrings.ReplaceAllSingleChar | src/main/java/com/gambasoftware/poc/AllClassesFromJarDetector.java:24 | `replace("/", ".")` on strings equals `replace('/', '.')` on chars |
| JavaStrings.ReplaceAllRemovesChar | src/main/java/com/gambasoftware/poc/AllClassesFromJarDetector.java:24 | replacing every `/` by `.` leaves no `/` |
| JavaStrings.ReplaceAllChars | src/main/java/com/gambasoftware/poc/AllClassesFromJarDetector.java:22-25 | every character of a replaced string comes from the input or from the replacement |
| JavaStrings.ReplaceAllAbsentChar | src/main/java/com/gambasoftware/poc/AllClassesFromJarDetector.java:22-25 | a character in neither the input nor the replacement stays absent |
| JavaStrings.ReplaceAllNoOccurrence | src/main/java/com/gambasoftware/poc/AllClassesFromJarDetector.java:23 | a target that never occurs leaves the string unchanged |
| JavaStrings.AbsentCharNoOccurrence | src/main/java/com/gambasoftware/poc/AllClassesFromJarDetector.java:23 | a target containing a character the string lacks never occurs in it |
| JavaStrings.ReplaceAllLeading | src/main/java/com/gambasoftware/poc/AllClassesFromJarDetector.java:23 | a leading occurrence is replaced and the scan resumes right after it |
| JavaStrings.ReplaceAllCopiesPrefix | src/main/java/com/gambasoftware/poc/AllClassesFromJarDetector.java:25 | a stretch in which no occurrence starts is copied unchanged |
| JavaStrings.ReplaceCharConcat | src/main/java/com/gambasoftware/poc/AllClassesFromJarDetector.java:12 | `replace(char, char)` distributes over concatenation |
| JavaStrings.ReplaceCharAbsent | src/main/java/com/gambasoftware/poc/AllClassesFromJarDetector.java:12 | replacing a character the string lacks changes nothing |
| JavaStrings.ReplaceCharRoundTrip | src/main/java/com/gambasoftware/poc/AllClassesFromJarDetector.java:12 | turning `.` into `/` and back restores any name without `/` |
| JavaStrings.ReplaceCharStartsWith | src/main/java/com/gambasoftware/poc/AllClassesFromJarDetector.java:21 | `replace(char, char)` keeps a prefix, rewritten the same way |
| Asm.BaseTypeOfArray | src/main/java/com/gambasoftware/alternatives/ClassUsageAnalyzer.java:133-136 | wrapping a type in array dimensions does not change its base type |
| References.NamesMentionsSnoc | src/main/java/com/gambasoftware/alternatives/ClassUsageAnalyzer.java:71-75 | one more loop step over a name array adds exactly that name |
| References.AdmittedUnion | src/main/java/com/gambasoftware/alternatives/ClassUsageAnalyzer.java:116-122 | filtering a union of mentions is the union of the filtered parts |
| References.AdmittedSingleton | src/main/java/com/gambasoftware/alternatives/ClassUsageAnalyzer.java:116-122 | one name is kept iff its dotted form is in the universe and is not the current class |
| References.DottedPkgName | src/main/java/com/gambasoftware/alternatives/ClassUsageAnalyzer.java:118 | `pkg/X` becomes `pkg.X` |
| References.Dotted | src/main/java/com/gambasoftware/alternatives/ClassUsageAnalyzer.java:118 | `replace('/', '.')` keeps the length and leaves no `/` in the name |
| References.TypeMentions | src/main/java/com/gambasoftware/alternatives/ClassUsageAnalyzer.java:129-137 | `checkType` reaches exactly the internal name of the base type when that base is an object type, and nothing for primitives or void |
| References.TypesMentions | src/main/java/com/gambasoftware/alternatives/ClassUsageAnalyzer.java:148-150 | a name is reached from a list of types exactly when it is reached from one of them |
| References.InsnsMentionsMembers | src/main/java/com/gambasoftware/alternatives/ClassUsageAnalyzer.java:177-231 | a name is reached from a method body exactly when one of its instructions reaches it |
| References.Admitted | src/main/java/com/gambasoftware/alternatives/ClassUsageAnalyzer.java:116-122 | the kept names lie in the universe and never include the current class |
| References.AdmittedMember | src/main/java/com/gambasoftware/alternatives/ClassUsageAnalyzer.java:116-122 | a name is kept iff it is in the universe, differs from the current class and is the dotted form of a mentioned name |
| References.AdmittedMonotonic | src/main/java/com/gambasoftware/alternatives/ClassUsageAnalyzer.java:119-120 | mentioning more names never keeps fewer |
| References.AdmittedRestrict | src/main/java/com/gambasoftware/alternatives/ClassUsageAnalyzer.java:119 | a smaller universe keeps exactly the larger universe's result intersected with it |
| References.UsedClasses | src/main/java/com/gambasoftware/alternatives/ClassUsageAnalyzer.java:45-48 | a class's used set lies in the target classes and never holds the class's own dotted name |
| References.Dependencies | src/main/java/com/gambasoftware/alternatives/BytecodeDependencyChecker.java:49-52 | a class's dependency set lies in `allClasses` and never holds the class's own dotted name |
| References.ArrayTransparent | src/main/java/com/gambasoftware/alternatives/ClassUsageAnalyzer.java:133-136 | an array type of any depth reaches exactly what its element type reaches |
| References.UsedClassesCharacterization | src/main/java/com/gambasoftware/alternatives/ClassUsageAnalyzer.java:116-122 | a name is used iff it is a target, is not the class itself and is the dotted form of something the class mentions |
| References.DependenciesWithinUsedClasses | src/main/java/com/gambasoftware/alternatives/BytecodeDependencyChecker.java:59-91 | the dependency set is contained in the usage set over the same universe, and equal when the class has no fields |
| References.DependenciesIgnoreFields | src/main/java/com/gambasoftware/alternatives/BytecodeDependencyChecker.java:59-91 | changing the field declarations never changes the dependency set |
| References.TypesMentionsSnoc | src/main/java/com/gambasoftware/alternatives/ClassUsageAnalyzer.java:148-150 | one more step of a loop over types adds exactly what that type reaches |
| References.InsnsMentionsSnoc | src/main/java/com/gambasoftware/alternatives/ClassUsageAnalyzer.java:177-231 | one more instruction of a method body adds exactly what that instruction reaches |
| References.MethodsMentionsSnoc | src/main/java/com/gambasoftware/alternatives/ClassUsageAnalyzer.java:97-109 | one more method adds exactly what it reaches |
| References.UsageScenario | src/main/java/com/gambasoftware/alternatives/ClassUsageAnalyzer.java:63-88 | `pkg/A` extending `pkg/B` with a `pkg/C` field uses {pkg.B, pkg.C} |
| References.DependencyScenario | src/main/java/com/gambasoftware/alternatives/BytecodeDependencyChecker.java:60-91 | the same class depends only on {pkg.B}, since fields are not visited |
| Asm.BaseType | src/main/java/com/gambasoftware/alternatives/ClassUsageAnalyzer.java:133-136 | unwrapping arrays ends at a non-array type |
| JarScan.Index | src/main/java/com/gambasoftware/alternatives/ClassUsageAnalyzer.java:23-38 | the map a scan returns: an unreadable `.class` entry aborts it, and a read one with a non-empty set is put under its key, replacing an earlier one (characterised by the `Index` lemmas below; the same loop is at src/main/java/com/gambasoftware/alternatives/BytecodeDependencyChecker.java:24-44) |
| JarScan.EntryKey | src/main/java/com/gambasoftware/alternatives/ClassUsageAnalyzer.java:34-36 | the key built from an entry name has no `/` |
| JarScan.EntryKeyOfPrefixed | src/main/java/com/gambasoftware/alternatives/ClassUsageAnalyzer.java:34-36 | the key of an entry under a directory without `.` starts with that directory, dotted |
| JarScan.EntryKeyKeepsBootInf | src/main/java/com/gambasoftware/alternatives/BytecodeDependencyChecker.java:36-38 | the key of `BOOT-INF/classes/<rest>` starts with `BOOT-INF.classes.` for every rest |
| JarScan.EntryKeyOfBootInfEntry | src/main/java/com/gambasoftware/alternatives/BytecodeDependencyChecker.java:36-38 | every entry name starting with `BOOT-INF/classes/` has a key starting with `BOOT-INF.classes.` |
| JarScan.KeysKeepBootInf | src/main/java/com/gambasoftware/alternatives/BytecodeDependencyChecker.java:36-42 | when every class entry lies under `BOOT-INF/classes/`, every key of the result starts with `BOOT-INF.classes.` |
| JarScan.LastContributorExtends | src/main/java/com/gambasoftware/alternatives/ClassUsageAnalyzer.java:37 | a later entry that does not contribute under a key leaves that key's last contributor in place |
| JarScan.IndexFailure | src/main/java/com/gambasoftware/alternatives/ClassUsageAnalyzer.java:28-31 | the scan fails exactly when some `.class` entry is unreadable |
| JarScan.IndexFailureFinal | src/main/java/com/gambasoftware/alternatives/BytecodeDependencyChecker.java:31-34 | once an entry has failed, the result of the whole scan is that failure |
| JarScan.IndexKeys | src/main/java/com/gambasoftware/alternatives/ClassUsageAnalyzer.java:23-38 | the keys are exactly the keys of `.class` entries that are read and give a non-empty set |
| JarScan.IndexValue | src/main/java/com/gambasoftware/alternatives/ClassUsageAnalyzer.java:33-37 | a stored set is non-empty, has a key without `/`, and is the set of the last contributing entry with that key |
| JarScan.IndexWithinUniverse | src/main/java/com/gambasoftware/alternatives/ClassUsageAnalyzer.java:33-37 | when every per-class set lies in the universe, so does every stored set |
| JarScan.NoSelfDependency | src/main/java/com/gambasoftware/alternatives/BytecodeDependencyChecker.java:36-42 | when keys are the classes' own dotted names, no stored set contains its own key |
| Graph.MutualPairs | src/main/java/com/gambasoftware/alternatives/BytecodeDependencyChecker.java:155-162 | (A, B) is reported iff B is in deps[A], B is a key and A is in deps[B] |
| Graph.MutualPairsSymmetric | src/main/java/com/gambasoftware/alternatives/BytecodeDependencyChecker.java:152-166 | (A, B) is reported iff (B, A) is |
| Graph.MutualPairsWithinKeys | src/main/java/com/gambasoftware/alternatives/BytecodeDependencyChecker.java:158 | both classes of a reported pair are keys |
| Graph.OneWayEdgeNotReported | src/main/java/com/gambasoftware/alternatives/BytecodeDependencyChecker.java:158-159 | an edge without its reverse is reported in neither orientation |
| Graph.SelfPairReported | src/main/java/com/gambasoftware/alternatives/ClassDependencyAnalyzer.java:65-67 | a key whose set contains itself is reported as (A, A) |
| Graph.NoSelfPairs | src/main/java/com/gambasoftware/alternatives/BytecodeDependencyChecker.java:155-162 | a map with no self-edges yields no (A, A) |
| Graph.NoValueIsKeyNoPairs | src/main/java/com/gambasoftware/alternatives/BytecodeDependencyChecker.java:155-162 | when no class in any set is itself a key, nothing is reported |
| Graph.ThreeCycleNotReported | src/main/java/com/gambasoftware/alternatives/BytecodeDependencyChecker.java:152-166 | the cycle A → B → C → A yields nothing |
| Graph.TwoCycleReportedTwice | src/main/java/com/gambasoftware/alternatives/ClassDependencyAnalyzer.java:62-70 | two classes naming each other give exactly (a, b) and (b, a); a third class they name adds nothing |
| ClassUsageAnalyzer.UsageVisitor.constructor | src/main/java/com/gambasoftware/alternatives/ClassUsageAnalyzer.java:46-54 | a new visitor has an empty set, a null current class and the given targets |
| ClassUsageAnalyzer.UsageVisitor.Visit | src/main/java/com/gambasoftware/alternatives/ClassUsageAnalyzer.java:63-76 | sets the current class first, then holds exactly the admitted superclass and interfaces |
| ClassUsageAnalyzer.UsageVisitor.VisitField | src/main/java/com/gambasoftware/alternatives/ClassUsageAnalyzer.java:83-88 | adds exactly what the field's type reaches |
| ClassUsageAnalyzer.UsageVisitor.VisitMethod | src/main/java/com/gambasoftware/alternatives/ClassUsageAnalyzer.java:97-109 | adds the return type, argument types and exceptions, and returns a fresh visitor bound to this one |
| ClassUsageAnalyzer.UsageVisitor.CheckClass | src/main/java/com/gambasoftware/alternatives/ClassUsageAnalyzer.java:116-122 | ignores null; otherwise adds the dotted name iff it is a target other than the current class |
| ClassUsageAnalyzer.UsageVisitor.CheckClasses | src/main/java/com/gambasoftware/alternatives/ClassUsageAnalyzer.java:71-75 | the loop over interfaces (or exceptions) adds exactly the admitted names of the array |
| ClassUsageAnalyzer.UsageVisitor.CheckType | src/main/java/com/gambasoftware/alternatives/ClassUsageAnalyzer.java:129-137 | adds exactly the admitted names the type reaches, recursing into arrays |
| ClassUsageAnalyzer.UsageVisitor.CheckMethodType | src/main/java/com/gambasoftware/alternatives/ClassUsageAnalyzer.java:144-151 | adds the return type and every argument type |
| ClassUsageAnalyzer.UsageVisitor.CheckArgumentTypes | src/main/java/com/gambasoftware/alternatives/ClassUsageAnalyzer.java:148-150 | the loop over argument types adds exactly what they reach |
| ClassUsageAnalyzer.MethodUsageVisitor.constructor | src/main/java/com/gambasoftware/alternatives/ClassUsageAnalyzer.java:165-169 | the inner visitor is bound to its enclosing visitor |
| ClassUsageAnalyzer.MethodUsageVisitor.VisitFieldInsn | src/main/java/com/gambasoftware/alternatives/ClassUsageAnalyzer.java:177-182 | adds the owner and the field type |
| ClassUsageAnalyzer.MethodUsageVisitor.VisitMethodInsn | src/main/java/com/gambasoftware/alternatives/ClassUsageAnalyzer.java:191-206 | adds the owner, the return type and the argument types; the reflection checks add nothing |
| ClassUsageAnalyzer.MethodUsageVisitor.VisitTypeInsn | src/main/java/com/gambasoftware/alternatives/ClassUsageAnalyzer.java:213-216 | adds the operand |
| ClassUsageAnalyzer.MethodUsageVisitor.VisitLdcInsn | src/main/java/com/gambasoftware/alternatives/ClassUsageAnalyzer.java:224-231 | adds what a `Type` constant reaches, and nothing for other constants |
| ClassUsageAnalyzer.DispatchInsn | src/main/java/com/gambasoftware/alternatives/ClassUsageAnalyzer.java:165-232 | one instruction adds exactly what it mentions |
| ClassUsageAnalyzer.AcceptBody | src/main/java/com/gambasoftware/alternatives/ClassUsageAnalyzer.java:108 | a method body adds exactly what its instructions mention |
| ClassUsageAnalyzer.AcceptMethod | src/main/java/com/gambasoftware/alternatives/ClassUsageAnalyzer.java:97-109 | a method adds its signature, its exceptions and its body |
| ClassUsageAnalyzer.AcceptFields | src/main/java/com/gambasoftware/alternatives/ClassUsageAnalyzer.java:83-88 | the field declarations add exactly their types' names |
| ClassUsageAnalyzer.AcceptMethods | src/main/java/com/gambasoftware/alternatives/ClassUsageAnalyzer.java:97-109 | the methods add exactly what they mention |
| ClassUsageAnalyzer.Accept | src/main/java/com/gambasoftware/alternatives/ClassUsageAnalyzer.java:29-31 | after a whole class, the visitor holds exactly `UsedClasses` of that class |
| ClassUsageAnalyzer.FindClassUsages | src/main/java/com/gambasoftware/alternatives/ClassUsageAnalyzer.java:17-43 | the loop returns exactly the entry fold `Index` with per-class result `UsedClasses` |
| ClassUsageAnalyzer.UsagesAreTargets | src/main/java/com/gambasoftware/alternatives/ClassUsageAnalyzer.java:33-37 | every stored set is a non-empty set of targets and is `UsedClasses` of an entry with that key |
| BytecodeDependencyChecker.ClassDependencyVisitor.constructor | src/main/java/com/gambasoftware/alternatives/BytecodeDependencyChecker.java:50-57 | a new visitor has an empty set, a null current class and the given universe |
| BytecodeDependencyChecker.ClassDependencyVisitor.Visit | src/main/java/com/gambasoftware/alternatives/BytecodeDependencyChecker.java:60-69 | sets the current class first, then holds exactly the admitted superclass and interfaces |
| BytecodeDependencyChecker.ClassDependencyVisitor.VisitMethod | src/main/java/com/gambasoftware/alternatives/BytecodeDependencyChecker.java:72-91 | adds the return type, argument types and exceptions, and returns a fresh inner visitor |
| BytecodeDependencyChecker.ClassDependencyVisitor.AddIfInTarget | src/main/java/com/gambasoftware/alternatives/BytecodeDependencyChecker.java:93-99 | ignores null; otherwise adds the dotted name iff it is in `allClasses` and is not the current class |
| BytecodeDependencyChecker.ClassDependencyVisitor.AddEachIfInTarget | src/main/java/com/gambasoftware/alternatives/BytecodeDependencyChecker.java:66-68 | the loop over interfaces (or exceptions) adds exactly the admitted names of the array |
| BytecodeDependencyChecker.ClassDependencyVisitor.CheckType | src/main/java/com/gambasoftware/alternatives/BytecodeDependencyChecker.java:101-107 | adds exactly the admitted names the type reaches, recursing into arrays |
| BytecodeDependencyChecker.ClassDependencyVisitor.CheckTypes | src/main/java/com/gambasoftware/alternatives/BytecodeDependencyChecker.java:80-83 | the loop over argument types adds exactly what they reach |
| BytecodeDependencyChecker.MethodDependencyVisitor.constructor | src/main/java/com/gambasoftware/alternatives/BytecodeDependencyChecker.java:113-116 | the inner visitor is bound to its enclosing visitor |
| BytecodeDependencyChecker.MethodDependencyVisitor.VisitMethodInsn | src/main/java/com/gambasoftware/alternatives/BytecodeDependencyChecker.java:119-129 | adds the owner, the return type and the argument types |
| BytecodeDependencyChecker.MethodDependencyVisitor.VisitFieldInsn | src/main/java/com/gambasoftware/alternatives/BytecodeDependencyChecker.java:132-137 | adds the owner and the field type |
| BytecodeDependencyChecker.MethodDependencyVisitor.VisitTypeInsn | src/main/java/com/gambasoftware/alternatives/BytecodeDependencyChecker.java:140-142 | adds the operand |
| BytecodeDependencyChecker.MethodDependencyVisitor.VisitLdcInsn | src/main/java/com/gambasoftware/alternatives/BytecodeDependencyChecker.java:145-149 | adds what a `Type` constant reaches, and nothing for other constants |
| BytecodeDependencyChecker.DispatchInsn | src/main/java/com/gambasoftware/alternatives/BytecodeDependencyChecker.java:113-150 | one instruction adds exactly what it mentions |
| BytecodeDependencyChecker.AcceptBody | src/main/java/com/gambasoftware/alternatives/BytecodeDependencyChecker.java:90 | a method body adds exactly what its instructions mention |
| BytecodeDependencyChecker.AcceptMethod | src/main/java/com/gambasoftware/alternatives/BytecodeDependencyChecker.java:72-91 | a method adds its signature, its exceptions and its body |
| BytecodeDependencyChecker.AcceptMethods | src/main/java/com/gambasoftware/alternatives/BytecodeDependencyChecker.java:72-91 | the methods add exactly what they mention |
| BytecodeDependencyChecker.Accept | src/main/java/com/gambasoftware/alternatives/BytecodeDependencyChecker.java:32-34 | after a whole class, the visitor holds exactly `Dependencies` of that class; fields add nothing |
| BytecodeDependencyChecker.FindClassDependencies | src/main/java/com/gambasoftware/alternatives/BytecodeDependencyChecker.java:16-47 | the loop returns exactly the entry fold `Index` with per-class result `Dependencies` |
| BytecodeDependencyChecker.FindCircularDependencies | src/main/java/com/gambasoftware/alternatives/BytecodeDependencyChecker.java:152-166 | the nested loop returns exactly `MutualPairs` of the map |
| BytecodeDependencyChecker.SpringBootJarHasNoCircularPairs | src/main/java/com/gambasoftware/poc/Main.java:19-22 | if every class entry lies under `BOOT-INF/classes/` or has a key outside `allClasses`, and no class name starts with `BOOT-INF.classes.`, the dependency map has no mutual pair |
| BytecodeDependencyChecker.DependenciesAreClasses | src/main/java/com/gambasoftware/alternatives/BytecodeDependencyChecker.java:36-42 | every stored set is a non-empty subset of `allClasses`, is `Dependencies` of an entry with that key and omits that entry's class |
| ClassDependencyAnalyzer.ClassSet.constructor | src/main/java/com/gambasoftware/alternatives/ClassDependencyAnalyzer.java:25 | the per-class set starts empty |
| ClassDependencyAnalyzer.AddIfInSet | src/main/java/com/gambasoftware/alternatives/ClassDependencyAnalyzer.java:51-57 | ignores null; otherwise adds the dotted name iff it is in `allClasses`, with no self-exclusion |
| ClassDependencyAnalyzer.AddEachIfInSet | src/main/java/com/gambasoftware/alternatives/ClassDependencyAnalyzer.java:33-37 | the loop over interfaces adds exactly the admitted interface names |
| ClassDependencyAnalyzer.HeaderDependencyVisitor.constructor | src/main/java/com/gambasoftware/alternatives/ClassDependencyAnalyzer.java:27 | the anonymous visitor captures `allClasses` and the per-class set |
| ClassDependencyAnalyzer.HeaderDependencyVisitor.Visit | src/main/java/com/gambasoftware/alternatives/ClassDependencyAnalyzer.java:29-38 | adds the class's own name, its superclass and its interfaces, admitted against `allClasses` |
| ClassDependencyAnalyzer.FindClassDependencies | src/main/java/com/gambasoftware/alternatives/ClassDependencyAnalyzer.java:13-49 | fails iff some class's entry is present but unreadable, reporting such an entry; otherwise returns exactly `HeaderGraph` |
| ClassDependencyAnalyzer.FindMutualDependencies | src/main/java/com/gambasoftware/alternatives/ClassDependencyAnalyzer.java:59-73 | the nested loop returns exactly `MutualPairs` of the map |
| ClassDependencyAnalyzer.EntryPath | src/main/java/com/gambasoftware/alternatives/ClassDependencyAnalyzer.java:19 | the path looked up for a class (its properties are the round-trip lemmas below) |
| ClassDependencyAnalyzer.HeaderDependencies | src/main/java/com/gambasoftware/alternatives/ClassDependencyAnalyzer.java:29-38 | the set for one header: the class, its superclass and its interfaces, kept when in `allClasses` (characterised by `HeaderDependenciesMember`) |
| ClassDependencyAnalyzer.HeaderGraph | src/main/java/com/gambasoftware/alternatives/ClassDependencyAnalyzer.java:18-45 | the map for a jar: one key per class of `allClasses` whose entry is found and read (characterised by `HeaderGraphShape`) |
| ClassDependencyAnalyzer.HeaderGraphShape | src/main/java/com/gambasoftware/alternatives/ClassDependencyAnalyzer.java:18-45 | keys are exactly the classes of `allClasses` whose entry is found and read, even with an empty set; values lie in `allClasses` |
| ClassDependencyAnalyzer.HeaderDependenciesMember | src/main/java/com/gambasoftware/alternatives/ClassDependencyAnalyzer.java:29-38 | a name is in a header's set iff it is in `allClasses` and is the class, its superclass or one of its interfaces |
| ClassDependencyAnalyzer.SelfDependencyReported | src/main/java/com/gambasoftware/alternatives/ClassDependencyAnalyzer.java:31 | a found class of `allClasses` is in its own set, so (c, c) is reported as mutual |
| ClassDependencyAnalyzer.EntryPathAccepted | src/main/java/com/gambasoftware/alternatives/ClassDependencyAnalyzer.java:19 | the entry path of a class under a prefix passes the entry filter for that prefix |
| ClassDependencyAnalyzer.IntendedClassNameOfEntryPath | src/main/java/com/gambasoftware/alternatives/ClassDependencyAnalyzer.java:19 | the intended rewrite of a class's entry path gives the class back |
| ClassDependencyAnalyzer.EntryPathOfIntendedClassName | src/main/java/com/gambasoftware/alternatives/ClassDependencyAnalyzer.java:19 | the path looked up for an intended class name is the entry it came from, when the path has no `.` |
| ClassDependencyAnalyzer.ClassNameOfEntryPath | src/main/java/com/gambasoftware/alternatives/ClassDependencyAnalyzer.java:19 | the as-written rewrite gives the class back when its name has no `-` and no inner `.class` |
| ClassDependencyAnalyzer.MangledClassNotFound | src/main/java/com/gambasoftware/alternatives/ClassDependencyAnalyzer.java:19-22 | if `allClasses` held the mangled name `aes.B`, its lookup would use another path and it would get no key |
| ClassDependencyAnalyzer.HeaderScenario | src/main/java/com/gambasoftware/alternatives/ClassDependencyAnalyzer.java:29-38 | `pkg/A` extending `pkg/B` gives {pkg.A, pkg.B} |
| JavaStrings.StartsWith | src/main/java/com/gambasoftware/poc/AllClassesFromJarDetector.java:21 | `startsWith`: the string begins with the prefix |
| JavaStrings.EndsWith | src/main/java/com/gambasoftware/poc/AllClassesFromJarDetector.java:21 | `endsWith`: the string ends with the suffix |
| JavaStrings.ReplaceAll | src/main/java/com/gambasoftware/poc/AllClassesFromJarDetector.java:22-25 | `replace(CharSequence, CharSequence)`: replaces every non-overlapping occurrence, scanning left to right (characterised by the `ReplaceAll` lemmas above) |
| JavaStrings.ReplaceCharJoin | src/main/java/com/gambasoftware/poc/AllClassesFromJarDetector.java:24 | on `x/y` with no `/` in `x`, the first slash becomes a dot and the rest is replaced the same way |
| JavaStrings.NoOccurrenceInPrefix | src/main/java/com/gambasoftware/poc/AllClassesFromJarDetector.java:25 | no occurrence starts inside a prefix that lacks the target's first character |
| AllClassesFromJarDetector.PackagePath | src/main/java/com/gambasoftware/poc/AllClassesFromJarDetector.java:12 | `BOOT-INF/classes/` followed by the prefix with dots turned into slashes |
| AllClassesFromJarDetector.Accepted | src/main/java/com/gambasoftware/poc/AllClassesFromJarDetector.java:21 | the entry filter: a `.class` suffix and the raw package path as prefix (see `RawPrefixAdmitsSibling`) |
| AllClassesFromJarDetector.ClassesIn | src/main/java/com/gambasoftware/poc/AllClassesFromJarDetector.java:17-28 | the set the scan returns: the rewritten names of the accepted entries (characterised by `ClassesInSnoc`, `ClassesInOrderIndependent` and `RejectedEntryIgnored`) |
| AllClassesFromJarDetector.ClassName | src/main/java/com/gambasoftware/poc/AllClassesFromJarDetector.java:22-25 | the rewritten name has no `/` |
| AllClassesFromJarDetector.ClassesInSnoc | src/main/java/com/gambasoftware/poc/AllClassesFromJarDetector.java:21-26 | one more entry adds its class name iff it is accepted |
| AllClassesFromJarDetector.FindAllClassesInSpringBootJar | src/main/java/com/gambasoftware/poc/AllClassesFromJarDetector.java:10-31 | returns exactly the rewritten names of the accepted entries, none with `/` |
| AllClassesFromJarDetector.ClassesInOrderIndependent | src/main/java/com/gambasoftware/poc/AllClassesFromJarDetector.java:17-28 | entry order and repetition do not change the set |
| AllClassesFromJarDetector.RejectedEntryIgnored | src/main/java/com/gambasoftware/poc/AllClassesFromJarDetector.java:21 | a rejected entry contributes nothing wherever it stands |
| AllClassesFromJarDetector.RawPrefixAdmitsSibling | src/main/java/com/gambasoftware/poc/AllClassesFromJarDetector.java:12-21 | prefix `com.a` also admits `com/ab/X.class`: the test is on raw strings |
| AllClassesFromJarDetector.ClassNameExample | src/main/java/com/gambasoftware/poc/AllClassesFromJarDetector.java:22-25 | `BOOT-INF/classes/com/a/B.class` becomes `com.a.B` |
| AllClassesFromJarDetector.DropBootInfClasses | src/main/java/com/gambasoftware/poc/AllClassesFromJarDetector.java:23 | the first replace drops the leading `BOOT-INF/classes/` of a rest without `-` |
| AllClassesFromJarDetector.DotPath | src/main/java/com/gambasoftware/poc/AllClassesFromJarDetector.java:24 | the second replace changes only the path's slashes |
| AllClassesFromJarDetector.DropClassSuffix | src/main/java/com/gambasoftware/poc/AllClassesFromJarDetector.java:25 | the third replace drops a trailing `.class` that occurs nowhere else |
| AllClassesFromJarDetector.ClassNameOfEntry | src/main/java/com/gambasoftware/poc/AllClassesFromJarDetector.java:22-25 | the as-written chain on `BOOT-INF/classes/<path>.class` is the dotted path when the path has no `-` and its dotted form no inner `.class` |
| AllClassesFromJarDetector.NoDotCJoin | src/main/java/com/gambasoftware/poc/AllClassesFromJarDetector.java:25 | joining two segments by a dot creates no `.c` when the second does not start with `c` |
| AllClassesFromJarDetector.ClassOnlyAtEnd | src/main/java/com/gambasoftware/poc/AllClassesFromJarDetector.java:25 | a dotted path without `.c` has `.class` only at its end |
| AllClassesFromJarDetector.ClassNameAgreesWithIntended | src/main/java/com/gambasoftware/poc/AllClassesFromJarDetector.java:22-25 | the as-written chain equals the intended rewrite when the path has no `-` and no inner `.class` |
| AllClassesFromJarDetector.StripPrefix | src/main/java/com/gambasoftware/poc/AllClassesFromJarDetector.java:23 | a string that starts with the prefix is the prefix followed by the result |
| AllClassesFromJarDetector.StripSuffix | src/main/java/com/gambasoftware/poc/AllClassesFromJarDetector.java:25 | a string that ends with the suffix is the result followed by the suffix |
| AllClassesFromJarDetector.IntendedClassName | src/main/java/com/gambasoftware/poc/AllClassesFromJarDetector.java:22-25 | the corrected rewrite has no `/` |
| AllClassesFromJarDetector.IntendedClassNameOfEntry | src/main/java/com/gambasoftware/poc/AllClassesFromJarDetector.java:22-25 | the corrected rewrite of `BOOT-INF/classes/<path>.class` is the dotted path, for every path |
| AllClassesFromJarDetector.MangledAccepted | src/main/java/com/gambasoftware/poc/AllClassesFromJarDetector.java:21 | `BOOT-INF/classes/a/classes/B.class` passes the filter for prefix `a` |
| AllClassesFromJarDetector.DotMangledPath | src/main/java/com/gambasoftware/poc/AllClassesFromJarDetector.java:24 | `a/classes/B` becomes `a.classes.B` |
| AllClassesFromJarDetector.DropClassTwice | src/main/java/com/gambasoftware/poc/AllClassesFromJarDetector.java:25 | in `a.classes.B.class` both occurrences of `.class` are removed, leaving `aes.B` |
| AllClassesFromJarDetector.ClassNameOfMangled | src/main/java/com/gambasoftware/poc/AllClassesFromJarDetector.java:22-25 | the whole chain on `BOOT-INF/classes/a/classes/B.class` gives `aes.B` |
| AllClassesFromJarDetector.ClassNameMangles | src/main/java/com/gambasoftware/poc/AllClassesFromJarDetector.java:22-25 | that entry is listed as `aes.B`; the corrected rewrite gives `a.classes.B` |
| UnusedClassDetector.FindAllClassesInSpringBootJar | src/main/java/com/gambasoftware/poc/UnusedClassDetector.java:20-41 | the private copy returns exactly `AllClassesFromJarDetector.ClassesIn`, so the two scans agree on every jar; no result has `/` |

## Left out

- Java strings are sequences of UTF-16 code units and can hold unpaired surrogates. The model's
  `string` is a sequence of Unicode scalar values. The difference shows only in names that hold
  an unpaired surrogate, and in `replace` with an empty target, which the core never calls.
- Class-file parsing and descriptor decoding are left out. They are done by ASM's `ClassReader`
  and `Type`, which are not in the repository. The model takes the callback stream as a
  `ClassFile` value and a type as `Prim | Obj | Arr`, where an array of depth n is n nested
  `Arr`. ASM's `getElementType` jumps to the base type at once; `References.ArrayTransparent`
  shows that the result is the same.
- Opcodes, access flags, class-file versions, generic signatures, field and method names, and
  instruction kinds that none of the visitors handle are not modelled. None of them adds a name.
- Jar I/O (`JarFile`, `JarEntry`, input streams) is left out. A jar is a sequence of entries for
  the two sequential drivers and a map from entry name to contents for the lookup in
  `ClassDependencyAnalyzer`. An unreadable class is an entry whose contents are `None`.
- All `System.out` printing is left out, including the two reflection messages.
- `HashMap`/`HashSet` iteration order is not modelled: the results are mathematical maps and
  sets.
- The `" <-> "` strings are modelled as ordered pairs, because joined names are not unique
  (`"a <-> b <-> c"` has two readings).
- ClassDependencyAnalyzer.FindClassDependencies: on failure it states only that the reported path
  belongs to some unreadable class of `allClasses`. Which one is met first depends on
  `HashSet` iteration order.
- `AllClassesFromJarDetector.findAllClassesUsingJarFile` is not part of this model. It builds
  `allClasses` for `ClassDependencyAnalyzer.findClassDependencies` but is not in the repository,
  so `allClasses` is a parameter.
- `Main`, `MainUsingA`, `UnusedClassDetector.main` and the agent's `MyClassTransformer` are left out.
  They are wiring, a sample program and a logger.
- The map values in Java are the visitors' own `HashSet` objects. The model stores their
  contents, which nothing changes after the `put`.
- References.MethodsMentions: has no membership `ensures` of its own. Membership in a class's
  method list is reached through `InsnsMentionsMembers` and the `AdmittedUnion` steps.
- Interfaces or exception arrays that are null are modelled as empty sequences, which the
  source's null checks treat the same way.

## Findings

| source | as written | input that shows it | evidently intended | confidence | as-written member | corrected member |
|---|---|---|---|---|---|---|
| src/main/java/com/gambasoftware/poc/AllClassesFromJarDetector.java:22-25 | `/` becomes `.` before `.class` is removed, so `.class` is also removed inside the name, wherever a package segment starts with `class` (same chain at src/main/java/com/gambasoftware/poc/UnusedClassDetector.java:32-35) | entry `BOOT-INF/classes/a/classes/B.class` with prefix `a` is listed as `aes.B`. A caller that looked such a name up under `BOOT-INF/classes/` would not find the entry (`ClassDependencyAnalyzer.MangledClassNotFound`) | drop the leading `BOOT-INF/classes/` and the trailing `.class`, then turn `/` into `.`, giving `a.classes.B` | not executed | AllClassesFromJarDetector.ClassNameMangles | AllClassesFromJarDetector.IntendedClassName |
