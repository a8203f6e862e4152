/**
 * `BytecodeDependencyChecker`: for every class in a jar, the classes of a
 * given set it depends on, and the pairs of classes that depend on each
 * other. `ClassDependencyVisitor` looks at the class header, the method
 * declarations and the method bodies; it has no `visitField`, so field
 * declarations are not looked at.
 */
module BytecodeDependencyChecker {
  import opened JavaStrings
  import opened Asm
  import opened References
  import opened JarScan
  import opened Graph

  class ClassDependencyVisitor {
    const allClasses: set<string>
    var dependencies: set<string>
    /** The dotted name of the visited class; None (null) until `visit` runs. */
    var currentClass: Option<string>

    /** Only classes of `allClasses` are collected, and never the class being visited. */
    ghost predicate Valid()
      reads this
    {
      dependencies <= allClasses &&
      (currentClass.Some? ==> currentClass.value !in dependencies)
    }

    constructor (allClasses: set<string>)
      ensures Valid()
      ensures this.allClasses == allClasses && dependencies == {} && currentClass == None
    {
      this.allClasses := allClasses;
      dependencies := {};
      currentClass := None;
    }

    /** The class header: records the class's own name, then the superclass and the interfaces. */
    method Visit(header: Header)
      requires Valid() && currentClass == None && dependencies == {}
      modifies this
      ensures Valid()
      ensures currentClass == Some(Dotted(header.name))
      ensures dependencies == Admitted(HeaderMentions(header), allClasses, currentClass)
    {
      currentClass := Some(Dotted(header.name));
      AddIfInTarget(header.superName);
      AddEachIfInTarget(header.interfaces);
      AdmittedUnion(OptMentions(header.superName), NamesMentions(header.interfaces), allClasses, currentClass);
    }

    /**
     * A method declaration: the return type, every argument type and the
     * declared exceptions; the returned visitor receives the instructions.
     */
    method VisitMethod(mtype: MethodType, exceptions: seq<string>) returns (mv: MethodDependencyVisitor)
      requires Valid()
      modifies this
      ensures Valid() && currentClass == old(currentClass)
      ensures dependencies == old(dependencies) +
                              Admitted(MethodTypeMentions(mtype) + NamesMentions(exceptions), allClasses, currentClass)
      ensures fresh(mv) && mv.outer == this
    {
      CheckType(mtype.ret);
      CheckTypes(mtype.args);
      AdmittedUnion(TypeMentions(mtype.ret), TypesMentions(mtype.args), allClasses, currentClass);
      AddEachIfInTarget(exceptions);
      AdmittedUnion(MethodTypeMentions(mtype), NamesMentions(exceptions), allClasses, currentClass);
      mv := new MethodDependencyVisitor(this);
    }

    /**
     * `addIfInTarget`: ignores null, otherwise adds the dotted name when it
     * is one of `allClasses` and differs from the current class.
     */
    method AddIfInTarget(internalName: Option<string>)
      requires Valid()
      modifies this
      ensures Valid() && currentClass == old(currentClass)
      ensures dependencies == old(dependencies) + Admitted(OptMentions(internalName), allClasses, currentClass)
    {
      if internalName.None? {
        return;
      }
      var className := Dotted(internalName.value);
      AdmittedSingleton(internalName.value, allClasses, currentClass);
      if className in allClasses && Some(className) != currentClass {
        dependencies := dependencies + {className};
      }
    }

    /** A `for (String n : names) addIfInTarget(n)` loop, over interfaces or exceptions. */
    method AddEachIfInTarget(names: seq<string>)
      requires Valid()
      modifies this
      ensures Valid() && currentClass == old(currentClass)
      ensures dependencies == old(dependencies) + Admitted(NamesMentions(names), allClasses, currentClass)
    {
      for i := 0 to |names|
        invariant Valid() && currentClass == old(currentClass)
        invariant dependencies == old(dependencies) + Admitted(NamesMentions(names[..i]), allClasses, currentClass)
      {
        AddIfInTarget(Some(names[i]));
        NamesMentionsSnoc(names, i);
        AdmittedUnion(NamesMentions(names[..i]), {names[i]}, allClasses, currentClass);
      }
      assert names[..|names|] == names;
    }

    /** `checkType`: an object type is checked by name, an array by its element type. */
    method CheckType(t: JType)
      requires Valid()
      modifies this
      ensures Valid() && currentClass == old(currentClass)
      ensures dependencies == old(dependencies) + Admitted(TypeMentions(t), allClasses, currentClass)
      decreases t
    {
      match t
      case Obj(n) => AddIfInTarget(Some(n));
      case Arr(e) => CheckType(e);
      case Prim =>
    }

    /** The `for (Type argType : argTypes) checkType(argType)` loop. */
    method CheckTypes(ts: seq<JType>)
      requires Valid()
      modifies this
      ensures Valid() && currentClass == old(currentClass)
      ensures dependencies == old(dependencies) + Admitted(TypesMentions(ts), allClasses, currentClass)
    {
      for i := 0 to |ts|
        invariant Valid() && currentClass == old(currentClass)
        invariant dependencies == old(dependencies) + Admitted(TypesMentions(ts[..i]), allClasses, currentClass)
      {
        CheckType(ts[i]);
        TypesMentionsSnoc(ts, i);
        AdmittedUnion(TypesMentions(ts[..i]), TypeMentions(ts[i]), allClasses, currentClass);
      }
      assert ts[..|ts|] == ts;
    }
  }

  /** The inner visitor `visitMethod` returns; it reports into the enclosing `ClassDependencyVisitor`. */
  class MethodDependencyVisitor {
    const outer: ClassDependencyVisitor

    constructor (outer: ClassDependencyVisitor)
      ensures this.outer == outer
    {
      this.outer := outer;
    }

    /** A method call: the owner, the return type and every argument type. */
    method VisitMethodInsn(owner: string, name: string, mtype: MethodType)
      requires outer.Valid()
      modifies outer
      ensures outer.Valid() && outer.currentClass == old(outer.currentClass)
      ensures outer.dependencies == old(outer.dependencies) +
                                    Admitted({owner} + MethodTypeMentions(mtype), outer.allClasses, outer.currentClass)
    {
      outer.AddIfInTarget(Some(owner));
      outer.CheckType(mtype.ret);
      outer.CheckTypes(mtype.args);
      AdmittedUnion(TypeMentions(mtype.ret), TypesMentions(mtype.args), outer.allClasses, outer.currentClass);
      AdmittedUnion({owner}, MethodTypeMentions(mtype), outer.allClasses, outer.currentClass);
    }

    /** A field access: the owner and the field's type. */
    method VisitFieldInsn(owner: string, name: string, descriptor: JType)
      requires outer.Valid()
      modifies outer
      ensures outer.Valid() && outer.currentClass == old(outer.currentClass)
      ensures outer.dependencies == old(outer.dependencies) +
                                    Admitted({owner} + TypeMentions(descriptor), outer.allClasses, outer.currentClass)
    {
      outer.AddIfInTarget(Some(owner));
      outer.CheckType(descriptor);
      AdmittedUnion({owner}, TypeMentions(descriptor), outer.allClasses, outer.currentClass);
    }

    /** NEW, ANEWARRAY, CHECKCAST or INSTANCEOF: the operand's internal name. */
    method VisitTypeInsn(operand: string)
      requires outer.Valid()
      modifies outer
      ensures outer.Valid() && outer.currentClass == old(outer.currentClass)
      ensures outer.dependencies == old(outer.dependencies) +
                                    Admitted({operand}, outer.allClasses, outer.currentClass)
    {
      outer.AddIfInTarget(Some(operand));
    }

    /**
     * LDC: a `Type` constant is checked. A method-type constant is also a
     * `Type`, of sort METHOD, which `checkType` ignores.
     */
    method VisitLdcInsn(value: Constant)
      requires outer.Valid()
      modifies outer
      ensures outer.Valid() && outer.currentClass == old(outer.currentClass)
      ensures outer.dependencies == old(outer.dependencies) +
                                    Admitted(LdcMentions(value), outer.allClasses, outer.currentClass)
    {
      match value
      case TypeConstant(t) => outer.CheckType(t);
      case MethodTypeConstant(mt) =>
      case OtherConstant =>
    }
  }

  /** ClassReader delivering one instruction to the method visitor. */
  method DispatchInsn(mv: MethodDependencyVisitor, insn: Insn)
    requires mv.outer.Valid()
    modifies mv.outer
    ensures mv.outer.Valid() && mv.outer.currentClass == old(mv.outer.currentClass)
    ensures mv.outer.dependencies == old(mv.outer.dependencies) +
                                     Admitted(InsnMentions(insn), mv.outer.allClasses, mv.outer.currentClass)
  {
    match insn
    case FieldInsn(owner, name, descriptor) => mv.VisitFieldInsn(owner, name, descriptor);
    case MethodInsn(owner, name, mtype) => mv.VisitMethodInsn(owner, name, mtype);
    case TypeInsn(operand) => mv.VisitTypeInsn(operand);
    case LdcInsn(value) => mv.VisitLdcInsn(value);
    case OtherInsn =>
  }

  /** ClassReader delivering a method body, instruction by instruction. */
  method AcceptBody(body: seq<Insn>, mv: MethodDependencyVisitor)
    requires mv.outer.Valid()
    modifies mv.outer
    ensures mv.outer.Valid() && mv.outer.currentClass == old(mv.outer.currentClass)
    ensures mv.outer.dependencies == old(mv.outer.dependencies) +
                                     Admitted(InsnsMentions(body), mv.outer.allClasses, mv.outer.currentClass)
  {
    var outer := mv.outer;
    for k := 0 to |body|
      invariant outer.Valid() && outer.currentClass == old(outer.currentClass)
      invariant outer.dependencies == old(outer.dependencies) +
                                      Admitted(InsnsMentions(body[..k]), outer.allClasses, outer.currentClass)
    {
      DispatchInsn(mv, body[k]);
      InsnsMentionsSnoc(body, k);
      AdmittedUnion(InsnsMentions(body[..k]), InsnMentions(body[k]), outer.allClasses, outer.currentClass);
    }
    assert body[..|body|] == body;
  }

  /** ClassReader delivering one method: `visitMethod`, then the body. */
  method AcceptMethod(m: MethodDecl, visitor: ClassDependencyVisitor)
    requires visitor.Valid()
    modifies visitor
    ensures visitor.Valid() && visitor.currentClass == old(visitor.currentClass)
    ensures visitor.dependencies == old(visitor.dependencies) +
                                    Admitted(MethodMentions(m), visitor.allClasses, visitor.currentClass)
  {
    var mv := visitor.VisitMethod(m.mtype, m.exceptions);
    AcceptBody(m.body, mv);
    AdmittedUnion(MethodTypeMentions(m.mtype) + NamesMentions(m.exceptions), InsnsMentions(m.body),
                  visitor.allClasses, visitor.currentClass);
  }

  /** ClassReader delivering the method declarations and their bodies, in order. */
  method AcceptMethods(methods: seq<MethodDecl>, visitor: ClassDependencyVisitor)
    requires visitor.Valid()
    modifies visitor
    ensures visitor.Valid() && visitor.currentClass == old(visitor.currentClass)
    ensures visitor.dependencies == old(visitor.dependencies) +
                                    Admitted(MethodsMentions(methods), visitor.allClasses, visitor.currentClass)
  {
    for j := 0 to |methods|
      invariant visitor.Valid() && visitor.currentClass == old(visitor.currentClass)
      invariant visitor.dependencies == old(visitor.dependencies) +
                                        Admitted(MethodsMentions(methods[..j]), visitor.allClasses, visitor.currentClass)
    {
      AcceptMethod(methods[j], visitor);
      MethodsMentionsSnoc(methods, j);
      AdmittedUnion(MethodsMentions(methods[..j]), MethodMentions(methods[j]), visitor.allClasses, visitor.currentClass);
    }
    assert methods[..|methods|] == methods;
  }

  /**
   * `reader.accept(visitor, SKIP_DEBUG | SKIP_FRAMES)`: the header, then the
   * methods. Field declarations reach the visitor's inherited `visitField`,
   * which records nothing.
   */
  method Accept(cf: ClassFile, visitor: ClassDependencyVisitor)
    requires visitor.Valid() && visitor.currentClass == None && visitor.dependencies == {}
    modifies visitor
    ensures visitor.Valid()
    ensures visitor.dependencies == Dependencies(cf, visitor.allClasses)
  {
    visitor.Visit(cf.header);
    AcceptMethods(cf.methods, visitor);
    AdmittedUnion(HeaderMentions(cf.header), MethodsMentions(cf.methods), visitor.allClasses,
                  Some(Dotted(cf.header.name)));
  }

  /** The per-class result of the dependency scan. */
  function DependenciesOf(allClasses: set<string>): ClassFile -> set<string> {
    cf => Dependencies(cf, allClasses)
  }

  /**
   * `findClassDependencies`: every `.class` entry is fed to a fresh
   * `ClassDependencyVisitor`; a non-empty result is stored under the entry
   * name with `.class` removed and `/` turned into `.`. An entry ClassReader
   * rejects ends the scan.
   */
  method FindClassDependencies(jar: seq<Entry>, allClasses: set<string>)
    returns (dependencies: Result<map<string, set<string>>>)
    ensures dependencies == Index(jar, DependenciesOf(allClasses))
  {
    var found: map<string, set<string>> := map[];
    for i := 0 to |jar|
      invariant Index(jar[..i], DependenciesOf(allClasses)) == Ok(found)
    {
      var entry := jar[i];
      assert jar[..i + 1][..i] == jar[..i];
      if EndsWith(entry.name, ".class") {
        match entry.classFile
        case None =>
          IndexFailureFinal(jar, i + 1, DependenciesOf(allClasses));
          return Failure(entry.name);
        case Some(cf) =>
          var visitor := new ClassDependencyVisitor(allClasses);
          Accept(cf, visitor);
          var currentClass := ReplaceAll(ReplaceAll(entry.name, ".class", ""), "/", ".");
          if visitor.dependencies != {} {
            found := found[currentClass := visitor.dependencies];
          }
      }
    }
    assert jar[..|jar|] == jar;
    return Ok(found);
  }

  /**
   * `findCircularDependencies`: for every key A and every B in its set,
   * reports (A, B) when B is a key whose set contains A.
   */
  method FindCircularDependencies(dependencies: map<string, set<string>>)
    returns (circularDeps: set<(string, string)>)
    ensures circularDeps == MutualPairs(dependencies)
  {
    circularDeps := {};
    var keys := dependencies.Keys;
    while keys != {}
      invariant keys <= dependencies.Keys
      invariant forall a, b :: (a, b) in circularDeps <==> Mutual(dependencies, a, b) && a !in keys
      decreases keys
    {
      var classA :| classA in keys;
      var values := dependencies[classA];
      while values != {}
        invariant values <= dependencies[classA]
        invariant forall a, b :: (a, b) in circularDeps <==>
                    Mutual(dependencies, a, b) && (a !in keys || (a == classA && b !in values))
        decreases values
      {
        var classB :| classB in values;
        if classB in dependencies && classA in dependencies[classB] {
          circularDeps := circularDeps + {(classA, classB)};
        }
        values := values - {classB};
      }
      keys := keys - {classA};
    }
    forall p | p in circularDeps ensures p in MutualPairs(dependencies) {
      assert Mutual(dependencies, p.0, p.1);
    }
    forall p | p in MutualPairs(dependencies) ensures p in circularDeps {
      assert Mutual(dependencies, p.0, p.1);
    }
  }

  /** Every stored set is a non-empty subset of `allClasses` that omits the entry's own class. */
  lemma DependenciesAreClasses(jar: seq<Entry>, allClasses: set<string>, key: string)
    requires Index(jar, DependenciesOf(allClasses)).Ok? && key in Index(jar, DependenciesOf(allClasses)).value
    ensures var deps := Index(jar, DependenciesOf(allClasses)).value[key];
            deps != {} && deps <= allClasses &&
            exists i :: 0 <= i < |jar| && IsClassEntry(jar[i]) && jar[i].classFile.Some? &&
              EntryKey(jar[i].name) == key && deps == Dependencies(jar[i].classFile.value, allClasses) &&
              Dotted(jar[i].classFile.value.header.name) !in deps
  {
    IndexValue(jar, DependenciesOf(allClasses), key);
    IndexWithinUniverse(jar, DependenciesOf(allClasses), allClasses, key);
  }

  /**
   * Every key keeps the `BOOT-INF.classes.` prefix of an entry under
   * `BOOT-INF/classes/`, while the stored sets hold plain class names. So
   * when no class name has that prefix, and no class entry elsewhere in the
   * jar (such as a launcher class at the root of a repackaged Spring Boot
   * jar) has a key that is one of `allClasses`, `findCircularDependencies`
   * on the result reports nothing.
   */
  lemma SpringBootJarHasNoCircularPairs(jar: seq<Entry>, allClasses: set<string>)
    requires forall i :: 0 <= i < |jar| && IsClassEntry(jar[i]) ==>
               StartsWith(jar[i].name, "BOOT-INF/classes/") || EntryKey(jar[i].name) !in allClasses
    requires forall c :: c in allClasses ==> !StartsWith(c, "BOOT-INF.classes.")
    requires Index(jar, DependenciesOf(allClasses)).Ok?
    ensures MutualPairs(Index(jar, DependenciesOf(allClasses)).value) == {}
  {
    var deps := Index(jar, DependenciesOf(allClasses)).value;
    forall k | k in deps ensures k !in allClasses && deps[k] <= allClasses {
      IndexKeys(jar, DependenciesOf(allClasses), k);
      var i :| 0 <= i < |jar| && Contributes(jar[i], DependenciesOf(allClasses)) && EntryKey(jar[i].name) == k;
      if StartsWith(jar[i].name, "BOOT-INF/classes/") {
        EntryKeyOfBootInfEntry(jar[i].name);
      }
      DependenciesAreClasses(jar, allClasses, k);
    }
    NoValueIsKeyNoPairs(deps);
  }
}
