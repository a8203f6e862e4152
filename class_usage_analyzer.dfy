/**
 * `ClassUsageAnalyzer`: for every class in a jar, the target classes it uses.
 * `UsageVisitor` collects, into a set it only ever grows, the dotted names of
 * target classes that the class's header, field and method declarations and
 * method bodies refer to, leaving out the class's own name.
 */
module ClassUsageAnalyzer {
  import opened JavaStrings
  import opened Asm
  import opened References
  import opened JarScan

  class UsageVisitor {
    const targetClasses: set<string>
    var usedClasses: set<string>
    /** The dotted name of the visited class; None (null) until `visit` runs. */
    var currentClass: Option<string>

    /** Only target classes are collected, and never the class being visited. */
    ghost predicate Valid()
      reads this
    {
      usedClasses <= targetClasses &&
      (currentClass.Some? ==> currentClass.value !in usedClasses)
    }

    constructor (targetClasses: set<string>)
      ensures Valid()
      ensures this.targetClasses == targetClasses && usedClasses == {} && currentClass == None
    {
      this.targetClasses := targetClasses;
      usedClasses := {};
      currentClass := None;
    }

    /**
     * The class header, which ClassReader delivers first: records the class's
     * own name before looking at the superclass and the interfaces.
     */
    method Visit(header: Header)
      requires Valid() && currentClass == None && usedClasses == {}
      modifies this
      ensures Valid()
      ensures currentClass == Some(Dotted(header.name))
      ensures usedClasses == Admitted(HeaderMentions(header), targetClasses, currentClass)
    {
      currentClass := Some(Dotted(header.name));
      CheckClass(header.superName);
      CheckClasses(header.interfaces);
      AdmittedUnion(OptMentions(header.superName), NamesMentions(header.interfaces), targetClasses, currentClass);
    }

    /** A field declaration: its descriptor's type. */
    method VisitField(descriptor: JType)
      requires Valid()
      modifies this
      ensures Valid() && currentClass == old(currentClass)
      ensures usedClasses == old(usedClasses) + Admitted(TypeMentions(descriptor), targetClasses, currentClass)
    {
      CheckType(descriptor);
    }

    /**
     * A method declaration: its return and argument types and its declared
     * exceptions; the returned visitor receives the method's instructions.
     */
    method VisitMethod(mtype: MethodType, exceptions: seq<string>) returns (mv: MethodUsageVisitor)
      requires Valid()
      modifies this
      ensures Valid() && currentClass == old(currentClass)
      ensures usedClasses == old(usedClasses) +
                             Admitted(MethodTypeMentions(mtype) + NamesMentions(exceptions), targetClasses, currentClass)
      ensures fresh(mv) && mv.outer == this
    {
      CheckMethodType(mtype);
      CheckClasses(exceptions);
      AdmittedUnion(MethodTypeMentions(mtype), NamesMentions(exceptions), targetClasses, currentClass);
      mv := new MethodUsageVisitor(this);
    }

    /**
     * `checkClass`: ignores null, otherwise adds the dotted name when it is a
     * target class other than the current class.
     */
    method CheckClass(internalName: Option<string>)
      requires Valid()
      modifies this
      ensures Valid() && currentClass == old(currentClass)
      ensures usedClasses == old(usedClasses) + Admitted(OptMentions(internalName), targetClasses, currentClass)
    {
      if internalName.None? {
        return;
      }
      var className := Dotted(internalName.value);
      AdmittedSingleton(internalName.value, targetClasses, currentClass);
      if className in targetClasses && Some(className) != currentClass {
        usedClasses := usedClasses + {className};
      }
    }

    /** A `for (String n : names) checkClass(n)` loop, over interfaces or exceptions. */
    method CheckClasses(names: seq<string>)
      requires Valid()
      modifies this
      ensures Valid() && currentClass == old(currentClass)
      ensures usedClasses == old(usedClasses) + Admitted(NamesMentions(names), targetClasses, currentClass)
    {
      for i := 0 to |names|
        invariant Valid() && currentClass == old(currentClass)
        invariant usedClasses == old(usedClasses) + Admitted(NamesMentions(names[..i]), targetClasses, currentClass)
      {
        CheckClass(Some(names[i]));
        NamesMentionsSnoc(names, i);
        AdmittedUnion(NamesMentions(names[..i]), {names[i]}, targetClasses, currentClass);
      }
      assert names[..|names|] == names;
    }

    /** `checkType`: an object type is checked by name, an array by its element type. */
    method CheckType(t: JType)
      requires Valid()
      modifies this
      ensures Valid() && currentClass == old(currentClass)
      ensures usedClasses == old(usedClasses) + Admitted(TypeMentions(t), targetClasses, currentClass)
      decreases t
    {
      match t
      case Obj(n) => CheckClass(Some(n));
      case Arr(e) => CheckType(e);
      case Prim =>
    }

    /** `checkMethodType`: the return type, then every argument type. */
    method CheckMethodType(mtype: MethodType)
      requires Valid()
      modifies this
      ensures Valid() && currentClass == old(currentClass)
      ensures usedClasses == old(usedClasses) + Admitted(MethodTypeMentions(mtype), targetClasses, currentClass)
    {
      CheckType(mtype.ret);
      CheckArgumentTypes(mtype.args);
      AdmittedUnion(TypeMentions(mtype.ret), TypesMentions(mtype.args), targetClasses, currentClass);
    }

    /** The loop of `checkMethodType` that checks every argument type. */
    method CheckArgumentTypes(args: seq<JType>)
      requires Valid()
      modifies this
      ensures Valid() && currentClass == old(currentClass)
      ensures usedClasses == old(usedClasses) + Admitted(TypesMentions(args), targetClasses, currentClass)
    {
      for i := 0 to |args|
        invariant Valid() && currentClass == old(currentClass)
        invariant usedClasses == old(usedClasses) + Admitted(TypesMentions(args[..i]), targetClasses, currentClass)
      {
        CheckType(args[i]);
        TypesMentionsSnoc(args, i);
        AdmittedUnion(TypesMentions(args[..i]), TypeMentions(args[i]), targetClasses, currentClass);
      }
      assert args[..|args|] == args;
    }
  }

  /** The visitor `visitMethod` returns; it reports into the enclosing `UsageVisitor`. */
  class MethodUsageVisitor {
    const outer: UsageVisitor

    constructor (outer: UsageVisitor)
      ensures this.outer == outer
    {
      this.outer := outer;
    }

    /** A field access: the field's owner and the field's type. */
    method VisitFieldInsn(owner: string, name: string, descriptor: JType)
      requires outer.Valid()
      modifies outer
      ensures outer.Valid() && outer.currentClass == old(outer.currentClass)
      ensures outer.usedClasses == old(outer.usedClasses) +
                                   Admitted({owner} + TypeMentions(descriptor), outer.targetClasses, outer.currentClass)
    {
      outer.CheckClass(Some(owner));
      outer.CheckType(descriptor);
      AdmittedUnion({owner}, TypeMentions(descriptor), outer.targetClasses, outer.currentClass);
    }

    /**
     * A method call: the method's owner, return type and argument types. The
     * recognition of Class.forName and Method.invoke only prints a message and
     * adds nothing.
     */
    method VisitMethodInsn(owner: string, name: string, mtype: MethodType)
      requires outer.Valid()
      modifies outer
      ensures outer.Valid() && outer.currentClass == old(outer.currentClass)
      ensures outer.usedClasses == old(outer.usedClasses) +
                                   Admitted({owner} + MethodTypeMentions(mtype), outer.targetClasses, outer.currentClass)
    {
      outer.CheckClass(Some(owner));
      outer.CheckMethodType(mtype);
      AdmittedUnion({owner}, MethodTypeMentions(mtype), outer.targetClasses, outer.currentClass);
    }

    /** NEW, ANEWARRAY, CHECKCAST or INSTANCEOF: the operand's internal name. */
    method VisitTypeInsn(operand: string)
      requires outer.Valid()
      modifies outer
      ensures outer.Valid() && outer.currentClass == old(outer.currentClass)
      ensures outer.usedClasses == old(outer.usedClasses) +
                                   Admitted({operand}, outer.targetClasses, outer.currentClass)
    {
      outer.CheckClass(Some(operand));
    }

    /**
     * LDC: a `Type` constant is checked. A method-type constant is also a
     * `Type`, of sort METHOD, which `checkType` ignores.
     */
    method VisitLdcInsn(value: Constant)
      requires outer.Valid()
      modifies outer
      ensures outer.Valid() && outer.currentClass == old(outer.currentClass)
      ensures outer.usedClasses == old(outer.usedClasses) +
                                   Admitted(LdcMentions(value), outer.targetClasses, outer.currentClass)
    {
      match value
      case TypeConstant(t) => outer.CheckType(t);
      case MethodTypeConstant(mt) =>
      case OtherConstant =>
    }
  }

  /** ClassReader delivering one instruction to the method visitor. */
  method DispatchInsn(mv: MethodUsageVisitor, insn: Insn)
    requires mv.outer.Valid()
    modifies mv.outer
    ensures mv.outer.Valid() && mv.outer.currentClass == old(mv.outer.currentClass)
    ensures mv.outer.usedClasses == old(mv.outer.usedClasses) +
                                    Admitted(InsnMentions(insn), mv.outer.targetClasses, mv.outer.currentClass)
  {
    match insn
    case FieldInsn(owner, name, descriptor) => mv.VisitFieldInsn(owner, name, descriptor);
    case MethodInsn(owner, name, mtype) => mv.VisitMethodInsn(owner, name, mtype);
    case TypeInsn(operand) => mv.VisitTypeInsn(operand);
    case LdcInsn(value) => mv.VisitLdcInsn(value);
    case OtherInsn =>
  }

  /** ClassReader delivering a method body, instruction by instruction, to the method visitor. */
  method AcceptBody(body: seq<Insn>, mv: MethodUsageVisitor)
    requires mv.outer.Valid()
    modifies mv.outer
    ensures mv.outer.Valid() && mv.outer.currentClass == old(mv.outer.currentClass)
    ensures mv.outer.usedClasses == old(mv.outer.usedClasses) +
                                    Admitted(InsnsMentions(body), mv.outer.targetClasses, mv.outer.currentClass)
  {
    var outer := mv.outer;
    for k := 0 to |body|
      invariant outer.Valid() && outer.currentClass == old(outer.currentClass)
      invariant outer.usedClasses == old(outer.usedClasses) +
                                     Admitted(InsnsMentions(body[..k]), outer.targetClasses, outer.currentClass)
    {
      DispatchInsn(mv, body[k]);
      InsnsMentionsSnoc(body, k);
      AdmittedUnion(InsnsMentions(body[..k]), InsnMentions(body[k]), outer.targetClasses, outer.currentClass);
    }
    assert body[..|body|] == body;
  }

  /** ClassReader delivering one method: `visitMethod`, then the body to the returned visitor. */
  method AcceptMethod(m: MethodDecl, visitor: UsageVisitor)
    requires visitor.Valid()
    modifies visitor
    ensures visitor.Valid() && visitor.currentClass == old(visitor.currentClass)
    ensures visitor.usedClasses == old(visitor.usedClasses) +
                                   Admitted(MethodMentions(m), visitor.targetClasses, visitor.currentClass)
  {
    var mv := visitor.VisitMethod(m.mtype, m.exceptions);
    AcceptBody(m.body, mv);
    AdmittedUnion(MethodTypeMentions(m.mtype) + NamesMentions(m.exceptions), InsnsMentions(m.body),
                  visitor.targetClasses, visitor.currentClass);
  }

  /** ClassReader delivering the field declarations, in order. */
  method AcceptFields(fields: seq<JType>, visitor: UsageVisitor)
    requires visitor.Valid()
    modifies visitor
    ensures visitor.Valid() && visitor.currentClass == old(visitor.currentClass)
    ensures visitor.usedClasses == old(visitor.usedClasses) +
                                   Admitted(TypesMentions(fields), visitor.targetClasses, visitor.currentClass)
  {
    for i := 0 to |fields|
      invariant visitor.Valid() && visitor.currentClass == old(visitor.currentClass)
      invariant visitor.usedClasses == old(visitor.usedClasses) +
                                       Admitted(TypesMentions(fields[..i]), visitor.targetClasses, visitor.currentClass)
    {
      visitor.VisitField(fields[i]);
      TypesMentionsSnoc(fields, i);
      AdmittedUnion(TypesMentions(fields[..i]), TypeMentions(fields[i]), visitor.targetClasses, visitor.currentClass);
    }
    assert fields[..|fields|] == fields;
  }

  /** ClassReader delivering the method declarations and their bodies, in order. */
  method AcceptMethods(methods: seq<MethodDecl>, visitor: UsageVisitor)
    requires visitor.Valid()
    modifies visitor
    ensures visitor.Valid() && visitor.currentClass == old(visitor.currentClass)
    ensures visitor.usedClasses == old(visitor.usedClasses) +
                                   Admitted(MethodsMentions(methods), visitor.targetClasses, visitor.currentClass)
  {
    for j := 0 to |methods|
      invariant visitor.Valid() && visitor.currentClass == old(visitor.currentClass)
      invariant visitor.usedClasses == old(visitor.usedClasses) +
                                       Admitted(MethodsMentions(methods[..j]), visitor.targetClasses, visitor.currentClass)
    {
      AcceptMethod(methods[j], visitor);
      MethodsMentionsSnoc(methods, j);
      AdmittedUnion(MethodsMentions(methods[..j]), MethodMentions(methods[j]), visitor.targetClasses, visitor.currentClass);
    }
    assert methods[..|methods|] == methods;
  }

  /** `reader.accept(visitor, 0)`: every callback of `cf`, in ClassReader's order. */
  method Accept(cf: ClassFile, visitor: UsageVisitor)
    requires visitor.Valid() && visitor.currentClass == None && visitor.usedClasses == {}
    modifies visitor
    ensures visitor.Valid()
    ensures visitor.usedClasses == UsedClasses(cf, visitor.targetClasses)
  {
    visitor.Visit(cf.header);
    AcceptFields(cf.fields, visitor);
    AcceptMethods(cf.methods, visitor);
    var target, self := visitor.targetClasses, Some(Dotted(cf.header.name));
    AdmittedUnion(HeaderMentions(cf.header), TypesMentions(cf.fields), target, self);
    AdmittedUnion(HeaderMentions(cf.header) + TypesMentions(cf.fields), MethodsMentions(cf.methods), target, self);
  }

  /** The per-class result of the usage scan. */
  function UsageOf(targetClasses: set<string>): ClassFile -> set<string> {
    cf => UsedClasses(cf, targetClasses)
  }

  /**
   * `findClassUsages`: every `.class` entry is fed to a fresh `UsageVisitor`;
   * a non-empty result is stored under the entry name with `.class` removed
   * and `/` turned into `.`. An entry ClassReader rejects ends the scan.
   */
  method FindClassUsages(jar: seq<Entry>, targetClasses: set<string>) returns (usages: Result<map<string, set<string>>>)
    ensures usages == Index(jar, UsageOf(targetClasses))
  {
    var found: map<string, set<string>> := map[];
    for i := 0 to |jar|
      invariant Index(jar[..i], UsageOf(targetClasses)) == Ok(found)
    {
      var entry := jar[i];
      assert jar[..i + 1][..i] == jar[..i];
      if EndsWith(entry.name, ".class") {
        match entry.classFile
        case None =>
          IndexFailureFinal(jar, i + 1, UsageOf(targetClasses));
          return Failure(entry.name);
        case Some(cf) =>
          var visitor := new UsageVisitor(targetClasses);
          Accept(cf, visitor);
          if visitor.usedClasses != {} {
            var currentClass := ReplaceAll(ReplaceAll(entry.name, ".class", ""), "/", ".");
            found := found[currentClass := visitor.usedClasses];
          }
      }
    }
    assert jar[..|jar|] == jar;
    return Ok(found);
  }

  /**
   * Every stored set is a non-empty set of target classes, and it is what the
   * last `.class` entry with that key uses.
   */
  lemma UsagesAreTargets(jar: seq<Entry>, targetClasses: set<string>, key: string)
    requires Index(jar, UsageOf(targetClasses)).Ok? && key in Index(jar, UsageOf(targetClasses)).value
    ensures var used := Index(jar, UsageOf(targetClasses)).value[key];
            used != {} && used <= targetClasses &&
            exists i :: 0 <= i < |jar| && IsClassEntry(jar[i]) && jar[i].classFile.Some? &&
              EntryKey(jar[i].name) == key && used == UsedClasses(jar[i].classFile.value, targetClasses)
  {
    IndexValue(jar, UsageOf(targetClasses), key);
    IndexWithinUniverse(jar, UsageOf(targetClasses), targetClasses, key);
  }
}
