/**
 * What a class file refers to, and which of those references a visitor keeps.
 *
 * The `...Mentions` functions collect the raw internal names (`com/a/B`) that
 * each construct puts in front of a visitor; `Admitted` is the filter that
 * every visitor applies to one name: normalise `/` to `.`, keep it only if it
 * is in the universe and differs from the class being visited. The visitor
 * classes are proved against these functions.
 */
module References {
  import opened JavaStrings
  import opened Asm

  /** `internalName.replace('/', '.')`: an internal name as a dotted class name. */
  function Dotted(internalName: string): (d: string)
    ensures |d| == |internalName|
    ensures '/' !in d
  {
    ReplaceChar(internalName, '/', '.')
  }

  /** A nullable name contributes itself, or nothing when null. */
  function OptMentions(name: Option<string>): set<string> {
    if name.Some? then {name.value} else {}
  }

  /** The names in an array of names (interfaces, declared exceptions). */
  function NamesMentions(names: seq<string>): set<string> {
    set n | n in names
  }

  /** One more name in the loop adds exactly that name. */
  lemma NamesMentionsSnoc(names: seq<string>, i: nat)
    requires i < |names|
    ensures NamesMentions(names[..i + 1]) == NamesMentions(names[..i]) + {names[i]}
  {
    assert names[..i + 1] == names[..i] + [names[i]];
  }

  /**
   * The name `checkType` reaches: an object type gives its internal name, an
   * array of any depth gives what its base type gives, anything else nothing.
   */
  function TypeMentions(t: JType): (r: set<string>)
    ensures r == if BaseType(t).Obj? then {BaseType(t).internalName} else {}
  {
    match t
    case Prim => {}
    case Obj(n) => {n}
    case Arr(e) => TypeMentions(e)
  }

  /** The names a sequence of types reaches, one `checkType` per element. */
  function TypesMentions(ts: seq<JType>): (r: set<string>)
    ensures forall n :: n in r <==> exists i :: 0 <= i < |ts| && n in TypeMentions(ts[i])
  {
    if ts == [] then {} else TypesMentions(ts[..|ts| - 1]) + TypeMentions(ts[|ts| - 1])
  }

  /** One more step of a loop over types adds exactly what that type reaches. */
  lemma TypesMentionsSnoc(ts: seq<JType>, i: nat)
    requires i < |ts|
    ensures TypesMentions(ts[..i + 1]) == TypesMentions(ts[..i]) + TypeMentions(ts[i])
  {
    assert ts[..i + 1][..i] == ts[..i];
  }

  /** The return type and every argument type of a method descriptor. */
  function MethodTypeMentions(mt: MethodType): set<string> {
    TypeMentions(mt.ret) + TypesMentions(mt.args)
  }

  /** The names one instruction callback puts in front of a method visitor that overrides it. */
  function InsnMentions(insn: Insn): set<string> {
    match insn
    case FieldInsn(owner, _, descriptor) => {owner} + TypeMentions(descriptor)
    case MethodInsn(owner, _, mtype) => {owner} + MethodTypeMentions(mtype)
    case TypeInsn(operand) => {operand}
    case LdcInsn(value) => LdcMentions(value)
    case OtherInsn => {}
  }

  /** An LDC constant names a class only when it is a `Type` of a field sort. */
  function LdcMentions(value: Constant): set<string> {
    if value.TypeConstant? then TypeMentions(value.t) else {}
  }

  /** The names a method body's instructions reach. */
  function InsnsMentions(body: seq<Insn>): set<string> {
    if body == [] then {} else InsnsMentions(body[..|body| - 1]) + InsnMentions(body[|body| - 1])
  }

  /** A name is reached from a method body exactly when one of its instructions reaches it. */
  lemma {:induction false} InsnsMentionsMembers(body: seq<Insn>)
    ensures forall n :: n in InsnsMentions(body) <==> exists i :: 0 <= i < |body| && n in InsnMentions(body[i])
  {
    if body != [] {
      var init := body[..|body| - 1];
      InsnsMentionsMembers(init);
      assert InsnsMentions(body) == InsnsMentions(init) + InsnMentions(body[|body| - 1]);
      assert forall i :: 0 <= i < |init| ==> init[i] == body[i];
    }
  }

  /** One more step of a loop over a method body adds exactly what that instruction reaches. */
  lemma InsnsMentionsSnoc(body: seq<Insn>, k: nat)
    requires k < |body|
    ensures InsnsMentions(body[..k + 1]) == InsnsMentions(body[..k]) + InsnMentions(body[k])
  {
    assert body[..k + 1][..k] == body[..k];
  }

  /** A method's descriptor, its declared exceptions and its body. */
  function MethodMentions(m: MethodDecl): set<string> {
    MethodTypeMentions(m.mtype) + NamesMentions(m.exceptions) + InsnsMentions(m.body)
  }

  /** The names all methods of a class reach. */
  function MethodsMentions(ms: seq<MethodDecl>): set<string> {
    if ms == [] then {} else MethodsMentions(ms[..|ms| - 1]) + MethodMentions(ms[|ms| - 1])
  }

  /** One more method adds exactly what it reaches. */
  lemma MethodsMentionsSnoc(ms: seq<MethodDecl>, j: nat)
    requires j < |ms|
    ensures MethodsMentions(ms[..j + 1]) == MethodsMentions(ms[..j]) + MethodMentions(ms[j])
  {
    assert ms[..j + 1][..j] == ms[..j];
  }

  /** The superclass (when not null) and the interfaces. */
  function HeaderMentions(h: Header): set<string> {
    OptMentions(h.superName) + NamesMentions(h.interfaces)
  }

  /** Everything a class file puts in front of a visitor that overrides every callback. */
  function ClassMentions(cf: ClassFile): set<string> {
    HeaderMentions(cf.header) + TypesMentions(cf.fields) + MethodsMentions(cf.methods)
  }

  /**
   * The dotted names of `raw` that lie in `universe` and differ from `self`;
   * `self == None` (a null current class) excludes nothing.
   */
  function Admitted(raw: set<string>, universe: set<string>, self: Option<string>): (r: set<string>)
    ensures r <= universe
    ensures self.Some? ==> self.value !in r
  {
    set n | n in raw && Dotted(n) in universe && Some(Dotted(n)) != self :: Dotted(n)
  }

  /**
   * The set a `UsageVisitor` holds after ClassReader has fed it `cf`:
   * every reference of the class, admitted against the target classes with
   * the class's own dotted name excluded.
   */
  function UsedClasses(cf: ClassFile, targetClasses: set<string>): (r: set<string>)
    ensures r <= targetClasses
    ensures Dotted(cf.header.name) !in r
  {
    Admitted(ClassMentions(cf), targetClasses, Some(Dotted(cf.header.name)))
  }

  /**
   * The set a `ClassDependencyVisitor` holds after ClassReader has fed it
   * `cf`: like `UsedClasses`, but field declarations are not looked at,
   * because that visitor does not override `visitField`.
   */
  function Dependencies(cf: ClassFile, allClasses: set<string>): (r: set<string>)
    ensures r <= allClasses
    ensures Dotted(cf.header.name) !in r
  {
    Admitted(HeaderMentions(cf.header) + MethodsMentions(cf.methods), allClasses, Some(Dotted(cf.header.name)))
  }

  /** A name is kept exactly when it is in the universe, is not `self`, and is the dotted form of a raw name. */
  lemma AdmittedMember(raw: set<string>, universe: set<string>, self: Option<string>, x: string)
    ensures x in Admitted(raw, universe, self) <==>
            x in universe && Some(x) != self && exists n :: n in raw && Dotted(n) == x
  {
  }

  /** Filtering a union is the union of the filtered parts. */
  lemma AdmittedUnion(a: set<string>, b: set<string>, universe: set<string>, self: Option<string>)
    ensures Admitted(a + b, universe, self) == Admitted(a, universe, self) + Admitted(b, universe, self)
  {
    var l, r := Admitted(a + b, universe, self), Admitted(a, universe, self) + Admitted(b, universe, self);
    forall x | x in l ensures x in r {
      var n :| n in a + b && Dotted(n) == x;
    }
  }

  /** One name is kept exactly when its dotted form is in the universe and is not `self`. */
  lemma AdmittedSingleton(n: string, universe: set<string>, self: Option<string>)
    ensures Admitted({n}, universe, self) ==
            if Dotted(n) in universe && Some(Dotted(n)) != self then {Dotted(n)} else {}
  {
  }

  /** More raw names never give fewer kept names. */
  lemma AdmittedMonotonic(a: set<string>, b: set<string>, universe: set<string>, self: Option<string>)
    requires a <= b
    ensures Admitted(a, universe, self) <= Admitted(b, universe, self)
  {
  }

  /** Shrinking the universe only intersects the result with the smaller universe. */
  lemma AdmittedRestrict(raw: set<string>, small: set<string>, large: set<string>, self: Option<string>)
    requires small <= large
    ensures Admitted(raw, small, self) == Admitted(raw, large, self) * small
  {
  }

  /** An array type of any depth is looked at exactly like its element type. */
  lemma ArrayTransparent(t: JType, depth: nat)
    ensures TypeMentions(ArrayOf(t, depth)) == TypeMentions(t)
  {
    BaseTypeOfArray(t, depth);
  }

  /**
   * A name is used by a class exactly when it is in the target set, is not the
   * class itself, and is the dotted form of something the class refers to.
   */
  lemma UsedClassesCharacterization(cf: ClassFile, targetClasses: set<string>, x: string)
    ensures x in UsedClasses(cf, targetClasses) <==>
            x in targetClasses && x != Dotted(cf.header.name) &&
            exists n :: n in ClassMentions(cf) && Dotted(n) == x
  {
  }

  /** The dependency set is the usage set minus what only field declarations contribute. */
  lemma DependenciesWithinUsedClasses(cf: ClassFile, universe: set<string>)
    ensures Dependencies(cf, universe) <= UsedClasses(cf, universe)
    ensures cf.fields == [] ==> Dependencies(cf, universe) == UsedClasses(cf, universe)
  {
    AdmittedMonotonic(HeaderMentions(cf.header) + MethodsMentions(cf.methods), ClassMentions(cf),
                      universe, Some(Dotted(cf.header.name)));
  }

  /** Field declarations never change what the dependency visitor collects. */
  lemma DependenciesIgnoreFields(cf: ClassFile, fields: seq<JType>, universe: set<string>)
    ensures Dependencies(cf.(fields := fields), universe) == Dependencies(cf, universe)
  {
  }

  /** `pkg/X` in dotted form is `pkg.X`. */
  lemma DottedPkgName(n: string, c: char)
    requires n == ['p', 'k', 'g', '/', c] && c != '/'
    ensures Dotted(n) == ['p', 'k', 'g', '.', c]
  {
    var r := ReplaceChar(n, '/', '.');
    assert r[0] == 'p' && r[1] == 'k' && r[2] == 'g' && r[3] == '.' && r[4] == c;
  }

  /**
   * A class `pkg/A` extending `pkg/B` with a field of type `pkg/C`, against
   * the universe {pkg.A, pkg.B, pkg.C}: the usage scan finds {pkg.B, pkg.C}.
   */
  lemma UsageScenario(cf: ClassFile, universe: set<string>)
    requires cf == ClassFile(Header("pkg/A", Some("pkg/B"), []), [Obj("pkg/C")], [])
    requires universe == {"pkg.A", "pkg.B", "pkg.C"}
    ensures UsedClasses(cf, universe) == {"pkg.B", "pkg.C"}
  {
    DottedPkgName("pkg/A", 'A');
    DottedPkgName("pkg/B", 'B');
    DottedPkgName("pkg/C", 'C');
    assert ClassMentions(cf) == {"pkg/B"} + {"pkg/C"};
    AdmittedUnion({"pkg/B"}, {"pkg/C"}, universe, Some("pkg.A"));
    AdmittedSingleton("pkg/B", universe, Some("pkg.A"));
    AdmittedSingleton("pkg/C", universe, Some("pkg.A"));
  }

  /** The same class for the dependency scan, which skips field declarations: only {pkg.B}. */
  lemma DependencyScenario(cf: ClassFile, universe: set<string>)
    requires cf == ClassFile(Header("pkg/A", Some("pkg/B"), []), [Obj("pkg/C")], [])
    requires universe == {"pkg.A", "pkg.B", "pkg.C"}
    ensures Dependencies(cf, universe) == {"pkg.B"}
  {
    DottedPkgName("pkg/A", 'A');
    DottedPkgName("pkg/B", 'B');
    assert HeaderMentions(cf.header) + MethodsMentions(cf.methods) == {"pkg/B"};
    AdmittedSingleton("pkg/B", universe, Some("pkg.A"));
  }
}
