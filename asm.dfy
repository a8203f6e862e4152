/**
 * What the ASM library hands to a visitor: decoded `Type` values and the
 * sequence of callbacks `ClassReader.accept` makes for one class file.
 * Decoding descriptors and parsing class-file bytes happen inside ASM and are
 * not modelled; their results are the inputs here.
 */
module Asm {

  /** A possibly-null reference. */
  datatype Option<T> = None | Some(value: T)

  /**
   * An ASM `Type` as the visitors see it through `getSort()`: `Obj` is sort
   * OBJECT with its internal name (`java/lang/String`), `Arr` is sort ARRAY
   * with its element type, and `Prim` is every other field sort (void and the
   * eight primitive types).
   */
  datatype JType = Prim | Obj(internalName: string) | Arr(elem: JType)

  /** A decoded method descriptor: argument types and return type. */
  datatype MethodType = MethodType(args: seq<JType>, ret: JType)

  /**
   * The operand of an LDC instruction: a `Type` of a field sort, a `Type` of
   * sort METHOD, or any other constant (numbers, strings, handles, dynamic constants).
   */
  datatype Constant = TypeConstant(t: JType) | MethodTypeConstant(mt: MethodType) | OtherConstant

  /**
   * One instruction callback of a method body. `OtherInsn` stands for every
   * callback the analyzers do not override (visitInsn, visitVarInsn,
   * visitInvokeDynamicInsn, visitMultiANewArrayInsn, visitTryCatchBlock, ...).
   */
  datatype Insn =
    | FieldInsn(owner: string, fieldName: string, descriptor: JType)
    | MethodInsn(owner: string, methodName: string, mtype: MethodType)
    | TypeInsn(operand: string)
    | LdcInsn(value: Constant)
    | OtherInsn

  /** `visitMethod` arguments the analyzers read, followed by the method body's callbacks. */
  datatype MethodDecl = MethodDecl(mtype: MethodType, exceptions: seq<string>, body: seq<Insn>)

  /**
   * `visit` arguments the analyzers read: the class's internal name, its
   * superclass (null only for java/lang/Object) and its interfaces (a null
   * array is the same as an empty one).
   */
  datatype Header = Header(name: string, superName: Option<string>, interfaces: seq<string>)

  /**
   * The callbacks for one class file, in ClassReader's order: `visit`, then
   * `visitField` once per field (its decoded descriptor), then `visitMethod`
   * once per method followed by that method's instructions.
   */
  datatype ClassFile = ClassFile(header: Header, fields: seq<JType>, methods: seq<MethodDecl>)

  /** `t` wrapped in `depth` array dimensions. */
  function ArrayOf(t: JType, depth: nat): (a: JType)
    ensures depth > 0 ==> a.Arr?
  {
    if depth == 0 then t else Arr(ArrayOf(t, depth - 1))
  }

  /** The type left after removing every array dimension. */
  function BaseType(t: JType): (b: JType)
    ensures !b.Arr?
  {
    match t
    case Arr(e) => BaseType(e)
    case _ => t
  }

  /** Array wrapping does not change the base type. */
  lemma {:induction false} BaseTypeOfArray(t: JType, depth: nat)
    ensures BaseType(ArrayOf(t, depth)) == BaseType(t)
  {
    if depth > 0 {
      BaseTypeOfArray(t, depth - 1);
    }
  }
}
