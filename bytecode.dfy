/** The instruction-level vocabulary the weaver works with: the opcodes of
    section 6.5 of the Java Virtual Machine Specification that the probes use,
    the instruction shapes of a method body, the sorts of Java types and their
    descriptors (section 4.3 of the same specification). */
module Bytecode {

  // Opcodes, numbered as in section 6.5 of the JVM Specification.
  const ACONST_NULL: int := 1
  const ICONST_M1: int := 2
  const ICONST_0: int := 3
  const ICONST_1: int := 4
  const ICONST_2: int := 5
  const ICONST_3: int := 6
  const ICONST_4: int := 7
  const ICONST_5: int := 8
  const LDC: int := 18
  const ILOAD: int := 21
  const LLOAD: int := 22
  const FLOAD: int := 23
  const DLOAD: int := 24
  const ALOAD: int := 25
  const AASTORE: int := 83
  const POP: int := 87
  const DUP: int := 89
  const IRETURN: int := 172
  const LRETURN: int := 173
  const FRETURN: int := 174
  const DRETURN: int := 175
  const ARETURN: int := 176
  const RETURN: int := 177
  const INVOKESPECIAL: int := 183
  const INVOKESTATIC: int := 184
  const ANEWARRAY: int := 189
  const CHECKCAST: int := 192

  /** ACC_STATIC, the method access flag of section 4.6 of the JVM Specification. */
  const ACC_STATIC: bv32 := 0x0008

  /** The operand of an LDC instruction: the probes only load strings and ints. */
  datatype Constant = StringConst(str: string) | IntConst(n: int)

  /** One node of a method body. The first five shapes are the node kinds the
      probes are built from; `Other` stands for every other node an original
      body may hold (jumps, field accesses, labels, line numbers, ...), known
      to the weaver only through its opcode (-1 for pseudo-instructions). */
  datatype Insn =
    | Ldc(cst: Constant)
    | Plain(op: int)
    | Var(op: int, slot: int)
    | TypeInsn(op: int, desc: string)
    | MethodInsn(op: int, owner: string, name: string, desc: string, itf: bool)
    | Other(op: int)

  /** The opcode a node reports, as `getOpcode` does for every node kind. */
  function Opcode(i: Insn): int {
    match i
    case Ldc(_) => LDC
    case Plain(op) => op
    case Var(op, _) => op
    case TypeInsn(op, _) => op
    case MethodInsn(op, _, _, _, _) => op
    case Other(op) => op
  }

  predicate IsReturnOpcode(op: int) {
    IRETURN <= op <= RETURN
  }

  /** The sort of a Java type: void, one of the eight primitives, an array or
      an object type given by its internal name. */
  datatype Sort =
    | Void | Boolean | Char | Byte | Short | Int | Float | Long | Double
    | Array(elem: Sort)
    | Object(internalName: string)

  /** A type a parameter or a local can have: anything but void. */
  type FieldSort = s: Sort | s != Void witness Int

  predicate IsPrimitive(s: Sort) {
    s.Boolean? || s.Char? || s.Byte? || s.Short? || s.Int? || s.Float? || s.Long? || s.Double?
  }

  predicate IsReference(s: Sort) {
    s.Array? || s.Object?
  }

  /** The type descriptor of section 4.3.2 of the JVM Specification (with `V`
      for void, as in a method descriptor's return part). */
  function Descriptor(s: Sort): (d: string)
    ensures |d| >= 1
    ensures IsPrimitive(s) || s.Void? <==> |d| == 1
  {
    match s
    case Void => "V"
    case Boolean => "Z"
    case Char => "C"
    case Byte => "B"
    case Short => "S"
    case Int => "I"
    case Float => "F"
    case Long => "J"
    case Double => "D"
    case Array(e) => "[" + Descriptor(e)
    case Object(n) => "L" + n + ";"
  }

  function ParameterDescriptors(args: seq<Sort>): string {
    if args == [] then "" else ParameterDescriptors(args[..|args| - 1]) + Descriptor(args[|args| - 1])
  }

  /** The method descriptor of section 4.3.3 of the JVM Specification. */
  function MethodDescriptor(args: seq<Sort>, ret: Sort): string {
    "(" + ParameterDescriptors(args) + ")" + Descriptor(ret)
  }

  /** How many local-variable slots (and operand-stack words) a value of this
      sort takes: two for long and double, one otherwise (section 2.6.1 of the JVM
      Specification). */
  function Width(s: FieldSort): (w: nat)
    ensures w == 1 || w == 2
  {
    if s == Long || s == Double then 2 else 1
  }

  /** The load instruction for a local of this sort (xLOAD, section 6.5 of the JVM
      Specification). */
  function LoadOpcode(s: FieldSort): (op: int)
    ensures ILOAD <= op <= ALOAD
    ensures op == ALOAD <==> IsReference(s)
    ensures op == LLOAD || op == DLOAD <==> Width(s) == 2
  {
    match s
    case Boolean | Char | Byte | Short | Int => ILOAD
    case Float => FLOAD
    case Long => LLOAD
    case Double => DLOAD
    case Array(_) | Object(_) => ALOAD
  }

  /** The return instruction for a method returning this sort (xRETURN). */
  function ReturnOpcode(s: Sort): (op: int)
    ensures IsReturnOpcode(op)
    ensures op == RETURN <==> s == Void
    ensures s != Void ==> op - IRETURN == LoadOpcode(s) - ILOAD
  {
    match s
    case Void => RETURN
    case Boolean | Char | Byte | Short | Int => IRETURN
    case Float => FRETURN
    case Long => LRETURN
    case Double => DRETURN
    case Array(_) | Object(_) => ARETURN
  }

  function Max(a: int, b: int): (m: int)
    ensures m >= a && m >= b
    ensures m == a || m == b
  {
    if a >= b then a else b
  }
}
