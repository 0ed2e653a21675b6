/** The type classifier tables of Agent.java: the instruction that pushes a
    small int, and per sort the boxing, unboxing and cast sequences. The tables
    are modelled exactly as the source writes them, including the entries that
    disagree with the wrapper classes' real signatures; the contracts say where. */
module Classifier {
  import opened Bytecode

  /** The int an instruction pushes, read as section 6.5 of the JVM
      Specification defines iconst_<i> and ldc; None for anything else. */
  function PushedInt(i: Insn): Option<int> {
    match i
    case Plain(op) => if ICONST_M1 <= op <= ICONST_5 then Some(op - ICONST_0) else None
    case Ldc(IntConst(n)) => Some(n)
    case _ => None
  }

  datatype Option<T> = None | Some(value: T)

  /** `stackIntInsnNode`: ICONST_n for 0..5, an LDC of the int otherwise. */
  function StackInt(n: int): (r: Insn)
    ensures PushedInt(r) == Some(n)
    ensures r.Plain? <==> 0 <= n <= 5
    ensures !r.Plain? ==> r == Ldc(IntConst(n))
  {
    match n
    case 0 => Plain(ICONST_0)
    case 1 => Plain(ICONST_1)
    case 2 => Plain(ICONST_2)
    case 3 => Plain(ICONST_3)
    case 4 => Plain(ICONST_4)
    case 5 => Plain(ICONST_5)
    case _ => Ldc(IntConst(n))
  }

  /** The internal name of a primitive's wrapper class. */
  function Wrapper(s: Sort): string
    requires IsPrimitive(s)
  {
    match s
    case Boolean => "java/lang/Boolean"
    case Char => "java/lang/Character"
    case Byte => "java/lang/Byte"
    case Short => "java/lang/Short"
    case Int => "java/lang/Integer"
    case Float => "java/lang/Float"
    case Long => "java/lang/Long"
    case Double => "java/lang/Double"
  }

  /** The name of the wrapper's real accessor for its primitive value. */
  function AccessorName(s: Sort): string
    requires IsPrimitive(s)
  {
    match s
    case Boolean => "booleanValue"
    case Char => "charValue"
    case Byte => "byteValue"
    case Short => "shortValue"
    case Int => "intValue"
    case Float => "floatValue"
    case Long => "longValue"
    case Double => "doubleValue"
  }

  /** `castToObject`: one static `valueOf` call on the wrapper for a
      primitive, nothing for void and reference sorts (see BoxDescriptors for
      the two entries whose descriptor is not the factory's). */
  function CastToObject(s: Sort): (r: seq<Insn>)
    ensures IsPrimitive(s) <==> |r| == 1
    ensures !IsPrimitive(s) ==> r == []
    ensures IsPrimitive(s) ==> r[0].MethodInsn? && r[0].op == INVOKESTATIC && !r[0].itf
                               && r[0].owner == Wrapper(s) && r[0].name == "valueOf"
  {
    match s
    case Boolean => [MethodInsn(INVOKESTATIC, "java/lang/Boolean", "valueOf", "(Z)Ljava/lang/Boolean;", false)]
    case Byte => [MethodInsn(INVOKESTATIC, "java/lang/Byte", "valueOf", "(B)Ljava/lang/Byte;", false)]
    case Short => [MethodInsn(INVOKESTATIC, "java/lang/Short", "valueOf", "(S)Ljava/lang/Short;", false)]
    case Char => [MethodInsn(INVOKESTATIC, "java/lang/Character", "valueOf", "(C)Ljava/lang/Character;", false)]
    case Int => [MethodInsn(INVOKESTATIC, "java/lang/Integer", "valueOf", "(I)Ljava/lang/Integer;", false)]
    case Long => [MethodInsn(INVOKESTATIC, "java/lang/Long", "valueOf", "(J)Ljava/lang/Long;", false)]
    case Float => [MethodInsn(INVOKESTATIC, "java/lang/Float", "valueOf", "(J)Ljava/lang/Float;", false)]
    case Double => [MethodInsn(INVOKESTATIC, "java/lang/Double", "valueOf", "(B)Ljava/lang/Double;", false)]
    case _ => []
  }

  /** `castFromObject`: one INVOKESPECIAL of the wrapper's accessor for a
      primitive, nothing otherwise; the accessor's descriptor always yields the
      primitive (see UnboxNames for the one misnamed entry). */
  function CastFromObject(s: Sort): (r: seq<Insn>)
    ensures IsPrimitive(s) <==> |r| == 1
    ensures !IsPrimitive(s) ==> r == []
    ensures IsPrimitive(s) ==> r[0].MethodInsn? && r[0].op == INVOKESPECIAL && !r[0].itf
                               && r[0].owner == Wrapper(s) && r[0].desc == "()" + Descriptor(s)
  {
    match s
    case Boolean => [MethodInsn(INVOKESPECIAL, "java/lang/Boolean", "booleanValue", "()Z", false)]
    case Byte => [MethodInsn(INVOKESPECIAL, "java/lang/Byte", "byteValue", "()B", false)]
    case Short => [MethodInsn(INVOKESPECIAL, "java/lang/Short", "shortValue", "()S", false)]
    case Char => [MethodInsn(INVOKESPECIAL, "java/lang/Character", "charValue", "()C", false)]
    case Int => [MethodInsn(INVOKESPECIAL, "java/lang/Integer", "inFalue", "()I", false)]
    case Long => [MethodInsn(INVOKESPECIAL, "java/lang/Long", "longValue", "()J", false)]
    case Float => [MethodInsn(INVOKESPECIAL, "java/lang/Float", "floatValue", "()F", false)]
    case Double => [MethodInsn(INVOKESPECIAL, "java/lang/Double", "doubleValue", "()D", false)]
    case _ => []
  }

  /** `checkcastWithType`: always exactly one CHECKCAST. For a primitive it
      names the same wrapper class that boxing produces and unboxing expects;
      for any other sort it uses the type's descriptor, which for an object type
      is never its internal name. */
  function CheckcastWithType(s: Sort): (r: seq<Insn>)
    ensures |r| == 1 && r[0].TypeInsn? && r[0].op == CHECKCAST
    ensures IsPrimitive(s) ==> r[0].desc == Wrapper(s)
                               && r[0].desc == CastToObject(s)[0].owner == CastFromObject(s)[0].owner
    ensures !IsPrimitive(s) ==> r[0].desc == Descriptor(s)
    ensures s.Object? ==> r[0].desc != s.internalName
  {
    match s
    case Boolean => [TypeInsn(CHECKCAST, "java/lang/Boolean")]
    case Byte => [TypeInsn(CHECKCAST, "java/lang/Byte")]
    case Short => [TypeInsn(CHECKCAST, "java/lang/Short")]
    case Char => [TypeInsn(CHECKCAST, "java/lang/Character")]
    case Int => [TypeInsn(CHECKCAST, "java/lang/Integer")]
    case Long => [TypeInsn(CHECKCAST, "java/lang/Long")]
    case Float => [TypeInsn(CHECKCAST, "java/lang/Float")]
    case Double => [TypeInsn(CHECKCAST, "java/lang/Double")]
    case _ => [TypeInsn(CHECKCAST, Descriptor(s))]
  }

  /** Of the eight `valueOf` calls, exactly float's and double's do not take
      the primitive they are meant to box: the parameter letter of the
      descriptor is the sort's own descriptor for the other six only, and the
      two misfits are written `(J)` and `(B)`. */
  lemma BoxDescriptors(s: Sort)
    requires IsPrimitive(s)
    ensures |CastToObject(s)[0].desc| >= 3
    ensures CastToObject(s)[0].desc[1] == Descriptor(s)[0] <==> s != Float && s != Double
    ensures s == Float ==> CastToObject(s)[0].desc == "(J)Ljava/lang/Float;"
    ensures s == Double ==> CastToObject(s)[0].desc == "(B)Ljava/lang/Double;"
  {
  }

  /** Of the eight accessor calls, exactly int's (`inFalue`) is misnamed. */
  lemma UnboxNames(s: Sort)
    requires IsPrimitive(s)
    ensures CastFromObject(s)[0].name == AccessorName(s) <==> s != Int
    ensures s == Int ==> CastFromObject(s)[0].name == "inFalue"
  {
    if s == Int {
      assert CastFromObject(s)[0].name[2] != AccessorName(s)[2];
    }
  }
}
