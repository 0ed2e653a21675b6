/** A worked instance of the weaver: a static `int add(int, int)` whose body
    loads both arguments, adds them and returns, woven in full. */
module Scenario {
  import opened Bytecode
  import opened Classifier
  import opened Probes
  import opened Splice
  import opened Agent

  const IADD: int := 96
  const ADD_ID: string := "add(II)I"

  function AddBody(): seq<Insn> {
    [Var(ILOAD, 0), Var(ILOAD, 1), Plain(IADD), Plain(IRETURN)]
  }

  /** The sorts given to the weaver are those of add's descriptor. */
  lemma AddDescriptor()
    ensures MethodDescriptor([Int, Int], Int) == "(II)I"
  {
    assert ParameterDescriptors([Int, Int]) == ParameterDescriptors([Int]) + "I";
    assert [Int, Int][..1] == [Int];
    assert [Int][..0] == [];
  }

  /** The entry probe of add: null subject, two arguments boxed from slots 0
      and 1 into an array of length 2. */
  lemma AddEntryProbe()
    ensures EntryProbe(ADD_ID, true, false, [Int, Int])
            == [Ldc(StringConst(ADD_ID)), Plain(ACONST_NULL), Plain(ICONST_2), TypeInsn(ANEWARRAY, OBJECT),
                Plain(DUP), Plain(ICONST_0), Var(ILOAD, 0), CastToObject(Int)[0], Plain(AASTORE),
                Plain(DUP), Plain(ICONST_1), Var(ILOAD, 1), CastToObject(Int)[0], Plain(AASTORE),
                MethodInsn(INVOKESTATIC, AGENT, "enter", ENTER_DESC, true), Plain(POP)]
  {
    var box := CastToObject(Int)[0];
    assert ArgStore([Int, Int], true, 0) == [Plain(DUP), Plain(ICONST_0), Var(ILOAD, 0), box, Plain(AASTORE)];
    assert ArgStore([Int, Int], true, 1) == [Plain(DUP), Plain(ICONST_1), Var(ILOAD, 1), box, Plain(AASTORE)];
    assert ArgStores([Int, Int], true, 2) == ArgStore([Int, Int], true, 0) + ArgStore([Int, Int], true, 1);
  }

  /** The exit probe of add: box the sum, pass it through `end` with local 0
      as subject, cast the answer to Integer and unbox it with `inFalue`. */
  lemma AddExitProbe()
    ensures ExitProbe(ADD_ID, true, false, Int)
            == [CastToObject(Int)[0], Ldc(StringConst(ADD_ID)), Var(ALOAD, 0),
                MethodInsn(INVOKESTATIC, AGENT, "end", END_DESC, false),
                TypeInsn(CHECKCAST, "java/lang/Integer"),
                MethodInsn(INVOKESPECIAL, "java/lang/Integer", "inFalue", "()I", false)]
  {
  }

  /** Woven in full: the entry probe, the three body instructions before the
      return, the exit probe, the return. */
  lemma AddWoven()
    ensures WeaveBody(MethodId("add", "(II)I"), IsStatic(0x0009), IsConstructor("add"), [Int, Int], Int, AddBody())
            == EntryProbe(ADD_ID, true, false, [Int, Int])
               + [Var(ILOAD, 0), Var(ILOAD, 1), Plain(IADD)]
               + ExitProbe(ADD_ID, true, false, Int)
               + [Plain(IRETURN)]
  {
    var body := AddBody();
    assert MethodId("add", "(II)I") == ADD_ID;
    assert IsStatic(0x0009);
    var x := ExitProbe(ADD_ID, true, false, Int);
    assert ReturnPositions(body, Int) == {3} by {
      assert Opcode(body[3]) == IRETURN;
      forall k | 0 <= k < 3 ensures Opcode(body[k]) != IRETURN { }
    }
    WovenUpToUnmarked(body, {3}, x, 3);
    assert Woven(body, {3}, x) == body[..3] + x + [body[3]];
  }
}
