/** Probe synthesis: the entry probe `installEnterListener` builds and the exit
    probe `installEndListener(method, methodId, returnNode)` builds, as
    functions of the method's identifier, shape and sorts. */
module Probes {
  import opened Bytecode
  import opened Classifier
  import opened Sequences

  const AGENT: string := "com/github/grimly/agent/Agent"
  const OBJECT: string := "java/lang/Object"
  const ENTER_DESC: string := "(Ljava/lang/String;Ljava/lang/Object;[Ljava/lang/Object;)Ljava/lang/Void;"
  const END_DESC: string := "(Ljava/lang/Object;Ljava/lang/String;Ljava/lang/Object;)Ljava/lang/Object;"
  const END_VOID_DESC: string := "(Ljava/lang/String;Ljava/lang/Object;)V"

  /** `isStatic`: the ACC_STATIC bit (value 8) of the access flags is set. */
  function IsStatic(access: bv32): (r: bool)
    ensures r <==> access | ACC_STATIC == access
  {
    access & ACC_STATIC != 0
  }

  /** `isConstructor`: the method is named `<init>`. */
  function IsConstructor(name: string): bool {
    name == "<init>"
  }

  /** The identifier both probes pass to the hooks: name followed by descriptor. */
  function MethodId(name: string, desc: string): (id: string)
    ensures |id| == |name| + |desc| && id[..|name|] == name && id[|name|..] == desc
  {
    name + desc
  }

  /** The "subject" push: null for static methods and constructors, the
      receiver in local slot 0 otherwise. */
  function Subject(nullSubject: bool): Insn {
    if nullSubject then Plain(ACONST_NULL) else Var(ALOAD, 0)
  }

  /** The local slot the entry probe loads argument i from: i for a static
      method, i + 1 otherwise, whatever the widths of the earlier arguments. */
  function ArgSlot(isStatic: bool, i: int): int {
    if isStatic then i else i + 1
  }

  /** The instructions one iteration of the argument loop adds: duplicate the
      array, push the index, load the argument, box it, store it. */
  function ArgStore(args: seq<FieldSort>, isStatic: bool, i: nat): seq<Insn>
    requires i < |args|
  {
    [Plain(DUP), StackInt(i), Var(LoadOpcode(args[i]), ArgSlot(isStatic, i))]
    + CastToObject(args[i]) + [Plain(AASTORE)]
  }

  /** Appending argument i's block one instruction at a time, behind any
      head and the first i blocks, gives the first i + 1 blocks. */
  lemma ArgStoreAppended(head: seq<Insn>, args: seq<FieldSort>, isStatic: bool, i: nat)
    requires i < |args|
    ensures head + ArgStores(args, isStatic, i)
            + [Plain(DUP)] + [StackInt(i)] + [Var(LoadOpcode(args[i]), ArgSlot(isStatic, i))]
            + CastToObject(args[i]) + [Plain(AASTORE)]
            == head + ArgStores(args, isStatic, i + 1)
  {
    var prev := ArgStores(args, isStatic, i);
    var a, b, c := Plain(DUP), StackInt(i), Var(LoadOpcode(args[i]), ArgSlot(isStatic, i));
    var d, e := CastToObject(args[i]), [Plain(AASTORE)];
    Regroup(head + prev, [a], [b], [c], d, e);
    assert [a] + [b] + [c] == [a, b, c];
    Associate(head, prev, ArgStore(args, isStatic, i));
  }

  /** The stores for the first n arguments, in declaration order. */
  function ArgStores(args: seq<FieldSort>, isStatic: bool, n: nat): (r: seq<Insn>)
    requires n <= |args|
    ensures 4 * n <= |r| <= 5 * n
  {
    if n == 0 then [] else ArgStores(args, isStatic, n - 1) + ArgStore(args, isStatic, n - 1)
  }

  /** The first four instructions of the entry probe: identifier, subject,
      argument count and the allocation of the Object[] for the arguments. */
  function EntryHead(methodId: string, nullSubject: bool, count: int): seq<Insn> {
    [Ldc(StringConst(methodId)), Subject(nullSubject), StackInt(count), TypeInsn(ANEWARRAY, OBJECT)]
  }

  /** The last two: the call of the entry hook and the discarding of its result. */
  function EntryTail(): seq<Insn> {
    [MethodInsn(INVOKESTATIC, AGENT, "enter", ENTER_DESC, true), Plain(POP)]
  }

  /** The entry probe `installEnterListener` puts in front of the body. */
  function EntryProbe(methodId: string, isStatic: bool, ctor: bool, args: seq<FieldSort>): seq<Insn> {
    EntryHead(methodId, isStatic || ctor, |args|) + ArgStores(args, isStatic, |args|) + EntryTail()
  }

  /** The exit probe inserted before each return: for void, report the exit;
      otherwise box the result, pass it through the `end` hook with the
      identifier and local slot 0 (for static methods too), cast the hook's
      answer back and unbox it. */
  function ExitProbe(methodId: string, isStatic: bool, ctor: bool, ret: Sort): seq<Insn> {
    if ret == Void then
      [Ldc(StringConst(methodId)), Subject(isStatic || ctor),
       MethodInsn(INVOKESTATIC, AGENT, "endVoid", END_VOID_DESC, false)]
    else
      CastToObject(ret)
      + [Ldc(StringConst(methodId)), Var(ALOAD, 0), MethodInsn(INVOKESTATIC, AGENT, "end", END_DESC, false)]
      + CheckcastWithType(ret) + CastFromObject(ret)
  }

  /** A probe holds no return instruction. */
  predicate ReturnFree(code: seq<Insn>) {
    forall k :: 0 <= k < |code| ==> !IsReturnOpcode(Opcode(code[k]))
  }

  /** Where the block of argument i starts in the entry probe. */
  function ArgOffset(args: seq<FieldSort>, isStatic: bool, i: nat): nat
    requires i <= |args|
  {
    4 + |ArgStores(args, isStatic, i)|
  }

  lemma {:induction false} ArgStoresPrefix(args: seq<FieldSort>, isStatic: bool, i: nat, n: nat)
    requires i <= n <= |args|
    ensures |ArgStores(args, isStatic, i)| <= |ArgStores(args, isStatic, n)|
    ensures ArgStores(args, isStatic, n)[..|ArgStores(args, isStatic, i)|] == ArgStores(args, isStatic, i)
    decreases n
  {
    if i < n {
      ArgStoresPrefix(args, isStatic, i, n - 1);
      var p := ArgStores(args, isStatic, n - 1);
      assert ArgStores(args, isStatic, n) == p + ArgStore(args, isStatic, n - 1);
      assert (p + ArgStore(args, isStatic, n - 1))[..|p|] == p;
    }
  }

  /** The frame of the entry probe: the identifier, the subject (null
      exactly for static methods and constructors), the push of the argument
      count and the array allocation; then the argument blocks; then the call
      of the entry hook and the POP of its result. */
  lemma EntryProbeFrame(methodId: string, isStatic: bool, ctor: bool, args: seq<FieldSort>)
    ensures var e := EntryProbe(methodId, isStatic, ctor, args);
      && |e| == ArgOffset(args, isStatic, |args|) + 2
      && e[0] == Ldc(StringConst(methodId))
      && (e[1] == Plain(ACONST_NULL) <==> isStatic || ctor)
      && (e[1] == Var(ALOAD, 0) <==> !(isStatic || ctor))
      && PushedInt(e[2]) == Some(|args|)
      && e[3] == TypeInsn(ANEWARRAY, OBJECT)
      && e[4 .. |e| - 2] == ArgStores(args, isStatic, |args|)
      && e[|e| - 2 ..] == EntryTail()
  {
    var e := EntryProbe(methodId, isStatic, ctor, args);
    var h := EntryHead(methodId, isStatic || ctor, |args|);
    var all := ArgStores(args, isStatic, |args|);
    assert e == h + all + EntryTail();
    assert e[..4] == h;
    assert e[4 .. |e| - 2] == all;
  }

  /** Argument i's block sits at ArgOffset(i), right after argument i - 1's:
      it duplicates the array reference, pushes i, loads the argument from
      slot i (static) or i + 1 with its sort's load instruction, boxes it and
      stores it into the array. */
  lemma EntryArgBlock(methodId: string, isStatic: bool, ctor: bool, args: seq<FieldSort>, i: nat)
    requires i < |args|
    ensures ArgOffset(args, isStatic, i + 1) == ArgOffset(args, isStatic, i) + |ArgStore(args, isStatic, i)|
    ensures ArgOffset(args, isStatic, i + 1) <= |EntryProbe(methodId, isStatic, ctor, args)| - 2
    ensures EntryProbe(methodId, isStatic, ctor, args)[ArgOffset(args, isStatic, i) .. ArgOffset(args, isStatic, i + 1)]
            == ArgStore(args, isStatic, i)
  {
    var upto := ArgStores(args, isStatic, i + 1);
    ArgStoresPrefix(args, isStatic, i + 1, |args|);
    var e := EntryProbe(methodId, isStatic, ctor, args);
    var h := EntryHead(methodId, isStatic || ctor, |args|);
    var before, blk := ArgStores(args, isStatic, i), ArgStore(args, isStatic, i);
    BlockWithin(e, h, ArgStores(args, isStatic, |args|), EntryTail(), upto, before, blk);
    assert ArgOffset(args, isStatic, i) == |h| + |before|;
  }

  /** The argument loads read slots i (static) or i + 1 (otherwise); the slot
      the JVM assigns to argument i adds up the widths of the arguments before
      it (section 2.6.1 of the JVM Specification). */
  function JvmSlot(args: seq<FieldSort>, isStatic: bool, i: nat): nat
    requires i <= |args|
  {
    if i == 0 then (if isStatic then 0 else 1) else JvmSlot(args, isStatic, i - 1) + Width(args[i - 1])
  }

  /** The entry probe's slot never passes the JVM's, and matches it exactly
      when no earlier argument is a long or a double. */
  lemma {:induction false} ArgSlotVersusJvmSlot(args: seq<FieldSort>, isStatic: bool, i: nat)
    requires i <= |args|
    ensures ArgSlot(isStatic, i) <= JvmSlot(args, isStatic, i)
    ensures ArgSlot(isStatic, i) == JvmSlot(args, isStatic, i) <==> forall j :: 0 <= j < i ==> Width(args[j]) == 1
  {
    if i > 0 {
      ArgSlotVersusJvmSlot(args, isStatic, i - 1);
      if Width(args[i - 1]) == 2 {
        assert ArgSlot(isStatic, i) != JvmSlot(args, isStatic, i);
      }
    }
  }

  lemma ReturnFreeConcat(a: seq<Insn>, b: seq<Insn>)
    requires ReturnFree(a) && ReturnFree(b)
    ensures ReturnFree(a + b)
  {
    forall k | 0 <= k < |a + b|
      ensures !IsReturnOpcode(Opcode((a + b)[k]))
    {
      if k < |a| {
        assert (a + b)[k] == a[k];
      } else {
        assert (a + b)[k] == b[k - |a|];
      }
    }
  }

  /** The boxing, cast and unboxing sequences hold no return. */
  lemma ConversionsReturnFree(s: Sort)
    ensures ReturnFree(CastToObject(s)) && ReturnFree(CheckcastWithType(s)) && ReturnFree(CastFromObject(s))
  {
  }

  lemma ArgStoreReturnFree(args: seq<FieldSort>, isStatic: bool, i: nat)
    requires i < |args|
    ensures ReturnFree(ArgStore(args, isStatic, i))
  {
    var loads := [Plain(DUP), StackInt(i), Var(LoadOpcode(args[i]), ArgSlot(isStatic, i))];
    assert ReturnFree(loads) by {
      assert Opcode(StackInt(i)) < IRETURN;
    }
    ConversionsReturnFree(args[i]);
    ReturnFreeConcat(loads, CastToObject(args[i]));
    ReturnFreeConcat(loads + CastToObject(args[i]), [Plain(AASTORE)]);
  }

  lemma {:induction false} ArgStoresReturnFree(args: seq<FieldSort>, isStatic: bool, n: nat)
    requires n <= |args|
    ensures ReturnFree(ArgStores(args, isStatic, n))
  {
    if n > 0 {
      var prev, blk := ArgStores(args, isStatic, n - 1), ArgStore(args, isStatic, n - 1);
      ArgStoresReturnFree(args, isStatic, n - 1);
      ArgStoreReturnFree(args, isStatic, n - 1);
      ReturnFreeConcat(prev, blk);
      assert ArgStores(args, isStatic, n) == prev + blk;
    }
  }

  /** Neither probe contains a return instruction, so splicing them in never
      creates an exit point the locator would find. */
  lemma ProbesReturnFree(methodId: string, isStatic: bool, ctor: bool, args: seq<FieldSort>, ret: Sort)
    ensures ReturnFree(EntryProbe(methodId, isStatic, ctor, args))
    ensures ReturnFree(ExitProbe(methodId, isStatic, ctor, ret))
  {
    var head := EntryHead(methodId, isStatic || ctor, |args|);
    assert ReturnFree(head) by {
      assert Opcode(StackInt(|args|)) < IRETURN;
    }
    ArgStoresReturnFree(args, isStatic, |args|);
    ReturnFreeConcat(head, ArgStores(args, isStatic, |args|));
    ReturnFreeConcat(head + ArgStores(args, isStatic, |args|), EntryTail());
    if ret != Void {
      var call := [Ldc(StringConst(methodId)), Var(ALOAD, 0), MethodInsn(INVOKESTATIC, AGENT, "end", END_DESC, false)];
      ConversionsReturnFree(ret);
      ReturnFreeConcat(CastToObject(ret), call);
      ReturnFreeConcat(CastToObject(ret) + call, CheckcastWithType(ret));
      ReturnFreeConcat(CastToObject(ret) + call + CheckcastWithType(ret), CastFromObject(ret));
    }
  }

  /** The frame of the exit probe. For void it reports the identifier and a
      subject that is null exactly for static methods and constructors. For
      any other sort the result is boxed, the identifier and local slot 0 are
      pushed whatever the method's kind (so a static method passes its first
      argument, or nothing meaningful, as the subject), the hook is called and
      its answer is cast back and unboxed. Both hooks are called as class
      methods (interface flag false), unlike `enter` in EntryTail. */
  lemma ExitProbeFrame(methodId: string, isStatic: bool, ctor: bool, ret: Sort)
    ensures var x := ExitProbe(methodId, isStatic, ctor, ret);
      ret == Void ==>
        && |x| == 3 && x[0] == Ldc(StringConst(methodId))
        && (x[1] == Plain(ACONST_NULL) <==> isStatic || ctor)
        && (x[1] == Var(ALOAD, 0) <==> !(isStatic || ctor))
        && x[2] == MethodInsn(INVOKESTATIC, AGENT, "endVoid", END_VOID_DESC, false)
    ensures var x := ExitProbe(methodId, isStatic, ctor, ret);
      var b := |CastToObject(ret)|;
      ret != Void ==>
        && |x| == b + 4 + |CastFromObject(ret)|
        && x[..b] == CastToObject(ret)
        && x[b] == Ldc(StringConst(methodId))
        && x[b + 1] == Var(ALOAD, 0)
        && x[b + 2] == MethodInsn(INVOKESTATIC, AGENT, "end", END_DESC, false)
        && x[b + 3..] == CheckcastWithType(ret) + CastFromObject(ret)
        && x == ExitProbe(methodId, !isStatic, !ctor, ret)
  {
    if ret != Void {
      var x := ExitProbe(methodId, isStatic, ctor, ret);
      var b := CastToObject(ret);
      var call := [Ldc(StringConst(methodId)), Var(ALOAD, 0), MethodInsn(INVOKESTATIC, AGENT, "end", END_DESC, false)];
      var tail := CheckcastWithType(ret) + CastFromObject(ret);
      assert x == b + call + tail;
      assert x[..|b|] == b;
      assert x[|b| + 3..] == tail;
    }
  }

  /** The exit probe's length: 3 for void, otherwise 4 plus one box and one
      unbox call for a primitive. */
  lemma ExitProbeLength(methodId: string, isStatic: bool, ctor: bool, ret: Sort)
    ensures |ExitProbe(methodId, isStatic, ctor, ret)|
            == if ret == Void then 3 else if IsPrimitive(ret) then 6 else 4
  {
  }
}
