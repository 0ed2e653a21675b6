/** The weaving engine of Agent.java: a method node whose instruction list
    and maximum stack depth are rewritten in place, the exit-point locator, the
    splice of the probes, and the per-method loop of `transform`. */
module Agent {
  import opened Bytecode
  import opened Classifier
  import opened Probes
  import opened Splice

  /** The exit points of a body: the positions holding the return
      instruction for the declared return sort. */
  function ReturnPositions(body: seq<Insn>, ret: Sort): set<int> {
    set k | 0 <= k < |body| && Opcode(body[k]) == ReturnOpcode(ret)
  }

  /** What `installListeners` makes of a body: the entry probe in front, and
      an exit probe before every exit point the locator finds. */
  function WeaveBody(methodId: string, isStatic: bool, ctor: bool, args: seq<FieldSort>, ret: Sort,
                     body: seq<Insn>): seq<Insn>
  {
    EntryProbe(methodId, isStatic, ctor, args)
    + Woven(body, ReturnPositions(body, ret), ExitProbe(methodId, isStatic, ctor, ret))
  }

  /** ASM's MethodNode, reduced to what the weaver reads and writes. The
      argument and return sorts are those ASM derives from `desc`. */
  class MethodNode {
    const name: string
    const desc: string
    const access: bv32
    const argSorts: seq<FieldSort>
    const returnSort: Sort
    var instructions: seq<Insn>
    var maxStack: int

    constructor (name: string, desc: string, access: bv32, argSorts: seq<FieldSort>, returnSort: Sort,
                 instructions: seq<Insn>, maxStack: int)
      ensures this.name == name && this.desc == desc && this.access == access
      ensures this.argSorts == argSorts && this.returnSort == returnSort
      ensures this.instructions == instructions && this.maxStack == maxStack
    {
      this.name := name;
      this.desc := desc;
      this.access := access;
      this.argSorts := argSorts;
      this.returnSort := returnSort;
      this.instructions := instructions;
      this.maxStack := maxStack;
    }

    /** What weaving makes of a body of this method. */
    function WeavingOf(body: seq<Insn>): seq<Insn> {
      WeaveBody(MethodId(name, desc), IsStatic(access), IsConstructor(name), argSorts, returnSort, body)
    }

    /** `installListeners`: the entry probe, then the exit probes; the
        maximum stack depth becomes at least 6 and never decreases. */
    method InstallListeners()
      modifies this
      ensures instructions == WeavingOf(old(instructions))
      ensures maxStack == Max(old(maxStack), 6) && maxStack >= old(maxStack)
    {
      var methodId := MethodId(name, desc);
      ghost var body := instructions;
      InstallEnterListener(methodId);
      InstallEndListeners(methodId);
      ExitsBehindEntryProbe(methodId, IsStatic(access), IsConstructor(name), argSorts, returnSort, body);
    }

    /** `installEnterListener`: builds the entry probe argument by argument
        and puts it in front of the body, which is otherwise unchanged. */
    method InstallEnterListener(methodId: string)
      modifies this
      ensures instructions == EntryProbe(methodId, IsStatic(access), IsConstructor(name), argSorts) + old(instructions)
      ensures maxStack == Max(old(maxStack), 6)
    {
      var isStatic := IsStatic(access);
      var nullSubject := isStatic || IsConstructor(name);
      var callEnter: seq<Insn> := [Ldc(StringConst(methodId))];
      if nullSubject {
        callEnter := callEnter + [Plain(ACONST_NULL)];
      } else {
        callEnter := callEnter + [Var(ALOAD, 0)];
      }
      callEnter := callEnter + [StackInt(|argSorts|)];
      callEnter := callEnter + [TypeInsn(ANEWARRAY, OBJECT)];
      ghost var head := callEnter;
      assert head == EntryHead(methodId, nullSubject, |argSorts|);
      var i := 0;
      while i < |argSorts|
        invariant 0 <= i <= |argSorts|
        invariant callEnter == head + ArgStores(argSorts, isStatic, i)
        invariant instructions == old(instructions) && maxStack == old(maxStack)
      {
        var argumentType := argSorts[i];
        callEnter := callEnter + [Plain(DUP)];
        callEnter := callEnter + [StackInt(i)];
        callEnter := callEnter + [Var(LoadOpcode(argumentType), ArgSlot(isStatic, i))];
        callEnter := callEnter + CastToObject(argumentType);
        callEnter := callEnter + [Plain(AASTORE)];
        ArgStoreAppended(head, argSorts, isStatic, i);
        i := i + 1;
      }
      ghost var stores := callEnter;
      callEnter := callEnter + [MethodInsn(INVOKESTATIC, AGENT, "enter", ENTER_DESC, true)];
      callEnter := callEnter + [Plain(POP)];
      assert callEnter == stores + EntryTail();
      assert callEnter == EntryProbe(methodId, IsStatic(access), IsConstructor(name), argSorts);
      instructions := callEnter + instructions;
      maxStack := Max(maxStack, 6);
    }

    /** The scan of `installEndListener(method, methodId)`: the positions of
        every instruction whose opcode is the return opcode of the return sort. */
    method LocateReturns() returns (returnNodes: set<int>)
      ensures returnNodes == ReturnPositions(instructions, returnSort)
    {
      var adaptedOpCode := ReturnOpcode(returnSort);
      returnNodes := {};
      var k := 0;
      while k < |instructions|
        invariant 0 <= k <= |instructions|
        invariant returnNodes == set j | 0 <= j < k && Opcode(instructions[j]) == adaptedOpCode
      {
        if Opcode(instructions[k]) == adaptedOpCode {
          returnNodes := returnNodes + {k};
        }
        k := k + 1;
      }
    }

    /** `installEndListener(method, methodId)`: locate the exit points once,
        then insert an exit probe before each, in whatever order the set is
        walked; the maximum stack depth becomes at least 5. */
    method InstallEndListeners(methodId: string)
      modifies this
      ensures instructions
              == Woven(old(instructions), ReturnPositions(old(instructions), returnSort),
                       ExitProbe(methodId, IsStatic(access), IsConstructor(name), returnSort))
      ensures maxStack == Max(old(maxStack), 5)
    {
      var returnNodes := LocateReturns();
      var body := instructions;
      var probe := ExitProbe(methodId, IsStatic(access), IsConstructor(name), returnSort);
      var pending := returnNodes;
      var done: set<int> := {};
      NoMarksNoChange(body, probe);
      while pending != {}
        invariant pending !! done && pending + done == returnNodes
        invariant instructions == Woven(body, done, probe)
        invariant maxStack == old(maxStack)
        decreases |pending|
      {
        var returnNode :| returnNode in pending;
        // ASM finds the node by its links; here its current index is its
        // original position plus the probes already inserted before it.
        var at := |WovenUpTo(body, done, probe, returnNode)|;
        WovenInsert(body, done, probe, returnNode);
        InstallEndListener(methodId, at);
        pending := pending - {returnNode};
        done := done + {returnNode};
      }
      maxStack := Max(maxStack, 5);
    }

    /** `installEndListener(method, methodId, returnNode)`: builds the exit
        probe for the return sort and inserts it immediately before the
        instruction at index `at`. */
    method InstallEndListener(methodId: string, at: nat)
      requires at < |instructions|
      modifies this`instructions
      ensures instructions
              == old(instructions)[..at] + ExitProbe(methodId, IsStatic(access), IsConstructor(name), returnSort)
                 + old(instructions)[at..]
    {
      ghost var probe := ExitProbe(methodId, IsStatic(access), IsConstructor(name), returnSort);
      var callEnd: seq<Insn>;
      if returnSort == Void {
        callEnd := [Ldc(StringConst(methodId))];
        if IsStatic(access) || IsConstructor(name) {
          callEnd := callEnd + [Plain(ACONST_NULL)];
        } else {
          callEnd := callEnd + [Var(ALOAD, 0)];
        }
        callEnd := callEnd + [MethodInsn(INVOKESTATIC, AGENT, "endVoid", END_VOID_DESC, false)];
        assert callEnd == probe;
      } else {
        callEnd := CastToObject(returnSort);
        ghost var boxed := callEnd;
        callEnd := callEnd + [Ldc(StringConst(methodId))];
        callEnd := callEnd + [Var(ALOAD, 0)];
        callEnd := callEnd + [MethodInsn(INVOKESTATIC, AGENT, "end", END_DESC, false)];
        assert callEnd == boxed + [Ldc(StringConst(methodId)), Var(ALOAD, 0),
                                   MethodInsn(INVOKESTATIC, AGENT, "end", END_DESC, false)];
        callEnd := callEnd + CheckcastWithType(returnSort);
        callEnd := callEnd + CastFromObject(returnSort);
        assert callEnd == probe;
      }
      instructions := instructions[..at] + callEnd + instructions[at..];
    }
  }

  /** The per-method loop of `transform`: every method of the class is woven
      on its own, as if it were the only one. */
  method Transform(methods: seq<MethodNode>)
    requires forall i, j :: 0 <= i < j < |methods| ==> methods[i] != methods[j]
    modifies set m | m in methods
    ensures forall i :: 0 <= i < |methods| ==>
              methods[i].instructions == methods[i].WeavingOf(old(methods[i].instructions))
              && methods[i].maxStack == Max(old(methods[i].maxStack), 6)
  {
    for i := 0 to |methods|
      invariant forall j :: 0 <= j < i ==>
                  methods[j].instructions == methods[j].WeavingOf(old(methods[j].instructions))
                  && methods[j].maxStack == Max(old(methods[j].maxStack), 6)
      invariant forall j :: i <= j < |methods| ==>
                  methods[j].instructions == old(methods[j].instructions)
                  && methods[j].maxStack == old(methods[j].maxStack)
    {
      var m := methods[i];
      label Before:
      m.InstallListeners();
      forall j | 0 <= j < |methods| && j != i
        ensures methods[j].instructions == old@Before(methods[j].instructions)
        ensures methods[j].maxStack == old@Before(methods[j].maxStack)
      {
        assert methods[j] != m;
      }
    }
  }

  /** The entry probe holds no return, so the exit points the locator finds
      behind it are the body's own, and the exit probes go where they would
      have gone without it. */
  lemma ExitsBehindEntryProbe(methodId: string, isStatic: bool, ctor: bool, args: seq<FieldSort>, ret: Sort,
                              body: seq<Insn>)
    ensures var e := EntryProbe(methodId, isStatic, ctor, args);
      var x := ExitProbe(methodId, isStatic, ctor, ret);
      Woven(e + body, ReturnPositions(e + body, ret), x) == e + Woven(body, ReturnPositions(body, ret), x)
  {
    var e := EntryProbe(methodId, isStatic, ctor, args);
    ProbesReturnFree(methodId, isStatic, ctor, args, ret);
    var marks := ReturnPositions(body, ret);
    var shifted := ReturnPositions(e + body, ret);
    forall j | 0 <= j < |e| + |body|
      ensures j in shifted <==> j >= |e| && j - |e| in marks
    {
      if j < |e| {
        assert (e + body)[j] == e[j];
      } else {
        assert (e + body)[j] == body[j - |e|];
      }
    }
    WovenAfterPrefix(e, body, marks, shifted, ExitProbe(methodId, isStatic, ctor, ret));
  }

  /** An original instruction is an exit point of the woven body, at its new
      position, exactly when it was one of the original body. */
  lemma ExitPointsKept(methodId: string, isStatic: bool, ctor: bool, ret: Sort, body: seq<Insn>, k: nat)
    requires k < |body|
    ensures var marks := ReturnPositions(body, ret);
      var x := ExitProbe(methodId, isStatic, ctor, ret);
      Pos(body, marks, x, k) in ReturnPositions(Woven(body, marks, x), ret) <==> k in marks
  {
    WovenLayout(body, ReturnPositions(body, ret), ExitProbe(methodId, isStatic, ctor, ret), k);
  }

  /** Every exit point of the woven body is an original instruction: the
      probes add none, so a later scan could not mistake one for an exit. */
  lemma NoNewExitPoints(methodId: string, isStatic: bool, ctor: bool, ret: Sort, body: seq<Insn>, j: int)
    requires j in ReturnPositions(Woven(body, ReturnPositions(body, ret), ExitProbe(methodId, isStatic, ctor, ret)), ret)
    ensures exists k :: 0 <= k < |body|
                        && j == Pos(body, ReturnPositions(body, ret), ExitProbe(methodId, isStatic, ctor, ret), k)
  {
    var marks := ReturnPositions(body, ret);
    var x := ExitProbe(methodId, isStatic, ctor, ret);
    var w := Woven(body, marks, x);
    ProbesReturnFree(methodId, isStatic, ctor, [], ret);
    WovenCover(body, marks, x, |body|, j);
    var k :| 0 <= k < |body|
             && (j == Pos(body, marks, x, k)
                 || (k in marks && Pos(body, marks, x, k) - |x| <= j < Pos(body, marks, x, k)));
    if j != Pos(body, marks, x, k) {
      WovenProbeAt(body, marks, x, k, j);
    }
  }

  /** The woven body is the original with (number of exit points) copies of
      the exit probe and one entry probe added. */
  lemma WeaveBodyLength(methodId: string, isStatic: bool, ctor: bool, args: seq<FieldSort>, ret: Sort,
                        body: seq<Insn>)
    ensures |WeaveBody(methodId, isStatic, ctor, args, ret, body)|
            == |EntryProbe(methodId, isStatic, ctor, args)| + |body|
               + |ReturnPositions(body, ret)| * |ExitProbe(methodId, isStatic, ctor, ret)|
  {
    WovenLength(body, ReturnPositions(body, ret), ExitProbe(methodId, isStatic, ctor, ret));
  }

  /** Weaving is not idempotent: weaving a woven body again puts a second
      entry probe in front of the first. */
  lemma WeaveTwice(methodId: string, isStatic: bool, ctor: bool, args: seq<FieldSort>, ret: Sort, body: seq<Insn>)
    ensures var e := EntryProbe(methodId, isStatic, ctor, args);
      var once := WeaveBody(methodId, isStatic, ctor, args, ret, body);
      var twice := WeaveBody(methodId, isStatic, ctor, args, ret, once);
      && |twice| >= 2 * |e|
      && twice[..2 * |e|] == e + e
      && twice != once
  {
    var e := EntryProbe(methodId, isStatic, ctor, args);
    var x := ExitProbe(methodId, isStatic, ctor, ret);
    var rest := Woven(body, ReturnPositions(body, ret), x);
    var once := e + rest;
    ExitsBehindEntryProbe(methodId, isStatic, ctor, args, ret, rest);
    var again := Woven(rest, ReturnPositions(rest, ret), x);
    var twice := WeaveBody(methodId, isStatic, ctor, args, ret, once);
    assert twice == e + (e + again);
    assert twice[..2 * |e|] == e + e;
    EntryProbeFrame(methodId, isStatic, ctor, args);
    WovenUpToLength(rest, ReturnPositions(rest, ret), x, |rest|);
    assert |twice| > |once|;
  }
}
