# JavaInterceptors weaver, modelled in Dafny

JavaInterceptors is a Java agent. Its transformer selects one class,
`com/github/grimly/application/Source`, and leaves every other class as
it was. For every method of that class it rewrites the method's bytecode
with ASM:

- An **entry probe** goes at the very start of the body. It calls
  `Agent.enter(methodId, subject, args)`. Here `methodId` is name plus
  descriptor. `subject` is `null` for static methods and constructors,
  and local 0 otherwise. `args` is an `Object[]` of the boxed arguments.
- An **exit probe** goes immediately before every return instruction of
  the method's return type:
  - for `void`, it calls `Agent.endVoid(methodId, subject)`;
  - otherwise, it boxes the value about to be returned, passes it through
    `Agent.end(result, methodId, local 0)`, casts the answer back and
    unboxes it.
- The maximum stack depth is raised to at least 6.

This project models that weaver (`Agent.java`) at the level of
instruction lists. The model covers:

- the per-sort tables: int pushes, boxing, unboxing and casts;
- the two probes, as functions of the method's identifier, kind and sorts;
- a `MethodNode` class, whose instruction list and maximum stack depth
  the weaving methods rewrite in place;
- the exit-point scan, and the splice of an exit probe before each exit;
- the per-method loop of `transform`.

Each method is proved against a specification function. `WeaveBody`
specifies the whole rewrite. `EntryProbe` and `ExitProbe` specify the
probes. `Woven` specifies the splice. Lemmas then state what the
rewrite preserves and what it adds.

The tables are modelled as the source writes them. That includes the
entries that do not match the wrapper classes' real methods:

- `Float.valueOf` and `Double.valueOf` are called with the descriptors
  `(J)` and `(B)`;
- every unboxing call uses INVOKESPECIAL, and `Integer`'s is named
  `inFalue`;
- the non-void exit probe passes local 0 as the subject even for static
  methods;
- argument i is loaded from slot i or i + 1, whatever the widths of the
  earlier arguments;
- `enter` is called on the class `Agent` with the interface flag set,
  while `end` and `endVoid` are called with it clear;
- for an object type, `checkcastWithType` casts to the type's descriptor
  `L<name>;` rather than to its internal name.

Lemmas and contracts state each of these: `BoxDescriptors`, `UnboxNames`,
`ExitProbeFrame`, `ArgSlotVersusJvmSlot` and `CheckcastWithType`, and for
the interface flags `EntryProbeFrame` together with `ExitProbeFrame`.

Files:

- `bytecode.dfy`: opcodes, instruction shapes, sorts, descriptors.
- `classifier.dfy`: `stackIntInsnNode`, `castToObject`, `castFromObject`,
  `checkcastWithType`.
- `probes.dfy`: the two probes and their layout.
- `splice.dfy`: the splice specification `Woven`.
- `sequences.dfy`: generic facts about sequences used by the proofs.
- `agent.dfy`: the `MethodNode` class, the weaving methods and `transform`.
- `scenario.dfy`: one method, `static int add(int, int)`, woven in full.

A node's position in the original body stands in for its identity. ASM inserts each exit probe before
a node object, found in a `HashSet` the scan filled. The model records
the node's position in the body as it was before any insertion. At the
time of an insertion, that node's index is its original position plus
the lengths of the probes already inserted in front of it
(`WovenUpTo`). The set is walked in an order the model leaves open.
`InstallEndListeners` is proved to give the same body whatever that
order is.

## Model

| member | source | states |
|---|---|---|
| Bytecode.LoadOpcode | Agent/src/main/java/com/github/grimly/agent/Agent.java:78 | `getOpcode(ILOAD)`: the load is one of ILOAD..ALOAD; it is ALOAD exactly for references, and LLOAD/DLOAD exactly for two-slot sorts |
| Bytecode.ReturnOpcode | Agent/src/main/java/com/github/grimly/agent/Agent.java:90-91 | `getOpcode(IRETURN)`: always a return opcode; RETURN exactly for void; otherwise at the same offset from IRETURN as the sort's load is from ILOAD |
| Bytecode.Descriptor | Agent/src/main/java/com/github/grimly/agent/Agent.java:253 | a type's descriptor is never empty, and has length 1 exactly for primitives and void |
| Bytecode.Width | Agent/src/main/java/com/github/grimly/agent/Agent.java:78 | every argument occupies one or two local slots |
| Bytecode.Max | Agent/src/main/java/com/github/grimly/agent/Agent.java:86 | `Math.max`: at least both operands, and equal to one of them |
| Classifier.StackInt | Agent/src/main/java/com/github/grimly/agent/Agent.java:139-156 | the instruction pushes exactly n; it is an ICONST exactly when 0 <= n <= 5, and otherwise an LDC of n (negative n included) |
| Classifier.CastToObject | Agent/src/main/java/com/github/grimly/agent/Agent.java:163-192 | exactly one instruction for a primitive, none for void, arrays and objects; the instruction is a non-interface static `valueOf` on the primitive's wrapper |
| Classifier.BoxDescriptors | Agent/src/main/java/com/github/grimly/agent/Agent.java:166-189 | the `valueOf` descriptor's parameter is the primitive's own descriptor for six sorts and not for float or double, whose descriptors are exactly `(J)Ljava/lang/Float;` and `(B)Ljava/lang/Double;` |
| Classifier.CastFromObject | Agent/src/main/java/com/github/grimly/agent/Agent.java:194-223 | exactly one instruction for a primitive, none otherwise; it is a non-interface INVOKESPECIAL on the wrapper with descriptor `()` + the primitive's descriptor |
| Classifier.UnboxNames | Agent/src/main/java/com/github/grimly/agent/Agent.java:197-220 | the accessor's name is the wrapper's real one for every primitive except int, whose accessor is named exactly `inFalue` |
| Classifier.CheckcastWithType | Agent/src/main/java/com/github/grimly/agent/Agent.java:225-257 | always one CHECKCAST; for a primitive it names the wrapper that boxing produced and unboxing uses; otherwise the type's descriptor, which for an object type is never its internal name |
| Probes.IsStatic | Agent/src/main/java/com/github/grimly/agent/Agent.java:131-133 | true exactly when the ACC_STATIC bit is set in the access flags |
| Probes.IsConstructor | Agent/src/main/java/com/github/grimly/agent/Agent.java:135-137 | true exactly for the name `<init>` |
| Probes.MethodId | Agent/src/main/java/com/github/grimly/agent/Agent.java:56 | the identifier is the name followed by the descriptor, with nothing in between |
| Probes.ArgStores | Agent/src/main/java/com/github/grimly/agent/Agent.java:74-81 | the stores of n arguments take between 4n and 5n instructions |
| Probes.EntryProbeFrame | Agent/src/main/java/com/github/grimly/agent/Agent.java:63-84 | the entry probe is: the identifier; null exactly for a static method or a constructor, ALOAD 0 exactly otherwise; a push of the argument count; ANEWARRAY Object; the argument blocks; the `enter` call; POP |
| Probes.EntryArgBlock | Agent/src/main/java/com/github/grimly/agent/Agent.java:74-81 | argument i's block follows argument i-1's inside the entry probe, and holds DUP, the push of i, the sort's load from slot i (static) or i+1, the boxing and AASTORE |
| Probes.ArgSlotVersusJvmSlot | Agent/src/main/java/com/github/grimly/agent/Agent.java:78 | the slot loaded for argument i never exceeds the slot the JVM assigns it, and equals it exactly when no earlier argument is a long or a double |
| Probes.ArgStoresReturnFree | Agent/src/main/java/com/github/grimly/agent/Agent.java:74-81 | the argument blocks hold no return instruction |
| Probes.ProbesReturnFree | Agent/src/main/java/com/github/grimly/agent/Agent.java:63-127 | neither probe holds a return instruction |
| Probes.ExitProbeFrame | Agent/src/main/java/com/github/grimly/agent/Agent.java:108-127 | void: identifier, null exactly for a static method or a constructor, `endVoid`. Otherwise: boxing, identifier, ALOAD 0 whatever the method's kind, `end`, cast, unboxing; the probe is the same for static and instance methods; both hook calls are INVOKESTATIC on `Agent` with their descriptors and the interface flag clear |
| Probes.ExitProbeLength | Agent/src/main/java/com/github/grimly/agent/Agent.java:108-127 | the exit probe has 3 instructions for void, 6 for a primitive, 4 for a reference |
| Splice.WovenUpToLength | Agent/src/main/java/com/github/grimly/agent/Agent.java:99-128 | every marked instruction among the first n adds exactly one probe |
| Splice.WovenLength | Agent/src/main/java/com/github/grimly/agent/Agent.java:99-128 | the spliced body is the original plus one probe per mark |
| Splice.NoMarksNoChange | Agent/src/main/java/com/github/grimly/agent/Agent.java:99 | with no exit points the body is left as it was |
| Splice.WovenLayout | Agent/src/main/java/com/github/grimly/agent/Agent.java:128 | each original instruction survives in order; a marked one is immediately preceded by one copy of the probe; consecutive originals are separated only by that probe |
| Splice.WovenProbeAt | Agent/src/main/java/com/github/grimly/agent/Agent.java:128 | in front of a marked instruction the spliced body holds the probe's instructions in order |
| Splice.WovenCover | Agent/src/main/java/com/github/grimly/agent/Agent.java:128 | every position of the spliced body is an original instruction or lies in the probe before a marked one |
| Splice.WovenInsert | Agent/src/main/java/com/github/grimly/agent/Agent.java:99-128 | inserting the probe before one more node, at that node's current index, gives the splice of the enlarged set of marks |
| Splice.InsertionOrderIrrelevant | Agent/src/main/java/com/github/grimly/agent/Agent.java:99 | two insertions in either order give the same body, so the set's iteration order does not matter |
| Splice.WovenAfterPrefix | Agent/src/main/java/com/github/grimly/agent/Agent.java:84-99 | splicing behind a prefix holding no marks keeps the prefix and splices the rest as before |
| Agent.MethodNode.constructor | Agent/src/main/java/com/github/grimly/agent/Agent.java:45-47 | a method node holds the name, descriptor, access flags, sorts, instructions and maximum stack depth it is given |
| Agent.MethodNode.InstallListeners | Agent/src/main/java/com/github/grimly/agent/Agent.java:55-61 | the instructions become `WeaveBody` of the old ones (entry probe, then an exit probe before every exit point of the original body); the maximum stack depth becomes max(old, 6) |
| Agent.MethodNode.InstallEnterListener | Agent/src/main/java/com/github/grimly/agent/Agent.java:63-87 | the instructions become the entry probe followed by the old ones; the maximum stack depth becomes max(old, 6) |
| Agent.MethodNode.LocateReturns | Agent/src/main/java/com/github/grimly/agent/Agent.java:90-98 | the result is exactly the set of positions whose opcode is the return opcode of the method's return sort |
| Agent.MethodNode.InstallEndListeners | Agent/src/main/java/com/github/grimly/agent/Agent.java:89-106 | whatever order the exit points are visited in, the instructions become the old ones with an exit probe before every exit point; the maximum stack depth becomes max(old, 5) |
| Agent.MethodNode.InstallEndListener | Agent/src/main/java/com/github/grimly/agent/Agent.java:108-129 | the exit probe is inserted immediately before the given node, and the rest of the list is unchanged |
| Agent.Transform | Agent/src/main/java/com/github/grimly/agent/Agent.java:48-49 | every method of the class is woven exactly once, independently of the others |
| Agent.ExitsBehindEntryProbe | Agent/src/main/java/com/github/grimly/agent/Agent.java:58-99 | locating the exits after the entry probe has been inserted finds exactly the original exits, shifted, so the exit probes go where they would go without it |
| Agent.ExitPointsKept | Agent/src/main/java/com/github/grimly/agent/Agent.java:90-128 | an original instruction is an exit point of the woven body, at its new position, exactly when it was one before |
| Agent.NoNewExitPoints | Agent/src/main/java/com/github/grimly/agent/Agent.java:90-128 | every exit point of the woven body is an original instruction: the probes add none |
| Agent.WeaveBodyLength | Agent/src/main/java/com/github/grimly/agent/Agent.java:55-129 | the woven body is the entry probe plus the original plus one exit probe per exit point |
| Agent.WeaveTwice | Agent/src/main/java/com/github/grimly/agent/Agent.java:55-61 | weaving is not idempotent: weaving again puts a second entry probe in front of the first |
| Scenario.AddDescriptor | Agent/src/main/java/com/github/grimly/agent/Agent.java:65 | the sorts (int, int) -> int are those of the descriptor `(II)I` |
| Scenario.AddEntryProbe | Agent/src/main/java/com/github/grimly/agent/Agent.java:63-84 | the entry probe of static `add(II)I`, instruction by instruction |
| Scenario.AddExitProbe | Agent/src/main/java/com/github/grimly/agent/Agent.java:120-127 | the exit probe of `add(II)I`, instruction by instruction, including the INVOKESPECIAL of `inFalue` |
| Scenario.AddWoven | Agent/src/main/java/com/github/grimly/agent/Agent.java:55-61 | weaving `iload 0; iload 1; iadd; ireturn` gives the entry probe, the three instructions, the exit probe and the return |

## Left out

- `premain` and the transformer it registers: the class-name filter and the exception handling. These are JVM wiring around `transform`.
- Reading and writing the class file: `ClassReader`, `ClassNode` and `ClassWriter` in `transform`. Transform starts from the list of method nodes.
- Parsing descriptors with ASM's `Type`: each method node carries its argument and return sorts as data. `MethodDescriptor` relates the two only in the worked example.
- The bodies of `enter`, `end` and `endVoid`. They print and rewrite strings at run time; the probes only call them.
- The second scan in `installEndListener(method, methodId)`. Its loop body is empty and it changes nothing.
- Run-time behaviour of the woven code: the operand stack, verification by the JVM, and what the misdescribed `valueOf`, `inFalue` and INVOKESPECIAL calls would do when executed. The model states what is emitted, not what it does.
- Agent.MethodNode.InstallListeners: does not prove that the stack margins 6 and 5 are enough. For example, an entry probe with a long or double argument needs 7 stack words.
- Agent.Transform: requires the method nodes of the class to be distinct objects. Node identity, linked-list links and aliasing between method nodes are not modelled; each `MethodNode` owns its instruction sequence.
- Agent.MethodNode.InstallEndListeners: a node is identified by its position in the original body rather than by object identity. The set is walked in an order the model leaves unspecified.
