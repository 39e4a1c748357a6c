/**
  The value view of a decoded class: its constant-bearing sites, what the
  token pass turns each of them into, and when it raises the change flag.
  The heap objects of ClassTree are read back as these values.
 */
module ClassModel {
  import opened Tokens

  datatype Option<T> = None | Some(value: T)

  /** A method handle constant (org.objectweb.asm.Handle). */
  datatype MethodHandle = MethodHandle(tag: nat, owner: string, name: string, desc: string, isInterface: bool)

  /** An operand of ldc, a bootstrap argument or a field initialiser. */
  datatype Const =
    | Str(s: string)
    | Num(n: int)                                         // Integer, Long, Float and Double operands
    | TypeRef(desc: string)                               // org.objectweb.asm.Type
    | Handle(handle: MethodHandle)
    | Condy(name: string, desc: string, bsm: MethodHandle) // org.objectweb.asm.ConstantDynamic

  /** An instruction: ldc, invokedynamic, or any other node of the instruction list. */
  datatype InsnState =
    | LdcState(cst: Const)
    | IndyState(name: string, desc: string, bsm: MethodHandle, bsmArgs: seq<Const>)
    | OtherState(opcode: int)

  datatype MethodState = MethodState(name: string, desc: string, instructions: seq<InsnState>)

  /** A field; value None stands for a null initialiser. */
  datatype FieldState = FieldState(name: string, desc: string, value: Option<Const>)

  datatype ClassState = ClassState(name: string, methods: seq<MethodState>, fields: seq<FieldState>)

  // ---------------------------------------------------------------------------
  // What the pass writes back

  /** A string constant is run through the entry loop; any other constant is kept. */
  function RewriteConst(c: Const, tokens: TokenMap): (r: Const)
    ensures r.Str? == c.Str?
    ensures c.Str? ==> r.s == Substitute(c.s, tokens)
    ensures !c.Str? ==> r == c
  {
    if c.Str? then Str(Substitute(c.s, tokens)) else c
  }

  /** Only a string constant can raise the flag. */
  predicate ConstChanged(c: Const, tokens: TokenMap) {
    c.Str? && Changed(c.s, tokens)
  }

  /** The bootstrap arguments after the index loop: same length, every slot rewritten in place. */
  function RewriteArgs(args: seq<Const>, tokens: TokenMap): (r: seq<Const>)
    ensures |r| == |args|
    ensures forall i | 0 <= i < |args| :: r[i] == RewriteConst(args[i], tokens)
  {
    seq(|args|, i requires 0 <= i < |args| => RewriteConst(args[i], tokens))
  }

  predicate ArgsChanged(args: seq<Const>, tokens: TokenMap) {
    exists i | 0 <= i < |args| :: ConstChanged(args[i], tokens)
  }

  /**
    ldc and invokedynamic keep their kind, their bootstrap method and their argument
    count, whichever bootstrap method the call site uses; other instructions are kept.
   */
  function RewriteInsn(insn: InsnState, tokens: TokenMap): (r: InsnState)
    ensures r.LdcState? == insn.LdcState? && r.IndyState? == insn.IndyState?
    ensures insn.OtherState? ==> r == insn
    ensures insn.IndyState? ==>
      r.name == insn.name && r.desc == insn.desc && r.bsm == insn.bsm && |r.bsmArgs| == |insn.bsmArgs|
  {
    match insn
    case LdcState(cst) => LdcState(RewriteConst(cst, tokens))
    case IndyState(name, desc, bsm, args) => IndyState(name, desc, bsm, RewriteArgs(args, tokens))
    case OtherState(_) => insn
  }

  predicate InsnChanged(insn: InsnState, tokens: TokenMap) {
    match insn
    case LdcState(cst) => ConstChanged(cst, tokens)
    case IndyState(_, _, _, args) => ArgsChanged(args, tokens)
    case OtherState(_) => false
  }

  /** The instruction list keeps its length and order; each instruction is rewritten where it stands. */
  function RewriteMethod(m: MethodState, tokens: TokenMap): (r: MethodState)
    ensures r.name == m.name && r.desc == m.desc
    ensures |r.instructions| == |m.instructions|
    ensures forall k | 0 <= k < |m.instructions| :: r.instructions[k] == RewriteInsn(m.instructions[k], tokens)
  {
    MethodState(m.name, m.desc,
      seq(|m.instructions|, k requires 0 <= k < |m.instructions| => RewriteInsn(m.instructions[k], tokens)))
  }

  predicate MethodChanged(m: MethodState, tokens: TokenMap) {
    exists k | 0 <= k < |m.instructions| :: InsnChanged(m.instructions[k], tokens)
  }

  /** A field keeps its name and descriptor; a null or non-string initialiser is kept. */
  function RewriteField(f: FieldState, tokens: TokenMap): (r: FieldState)
    ensures r.name == f.name && r.desc == f.desc
    ensures r.value.Some? == f.value.Some?
    ensures f.value.Some? ==> r.value.value == RewriteConst(f.value.value, tokens)
  {
    match f.value
    case None => f
    case Some(c) => FieldState(f.name, f.desc, Some(RewriteConst(c, tokens)))
  }

  predicate FieldChanged(f: FieldState, tokens: TokenMap) {
    f.value.Some? && ConstChanged(f.value.value, tokens)
  }

  /** The class keeps its methods and fields, in number and order. */
  function RewriteClass(c: ClassState, tokens: TokenMap): (r: ClassState)
    ensures r.name == c.name
    ensures |r.methods| == |c.methods| && |r.fields| == |c.fields|
    ensures forall i | 0 <= i < |c.methods| :: r.methods[i] == RewriteMethod(c.methods[i], tokens)
    ensures forall i | 0 <= i < |c.fields| :: r.fields[i] == RewriteField(c.fields[i], tokens)
  {
    ClassState(c.name,
      seq(|c.methods| , i requires 0 <= i < |c.methods| => RewriteMethod(c.methods[i], tokens)),
      seq(|c.fields|, i requires 0 <= i < |c.fields| => RewriteField(c.fields[i], tokens)))
  }

  /** The class-level flag: the OR of the flags of all sites. */
  predicate ClassChanged(c: ClassState, tokens: TokenMap) {
    || (exists i | 0 <= i < |c.methods| :: MethodChanged(c.methods[i], tokens))
    || (exists i | 0 <= i < |c.fields| :: FieldChanged(c.fields[i], tokens))
  }

  // ---------------------------------------------------------------------------
  // Where the string constants of a class are

  predicate InsnHasString(insn: InsnState, s: string) {
    match insn
    case LdcState(cst) => cst == Str(s)
    case IndyState(_, _, _, args) => Str(s) in args
    case OtherState(_) => false
  }

  predicate MethodHasString(m: MethodState, s: string) {
    exists k | 0 <= k < |m.instructions| :: InsnHasString(m.instructions[k], s)
  }

  predicate FieldHasString(f: FieldState, s: string) {
    f.value == Some(Str(s))
  }

  /** s is the string operand of an ldc, a string bootstrap argument or a string field initialiser of c. */
  ghost predicate ClassHasString(c: ClassState, s: string) {
    || (exists i | 0 <= i < |c.methods| :: MethodHasString(c.methods[i], s))
    || (exists i | 0 <= i < |c.fields| :: FieldHasString(c.fields[i], s))
  }

  // ---------------------------------------------------------------------------
  // Properties of the pass over one class

  lemma ConstUnflaggedUnchanged(c: Const, tokens: TokenMap)
    ensures !ConstChanged(c, tokens) ==> RewriteConst(c, tokens) == c
  {
    if c.Str? {
      NetChangeRaisesFlag(c.s, tokens);
    }
  }

  lemma InsnUnflaggedUnchanged(insn: InsnState, tokens: TokenMap)
    ensures !InsnChanged(insn, tokens) ==> RewriteInsn(insn, tokens) == insn
  {
    match insn
    case LdcState(cst) => ConstUnflaggedUnchanged(cst, tokens);
    case IndyState(name, desc, bsm, args) =>
      if !ArgsChanged(args, tokens) {
        forall i | 0 <= i < |args| ensures RewriteArgs(args, tokens)[i] == args[i] {
          ConstUnflaggedUnchanged(args[i], tokens);
        }
        assert RewriteArgs(args, tokens) == args;
      }
    case OtherState(_) =>
  }

  lemma MethodUnflaggedUnchanged(m: MethodState, tokens: TokenMap)
    ensures !MethodChanged(m, tokens) ==> RewriteMethod(m, tokens) == m
  {
    if !MethodChanged(m, tokens) {
      var r := RewriteMethod(m, tokens);
      forall k | 0 <= k < |m.instructions| ensures r.instructions[k] == m.instructions[k] {
        InsnUnflaggedUnchanged(m.instructions[k], tokens);
      }
      assert r.instructions == m.instructions;
    }
  }

  /**
    When the class-level flag stays false, the tree the pass leaves behind equals the
    decoded one: skipping re-encoding loses nothing.
   */
  lemma UnflaggedClassUnchanged(c: ClassState, tokens: TokenMap)
    ensures !ClassChanged(c, tokens) ==> RewriteClass(c, tokens) == c
  {
    if !ClassChanged(c, tokens) {
      var r := RewriteClass(c, tokens);
      forall i | 0 <= i < |c.methods| ensures r.methods[i] == c.methods[i] {
        MethodUnflaggedUnchanged(c.methods[i], tokens);
      }
      forall i | 0 <= i < |c.fields| ensures r.fields[i] == c.fields[i] {
        if c.fields[i].value.Some? {
          ConstUnflaggedUnchanged(c.fields[i].value.value, tokens);
        }
      }
      assert r.methods == c.methods;
      assert r.fields == c.fields;
    }
  }

  lemma ConstChangedIff(c: Const, tokens: TokenMap)
    ensures ConstChanged(c, tokens) <==> c.Str? && HitsToken(c.s, tokens)
  {
    if c.Str? {
      ChangedIffHitsToken(c.s, tokens);
    }
  }

  lemma InsnChangedIff(insn: InsnState, tokens: TokenMap)
    ensures InsnChanged(insn, tokens) <==> exists s :: InsnHasString(insn, s) && HitsToken(s, tokens)
  {
    match insn
    case LdcState(cst) =>
      ConstChangedIff(cst, tokens);
      if cst.Str? {
        assert InsnHasString(insn, cst.s);
      }
    case IndyState(_, _, _, args) =>
      if ArgsChanged(args, tokens) {
        var i :| 0 <= i < |args| && ConstChanged(args[i], tokens);
        ConstChangedIff(args[i], tokens);
        assert InsnHasString(insn, args[i].s);
      }
      if exists s :: InsnHasString(insn, s) && HitsToken(s, tokens) {
        var s :| InsnHasString(insn, s) && HitsToken(s, tokens);
        var i :| 0 <= i < |args| && args[i] == Str(s);
        ConstChangedIff(args[i], tokens);
      }
    case OtherState(_) =>
  }

  lemma MethodChangedIff(m: MethodState, tokens: TokenMap)
    ensures MethodChanged(m, tokens) <==> exists s :: MethodHasString(m, s) && HitsToken(s, tokens)
  {
    if MethodChanged(m, tokens) {
      var k :| 0 <= k < |m.instructions| && InsnChanged(m.instructions[k], tokens);
      InsnChangedIff(m.instructions[k], tokens);
      var s :| InsnHasString(m.instructions[k], s) && HitsToken(s, tokens);
      assert MethodHasString(m, s);
    }
    if exists s :: MethodHasString(m, s) && HitsToken(s, tokens) {
      var s :| MethodHasString(m, s) && HitsToken(s, tokens);
      var k :| 0 <= k < |m.instructions| && InsnHasString(m.instructions[k], s);
      InsnChangedIff(m.instructions[k], tokens);
    }
  }

  /**
    The class is flagged (and so re-encoded and written) exactly when one of its string
    constants contains some key whose value differs from the key.
   */
  lemma ClassChangedIff(c: ClassState, tokens: TokenMap)
    ensures ClassChanged(c, tokens) <==> exists s :: ClassHasString(c, s) && HitsToken(s, tokens)
  {
    if exists i | 0 <= i < |c.methods| :: MethodChanged(c.methods[i], tokens) {
      var i :| 0 <= i < |c.methods| && MethodChanged(c.methods[i], tokens);
      MethodChangedIff(c.methods[i], tokens);
      var s :| MethodHasString(c.methods[i], s) && HitsToken(s, tokens);
      assert ClassHasString(c, s);
    }
    if exists i | 0 <= i < |c.fields| :: FieldChanged(c.fields[i], tokens) {
      var i :| 0 <= i < |c.fields| && FieldChanged(c.fields[i], tokens);
      ConstChangedIff(c.fields[i].value.value, tokens);
      assert FieldHasString(c.fields[i], c.fields[i].value.value.s);
    }
    if exists s :: ClassHasString(c, s) && HitsToken(s, tokens) {
      var s :| ClassHasString(c, s) && HitsToken(s, tokens);
      if exists i | 0 <= i < |c.methods| :: MethodHasString(c.methods[i], s) {
        var i :| 0 <= i < |c.methods| && MethodHasString(c.methods[i], s);
        MethodChangedIff(c.methods[i], tokens);
      } else {
        var i :| 0 <= i < |c.fields| && FieldHasString(c.fields[i], s);
        ConstChangedIff(c.fields[i].value.value, tokens);
      }
    }
  }

  /**
    A class none of whose string constants contains a key (with a value other than the key)
    is neither flagged nor altered; numbers, types, handles and dynamic constants play no part.
   */
  lemma NoTokenClassUntouched(c: ClassState, tokens: TokenMap)
    requires forall s :: ClassHasString(c, s) ==> !HitsToken(s, tokens)
    ensures !ClassChanged(c, tokens)
    ensures RewriteClass(c, tokens) == c
  {
    ClassChangedIff(c, tokens);
    UnflaggedClassUnchanged(c, tokens);
  }

  // ---------------------------------------------------------------------------
  // The shape of a class: everything but the text of its string constants

  /** A constant with the text of a string blanked out. */
  function EraseConst(c: Const): Const {
    if c.Str? then Str("") else c
  }

  function EraseInsn(insn: InsnState): InsnState {
    match insn
    case LdcState(cst) => LdcState(EraseConst(cst))
    case IndyState(name, desc, bsm, args) =>
      IndyState(name, desc, bsm, seq(|args|, i requires 0 <= i < |args| => EraseConst(args[i])))
    case OtherState(_) => insn
  }

  function EraseMethod(m: MethodState): MethodState {
    MethodState(m.name, m.desc,
      seq(|m.instructions|, k requires 0 <= k < |m.instructions| => EraseInsn(m.instructions[k])))
  }

  function EraseField(f: FieldState): FieldState {
    match f.value
    case None => f
    case Some(c) => FieldState(f.name, f.desc, Some(EraseConst(c)))
  }

  function EraseClass(c: ClassState): ClassState {
    ClassState(c.name,
      seq(|c.methods|, i requires 0 <= i < |c.methods| => EraseMethod(c.methods[i])),
      seq(|c.fields|, j requires 0 <= j < |c.fields| => EraseField(c.fields[j])))
  }

  lemma InsnPayloadsOnly(insn: InsnState, tokens: TokenMap)
    ensures EraseInsn(RewriteInsn(insn, tokens)) == EraseInsn(insn)
  {
    match insn
    case IndyState(name, desc, bsm, args) =>
      var r := RewriteArgs(args, tokens);
      assert seq(|r|, i requires 0 <= i < |r| => EraseConst(r[i]))
          == seq(|args|, i requires 0 <= i < |args| => EraseConst(args[i]));
    case _ =>
  }

  /**
    The pass changes nothing but the text of string constants: the class, its methods,
    their instructions and its fields keep their number, order, names, descriptors,
    kinds and bootstrap handles, and every non-string constant keeps its value and position.
   */
  lemma OnlyStringPayloadsChange(c: ClassState, tokens: TokenMap)
    ensures EraseClass(RewriteClass(c, tokens)) == EraseClass(c)
  {
    var r := RewriteClass(c, tokens);
    forall i | 0 <= i < |c.methods| ensures EraseMethod(r.methods[i]) == EraseMethod(c.methods[i]) {
      var m := c.methods[i];
      forall k | 0 <= k < |m.instructions|
        ensures EraseInsn(r.methods[i].instructions[k]) == EraseInsn(m.instructions[k])
      {
        InsnPayloadsOnly(m.instructions[k], tokens);
      }
      assert EraseMethod(r.methods[i]).instructions == EraseMethod(m).instructions;
    }
    assert EraseClass(r).methods == EraseClass(c).methods;
    assert EraseClass(r).fields == EraseClass(c).fields;
  }
}
