/**
  The mutable tree a class file is decoded into (the ClassNode of the ASM tree API),
  reduced to what the token pass reads and writes: the operand of each ldc node,
  the bootstrap-argument array of each invokedynamic node and the initialiser of
  each field. Everything else is immutable here, as the pass never writes it.
 */
module ClassTree {
  import opened ClassModel

  class LdcInsn {
    var cst: Const

    constructor (cst: Const)
      ensures this.cst == cst
    {
      this.cst := cst;
    }
  }

  class IndyInsn {
    const name: string
    const desc: string
    const bsm: MethodHandle
    const bsmArgs: array<Const>

    constructor (name: string, desc: string, bsm: MethodHandle, bsmArgs: array<Const>)
      ensures this.name == name && this.desc == desc && this.bsm == bsm && this.bsmArgs == bsmArgs
    {
      this.name := name;
      this.desc := desc;
      this.bsm := bsm;
      this.bsmArgs := bsmArgs;
    }
  }

  /** A node of an instruction list, as the pass tells them apart. */
  datatype Insn = Ldc(ldc: LdcInsn) | Indy(indy: IndyInsn) | Other(opcode: int)

  /** The objects the pass may write for one instruction. */
  function InsnFootprint(insn: Insn): set<object> {
    match insn
    case Ldc(n) => {n}
    case Indy(n) => {n.bsmArgs}
    case Other(_) => {}
  }

  function InsnView(insn: Insn): InsnState
    reads InsnFootprint(insn)
  {
    match insn
    case Ldc(n) => LdcState(n.cst)
    case Indy(n) => IndyState(n.name, n.desc, n.bsm, n.bsmArgs[..])
    case Other(op) => OtherState(op)
  }

  class MethodNode {
    const name: string
    const desc: string
    const instructions: seq<Insn>

    constructor (name: string, desc: string, instructions: seq<Insn>)
      ensures this.name == name && this.desc == desc && this.instructions == instructions
    {
      this.name := name;
      this.desc := desc;
      this.instructions := instructions;
    }

    function Footprint(): set<object> {
      set k, o | 0 <= k < |instructions| && o in InsnFootprint(instructions[k]) :: o
    }

    /** No two instructions share a node or an argument array. */
    ghost predicate Valid() {
      forall k1, k2 | 0 <= k1 < k2 < |instructions| ::
        InsnFootprint(instructions[k1]) !! InsnFootprint(instructions[k2])
    }

    function View(): MethodState
      reads Footprint()
    {
      MethodState(name, desc,
        seq(|instructions|, k reads Footprint() requires 0 <= k < |instructions| => InsnView(instructions[k])))
    }
  }

  class FieldNode {
    const name: string
    const desc: string
    var value: Option<Const>

    constructor (name: string, desc: string, value: Option<Const>)
      ensures this.name == name && this.desc == desc && this.value == value
    {
      this.name := name;
      this.desc := desc;
      this.value := value;
    }

    function View(): FieldState
      reads this
    {
      FieldState(name, desc, value)
    }
  }

  class ClassNode {
    const name: string
    const methods: seq<MethodNode>
    const fields: seq<FieldNode>

    constructor (name: string, methods: seq<MethodNode>, fields: seq<FieldNode>)
      ensures this.name == name && this.methods == methods && this.fields == fields
    {
      this.name := name;
      this.methods := methods;
      this.fields := fields;
    }

    function MethodsFootprint(): set<object> {
      set i, o | 0 <= i < |methods| && o in methods[i].Footprint() :: o
    }

    function FieldsFootprint(): set<object> {
      set j | 0 <= j < |fields| :: fields[j] as object
    }

    /** Everything the token pass may write. */
    function Footprint(): set<object> {
      MethodsFootprint() + FieldsFootprint()
    }

    /** The pass over the methods never writes a field node. */
    lemma FieldsOutsideMethods()
      ensures forall i, j | 0 <= i < |methods| && 0 <= j < |fields| :: fields[j] !in methods[i].Footprint()
    {
    }

    /** Every node belongs to one place of the tree. */
    ghost predicate Valid() {
      && (forall i | 0 <= i < |methods| :: methods[i].Valid())
      && (forall i1, i2 | 0 <= i1 < i2 < |methods| :: methods[i1].Footprint() !! methods[i2].Footprint())
      && (forall j1, j2 | 0 <= j1 < j2 < |fields| :: fields[j1] != fields[j2])
    }

    function View(): ClassState
      reads Footprint()
    {
      ClassState(name,
        seq(|methods|, i reads Footprint() requires 0 <= i < |methods| => methods[i].View()),
        seq(|fields|, j reads Footprint() requires 0 <= j < |fields| => fields[j].View()))
    }
  }

  // ---------------------------------------------------------------------------
  // Materialising a decoded class (what ClassReader.accept does for a ClassNode)

  method NewInsn(s: InsnState) returns (insn: Insn)
    ensures fresh(InsnFootprint(insn))
    ensures InsnView(insn) == s
  {
    match s
    case LdcState(cst) =>
      var n := new LdcInsn(cst);
      insn := Ldc(n);
    case IndyState(name, desc, bsm, args) =>
      var a := new Const[|args|](i requires 0 <= i < |args| => args[i]);
      assert a[..] == args;
      var n := new IndyInsn(name, desc, bsm, a);
      insn := Indy(n);
    case OtherState(op) =>
      insn := Other(op);
  }

  method NewMethodNode(s: MethodState) returns (m: MethodNode)
    ensures m.Valid() && fresh(m.Footprint())
    ensures m.View() == s
  {
    var insns: seq<Insn> := [];
    for k := 0 to |s.instructions|
      invariant |insns| == k
      invariant forall q | 0 <= q < k :: fresh(InsnFootprint(insns[q]))
      invariant forall q | 0 <= q < k :: InsnView(insns[q]) == s.instructions[q]
      invariant forall q1, q2 | 0 <= q1 < q2 < k :: InsnFootprint(insns[q1]) !! InsnFootprint(insns[q2])
    {
      var insn := NewInsn(s.instructions[k]);
      insns := insns + [insn];
    }
    m := new MethodNode(s.name, s.desc, insns);
    assert m.View().instructions == s.instructions;
  }

  method NewClassNode(s: ClassState) returns (c: ClassNode)
    ensures c.Valid() && fresh(c.Footprint())
    ensures c.View() == s
  {
    var methods: seq<MethodNode> := [];
    for i := 0 to |s.methods|
      invariant |methods| == i
      invariant forall q | 0 <= q < i :: methods[q].Valid() && fresh(methods[q].Footprint())
      invariant forall q | 0 <= q < i :: methods[q].View() == s.methods[q]
      invariant forall q1, q2 | 0 <= q1 < q2 < i :: methods[q1].Footprint() !! methods[q2].Footprint()
    {
      var m := NewMethodNode(s.methods[i]);
      methods := methods + [m];
    }
    var fields: seq<FieldNode> := [];
    for j := 0 to |s.fields|
      invariant |fields| == j
      invariant forall q | 0 <= q < j :: fresh(fields[q])
      invariant forall q | 0 <= q < j :: fields[q].View() == s.fields[q]
      invariant forall q1, q2 | 0 <= q1 < q2 < j :: fields[q1] != fields[q2]
      invariant forall q | 0 <= q < |methods| :: methods[q].View() == s.methods[q]
    {
      var f := new FieldNode(s.fields[j].name, s.fields[j].desc, s.fields[j].value);
      fields := fields + [f];
    }
    c := new ClassNode(s.name, methods, fields);
    assert c.View().methods == s.methods;
    assert c.View().fields == s.fields;
  }
}
