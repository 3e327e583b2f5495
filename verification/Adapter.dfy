/**
 * The adapter's graph of one function: key tables, entity records, relation records and control dependence, in
 * the order in which the program emits them.
 */
module Adapter {
  import opened Wrappers
  import opened Keys
  import opened Records
  import PD = PostDominance
  import CD = ControlDependence

  // ---- The module that is read -------------------------------------------------------------------------------

  /** A value used by an instruction. Everything that is not listed is a constant of some sort. */
  datatype Operand =
    | ArgumentRef(index: nat)
    | BlockRef(index: nat)
    | InstructionRef(index: nat)
    | FunctionRef(index: nat)
    | GlobalRef(index: nat)
    | OtherRef(index: nat)

  /** `incoming` lists the incoming blocks of a phi; `callee` is the called function when it is known. */
  datatype Instruction = Instruction(
    name: string,
    opcode: string,
    text: string,
    operands: seq<Operand>,
    incoming: seq<nat>,
    callee: Option<nat>,
    places: seq<string>)

  datatype Successor = Successor(block: nat, attributes: map<string, string>)

  datatype BasicBlock = BasicBlock(name: string, instructions: seq<Instruction>, successors: seq<Successor>)

  /** `roots` and `parent` come from the library that builds the post-dominator tree. */
  datatype Function = Function(
    name: string,
    text: string,
    declaration: bool,
    arguments: seq<string>,
    blocks: seq<BasicBlock>,
    roots: set<nat>,
    parent: seq<PD.Point>)

  datatype Module = Module(functions: seq<Function>, globals: seq<string>)

  /** The number of instructions in the first `b` blocks: the ordinal of the first one after them. */
  function Base(blocks: seq<BasicBlock>, b: nat): nat
    requires b <= |blocks|
  {
    if b == 0 then 0 else Base(blocks, b - 1) + |blocks[b - 1].instructions|
  }

  function Targets(successors: seq<Successor>): (r: seq<nat>)
    ensures |r| == |successors| && forall i :: 0 <= i < |r| ==> r[i] == successors[i].block
  {
    seq(|successors|, i requires 0 <= i < |successors| => successors[i].block)
  }

  function CfgOf(f: Function): (g: PD.Cfg)
    ensures |g.successors| == |f.blocks|
    ensures forall b :: 0 <= b < |f.blocks| ==> g.successors[b] == Targets(f.blocks[b].successors)
  {
    PD.Cfg(seq(|f.blocks|, b requires 0 <= b < |f.blocks| => Targets(f.blocks[b].successors)), f.roots)
  }

  predicate OperandInRange(m: Module, f: Function, op: Operand) {
    match op
    case ArgumentRef(i) => i < |f.arguments|
    case BlockRef(i) => i < |f.blocks|
    case InstructionRef(i) => i < Base(f.blocks, |f.blocks|)
    case FunctionRef(i) => i < |m.functions|
    case GlobalRef(i) => i < |m.globals|
    case OtherRef(_) => true
  }

  predicate InstructionInRange(m: Module, f: Function, ins: Instruction) {
    && (forall o :: 0 <= o < |ins.operands| ==> OperandInRange(m, f, ins.operands[o]))
    && (forall o :: 0 <= o < |ins.incoming| ==> ins.incoming[o] < |f.blocks|)
    && (ins.callee.Some? ==> ins.callee.value < |m.functions|)
  }

  predicate BlockInRange(m: Module, f: Function, block: BasicBlock) {
    && |block.instructions| > 0
    && (forall i :: 0 <= i < |block.instructions| ==> InstructionInRange(m, f, block.instructions[i]))
    && (forall s :: 0 <= s < |block.successors| ==> block.successors[s].block < |f.blocks|)
  }

  /** What a parsed function always satisfies: references resolve, blocks are not empty, declarations have none. */
  ghost predicate WellFormed(m: Module, f: Function) {
    && (f.declaration <==> f.blocks == [])
    && (forall b :: 0 <= b < |f.blocks| ==> BlockInRange(m, f, f.blocks[b]))
    && CD.Input(CfgOf(f), f.parent)
  }

  // ---- Choosing the function ---------------------------------------------------------------------------------

  /** The first function whose key or name is the requested key. */
  function SelectFrom(m: Module, key: string, i: nat): Option<nat>
    requires i <= |m.functions|
    decreases |m.functions| - i
  {
    if i == |m.functions| then None
    else if FunctionKey(i) == key || m.functions[i].name == key then Some(i)
    else SelectFrom(m, key, i + 1)
  }

  function Select(m: Module, key: string): Option<nat> {
    SelectFrom(m, key, 0)
  }

  lemma {:induction false} SelectFromExact(m: Module, k: nat, i: nat)
    requires i <= k < |m.functions|
    ensures SelectFrom(m, FunctionKey(k), i) == Some(k) <==>
            forall j :: i <= j < k ==> m.functions[j].name != FunctionKey(k)
    decreases k - i
  {
    if i < k {
      if FunctionKey(i) == FunctionKey(k) {
        FunctionKeyInjective(i, k);
      }
      SelectFromExact(m, k, i + 1);
    }
  }

  /** Asking for a function by its key finds that function unless an earlier function bears the key as its name. */
  lemma SelectExact(m: Module, k: nat)
    requires k < |m.functions|
    ensures Select(m, FunctionKey(k)) == Some(k) <==>
            forall j :: 0 <= j < k ==> m.functions[j].name != FunctionKey(k)
  {
    SelectFromExact(m, k, 0);
  }

  /** An earlier function that is named like a key is chosen in place of the function with that key. */
  lemma SelectMistaken(m: Module)
    requires |m.functions| == 2 && m.functions[0].name == "f1"
    ensures FunctionKey(1) == "f1" && Select(m, FunctionKey(1)) == Some(0)
  {
    assert Decimal(1) == "1";
    assert FunctionKey(1) == "f1";
  }

  // ---- Entities ----------------------------------------------------------------------------------------------

  /** The records so far, the keys given to globals and constants, and the next constant's ordinal. */
  datatype Emission = Emission(records: seq<Record<Local>>, extra: map<Operand, Local>, constants: nat)

  function With(e: Emission, r: Record<Local>): Emission {
    e.(records := e.records + [r])
  }

  function FunctionEntity(k: nat, f: Function): Record<Local> {
    Entity("function", FunctionOf(k), Some(k), f.name, None, f.text)
  }

  function ArgumentEntity(k: nat, f: Function, a: nat): Record<Local>
    requires a < |f.arguments|
  {
    Entity("argument", ArgumentOf(k, a), Some(a), f.arguments[a], None, "")
  }

  function BlockEntity(k: nat, f: Function, b: nat): Record<Local>
    requires b < |f.blocks|
  {
    Entity("basic_block", BlockOf(k, b), Some(b), f.blocks[b].name, None, "")
  }

  function InstructionEntity(k: nat, n: nat, ins: Instruction): Record<Local> {
    Entity("instruction", InstructionOf(k, n), Some(n), ins.name, Some(ins.opcode), ins.text)
  }

  function OpenArguments(k: nat, f: Function, count: nat, e: Emission): Emission
    requires count <= |f.arguments|
  {
    if count == 0 then e else With(OpenArguments(k, f, count - 1, e), ArgumentEntity(k, f, count - 1))
  }

  function OpenInstructions(k: nat, base: nat, instructions: seq<Instruction>, count: nat, e: Emission): Emission
    requires count <= |instructions|
  {
    if count == 0 then e
    else With(OpenInstructions(k, base, instructions, count - 1, e),
              InstructionEntity(k, base + count - 1, instructions[count - 1]))
  }

  /** Each block is followed by its instructions. */
  function OpenBlocks(k: nat, f: Function, count: nat, e: Emission): Emission
    requires count <= |f.blocks|
  {
    if count == 0 then e
    else
      var b := count - 1;
      OpenInstructions(k, Base(f.blocks, b), f.blocks[b].instructions, |f.blocks[b].instructions|,
                       With(OpenBlocks(k, f, b, e), BlockEntity(k, f, b)))
  }

  /** The headers, the function itself and everything inside it. */
  function Opening(k: nat, f: Function): Emission {
    var e := Emission([Header("capabilities"), Header("module"), FunctionEntity(k, f)], map[], 0);
    OpenBlocks(k, f, |f.blocks|, OpenArguments(k, f, |f.arguments|, e))
  }

  // ---- Operands, and the keys of globals and constants -------------------------------------------------------

  /** The key of a value that was placed before any relation was emitted. */
  function PlacedKey(k: nat, op: Operand): Option<Local> {
    match op
    case ArgumentRef(i) => Some(ArgumentOf(k, i))
    case BlockRef(i) => Some(BlockOf(k, i))
    case InstructionRef(i) => Some(InstructionOf(k, i))
    case FunctionRef(i) => Some(FunctionOf(i))
    case _ => None
  }

  function KeyOf(k: nat, e: Emission, op: Operand): Local
    requires PlacedKey(k, op).Some? || op in e.extra
  {
    if PlacedKey(k, op).Some? then PlacedKey(k, op).value else e.extra[op]
  }

  /** Makes sure that `op` has a key, declaring the global or constant at its first use. */
  function Ensure(m: Module, k: nat, e: Emission, op: Operand): (r: Emission)
    requires op.GlobalRef? ==> op.index < |m.globals|
    ensures PlacedKey(k, op).Some? || op in r.extra
  {
    if PlacedKey(k, op).Some? || op in e.extra then e
    else if op.GlobalRef? then
      Emission(e.records + [Entity("global", GlobalOf(op.index), None, m.globals[op.index], None, "")],
               e.extra[op := GlobalOf(op.index)], e.constants)
    else
      Emission(e.records + [Entity("constant", ConstantOf(k, e.constants), None, "", None, "")],
               e.extra[op := ConstantOf(k, e.constants)], e.constants + 1)
  }

  function Contains(src: Local, dst: Local): Record<Local> {
    Relation(CONTAINS, src, dst, None, map[])
  }

  /** Operand number `o` of instruction `n`: its key, its relation, and the reference if it is a global. */
  function AddOperand(m: Module, k: nat, n: nat, ins: Instruction, o: nat, e: Emission): Emission
    requires o < |ins.operands|
    requires ins.operands[o].GlobalRef? ==> ins.operands[o].index < |m.globals|
  {
    var op := ins.operands[o];
    var attributes := if o < |ins.incoming| then map["incoming_block" := Render(BlockOf(k, ins.incoming[o]))] else map[];
    var e1 := Ensure(m, k, e, op);
    var e2 := With(e1, Relation(OPERAND, InstructionOf(k, n), KeyOf(k, e1, op), Some(o), attributes));
    if op.GlobalRef? then With(e2, Relation(REFERENCES, InstructionOf(k, n), KeyOf(k, e2, op), None, map[])) else e2
  }

  function AddOperands(m: Module, f: Function, k: nat, n: nat, ins: Instruction, count: nat, e: Emission): Emission
    requires InstructionInRange(m, f, ins) && count <= |ins.operands|
  {
    if count == 0 then e
    else
      assert OperandInRange(m, f, ins.operands[count - 1]);
      AddOperand(m, k, n, ins, count - 1, AddOperands(m, f, k, n, ins, count - 1, e))
  }

  function AddSuccessors(k: nat, n: nat, block: BasicBlock, count: nat, e: Emission): Emission
    requires count <= |block.successors|
  {
    if count == 0 then e
    else
      var s := block.successors[count - 1];
      With(AddSuccessors(k, n, block, count - 1, e),
           Relation(SUCCESSOR, InstructionOf(k, n), BlockOf(k, s.block), Some(count - 1), s.attributes))
  }

  function AddCall(m: Module, k: nat, n: nat, ins: Instruction, e: Emission): Emission
    requires ins.callee.Some? ==> ins.callee.value < |m.functions|
  {
    if ins.callee.None? then e
    else With(e, Relation(CALLS, InstructionOf(k, n), FunctionOf(ins.callee.value), None,
                          map["external" := if m.functions[ins.callee.value].declaration then "true" else "false"]))
  }

  function AddSources(k: nat, n: nat, ins: Instruction, count: nat, e: Emission): Emission
    requires count <= |ins.places|
  {
    if count == 0 then e
    else With(AddSources(k, n, ins, count - 1, e), Source(InstructionOf(k, n), count - 1, ins.places[count - 1]))
  }

  /** Everything about instruction `i` of block `b`; only the last instruction is the terminator. */
  function AddInstruction(m: Module, f: Function, k: nat, b: nat, i: nat, e: Emission): Emission
    requires b < |f.blocks| && i < |f.blocks[b].instructions| && BlockInRange(m, f, f.blocks[b])
  {
    var block := f.blocks[b];
    var ins, n := block.instructions[i], Base(f.blocks, b) + i;
    var e1 := With(e, Contains(BlockOf(k, b), InstructionOf(k, n)));
    var e2 := AddOperands(m, f, k, n, ins, |ins.operands|, e1);
    var e3 := if i == |block.instructions| - 1 then AddSuccessors(k, n, block, |block.successors|, e2) else e2;
    var e4 := AddCall(m, k, n, ins, e3);
    AddSources(k, n, ins, |ins.places|, e4)
  }

  function AddInstructions(m: Module, f: Function, k: nat, b: nat, count: nat, e: Emission): Emission
    requires b < |f.blocks| && count <= |f.blocks[b].instructions| && BlockInRange(m, f, f.blocks[b])
  {
    if count == 0 then e else AddInstruction(m, f, k, b, count - 1, AddInstructions(m, f, k, b, count - 1, e))
  }

  function AddBlocks(m: Module, f: Function, k: nat, count: nat, e: Emission): Emission
    requires WellFormed(m, f) && count <= |f.blocks|
  {
    if count == 0 then e
    else
      var b := count - 1;
      var e1 := With(AddBlocks(m, f, k, b, e), Contains(FunctionOf(k), BlockOf(k, b)));
      AddInstructions(m, f, k, b, |f.blocks[b].instructions|, e1)
  }

  function AddArguments(f: Function, k: nat, count: nat, e: Emission): Emission
    requires count <= |f.arguments|
  {
    if count == 0 then e
    else With(AddArguments(f, k, count - 1, e), Contains(FunctionOf(k), ArgumentOf(k, count - 1)))
  }

  // ---- Control dependence ------------------------------------------------------------------------------------

  /** The ordinal of the terminator of block `b`. */
  function Terminator(f: Function, b: nat): nat
    requires b < |f.blocks| && |f.blocks[b].instructions| > 0
  {
    Base(f.blocks, b) + |f.blocks[b].instructions| - 1
  }

  predicate DependenceInRange(f: Function, d: CD.Dependence) {
    && d.branch < |f.blocks| && |f.blocks[d.branch].instructions| > 0
    && d.ordinal < |f.blocks[d.branch].successors|
    && d.block < |f.blocks|
  }

  function DependenceRecord(f: Function, k: nat, d: CD.Dependence): Record<Local>
    requires DependenceInRange(f, d)
  {
    var s := f.blocks[d.branch].successors[d.ordinal];
    Relation(CONTROL_DEPENDENCE, BlockOf(k, d.block), InstructionOf(k, Terminator(f, d.branch)), Some(d.ordinal),
             s.attributes["successor" := Render(BlockOf(k, s.block))])
  }

  function DependenceRecords(f: Function, k: nat, ds: seq<CD.Dependence>): (r: seq<Record<Local>>)
    requires forall d :: d in ds ==> DependenceInRange(f, d)
    ensures |r| == |ds| && forall i :: 0 <= i < |ds| ==> r[i] == DependenceRecord(f, k, ds[i])
  {
    seq(|ds|, i requires 0 <= i < |ds| => DependenceRecord(f, k, ds[i]))
  }

  lemma DependencesInRange(m: Module, f: Function)
    requires WellFormed(m, f)
    ensures forall d :: d in CD.Dependences(CfgOf(f), f.parent) ==> DependenceInRange(f, d)
  {
    CD.DependencesExact(CfgOf(f), f.parent);
    forall d | d in CD.Dependences(CfgOf(f), f.parent) ensures DependenceInRange(f, d) {
      assert CD.Depends(CfgOf(f), d);
      assert BlockInRange(m, f, f.blocks[d.branch]);
    }
  }

  // ---- The whole list ----------------------------------------------------------------------------------------

  /** All records except control dependence. */
  function Structure(m: Module, k: nat): Emission
    requires k < |m.functions| && WellFormed(m, m.functions[k])
  {
    var f := m.functions[k];
    AddBlocks(m, f, k, |f.blocks|, AddArguments(f, k, |f.arguments|, Opening(k, f)))
  }

  function Graph(m: Module, k: nat): seq<Record<Local>>
    requires k < |m.functions| && WellFormed(m, m.functions[k])
  {
    DependencesInRange(m, m.functions[k]);
    Structure(m, k).records +
    DependenceRecords(m.functions[k], k, CD.Dependences(CfgOf(m.functions[k]), m.functions[k].parent))
  }

  /** What the adapter answers to a request for a key. */
  function Answer(m: Module, key: string): seq<Record<string>>
    requires forall k :: 0 <= k < |m.functions| ==> WellFormed(m, m.functions[k])
  {
    match Select(m, key)
    case None => EmittedAll([Header("capabilities"), Header("module"), Failure("function key not found")])
    case Some(k) => EmittedAll(GraphOf(m, key, k))
  }

  function GraphOf(m: Module, key: string, k: nat): seq<Record<Local>>
    requires Select(m, key) == Some(k)
    requires forall j :: 0 <= j < |m.functions| ==> WellFormed(m, m.functions[j])
  {
    SelectInRange(m, key, 0);
    Graph(m, k)
  }

  lemma {:induction false} SelectInRange(m: Module, key: string, i: nat)
    requires i <= |m.functions|
    ensures SelectFrom(m, key, i).Some? ==> SelectFrom(m, key, i).value < |m.functions|
    decreases |m.functions| - i
  {
    if i < |m.functions| {
      SelectInRange(m, key, i + 1);
    }
  }
}
