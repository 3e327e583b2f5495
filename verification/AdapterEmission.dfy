/** The adapter as it runs: an emitter whose record list and key tables grow as the function is walked. */
module AdapterEmission {
  import opened Wrappers
  import opened Keys
  import opened Records
  import opened Adapter
  import CD = ControlDependence

  lemma FunctionParts(m: Module, f: Function, b: nat)
    requires WellFormed(m, f) && b < |f.blocks|
    ensures BlockInRange(m, f, f.blocks[b]) && |f.blocks[b].instructions| > 0
  {
  }

  lemma AddBlocksNothing(m: Module, f: Function, k: nat, e: Emission)
    requires WellFormed(m, f)
    ensures AddBlocks(m, f, k, 0, e) == e
  {
  }

  lemma AddBlocksStep(m: Module, f: Function, k: nat, b: nat, e: Emission)
    requires WellFormed(m, f) && b < |f.blocks| && BlockInRange(m, f, f.blocks[b])
    ensures AddBlocks(m, f, k, b + 1, e) ==
            AddInstructions(m, f, k, b, |f.blocks[b].instructions|,
                            With(AddBlocks(m, f, k, b, e), Contains(FunctionOf(k), BlockOf(k, b))))
  {
    hide AddInstructions, BlockInRange, With, Contains;
  }

  class Emitter {
    var records: seq<Record<Local>>
    var extra: map<Operand, Local>
    var constants: nat

    constructor ()
      ensures Value() == Emission([], map[], 0)
    {
      records, extra, constants := [], map[], 0;
    }

    function Value(): (e: Emission)
      reads this
      ensures e.records == records && e.extra == extra && e.constants == constants
    {
      Emission(records, extra, constants)
    }

    method Emit(r: Record<Local>)
      modifies this
      ensures Value() == With(old(Value()), r)
    {
      records := records + [r];
    }

    /** The key of an operand; a global or constant is declared at its first use. */
    method EnsureOperand(m: Module, k: nat, op: Operand) returns (key: Local)
      requires op.GlobalRef? ==> op.index < |m.globals|
      modifies this
      ensures Value() == Ensure(m, k, old(Value()), op)
      ensures key == KeyOf(k, Value(), op)
    {
      if PlacedKey(k, op).Some? {
        return PlacedKey(k, op).value;
      }
      if op in extra {
        return extra[op];
      }
      if op.GlobalRef? {
        key := GlobalOf(op.index);
        extra := extra[op := key];
        Emit(Entity("global", key, None, m.globals[op.index], None, ""));
      } else {
        key := ConstantOf(k, constants);
        constants := constants + 1;
        extra := extra[op := key];
        Emit(Entity("constant", key, None, "", None, ""));
      }
    }

    /** One operand: its relation, and the reference when it is a global. */
    method EmitOperand(m: Module, k: nat, n: nat, ins: Instruction, o: nat)
      requires o < |ins.operands|
      requires ins.operands[o].GlobalRef? ==> ins.operands[o].index < |m.globals|
      modifies this
      ensures Value() == AddOperand(m, k, n, ins, o, old(Value()))
    {
      hide Render;
      var op := ins.operands[o];
      var attributes: map<string, string> := map[];
      if o < |ins.incoming| {
        attributes := map["incoming_block" := Render(BlockOf(k, ins.incoming[o]))];
      }
      var dst := EnsureOperand(m, k, op);
      Emit(Relation(OPERAND, InstructionOf(k, n), dst, Some(o), attributes));
      if op.GlobalRef? {
        var global := EnsureOperand(m, k, op);
        Emit(Relation(REFERENCES, InstructionOf(k, n), global, None, map[]));
      }
    }

    method EmitOperands(m: Module, f: Function, k: nat, n: nat, ins: Instruction)
      requires InstructionInRange(m, f, ins)
      modifies this
      ensures Value() == AddOperands(m, f, k, n, ins, |ins.operands|, old(Value()))
    {
      hide AddOperand;
      for o := 0 to |ins.operands|
        invariant Value() == AddOperands(m, f, k, n, ins, o, old(Value()))
      {
        assert OperandInRange(m, f, ins.operands[o]);
        EmitOperand(m, k, n, ins, o);
      }
    }

    method EmitSuccessors(k: nat, n: nat, block: BasicBlock)
      modifies this
      ensures Value() == AddSuccessors(k, n, block, |block.successors|, old(Value()))
    {
      for s := 0 to |block.successors|
        invariant Value() == AddSuccessors(k, n, block, s, old(Value()))
      {
        var next := block.successors[s];
        Emit(Relation(SUCCESSOR, InstructionOf(k, n), BlockOf(k, next.block), Some(s), next.attributes));
      }
    }

    method EmitSources(k: nat, n: nat, ins: Instruction)
      modifies this
      ensures Value() == AddSources(k, n, ins, |ins.places|, old(Value()))
    {
      for depth := 0 to |ins.places|
        invariant Value() == AddSources(k, n, ins, depth, old(Value()))
      {
        Emit(Source(InstructionOf(k, n), depth, ins.places[depth]));
      }
    }

    method EmitInstruction(m: Module, f: Function, k: nat, b: nat, i: nat)
      requires b < |f.blocks| && i < |f.blocks[b].instructions| && BlockInRange(m, f, f.blocks[b])
      modifies this
      ensures Value() == AddInstruction(m, f, k, b, i, old(Value()))
    {
      hide AddOperands, AddSuccessors, AddSources, Base, Render;
      var block := f.blocks[b];
      var ins, n := block.instructions[i], Base(f.blocks, b) + i;
      Emit(Contains(BlockOf(k, b), InstructionOf(k, n)));
      EmitOperands(m, f, k, n, ins);
      if i == |block.instructions| - 1 {
        EmitSuccessors(k, n, block);
      }
      if ins.callee.Some? {
        var external := if m.functions[ins.callee.value].declaration then "true" else "false";
        Emit(Relation(CALLS, InstructionOf(k, n), FunctionOf(ins.callee.value), None, map["external" := external]));
      }
      EmitSources(k, n, ins);
    }

    method EmitInstructions(m: Module, f: Function, k: nat, b: nat)
      requires b < |f.blocks| && BlockInRange(m, f, f.blocks[b])
      modifies this
      ensures Value() == AddInstructions(m, f, k, b, |f.blocks[b].instructions|, old(Value()))
    {
      hide AddInstruction, BlockInRange;
      for i := 0 to |f.blocks[b].instructions|
        invariant Value() == AddInstructions(m, f, k, b, i, old(Value()))
      {
        EmitInstruction(m, f, k, b, i);
      }
    }

    /** Declares the function, its arguments, and its blocks with their instructions. */
    method EmitEntities(f: Function, k: nat)
      requires Value() == Emission([], map[], 0)
      modifies this
      ensures Value() == Opening(k, f)
    {
      Emit(Header("capabilities"));
      Emit(Header("module"));
      Emit(FunctionEntity(k, f));
      assert records == [Header("capabilities"), Header("module"), FunctionEntity(k, f)];
      label started:
      for a := 0 to |f.arguments|
        invariant Value() == OpenArguments(k, f, a, old@started(Value()))
      {
        Emit(ArgumentEntity(k, f, a));
      }
      label arguments:
      var ordinal := 0;
      for b := 0 to |f.blocks|
        invariant ordinal == Base(f.blocks, b)
        invariant Value() == OpenBlocks(k, f, b, old@arguments(Value()))
      {
        Emit(BlockEntity(k, f, b));
        EmitInstructionEntities(k, ordinal, f.blocks[b].instructions);
        ordinal := ordinal + |f.blocks[b].instructions|;
      }
    }

    method EmitInstructionEntities(k: nat, base: nat, instructions: seq<Instruction>)
      modifies this
      ensures Value() == OpenInstructions(k, base, instructions, |instructions|, old(Value()))
    {
      for i := 0 to |instructions|
        invariant Value() == OpenInstructions(k, base, instructions, i, old(Value()))
      {
        Emit(InstructionEntity(k, base + i, instructions[i]));
      }
    }

    method EmitArguments(f: Function, k: nat)
      modifies this
      ensures Value() == AddArguments(f, k, |f.arguments|, old(Value()))
    {
      for a := 0 to |f.arguments|
        invariant Value() == AddArguments(f, k, a, old(Value()))
      {
        Emit(Contains(FunctionOf(k), ArgumentOf(k, a)));
      }
    }

    method EmitBlocks(m: Module, f: Function, k: nat)
      requires WellFormed(m, f)
      modifies this
      ensures Value() == AddBlocks(m, f, k, |f.blocks|, old(Value()))
    {
      hide *;
      AddBlocksNothing(m, f, k, Value());
      for b := 0 to |f.blocks|
        invariant Value() == AddBlocks(m, f, k, b, old(Value()))
      {
        FunctionParts(m, f, b);
        AddBlocksStep(m, f, k, b, old(Value()));
        Emit(Contains(FunctionOf(k), BlockOf(k, b)));
        EmitInstructions(m, f, k, b);
      }
    }

    method EmitDependences(m: Module, f: Function, k: nat)
      requires WellFormed(m, f)
      requires forall d :: d in CD.Dependences(CfgOf(f), f.parent) ==> DependenceInRange(f, d)
      modifies this
      ensures records == old(records) + DependenceRecords(f, k, CD.Dependences(CfgOf(f), f.parent))
      ensures extra == old(extra) && constants == old(constants)
    {
      hide CD.Dependences, DependenceRecord, DependenceInRange;
      var ds := CD.EmitDependences(CfgOf(f), f.parent);
      for i := 0 to |ds|
        invariant records == old(records) + DependenceRecords(f, k, ds)[..i]
        invariant extra == old(extra) && constants == old(constants)
      {
        assert ds[i] in ds;
        Emit(DependenceRecord(f, k, ds[i]));
        assert DependenceRecords(f, k, ds)[..i + 1] == DependenceRecords(f, k, ds)[..i] + [DependenceRecord(f, k, ds[i])];
      }
      assert DependenceRecords(f, k, ds)[..|ds|] == DependenceRecords(f, k, ds);
    }
  }

  /** The adapter's answer to a request: the graph of the first function whose key or name is `key`. */
  method FunctionGraph(m: Module, key: string) returns (out: seq<Record<string>>)
    requires forall k :: 0 <= k < |m.functions| ==> WellFormed(m, m.functions[k])
    ensures out == Answer(m, key)
  {
    hide WellFormed, Opening, AddBlocks, AddArguments, CD.Dependences, Base;
    for k := 0 to |m.functions|
      invariant SelectFrom(m, key, k) == Select(m, key)
    {
      if FunctionKey(k) == key || m.functions[k].name == key {
        var f := m.functions[k];
        var e := new Emitter();
        e.EmitEntities(f, k);
        e.EmitArguments(f, k);
        e.EmitBlocks(m, f, k);
        DependencesInRange(m, f);
        e.EmitDependences(m, f, k);
        return EmittedAll(e.records);
      }
    }
    out := EmittedAll([Header("capabilities"), Header("module"), Failure("function key not found")]);
  }
}
