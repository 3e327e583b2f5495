/**
 * What holds of every record list the adapter produces: keys are unique and belong to the function, every
 * endpoint is declared or is a function of the module, and the control-dependence records are exact.
 */
module AdapterProperties {
  import opened Wrappers
  import opened Keys
  import opened Records
  import opened Adapter
  import CD = ControlDependence

  /** How many arguments, blocks and instructions have been declared. */
  datatype Extent = Extent(arguments: nat, blocks: nat, instructions: nat)

  /** The keys that should be declared at this point. */
  predicate Placement(k: nat, e: Emission, x: Extent, local: Local) {
    match local
    case FunctionOf(n) => n == k
    case GlobalOf(n) => GlobalRef(n) in e.extra
    case ArgumentOf(o, n) => o == k && n < x.arguments
    case BlockOf(o, n) => o == k && n < x.blocks
    case InstructionOf(o, n) => o == k && n < x.instructions
    case ConstantOf(o, n) => o == k && n < e.constants
  }

  /** The kind column agrees with the key. */
  predicate KindFits(kind: string, local: Local) {
    match local
    case FunctionOf(_) => kind == "function"
    case GlobalOf(_) => kind == "global"
    case ArgumentOf(_, _) => kind == "argument"
    case BlockOf(_, _) => kind == "basic_block"
    case InstructionOf(_, _) => kind == "instruction"
    case ConstantOf(_, _) => kind == "constant"
  }

  /** `local` is declared in the list, or is a function that the catalog placed. */
  predicate Known(m: Module, rs: seq<Record<Local>>, local: Local) {
    Declares(rs, local) || (local.FunctionOf? && local.ordinal < |m.functions|)
  }

  /** The block that instruction `n` stands in. */
  function Holder(blocks: seq<BasicBlock>, n: nat, b: nat): nat
    requires b <= |blocks|
    decreases |blocks| - b
  {
    if b < |blocks| && n >= Base(blocks, b) + |blocks[b].instructions| then Holder(blocks, n, b + 1) else b
  }

  /** A record that fits into the list `rs`. */
  predicate Fits(m: Module, f: Function, k: nat, rs: seq<Record<Local>>, r: Record<Local>) {
    match r
    case Header(_) => true
    case Failure(_) => false
    case Entity(kind, local, _, _, _, _) => KindFits(kind, local)
    case Relation(kind, src, dst, _, _) =>
      && Known(m, rs, src) && Known(m, rs, dst) && kind != ""
      && (kind == CONTAINS && dst.InstructionOf? ==> src == BlockOf(k, Holder(f.blocks, dst.ordinal, 0)))
    case Source(entity, _, _) => Declares(rs, entity) && entity.InstructionOf?
  }

  ghost predicate Tabled(m: Module, k: nat, e: Emission) {
    forall op :: op in e.extra ==>
      match op
      case GlobalRef(i) => i < |m.globals| && e.extra[op] == GlobalOf(i)
      case OtherRef(_) => e.extra[op].ConstantOf? && e.extra[op].owner == k && e.extra[op].ordinal < e.constants
      case _ => false
  }

  /** The invariant of emission. */
  ghost predicate Sound(m: Module, f: Function, k: nat, e: Emission, x: Extent) {
    && Unambiguous(e.records)
    && (forall l :: Declares(e.records, l) <==> Placement(k, e, x, l))
    && (forall i :: 0 <= i < |e.records| ==> Fits(m, f, k, e.records, e.records[i]))
    && Tabled(m, k, e)
  }

  lemma DeclaresAppend(rs: seq<Record<Local>>, r: Record<Local>)
    ensures forall l :: Declares(rs + [r], l) <==> Declares(rs, l) || (r.Entity? && r.local == l)
  {
    var longer := rs + [r];
    forall l ensures Declares(longer, l) <==> Declares(rs, l) || (r.Entity? && r.local == l) {
      if Declares(rs, l) {
        var i :| 0 <= i < |rs| && rs[i].Entity? && rs[i].local == l;
        assert longer[i] == rs[i];
      }
      if r.Entity? && r.local == l {
        assert longer[|rs|] == r;
      }
    }
  }

  lemma FitsAppend(m: Module, f: Function, k: nat, rs: seq<Record<Local>>, r: Record<Local>, x: Record<Local>)
    requires Fits(m, f, k, rs, x)
    ensures Fits(m, f, k, rs + [r], x)
  {
    DeclaresAppend(rs, r);
  }

  /** A relation or a source row between known keys. */
  lemma AppendPlain(m: Module, f: Function, k: nat, e: Emission, x: Extent, r: Record<Local>)
    requires Sound(m, f, k, e, x) && !r.Entity? && Fits(m, f, k, e.records, r)
    ensures Sound(m, f, k, With(e, r), x)
  {
    DeclaresAppend(e.records, r);
    forall i | 0 <= i < |e.records| + 1 ensures Fits(m, f, k, With(e, r).records, With(e, r).records[i]) {
      FitsAppend(m, f, k, e.records, r, With(e, r).records[i]);
    }
  }

  /** An entity with a key that is not declared yet; `after` is the emission with its tables brought up to date. */
  lemma AppendEntity(m: Module, f: Function, k: nat, e: Emission, x: Extent, r: Record<Local>, after: Emission,
                     y: Extent)
    requires Sound(m, f, k, e, x) && r.Entity? && KindFits(r.kind, r.local)
    requires !Placement(k, e, x, r.local)
    requires after.records == e.records + [r] && Tabled(m, k, after)
    requires forall l :: Placement(k, after, y, l) <==> Placement(k, e, x, l) || l == r.local
    ensures Sound(m, f, k, after, y)
  {
    DeclaresAppend(e.records, r);
    assert !Declares(e.records, r.local);
    forall i | 0 <= i < |after.records| ensures Fits(m, f, k, after.records, after.records[i]) {
      if i < |e.records| {
        FitsAppend(m, f, k, e.records, r, after.records[i]);
      }
    }
    assert Unambiguous(after.records) by {
      forall i, j | 0 <= i < j < |after.records| && after.records[i].Entity? && after.records[j].Entity?
        ensures after.records[i].local != after.records[j].local
      {
        assert after.records[i] == e.records[i];
        if j < |e.records| {
          assert after.records[j] == e.records[j];
        } else {
          assert Declares(e.records, e.records[i].local);
        }
      }
    }
  }

  /** An entity that only widens the extent. */
  lemma AppendPlaced(m: Module, f: Function, k: nat, e: Emission, x: Extent, r: Record<Local>, y: Extent)
    requires Sound(m, f, k, e, x) && r.Entity? && KindFits(r.kind, r.local)
    requires !Placement(k, e, x, r.local)
    requires forall l :: Placement(k, e, y, l) <==> Placement(k, e, x, l) || l == r.local
    ensures Sound(m, f, k, With(e, r), y)
  {
    AppendEntity(m, f, k, e, x, r, With(e, r), y);
  }

  // ---- Opening -----------------------------------------------------------------------------------------------

  lemma StartSound(m: Module, f: Function, k: nat)
    ensures Sound(m, f, k, Emission([Header("capabilities"), Header("module"), FunctionEntity(k, f)], map[], 0),
                  Extent(0, 0, 0))
  {
    var e := Emission([Header("capabilities"), Header("module"), FunctionEntity(k, f)], map[], 0);
    forall l ensures Declares(e.records, l) <==> Placement(k, e, Extent(0, 0, 0), l) {
      if l == FunctionOf(k) {
        assert e.records[2].local == l;
      }
    }
  }

  lemma {:induction false} OpenArgumentsSound(m: Module, f: Function, k: nat, count: nat, e: Emission)
    requires count <= |f.arguments| && Sound(m, f, k, e, Extent(0, 0, 0))
    ensures Sound(m, f, k, OpenArguments(k, f, count, e), Extent(count, 0, 0))
    ensures OpenArguments(k, f, count, e).extra == e.extra && OpenArguments(k, f, count, e).constants == e.constants
  {
    hide Sound;
    if count > 0 {
      OpenArgumentsSound(m, f, k, count - 1, e);
      var before := OpenArguments(k, f, count - 1, e);
      AppendPlaced(m, f, k, before, Extent(count - 1, 0, 0), ArgumentEntity(k, f, count - 1), Extent(count, 0, 0));
    }
  }

  lemma {:induction false} OpenInstructionsSound(m: Module, f: Function, k: nat, base: nat, a: nat, b: nat,
                                                 instructions: seq<Instruction>, count: nat, e: Emission)
    requires count <= |instructions| && Sound(m, f, k, e, Extent(a, b, base))
    ensures Sound(m, f, k, OpenInstructions(k, base, instructions, count, e), Extent(a, b, base + count))
    ensures OpenInstructions(k, base, instructions, count, e).extra == e.extra
    ensures OpenInstructions(k, base, instructions, count, e).constants == e.constants
  {
    hide Sound;
    if count > 0 {
      OpenInstructionsSound(m, f, k, base, a, b, instructions, count - 1, e);
      var before := OpenInstructions(k, base, instructions, count - 1, e);
      AppendPlaced(m, f, k, before, Extent(a, b, base + count - 1),
                   InstructionEntity(k, base + count - 1, instructions[count - 1]), Extent(a, b, base + count));
    }
  }

  lemma {:induction false} OpenBlocksSound(m: Module, f: Function, k: nat, a: nat, count: nat, e: Emission)
    requires count <= |f.blocks| && Sound(m, f, k, e, Extent(a, 0, 0))
    ensures Sound(m, f, k, OpenBlocks(k, f, count, e), Extent(a, count, Base(f.blocks, count)))
    ensures OpenBlocks(k, f, count, e).extra == e.extra && OpenBlocks(k, f, count, e).constants == e.constants
  {
    hide Sound;
    if count > 0 {
      var b := count - 1;
      OpenBlocksSound(m, f, k, a, b, e);
      var before := OpenBlocks(k, f, b, e);
      var started := With(before, BlockEntity(k, f, b));
      AppendPlaced(m, f, k, before, Extent(a, b, Base(f.blocks, b)), BlockEntity(k, f, b),
                   Extent(a, count, Base(f.blocks, b)));
      OpenInstructionsSound(m, f, k, Base(f.blocks, b), a, count, f.blocks[b].instructions,
                            |f.blocks[b].instructions|, started);
    }
  }

  function Full(f: Function): Extent {
    Extent(|f.arguments|, |f.blocks|, Base(f.blocks, |f.blocks|))
  }

  lemma OpeningSound(m: Module, f: Function, k: nat)
    ensures Sound(m, f, k, Opening(k, f), Full(f))
  {
    StartSound(m, f, k);
    var e := Emission([Header("capabilities"), Header("module"), FunctionEntity(k, f)], map[], 0);
    OpenArgumentsSound(m, f, k, |f.arguments|, e);
    OpenBlocksSound(m, f, k, |f.arguments|, |f.blocks|, OpenArguments(k, f, |f.arguments|, e));
  }

  // ---- Relations ---------------------------------------------------------------------------------------------

  lemma EnsureSound(m: Module, f: Function, k: nat, e: Emission, op: Operand)
    requires Sound(m, f, k, e, Full(f)) && OperandInRange(m, f, op)
    ensures Sound(m, f, k, Ensure(m, k, e, op), Full(f))
    ensures Known(m, Ensure(m, k, e, op).records, KeyOf(k, Ensure(m, k, e, op), op))
  {
    var after := Ensure(m, k, e, op);
    if PlacedKey(k, op).Some? {
      assert op.FunctionRef? || Placement(k, e, Full(f), PlacedKey(k, op).value);
    } else if op in e.extra {
      assert Placement(k, e, Full(f), e.extra[op]);
    } else if op.GlobalRef? {
      AppendEntity(m, f, k, e, Full(f), Entity("global", GlobalOf(op.index), None, m.globals[op.index], None, ""),
                   after, Full(f));
      assert Placement(k, after, Full(f), after.extra[op]);
    } else {
      AppendEntity(m, f, k, e, Full(f), Entity("constant", ConstantOf(k, e.constants), None, "", None, ""),
                   after, Full(f));
      assert Placement(k, after, Full(f), after.extra[op]);
    }
  }

  lemma InstructionKnown(m: Module, f: Function, k: nat, e: Emission, n: nat)
    requires Sound(m, f, k, e, Full(f)) && n < Full(f).instructions
    ensures Declares(e.records, InstructionOf(k, n)) && Known(m, e.records, InstructionOf(k, n))
  {
    assert Placement(k, e, Full(f), InstructionOf(k, n));
  }

  lemma BlockKnown(m: Module, f: Function, k: nat, e: Emission, b: nat)
    requires Sound(m, f, k, e, Full(f)) && b < |f.blocks|
    ensures Known(m, e.records, BlockOf(k, b))
  {
    assert Placement(k, e, Full(f), BlockOf(k, b));
  }

  lemma KnownWith(m: Module, e: Emission, r: Record<Local>, l: Local)
    requires Known(m, e.records, l)
    ensures Known(m, With(e, r).records, l)
  {
    DeclaresAppend(e.records, r);
  }

  lemma AddOperandSound(m: Module, f: Function, k: nat, n: nat, ins: Instruction, o: nat, e: Emission)
    requires Sound(m, f, k, e, Full(f)) && n < Full(f).instructions
    requires o < |ins.operands| && OperandInRange(m, f, ins.operands[o])
    ensures Sound(m, f, k, AddOperand(m, k, n, ins, o, e), Full(f))
  {
    hide Sound, Known, Declares;
    var op := ins.operands[o];
    var attributes := if o < |ins.incoming| then map["incoming_block" := Render(BlockOf(k, ins.incoming[o]))] else map[];
    var e1 := Ensure(m, k, e, op);
    EnsureSound(m, f, k, e, op);
    InstructionKnown(m, f, k, e1, n);
    var r := Relation(OPERAND, InstructionOf(k, n), KeyOf(k, e1, op), Some(o), attributes);
    AppendPlain(m, f, k, e1, Full(f), r);
    var e2 := With(e1, r);
    if op.GlobalRef? {
      KnownWith(m, e1, r, KeyOf(k, e1, op));
      KnownWith(m, e1, r, InstructionOf(k, n));
      AppendPlain(m, f, k, e2, Full(f), Relation(REFERENCES, InstructionOf(k, n), KeyOf(k, e2, op), None, map[]));
    }
  }

  lemma {:induction false} AddOperandsSound(m: Module, f: Function, k: nat, n: nat, ins: Instruction, count: nat,
                                            e: Emission)
    requires Sound(m, f, k, e, Full(f)) && n < Full(f).instructions
    requires InstructionInRange(m, f, ins) && count <= |ins.operands|
    ensures Sound(m, f, k, AddOperands(m, f, k, n, ins, count, e), Full(f))
  {
    hide Sound, AddOperand;
    if count > 0 {
      AddOperandsSound(m, f, k, n, ins, count - 1, e);
      AddOperandSound(m, f, k, n, ins, count - 1, AddOperands(m, f, k, n, ins, count - 1, e));
    }
  }

  lemma {:induction false} AddSuccessorsSound(m: Module, f: Function, k: nat, n: nat, block: BasicBlock, count: nat,
                                              e: Emission)
    requires Sound(m, f, k, e, Full(f)) && n < Full(f).instructions
    requires BlockInRange(m, f, block) && count <= |block.successors|
    ensures Sound(m, f, k, AddSuccessors(k, n, block, count, e), Full(f))
  {
    hide Sound, Known, Declares;
    if count > 0 {
      AddSuccessorsSound(m, f, k, n, block, count - 1, e);
      var before, s := AddSuccessors(k, n, block, count - 1, e), block.successors[count - 1];
      InstructionKnown(m, f, k, before, n);
      BlockKnown(m, f, k, before, s.block);
      AppendPlain(m, f, k, before, Full(f),
                  Relation(SUCCESSOR, InstructionOf(k, n), BlockOf(k, s.block), Some(count - 1), s.attributes));
    }
  }

  lemma AddCallSound(m: Module, f: Function, k: nat, n: nat, ins: Instruction, e: Emission)
    requires Sound(m, f, k, e, Full(f)) && n < Full(f).instructions && InstructionInRange(m, f, ins)
    ensures Sound(m, f, k, AddCall(m, k, n, ins, e), Full(f))
  {
    hide Sound, Declares;
    if ins.callee.Some? {
      InstructionKnown(m, f, k, e, n);
      AppendPlain(m, f, k, e, Full(f),
                  Relation(CALLS, InstructionOf(k, n), FunctionOf(ins.callee.value), None,
                           map["external" := if m.functions[ins.callee.value].declaration then "true" else "false"]));
    }
  }

  lemma {:induction false} AddSourcesSound(m: Module, f: Function, k: nat, n: nat, ins: Instruction, count: nat,
                                           e: Emission)
    requires Sound(m, f, k, e, Full(f)) && n < Full(f).instructions && count <= |ins.places|
    ensures Sound(m, f, k, AddSources(k, n, ins, count, e), Full(f))
  {
    hide Sound, Declares;
    if count > 0 {
      AddSourcesSound(m, f, k, n, ins, count - 1, e);
      var before := AddSources(k, n, ins, count - 1, e);
      InstructionKnown(m, f, k, before, n);
      AppendPlain(m, f, k, before, Full(f), Source(InstructionOf(k, n), count - 1, ins.places[count - 1]));
    }
  }

  lemma {:induction false} BaseMonotone(blocks: seq<BasicBlock>, b: nat, c: nat)
    requires b <= c <= |blocks|
    ensures Base(blocks, b) <= Base(blocks, c)
    decreases c
  {
    if b < c {
      BaseMonotone(blocks, b, c - 1);
    }
  }

  lemma {:induction false} HolderOf(blocks: seq<BasicBlock>, b: nat, i: nat, c: nat)
    requires c <= b < |blocks| && i < |blocks[b].instructions|
    ensures Holder(blocks, Base(blocks, b) + i, c) == b
    decreases b - c
  {
    if c < b {
      BaseMonotone(blocks, c + 1, b);
      HolderOf(blocks, b, i, c + 1);
    }
  }

  lemma InstructionOrdinal(f: Function, b: nat, i: nat)
    requires b < |f.blocks| && i < |f.blocks[b].instructions|
    ensures Base(f.blocks, b) + i < Full(f).instructions
    ensures Holder(f.blocks, Base(f.blocks, b) + i, 0) == b
  {
    BaseMonotone(f.blocks, b + 1, |f.blocks|);
    HolderOf(f.blocks, b, i, 0);
  }

  lemma AddInstructionSound(m: Module, f: Function, k: nat, b: nat, i: nat, e: Emission)
    requires Sound(m, f, k, e, Full(f))
    requires b < |f.blocks| && i < |f.blocks[b].instructions| && BlockInRange(m, f, f.blocks[b])
    ensures Sound(m, f, k, AddInstruction(m, f, k, b, i, e), Full(f))
  {
    hide Sound, Known, Declares, AddOperands, AddSuccessors, AddCall, AddSources, Full, Holder, Base;
    var block := f.blocks[b];
    var ins, n := block.instructions[i], Base(f.blocks, b) + i;
    InstructionOrdinal(f, b, i);
    InstructionKnown(m, f, k, e, n);
    BlockKnown(m, f, k, e, b);
    AppendPlain(m, f, k, e, Full(f), Contains(BlockOf(k, b), InstructionOf(k, n)));
    var e1 := With(e, Contains(BlockOf(k, b), InstructionOf(k, n)));
    AddOperandsSound(m, f, k, n, ins, |ins.operands|, e1);
    var e2 := AddOperands(m, f, k, n, ins, |ins.operands|, e1);
    AddSuccessorsSound(m, f, k, n, block, |block.successors|, e2);
    var e3 := if i == |block.instructions| - 1 then AddSuccessors(k, n, block, |block.successors|, e2) else e2;
    AddCallSound(m, f, k, n, ins, e3);
    AddSourcesSound(m, f, k, n, ins, |ins.places|, AddCall(m, k, n, ins, e3));
  }

  lemma {:induction false} AddInstructionsSound(m: Module, f: Function, k: nat, b: nat, count: nat, e: Emission)
    requires Sound(m, f, k, e, Full(f))
    requires b < |f.blocks| && count <= |f.blocks[b].instructions| && BlockInRange(m, f, f.blocks[b])
    ensures Sound(m, f, k, AddInstructions(m, f, k, b, count, e), Full(f))
  {
    hide Sound, AddInstruction, BlockInRange;
    if count > 0 {
      AddInstructionsSound(m, f, k, b, count - 1, e);
      AddInstructionSound(m, f, k, b, count - 1, AddInstructions(m, f, k, b, count - 1, e));
    }
  }

  lemma FunctionKnown(m: Module, f: Function, k: nat, e: Emission)
    requires Sound(m, f, k, e, Full(f))
    ensures Known(m, e.records, FunctionOf(k))
  {
    assert Placement(k, e, Full(f), FunctionOf(k));
  }

  lemma {:induction false} AddBlocksSound(m: Module, f: Function, k: nat, count: nat, e: Emission)
    requires Sound(m, f, k, e, Full(f)) && WellFormed(m, f) && count <= |f.blocks|
    ensures Sound(m, f, k, AddBlocks(m, f, k, count, e), Full(f))
  {
    hide Sound, Known, Declares, AddInstructions;
    if count > 0 {
      var b := count - 1;
      AddBlocksSound(m, f, k, b, e);
      var before := AddBlocks(m, f, k, b, e);
      FunctionKnown(m, f, k, before);
      BlockKnown(m, f, k, before, b);
      AppendPlain(m, f, k, before, Full(f), Contains(FunctionOf(k), BlockOf(k, b)));
      AddInstructionsSound(m, f, k, b, |f.blocks[b].instructions|,
                           With(before, Contains(FunctionOf(k), BlockOf(k, b))));
    }
  }

  lemma {:induction false} AddArgumentsSound(m: Module, f: Function, k: nat, count: nat, e: Emission)
    requires Sound(m, f, k, e, Full(f)) && count <= |f.arguments|
    ensures Sound(m, f, k, AddArguments(f, k, count, e), Full(f))
  {
    hide Sound, Known, Declares;
    if count > 0 {
      AddArgumentsSound(m, f, k, count - 1, e);
      var before := AddArguments(f, k, count - 1, e);
      FunctionKnown(m, f, k, before);
      ArgumentKnown(m, f, k, before, count - 1);
      AppendPlain(m, f, k, before, Full(f), Contains(FunctionOf(k), ArgumentOf(k, count - 1)));
    }
  }

  lemma ArgumentKnown(m: Module, f: Function, k: nat, e: Emission, a: nat)
    requires Sound(m, f, k, e, Full(f)) && a < |f.arguments|
    ensures Known(m, e.records, ArgumentOf(k, a))
  {
    assert Placement(k, e, Full(f), ArgumentOf(k, a));
  }

  lemma StructureSound(m: Module, k: nat)
    requires k < |m.functions| && WellFormed(m, m.functions[k])
    ensures Sound(m, m.functions[k], k, Structure(m, k), Full(m.functions[k]))
  {
    hide Sound, Full, AddBlocks, AddArguments, Opening;
    var f := m.functions[k];
    OpeningSound(m, f, k);
    AddArgumentsSound(m, f, k, |f.arguments|, Opening(k, f));
    AddBlocksSound(m, f, k, |f.blocks|, AddArguments(f, k, |f.arguments|, Opening(k, f)));
  }

  function Longer(e: Emission, rs: seq<Record<Local>>): Emission {
    e.(records := e.records + rs)
  }

  lemma DependenceSound(m: Module, f: Function, k: nat, d: CD.Dependence, e: Emission)
    requires Sound(m, f, k, e, Full(f)) && DependenceInRange(f, d)
    ensures Sound(m, f, k, With(e, DependenceRecord(f, k, d)), Full(f))
  {
    hide Sound, Known, Declares, Base, Holder;
    InstructionOrdinal(f, d.branch, |f.blocks[d.branch].instructions| - 1);
    InstructionKnown(m, f, k, e, Terminator(f, d.branch));
    BlockKnown(m, f, k, e, d.block);
    AppendPlain(m, f, k, e, Full(f), DependenceRecord(f, k, d));
  }

  lemma LongerSplits(f: Function, k: nat, ds: seq<CD.Dependence>, e: Emission)
    requires ds != [] && (forall d :: d in ds ==> DependenceInRange(f, d))
    ensures Longer(e, DependenceRecords(f, k, ds)) ==
            With(Longer(e, DependenceRecords(f, k, ds[..|ds| - 1])), DependenceRecord(f, k, ds[|ds| - 1]))
  {
    hide DependenceInRange, DependenceRecord;
    assert DependenceRecords(f, k, ds) ==
           DependenceRecords(f, k, ds[..|ds| - 1]) + [DependenceRecord(f, k, ds[|ds| - 1])];
    assert e.records + (DependenceRecords(f, k, ds[..|ds| - 1]) + [DependenceRecord(f, k, ds[|ds| - 1])]) ==
           e.records + DependenceRecords(f, k, ds[..|ds| - 1]) + [DependenceRecord(f, k, ds[|ds| - 1])];
  }

  lemma {:induction false} DependencesSound(m: Module, f: Function, k: nat, ds: seq<CD.Dependence>, e: Emission)
    requires Sound(m, f, k, e, Full(f)) && (forall d :: d in ds ==> DependenceInRange(f, d))
    ensures Sound(m, f, k, Longer(e, DependenceRecords(f, k, ds)), Full(f))
  {
    hide Sound, DependenceInRange, DependenceRecord, Full;
    if ds == [] {
      assert Longer(e, DependenceRecords(f, k, ds)).records == e.records;
    } else {
      DependencesSound(m, f, k, ds[..|ds| - 1], e);
      DependenceSound(m, f, k, ds[|ds| - 1], Longer(e, DependenceRecords(f, k, ds[..|ds| - 1])));
      LongerSplits(f, k, ds, e);
    }
  }

  /** The emission that stands for the whole list. */
  ghost function Whole(m: Module, k: nat): Emission
    requires k < |m.functions| && WellFormed(m, m.functions[k])
  {
    Structure(m, k).(records := Graph(m, k))
  }

  lemma GraphSound(m: Module, k: nat)
    requires k < |m.functions| && WellFormed(m, m.functions[k])
    ensures Sound(m, m.functions[k], k, Whole(m, k), Full(m.functions[k]))
  {
    hide Sound, Full, Structure, DependenceInRange;
    var f := m.functions[k];
    StructureSound(m, k);
    DependencesInRange(m, f);
    DependencesSound(m, f, k, CD.Dependences(CfgOf(f), f.parent), Structure(m, k));
  }

  // ---- What the list contains --------------------------------------------------------------------------------

  predicate IsDependence(r: Record<Local>) {
    r.Relation? && r.kind == CONTROL_DEPENDENCE
  }

  /** Records are only added, and none of the added ones is a control dependence. */
  predicate Grows(e: Emission, after: Emission) {
    && e.records <= after.records
    && forall i :: |e.records| <= i < |after.records| ==> !IsDependence(after.records[i])
  }

  lemma GrowsReflexive(e: Emission)
    ensures Grows(e, e)
  {
  }

  lemma GrowsTransitive(a: Emission, b: Emission, c: Emission)
    requires Grows(a, b) && Grows(b, c)
    ensures Grows(a, c)
  {
    forall i | |a.records| <= i < |c.records| ensures !IsDependence(c.records[i]) {
      if i < |b.records| {
        assert c.records[i] == b.records[i];
      }
    }
  }

  lemma AddOperandGrows(m: Module, f: Function, k: nat, n: nat, ins: Instruction, o: nat, e: Emission)
    requires o < |ins.operands| && OperandInRange(m, f, ins.operands[o])
    ensures Grows(e, AddOperand(m, k, n, ins, o, e))
  {
    assert Grows(e, Ensure(m, k, e, ins.operands[o]));
  }

  lemma {:induction false} AddOperandsGrow(m: Module, f: Function, k: nat, n: nat, ins: Instruction, count: nat,
                                           e: Emission)
    requires InstructionInRange(m, f, ins) && count <= |ins.operands|
    ensures Grows(e, AddOperands(m, f, k, n, ins, count, e))
  {
    hide AddOperand, Grows;
    if count == 0 {
      GrowsReflexive(e);
    } else {
      AddOperandsGrow(m, f, k, n, ins, count - 1, e);
      AddOperandGrows(m, f, k, n, ins, count - 1, AddOperands(m, f, k, n, ins, count - 1, e));
      GrowsTransitive(e, AddOperands(m, f, k, n, ins, count - 1, e), AddOperands(m, f, k, n, ins, count, e));
    }
  }

  lemma {:induction false} AddSuccessorsGrow(k: nat, n: nat, block: BasicBlock, count: nat, e: Emission)
    requires count <= |block.successors|
    ensures Grows(e, AddSuccessors(k, n, block, count, e))
  {
    if count > 0 {
      AddSuccessorsGrow(k, n, block, count - 1, e);
    }
  }

  lemma {:induction false} AddSourcesGrow(k: nat, n: nat, ins: Instruction, count: nat, e: Emission)
    requires count <= |ins.places|
    ensures Grows(e, AddSources(k, n, ins, count, e))
  {
    if count > 0 {
      AddSourcesGrow(k, n, ins, count - 1, e);
    }
  }

  lemma WithGrows(e: Emission, r: Record<Local>)
    requires !IsDependence(r)
    ensures Grows(e, With(e, r))
  {
  }

  /** The list says that instruction `i` of block `b` is contained in that block. */
  predicate Holds(f: Function, k: nat, b: nat, i: nat, rs: seq<Record<Local>>)
    requires b <= |f.blocks|
  {
    Contains(BlockOf(k, b), InstructionOf(k, Base(f.blocks, b) + i)) in rs
  }

  lemma HoldsGrows(f: Function, k: nat, e: Emission, after: Emission)
    requires Grows(e, after)
    ensures forall b, i :: 0 <= b <= |f.blocks| && 0 <= i && Holds(f, k, b, i, e.records) ==>
                           Holds(f, k, b, i, after.records)
  {
    assert after.records == e.records + after.records[|e.records|..];
  }

  /** An instruction adds the record that its block contains it. */
  lemma AddInstructionGrows(m: Module, f: Function, k: nat, b: nat, i: nat, e: Emission)
    requires b < |f.blocks| && i < |f.blocks[b].instructions| && BlockInRange(m, f, f.blocks[b])
    ensures Grows(e, AddInstruction(m, f, k, b, i, e))
    ensures Holds(f, k, b, i, AddInstruction(m, f, k, b, i, e).records)
  {
    hide AddOperands, AddSuccessors, AddSources, Base;
    var block := f.blocks[b];
    var ins, n := block.instructions[i], Base(f.blocks, b) + i;
    var e1 := With(e, Contains(BlockOf(k, b), InstructionOf(k, n)));
    AddOperandsGrow(m, f, k, n, ins, |ins.operands|, e1);
    var e2 := AddOperands(m, f, k, n, ins, |ins.operands|, e1);
    GrowsTransitive(e, e1, e2);
    AddSuccessorsGrow(k, n, block, |block.successors|, e2);
    var e3 := if i == |block.instructions| - 1 then AddSuccessors(k, n, block, |block.successors|, e2) else e2;
    GrowsTransitive(e, e2, e3);
    var e4 := AddCall(m, k, n, ins, e3);
    assert Grows(e3, e4);
    GrowsTransitive(e, e3, e4);
    AddSourcesGrow(k, n, ins, |ins.places|, e4);
    GrowsTransitive(e, e4, AddInstruction(m, f, k, b, i, e));
    assert e1.records[|e.records|] == Contains(BlockOf(k, b), InstructionOf(k, n));
    assert AddInstruction(m, f, k, b, i, e).records[|e.records|] == e1.records[|e.records|];
  }

  lemma {:induction false} AddInstructionsGrow(m: Module, f: Function, k: nat, b: nat, count: nat, e: Emission)
    requires b < |f.blocks| && count <= |f.blocks[b].instructions| && BlockInRange(m, f, f.blocks[b])
    ensures Grows(e, AddInstructions(m, f, k, b, count, e))
    ensures forall i :: 0 <= i < count ==>
              Holds(f, k, b, i, AddInstructions(m, f, k, b, count, e).records)
  {
    hide AddInstruction, BlockInRange, Holds, Grows;
    if count == 0 {
      GrowsReflexive(e);
    } else {
      var before := AddInstructions(m, f, k, b, count - 1, e);
      AddInstructionsGrow(m, f, k, b, count - 1, e);
      AddInstructionGrows(m, f, k, b, count - 1, before);
      GrowsTransitive(e, before, AddInstructions(m, f, k, b, count, e));
      HoldsGrows(f, k, before, AddInstructions(m, f, k, b, count, e));
    }
  }

  lemma {:induction false} AddBlocksGrow(m: Module, f: Function, k: nat, count: nat, e: Emission)
    requires WellFormed(m, f) && count <= |f.blocks|
    ensures Grows(e, AddBlocks(m, f, k, count, e))
    ensures forall b, i :: 0 <= b < count && 0 <= i < |f.blocks[b].instructions| ==>
              Holds(f, k, b, i, AddBlocks(m, f, k, count, e).records)
  {
    hide AddInstructions, Holds, Grows;
    if count == 0 {
      GrowsReflexive(e);
    } else {
      var b := count - 1;
      var before := AddBlocks(m, f, k, b, e);
      var e1 := With(before, Contains(FunctionOf(k), BlockOf(k, b)));
      AddBlocksGrow(m, f, k, b, e);
      WithGrows(before, Contains(FunctionOf(k), BlockOf(k, b)));
      GrowsTransitive(e, before, e1);
      HoldsGrows(f, k, before, AddBlocks(m, f, k, count, e)) by {
        AddInstructionsGrow(m, f, k, b, |f.blocks[b].instructions|, e1);
        GrowsTransitive(before, e1, AddBlocks(m, f, k, count, e));
      }
      AddInstructionsGrow(m, f, k, b, |f.blocks[b].instructions|, e1);
      GrowsTransitive(e, e1, AddBlocks(m, f, k, count, e));
    }
  }

  lemma {:induction false} AddArgumentsGrow(f: Function, k: nat, count: nat, e: Emission)
    requires count <= |f.arguments|
    ensures Grows(e, AddArguments(f, k, count, e))
  {
    if count > 0 {
      AddArgumentsGrow(f, k, count - 1, e);
    }
  }

  const EMPTY: Emission := Emission([], map[], 0)

  lemma {:induction false} OpenArgumentsGrow(k: nat, f: Function, count: nat, e: Emission)
    requires count <= |f.arguments|
    ensures Grows(e, OpenArguments(k, f, count, e))
  {
    if count > 0 {
      OpenArgumentsGrow(k, f, count - 1, e);
    }
  }

  lemma {:induction false} OpenInstructionsGrow(k: nat, base: nat, instructions: seq<Instruction>, count: nat, e: Emission)
    requires count <= |instructions|
    ensures Grows(e, OpenInstructions(k, base, instructions, count, e))
  {
    if count > 0 {
      OpenInstructionsGrow(k, base, instructions, count - 1, e);
    }
  }

  lemma {:induction false} OpenBlocksGrow(k: nat, f: Function, count: nat, e: Emission)
    requires count <= |f.blocks|
    ensures Grows(e, OpenBlocks(k, f, count, e))
  {
    hide OpenInstructions, Base;
    if count > 0 {
      var b := count - 1;
      var before := OpenBlocks(k, f, b, e);
      var e1 := With(before, BlockEntity(k, f, b));
      OpenBlocksGrow(k, f, b, e);
      assert Grows(before, e1);
      GrowsTransitive(e, before, e1);
      OpenInstructionsGrow(k, Base(f.blocks, b), f.blocks[b].instructions, |f.blocks[b].instructions|, e1);
      GrowsTransitive(e, e1, OpenBlocks(k, f, count, e));
    }
  }

  lemma OpeningGrows(k: nat, f: Function)
    ensures Grows(EMPTY, Opening(k, f))
  {
    var e := Emission([Header("capabilities"), Header("module"), FunctionEntity(k, f)], map[], 0);
    OpenArgumentsGrow(k, f, |f.arguments|, e);
    OpenBlocksGrow(k, f, |f.blocks|, OpenArguments(k, f, |f.arguments|, e));
    assert Grows(EMPTY, e);
    GrowsTransitive(EMPTY, e, OpenArguments(k, f, |f.arguments|, e));
    GrowsTransitive(EMPTY, OpenArguments(k, f, |f.arguments|, e), Opening(k, f));
  }

  lemma StructureContains(m: Module, k: nat)
    requires k < |m.functions| && WellFormed(m, m.functions[k])
    ensures var f := m.functions[k];
            && (forall r :: r in Structure(m, k).records ==> !IsDependence(r))
            && (forall b, i :: 0 <= b < |f.blocks| && 0 <= i < |f.blocks[b].instructions| ==>
                  Holds(f, k, b, i, Structure(m, k).records))
  {
    hide Opening, AddArguments, AddBlocks, Holds;
    var f := m.functions[k];
    OpeningGrows(k, f);
    AddArgumentsGrow(f, k, |f.arguments|, Opening(k, f));
    AddBlocksGrow(m, f, k, |f.blocks|, AddArguments(f, k, |f.arguments|, Opening(k, f)));
    GrowsTransitive(EMPTY, Opening(k, f), AddArguments(f, k, |f.arguments|, Opening(k, f)));
    GrowsTransitive(EMPTY, AddArguments(f, k, |f.arguments|, Opening(k, f)), Structure(m, k));
  }

  /** The control-dependence records of the list are those of the emitted dependences. */
  lemma DependenceRecordsOnly(m: Module, k: nat, r: Record<Local>)
    requires k < |m.functions| && WellFormed(m, m.functions[k])
    requires forall d :: d in CD.Dependences(CfgOf(m.functions[k]), m.functions[k].parent) ==>
               DependenceInRange(m.functions[k], d)
    ensures r in Graph(m, k) && IsDependence(r) <==>
            r in DependenceRecords(m.functions[k], k, CD.Dependences(CfgOf(m.functions[k]), m.functions[k].parent))
  {
    StructureContains(m, k);
    hide Structure, Base, CD.Dependences, Holds, DependenceInRange;
  }

  /** The control-dependence records of the list are exactly the control dependences of the graph. */
  lemma DependenceRecordsExact(m: Module, k: nat, r: Record<Local>)
    requires k < |m.functions| && WellFormed(m, m.functions[k])
    ensures r in Graph(m, k) && IsDependence(r) <==>
            exists d :: CD.Depends(CfgOf(m.functions[k]), d) && DependenceInRange(m.functions[k], d) &&
                        r == DependenceRecord(m.functions[k], k, d)
  {
    hide Graph, CD.Dependences, CD.Depends, WellFormed, DependenceRecord, DependenceInRange, IsDependence;
    var f := m.functions[k];
    InputOf(m, f);
    var ds := CD.Dependences(CfgOf(f), f.parent);
    DependencesInRange(m, f);
    DependenceRecordsOnly(m, k, r);
    CD.DependencesExact(CfgOf(f), f.parent);
    var rs := DependenceRecords(f, k, ds);
    if r in rs {
      var i :| 0 <= i < |rs| && rs[i] == r;
      assert ds[i] in ds;
    }
    if d :| CD.Depends(CfgOf(f), d) && DependenceInRange(f, d) && r == DependenceRecord(f, k, d) {
      assert d in ds;
      var i :| 0 <= i < |ds| && ds[i] == d;
      assert rs[i] == r;
    }
  }

  predicate SameEdge(a: Record<Local>, b: Record<Local>)
    requires a.Relation? && b.Relation?
  {
    a.src == b.src && a.dst == b.dst && a.ordinal == b.ordinal
  }

  /** No two control-dependence records name the same block, terminator and ordinal. */
  lemma DependenceRecordsOnce(m: Module, k: nat, i: nat, j: nat)
    requires k < |m.functions| && WellFormed(m, m.functions[k])
    requires i < j < |Graph(m, k)| && IsDependence(Graph(m, k)[i]) && IsDependence(Graph(m, k)[j])
    ensures !SameEdge(Graph(m, k)[i], Graph(m, k)[j])
  {
    hide Structure, CD.Dependences, CD.Depends, WellFormed, DependenceRecord, DependenceInRange;
    var f := m.functions[k];
    InputOf(m, f);
    DependencesInRange(m, f);
    CD.DependencesExact(CfgOf(f), f.parent);
    StructureContains(m, k);
    var s, ds := Structure(m, k).records, CD.Dependences(CfgOf(f), f.parent);
    assert forall l :: 0 <= l < |s| ==> !IsDependence(s[l]) && Graph(m, k)[l] == s[l];
    assert i >= |s|;
    assert ds[i - |s|] in ds && ds[j - |s|] in ds;
    DependenceRecordInjective(f, k, ds[i - |s|], ds[j - |s|]);
  }

  lemma InputOf(m: Module, f: Function)
    requires WellFormed(m, f)
    ensures CD.Input(CfgOf(f), f.parent)
  {
  }

  lemma TerminatorInjective(f: Function, b: nat, c: nat)
    requires b < |f.blocks| && |f.blocks[b].instructions| > 0 && c < |f.blocks| && |f.blocks[c].instructions| > 0
    requires Terminator(f, b) == Terminator(f, c)
    ensures b == c
  {
    InstructionOrdinal(f, b, |f.blocks[b].instructions| - 1);
    InstructionOrdinal(f, c, |f.blocks[c].instructions| - 1);
  }

  /** Different dependences have different records; they differ in block, terminator or ordinal. */
  lemma DependenceRecordInjective(f: Function, k: nat, a: CD.Dependence, b: CD.Dependence)
    requires DependenceInRange(f, a) && DependenceInRange(f, b)
    requires a != b
    ensures !SameEdge(DependenceRecord(f, k, a), DependenceRecord(f, k, b))
  {
    if Terminator(f, a.branch) == Terminator(f, b.branch) {
      TerminatorInjective(f, a.branch, b.branch);
    }
  }
}
