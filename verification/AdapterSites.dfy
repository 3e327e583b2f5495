/**
 * The whole list of the adapter, told from the module alone: what stands at each place of a function gives one record,
 * and the records come in the order of the places.
 */
module AdapterSites {
  import opened Wrappers
  import opened Keys
  import opened Records
  import opened Adapter

  // ---- Places ------------------------------------------------------------------------------------------------

  /**
   * A place of the function: the function itself; the declaration of an argument, block or instruction; its containment;
   * the first use of a global or constant; operand `o` of an instruction; a reference; a branch to successor `s` of a
   * block; a call; a source location.
   */
  datatype Site =
    | Whole
    | Argument(a: nat)
    | Block(b: nat)
    | Instr(b: nat, i: nat)
    | ArgumentIn(a: nat)
    | BlockIn(b: nat)
    | InstrIn(b: nat, i: nat)
    | FirstUse(b: nat, i: nat, o: nat)
    | Use(b: nat, i: nat, o: nat)
    | Reference(b: nat, i: nat, o: nat)
    | Branch(b: nat, s: nat)
    | Call(b: nat, i: nat)
    | Place(b: nat, i: nat, d: nat)

  predicate IsInstr(f: Function, b: nat, i: nat) {
    b < |f.blocks| && i < |f.blocks[b].instructions|
  }

  predicate IsOperand(f: Function, b: nat, i: nat, o: nat) {
    IsInstr(f, b, i) && o < |f.blocks[b].instructions[i].operands|
  }

  function OperandAt(f: Function, b: nat, i: nat, o: nat): Operand
    requires IsOperand(f, b, i, o)
  {
    f.blocks[b].instructions[i].operands[o]
  }

  /** The operand has no place of its own in the function. */
  predicate Outside(op: Operand) {
    op.GlobalRef? || op.OtherRef?
  }

  /** The one operand comes before the other in the text of the function. */
  predicate Precedes(b: nat, i: nat, o: nat, c: nat, j: nat, p: nat) {
    b < c || (b == c && (i < j || (i == j && o < p)))
  }

  /** An earlier operand is the same. */
  ghost predicate Used(f: Function, op: Operand, c: nat, j: nat, p: nat) {
    exists b: nat, i: nat, o: nat :: IsOperand(f, b, i, o) && Precedes(b, i, o, c, j, p) && OperandAt(f, b, i, o) == op
  }

  /** The place exists. */
  ghost predicate Valid(f: Function, s: Site) {
    match s
    case Whole => true
    case Argument(a) => a < |f.arguments|
    case Block(b) => b < |f.blocks|
    case Instr(b, i) => IsInstr(f, b, i)
    case ArgumentIn(a) => a < |f.arguments|
    case BlockIn(b) => b < |f.blocks|
    case InstrIn(b, i) => IsInstr(f, b, i)
    case FirstUse(b, i, o) =>
      IsOperand(f, b, i, o) && Outside(OperandAt(f, b, i, o)) && !Used(f, OperandAt(f, b, i, o), b, i, o)
    case Use(b, i, o) => IsOperand(f, b, i, o)
    case Reference(b, i, o) => IsOperand(f, b, i, o) && OperandAt(f, b, i, o).GlobalRef?
    case Branch(b, s) => b < |f.blocks| && |f.blocks[b].instructions| > 0 && s < |f.blocks[b].successors|
    case Call(b, i) => IsInstr(f, b, i) && f.blocks[b].instructions[i].callee.Some?
    case Place(b, i, d) => IsInstr(f, b, i) && d < |f.blocks[b].instructions[i].places|
  }

  /** What an operand names. Constants are named by a table. */
  function NameOf(k: nat, table: map<Operand, Local>, op: Operand): Local {
    match op
    case ArgumentRef(i) => ArgumentOf(k, i)
    case BlockRef(i) => BlockOf(k, i)
    case InstructionRef(i) => InstructionOf(k, i)
    case FunctionRef(i) => FunctionOf(i)
    case GlobalRef(i) => GlobalOf(i)
    case OtherRef(_) => if op in table then table[op] else FunctionOf(k)
  }

  function InstrKey(f: Function, k: nat, b: nat, i: nat): Local
    requires IsInstr(f, b, i)
  {
    InstructionOf(k, Base(f.blocks, b) + i)
  }

  function Incoming(f: Function, k: nat, b: nat, i: nat, o: nat): map<string, string>
    requires IsInstr(f, b, i)
  {
    var ins := f.blocks[b].instructions[i];
    if o < |ins.incoming| then map["incoming_block" := Render(BlockOf(k, ins.incoming[o]))] else map[]
  }

  function External(m: Module, callee: nat): map<string, string> {
    map["external" := if callee < |m.functions| && m.functions[callee].declaration then "true" else "false"]
  }

  /** The record of a place. */
  ghost function RecordAt(m: Module, f: Function, k: nat, table: map<Operand, Local>, s: Site): Record<Local>
    requires Valid(f, s)
  {
    match s
    case Whole => Entity("function", FunctionOf(k), Some(k), f.name, None, f.text)
    case Argument(a) => Entity("argument", ArgumentOf(k, a), Some(a), f.arguments[a], None, "")
    case Block(b) => Entity("basic_block", BlockOf(k, b), Some(b), f.blocks[b].name, None, "")
    case Instr(b, i) =>
      var ins := f.blocks[b].instructions[i];
      Entity("instruction", InstrKey(f, k, b, i), Some(Base(f.blocks, b) + i), ins.name, Some(ins.opcode), ins.text)
    case ArgumentIn(a) => Relation("llvm.contains", FunctionOf(k), ArgumentOf(k, a), None, map[])
    case BlockIn(b) => Relation("llvm.contains", FunctionOf(k), BlockOf(k, b), None, map[])
    case InstrIn(b, i) => Relation("llvm.contains", BlockOf(k, b), InstrKey(f, k, b, i), None, map[])
    case FirstUse(b, i, o) =>
      var op := OperandAt(f, b, i, o);
      if op.GlobalRef? then
        Entity("global", GlobalOf(op.index), None, if op.index < |m.globals| then m.globals[op.index] else "", None, "")
      else Entity("constant", NameOf(k, table, op), None, "", None, "")
    case Use(b, i, o) =>
      Relation("llvm.operand", InstrKey(f, k, b, i), NameOf(k, table, OperandAt(f, b, i, o)), Some(o),
               Incoming(f, k, b, i, o))
    case Reference(b, i, o) =>
      Relation("llvm.references-global", InstrKey(f, k, b, i), GlobalOf(OperandAt(f, b, i, o).index), None, map[])
    case Branch(b, s) =>
      var next := f.blocks[b].successors[s];
      Relation("llvm.cfg-successor", InstrKey(f, k, b, |f.blocks[b].instructions| - 1), BlockOf(k, next.block), Some(s),
               next.attributes)
    case Call(b, i) =>
      var callee := f.blocks[b].instructions[i].callee.value;
      Relation("llvm.calls", InstrKey(f, k, b, i), FunctionOf(callee), None, External(m, callee))
    case Place(b, i, d) => Source(InstrKey(f, k, b, i), d, f.blocks[b].instructions[i].places[d])
  }

  // ---- Order -------------------------------------------------------------------------------------------------

  datatype Rank = Rank(phase: nat, x: nat, y: nat, part: nat, z: nat)

  /** First the declarations, block by block; then the arguments; then, block by block, what each instruction says. */
  function RankOf(f: Function, s: Site): Rank {
    match s
    case Whole => Rank(0, 0, 0, 0, 0)
    case Argument(a) => Rank(1, a, 0, 0, 0)
    case Block(b) => Rank(2, b, 0, 0, 0)
    case Instr(b, i) => Rank(2, b, i + 1, 0, 0)
    case ArgumentIn(a) => Rank(3, a, 0, 0, 0)
    case BlockIn(b) => Rank(4, b, 0, 0, 0)
    case InstrIn(b, i) => Rank(4, b, i + 1, 0, 0)
    case FirstUse(b, i, o) => Rank(4, b, i + 1, 1, 3 * o)
    case Use(b, i, o) => Rank(4, b, i + 1, 1, 3 * o + 1)
    case Reference(b, i, o) => Rank(4, b, i + 1, 1, 3 * o + 2)
    case Branch(b, s) => Rank(4, b, if b < |f.blocks| then |f.blocks[b].instructions| else 0, 2, s)
    case Call(b, i) => Rank(4, b, i + 1, 3, 0)
    case Place(b, i, d) => Rank(4, b, i + 1, 4, d)
  }

  predicate Below(a: Rank, b: Rank) {
    a.phase < b.phase || (a.phase == b.phase &&
    (a.x < b.x || (a.x == b.x &&
    (a.y < b.y || (a.y == b.y &&
    (a.part < b.part || (a.part == b.part && a.z < b.z)))))))
  }

  ghost predicate Ordered(f: Function, sites: seq<Site>) {
    forall i, j :: 0 <= i < j < |sites| ==> Below(RankOf(f, sites[i]), RankOf(f, sites[j]))
  }

  /** All places of the one list come before those of the other. */
  ghost predicate Apart(f: Function, a: seq<Site>, b: seq<Site>) {
    forall s, t :: s in a && t in b ==> Below(RankOf(f, s), RankOf(f, t))
  }

  // ---- Constants ---------------------------------------------------------------------------------------------

  /** The place names a new constant. */
  predicate NewConstant(f: Function, s: Site) {
    s.FirstUse? && IsOperand(f, s.b, s.i, s.o) && OperandAt(f, s.b, s.i, s.o).OtherRef?
  }

  function ConstantName(f: Function, k: nat, table: map<Operand, Local>, s: Site): Local
    requires NewConstant(f, s)
  {
    NameOf(k, table, OperandAt(f, s.b, s.i, s.o))
  }

  /** What the table calls the new constants, in the order of their places. */
  function Constants(f: Function, k: nat, table: map<Operand, Local>, sites: seq<Site>): seq<Local> {
    if sites == [] then []
    else
      var init, s := Constants(f, k, table, sites[..|sites| - 1]), sites[|sites| - 1];
      if NewConstant(f, s) then init + [ConstantName(f, k, table, s)] else init
  }

  /** The constants from number `low` on. */
  function Counted(k: nat, low: nat, high: nat): (r: seq<Local>)
    requires low <= high
    ensures |r| == high - low && forall i :: 0 <= i < |r| ==> r[i] == ConstantOf(k, low + i)
  {
    seq(high - low, i requires 0 <= i < high - low => ConstantOf(k, low + i))
  }

  /** New constants are numbered from `low` to `high` in the order of their places. */
  predicate Numbers(f: Function, k: nat, table: map<Operand, Local>, sites: seq<Site>, low: nat, high: nat) {
    low <= high && Constants(f, k, table, sites) == Counted(k, low, high)
  }

  lemma {:induction false} ConstantsJoin(f: Function, k: nat, table: map<Operand, Local>, a: seq<Site>, b: seq<Site>)
    ensures Constants(f, k, table, a + b) == Constants(f, k, table, a) + Constants(f, k, table, b)
  {
    hide NewConstant, ConstantName;
    if b == [] {
      assert a + b == a;
    } else {
      ConstantsJoin(f, k, table, a, b[..|b| - 1]);
      assert (a + b)[..|a + b| - 1] == a + b[..|b| - 1];
    }
  }

  lemma NumbersJoin(f: Function, k: nat, table: map<Operand, Local>, a: seq<Site>, b: seq<Site>, x: nat, y: nat, z: nat)
    requires Numbers(f, k, table, a, x, y) && Numbers(f, k, table, b, y, z)
    ensures Numbers(f, k, table, a + b, x, z)
  {
    hide Constants;
    ConstantsJoin(f, k, table, a, b);
    assert Counted(k, x, z) == Counted(k, x, y) + Counted(k, y, z);
  }

  // ---- Emission ----------------------------------------------------------------------------------------------

  ghost predicate AllValid(f: Function, sites: seq<Site>) {
    forall s :: s in sites ==> Valid(f, s)
  }

  ghost function RecordsAt(m: Module, f: Function, k: nat, table: map<Operand, Local>, sites: seq<Site>)
    : (r: seq<Record<Local>>)
    requires AllValid(f, sites)
    ensures |r| == |sites| && forall i :: 0 <= i < |r| ==> r[i] == RecordAt(m, f, k, table, sites[i])
  {
    if sites == [] then []
    else
      assert forall s :: s in sites[..|sites| - 1] ==> s in sites;
      RecordsAt(m, f, k, table, sites[..|sites| - 1]) + [RecordAt(m, f, k, table, sites[|sites| - 1])]
  }

  /** Between the two emissions exactly the records of these places were added. */
  ghost predicate Stage(m: Module, f: Function, k: nat, table: map<Operand, Local>, e: Emission, after: Emission,
                        sites: seq<Site>)
  {
    && AllValid(f, sites) && Ordered(f, sites)
    && after.records == e.records + RecordsAt(m, f, k, table, sites)
    && Numbers(f, k, table, sites, e.constants, after.constants)
  }

  lemma StageNone(m: Module, f: Function, k: nat, table: map<Operand, Local>, e: Emission)
    ensures Stage(m, f, k, table, e, e, [])
  {
    assert e.records + RecordsAt(m, f, k, table, []) == e.records;
  }

  /** One record that declares no constant. */
  lemma StageOne(m: Module, f: Function, k: nat, table: map<Operand, Local>, e: Emission, after: Emission, s: Site)
    requires Valid(f, s) && !NewConstant(f, s)
    requires after.records == e.records + [RecordAt(m, f, k, table, s)] && after.constants == e.constants
    ensures Stage(m, f, k, table, e, after, [s])
  {
    hide RecordAt, Valid, NewConstant, RankOf;
    assert [s][..0] == [];
    assert RecordsAt(m, f, k, table, [s]) == [RecordAt(m, f, k, table, s)];
    assert Constants(f, k, table, [s]) == [];
  }

  /** One record that declares the next constant. */
  lemma StageConstant(m: Module, f: Function, k: nat, table: map<Operand, Local>, e: Emission, after: Emission, s: Site)
    requires Valid(f, s) && NewConstant(f, s)
    requires ConstantName(f, k, table, s) == ConstantOf(k, e.constants)
    requires after.records == e.records + [RecordAt(m, f, k, table, s)] && after.constants == e.constants + 1
    ensures Stage(m, f, k, table, e, after, [s])
  {
    hide RecordAt, Valid, NewConstant, RankOf, ConstantName;
    assert [s][..0] == [];
    assert RecordsAt(m, f, k, table, [s]) == [RecordAt(m, f, k, table, s)];
    assert Constants(f, k, table, [s]) == [ConstantOf(k, e.constants)];
  }

  lemma RecordsJoin(m: Module, f: Function, k: nat, table: map<Operand, Local>, a: seq<Site>, b: seq<Site>)
    requires AllValid(f, a) && AllValid(f, b)
    ensures AllValid(f, a + b)
    ensures RecordsAt(m, f, k, table, a + b) == RecordsAt(m, f, k, table, a) + RecordsAt(m, f, k, table, b)
  {
    hide RecordAt, Valid;
  }

  lemma OrderedJoin(f: Function, a: seq<Site>, b: seq<Site>)
    requires Ordered(f, a) && Ordered(f, b) && Apart(f, a, b)
    ensures Ordered(f, a + b)
  {
    hide RankOf, Below;
    forall i, j | 0 <= i < j < |a + b| ensures Below(RankOf(f, (a + b)[i]), RankOf(f, (a + b)[j])) {
      if i < |a| <= j {
        assert (a + b)[i] in a && (a + b)[j] in b;
      }
    }
  }

  /** One stage after another. */
  lemma StageJoin(m: Module, f: Function, k: nat, table: map<Operand, Local>, e: Emission, mid: Emission, after: Emission,
                  a: seq<Site>, b: seq<Site>)
    requires Stage(m, f, k, table, e, mid, a) && Stage(m, f, k, table, mid, after, b) && Apart(f, a, b)
    ensures Stage(m, f, k, table, e, after, a + b)
  {
    hide Ordered, Apart, Numbers, AllValid, RecordsAt;
    RecordsJoin(m, f, k, table, a, b);
    OrderedJoin(f, a, b);
    NumbersJoin(f, k, table, a, b, e.constants, mid.constants, after.constants);
  }

  /** The list holds exactly the places of the one sort. */
  ghost predicate Exactly(sites: seq<Site>, sort: Site -> bool) {
    forall s :: s in sites <==> sort(s)
  }

  // ---- Declarations ------------------------------------------------------------------------------------------

  lemma {:induction false} ArgumentsStage(m: Module, f: Function, k: nat, table: map<Operand, Local>, count: nat,
                                          e: Emission) returns (sites: seq<Site>)
    requires count <= |f.arguments|
    ensures Stage(m, f, k, table, e, OpenArguments(k, f, count, e), sites)
    ensures Exactly(sites, (s: Site) => s.Argument? && s.a < count)
  {
    hide Stage;
    if count == 0 {
      sites := [];
      StageNone(m, f, k, table, e);
    } else {
      var before := OpenArguments(k, f, count - 1, e);
      var init := ArgumentsStage(m, f, k, table, count - 1, e);
      StageOne(m, f, k, table, before, OpenArguments(k, f, count, e), Argument(count - 1));
      sites := init + [Argument(count - 1)];
      StageJoin(m, f, k, table, e, before, OpenArguments(k, f, count, e), init, [Argument(count - 1)]);
    }
  }

  lemma {:induction false} InstructionsStage(m: Module, f: Function, k: nat, table: map<Operand, Local>, b: nat,
                                             count: nat, e: Emission) returns (sites: seq<Site>)
    requires b < |f.blocks| && count <= |f.blocks[b].instructions|
    ensures Stage(m, f, k, table, e, OpenInstructions(k, Base(f.blocks, b), f.blocks[b].instructions, count, e), sites)
    ensures Exactly(sites, (s: Site) => s.Instr? && s.b == b && s.i < count)
  {
    hide Stage, Base;
    if count == 0 {
      sites := [];
      StageNone(m, f, k, table, e);
    } else {
      var before := OpenInstructions(k, Base(f.blocks, b), f.blocks[b].instructions, count - 1, e);
      var after := OpenInstructions(k, Base(f.blocks, b), f.blocks[b].instructions, count, e);
      var init := InstructionsStage(m, f, k, table, b, count - 1, e);
      StageOne(m, f, k, table, before, after, Instr(b, count - 1));
      sites := init + [Instr(b, count - 1)];
      StageJoin(m, f, k, table, e, before, after, init, [Instr(b, count - 1)]);
    }
  }

  lemma {:induction false} BlocksStage(m: Module, f: Function, k: nat, table: map<Operand, Local>, count: nat, e: Emission)
    returns (sites: seq<Site>)
    requires count <= |f.blocks|
    ensures Stage(m, f, k, table, e, OpenBlocks(k, f, count, e), sites)
    ensures Exactly(sites, (s: Site) => (s.Block? && s.b < count) || (s.Instr? && s.b < count && IsInstr(f, s.b, s.i)))
  {
    hide Stage, Base;
    if count == 0 {
      sites := [];
      StageNone(m, f, k, table, e);
    } else {
      var b := count - 1;
      var before := OpenBlocks(k, f, b, e);
      var started, after := With(before, BlockEntity(k, f, b)), OpenBlocks(k, f, count, e);
      var init := BlocksStage(m, f, k, table, b, e);
      StageOne(m, f, k, table, before, started, Block(b));
      var inside := InstructionsStage(m, f, k, table, b, |f.blocks[b].instructions|, started);
      StageJoin(m, f, k, table, before, started, after, [Block(b)], inside);
      StageJoin(m, f, k, table, e, before, after, init, [Block(b)] + inside);
      sites := init + ([Block(b)] + inside);
    }
  }

  lemma {:induction false} ArgumentsInStage(m: Module, f: Function, k: nat, table: map<Operand, Local>, count: nat,
                                            e: Emission) returns (sites: seq<Site>)
    requires count <= |f.arguments|
    ensures Stage(m, f, k, table, e, AddArguments(f, k, count, e), sites)
    ensures Exactly(sites, (s: Site) => s.ArgumentIn? && s.a < count)
  {
    hide Stage;
    if count == 0 {
      sites := [];
      StageNone(m, f, k, table, e);
    } else {
      var before := AddArguments(f, k, count - 1, e);
      var init := ArgumentsInStage(m, f, k, table, count - 1, e);
      StageOne(m, f, k, table, before, AddArguments(f, k, count, e), ArgumentIn(count - 1));
      sites := init + [ArgumentIn(count - 1)];
      StageJoin(m, f, k, table, e, before, AddArguments(f, k, count, e), init, [ArgumentIn(count - 1)]);
    }
  }

  // ---- Operands ----------------------------------------------------------------------------------------------

  /** The tables hold what was used before the operand at this place, and globals under their own names. */
  ghost predicate Seen(f: Function, e: Emission, b: nat, i: nat, o: nat) {
    && (forall op :: op in e.extra <==> Outside(op) && Used(f, op, b, i, o))
    && (forall op :: op in e.extra && op.GlobalRef? ==> e.extra[op] == GlobalOf(op.index))
  }

  /** The table of the whole list agrees with the tables so far. */
  ghost predicate Within(e: Emission, table: map<Operand, Local>) {
    forall op :: op in e.extra ==> op in table && table[op] == e.extra[op]
  }

  lemma UsedNext(f: Function, op: Operand, b: nat, i: nat, o: nat)
    requires IsOperand(f, b, i, o)
    ensures Used(f, op, b, i, o + 1) <==> Used(f, op, b, i, o) || OperandAt(f, b, i, o) == op
  {
    if Used(f, op, b, i, o + 1) {
      var c: nat, j: nat, p: nat :|
        IsOperand(f, c, j, p) && Precedes(c, j, p, b, i, o + 1) && OperandAt(f, c, j, p) == op;
      assert Precedes(c, j, p, b, i, o) || (c == b && j == i && p == o);
    }
    if Used(f, op, b, i, o) {
      var c: nat, j: nat, p: nat :| IsOperand(f, c, j, p) && Precedes(c, j, p, b, i, o) && OperandAt(f, c, j, p) == op;
      assert Precedes(c, j, p, b, i, o + 1);
    }
    if OperandAt(f, b, i, o) == op {
      assert Precedes(b, i, o, b, i, o + 1);
    }
  }

  /** The same operands come before the two places. */
  lemma UsedSame(f: Function, op: Operand, b: nat, i: nat, o: nat, c: nat, j: nat, p: nat)
    requires forall x: nat, y: nat, z: nat :: IsOperand(f, x, y, z) ==>
               (Precedes(x, y, z, b, i, o) <==> Precedes(x, y, z, c, j, p))
    ensures Used(f, op, b, i, o) <==> Used(f, op, c, j, p)
  {
    hide Precedes, IsOperand;
  }

  /** Places about operand `o` of the instruction. */
  predicate OfOperand(s: Site, b: nat, i: nat, o: nat) {
    (s.FirstUse? || s.Use? || s.Reference?) && s.b == b && s.i == i && s.o == o
  }

  lemma EnsureStage(m: Module, f: Function, k: nat, table: map<Operand, Local>, b: nat, i: nat, o: nat, e: Emission)
    returns (sites: seq<Site>)
    requires IsOperand(f, b, i, o) && OperandInRange(m, f, OperandAt(f, b, i, o))
    requires Seen(f, e, b, i, o) && Within(Ensure(m, k, e, OperandAt(f, b, i, o)), table)
    ensures var after := Ensure(m, k, e, OperandAt(f, b, i, o));
            && Stage(m, f, k, table, e, after, sites)
            && Seen(f, after, b, i, o + 1)
            && KeyOf(k, after, OperandAt(f, b, i, o)) == NameOf(k, table, OperandAt(f, b, i, o))
    ensures sites == if Valid(f, FirstUse(b, i, o)) then [FirstUse(b, i, o)] else []
  {
    hide Stage, Used, RecordAt;
    var op := OperandAt(f, b, i, o);
    var after := Ensure(m, k, e, op);
    forall x ensures Used(f, x, b, i, o + 1) <==> Used(f, x, b, i, o) || op == x {
      UsedNext(f, x, b, i, o);
    }
    if !Outside(op) || Used(f, op, b, i, o) {
      sites := [];
      StageNone(m, f, k, table, e);
    } else {
      sites := [FirstUse(b, i, o)];
      FirstUseRecord(m, f, k, table, b, i, o);
      if op.GlobalRef? {
        StageOne(m, f, k, table, e, after, FirstUse(b, i, o));
      } else {
        StageConstant(m, f, k, table, e, after, FirstUse(b, i, o));
      }
    }
  }

  lemma FirstUseRecord(m: Module, f: Function, k: nat, table: map<Operand, Local>, b: nat, i: nat, o: nat)
    requires Valid(f, FirstUse(b, i, o)) && OperandInRange(m, f, OperandAt(f, b, i, o))
    ensures var op := OperandAt(f, b, i, o);
            RecordAt(m, f, k, table, FirstUse(b, i, o)) ==
            if op.GlobalRef? then Entity("global", GlobalOf(op.index), None, m.globals[op.index], None, "")
            else Entity("constant", NameOf(k, table, op), None, "", None, "")
  {
  }

  lemma UseRecord(m: Module, f: Function, k: nat, table: map<Operand, Local>, b: nat, i: nat, o: nat)
    requires IsOperand(f, b, i, o)
    ensures RecordAt(m, f, k, table, Use(b, i, o)) ==
            Relation(OPERAND, InstrKey(f, k, b, i), NameOf(k, table, OperandAt(f, b, i, o)), Some(o),
                     Incoming(f, k, b, i, o))
  {
    hide InstrKey, NameOf, Incoming, Base;
  }

  lemma ReferenceRecord(m: Module, f: Function, k: nat, table: map<Operand, Local>, b: nat, i: nat, o: nat)
    requires IsOperand(f, b, i, o) && OperandAt(f, b, i, o).GlobalRef?
    ensures RecordAt(m, f, k, table, Reference(b, i, o)) ==
            Relation(REFERENCES, InstrKey(f, k, b, i), NameOf(k, table, OperandAt(f, b, i, o)), None, map[])
  {
    hide InstrKey, Base;
  }

  /** The operand's records: its relation, and the reference if it is a global. */
  lemma OperandRecords(m: Module, f: Function, k: nat, table: map<Operand, Local>, b: nat, i: nat, o: nat, e: Emission)
    requires IsOperand(f, b, i, o) && OperandInRange(m, f, OperandAt(f, b, i, o))
    requires KeyOf(k, Ensure(m, k, e, OperandAt(f, b, i, o)), OperandAt(f, b, i, o)) ==
             NameOf(k, table, OperandAt(f, b, i, o))
    ensures var op, after := OperandAt(f, b, i, o),
                             AddOperand(m, k, Base(f.blocks, b) + i, f.blocks[b].instructions[i], o, e);
            var used := With(Ensure(m, k, e, op), RecordAt(m, f, k, table, Use(b, i, o)));
            after == if op.GlobalRef? then With(used, RecordAt(m, f, k, table, Reference(b, i, o))) else used
  {
    hide Ensure, Base, RecordAt, NameOf;
    UseRecord(m, f, k, table, b, i, o);
    if OperandAt(f, b, i, o).GlobalRef? {
      ReferenceRecord(m, f, k, table, b, i, o);
    }
  }

  lemma OperandStage(m: Module, f: Function, k: nat, table: map<Operand, Local>, b: nat, i: nat, o: nat, e: Emission)
    returns (sites: seq<Site>)
    requires IsOperand(f, b, i, o) && OperandInRange(m, f, OperandAt(f, b, i, o)) && Seen(f, e, b, i, o)
    requires Within(AddOperand(m, k, Base(f.blocks, b) + i, f.blocks[b].instructions[i], o, e), table)
    ensures var after := AddOperand(m, k, Base(f.blocks, b) + i, f.blocks[b].instructions[i], o, e);
            Stage(m, f, k, table, e, after, sites) && Seen(f, after, b, i, o + 1)
    ensures Exactly(sites, (s: Site) => OfOperand(s, b, i, o) && Valid(f, s))
  {
    hide Stage, Seen, Used, Ensure, NameOf, KeyOf, Base, AddOperand, RecordAt;
    var op := OperandAt(f, b, i, o);
    var ensured, after := Ensure(m, k, e, op), AddOperand(m, k, Base(f.blocks, b) + i, f.blocks[b].instructions[i], o, e);
    OperandExtra(m, k, Base(f.blocks, b) + i, f.blocks[b].instructions[i], o, e);
    var first := EnsureStage(m, f, k, table, b, i, o, e);
    OperandRecords(m, f, k, table, b, i, o, e);
    var used := With(ensured, RecordAt(m, f, k, table, Use(b, i, o)));
    StageOne(m, f, k, table, ensured, used, Use(b, i, o));
    StageJoin(m, f, k, table, e, ensured, used, first, [Use(b, i, o)]);
    sites := first + [Use(b, i, o)];
    if op.GlobalRef? {
      StageOne(m, f, k, table, used, after, Reference(b, i, o));
      StageJoin(m, f, k, table, e, used, after, sites, [Reference(b, i, o)]);
      sites := sites + [Reference(b, i, o)];
    }
    SeenSame(f, ensured, after, b, i, o + 1);
  }

  lemma OperandExtra(m: Module, k: nat, n: nat, ins: Instruction, o: nat, e: Emission)
    requires o < |ins.operands| && (ins.operands[o].GlobalRef? ==> ins.operands[o].index < |m.globals|)
    ensures AddOperand(m, k, n, ins, o, e).extra == Ensure(m, k, e, ins.operands[o]).extra
  {
    hide Ensure;
  }

  lemma SeenSame(f: Function, e: Emission, after: Emission, b: nat, i: nat, o: nat)
    requires Seen(f, e, b, i, o) && after.extra == e.extra
    ensures Seen(f, after, b, i, o)
  {
    hide Used;
  }

  /** Names once given stay. */
  ghost predicate Keeps(e: Emission, after: Emission) {
    forall op :: op in e.extra ==> op in after.extra && after.extra[op] == e.extra[op]
  }

  lemma KeepsTransitive(a: Emission, b: Emission, c: Emission)
    requires Keeps(a, b) && Keeps(b, c)
    ensures Keeps(a, c)
  {
  }

  lemma WithinBefore(e: Emission, after: Emission, table: map<Operand, Local>)
    requires Keeps(e, after) && Within(after, table)
    ensures Within(e, table)
  {
  }

  lemma OperandKeeps(m: Module, k: nat, n: nat, ins: Instruction, o: nat, e: Emission)
    requires o < |ins.operands| && (ins.operands[o].GlobalRef? ==> ins.operands[o].index < |m.globals|)
    ensures Keeps(e, AddOperand(m, k, n, ins, o, e))
  {
  }

  lemma {:induction false} OperandsStage(m: Module, f: Function, k: nat, table: map<Operand, Local>, b: nat, i: nat,
                                         count: nat, e: Emission) returns (sites: seq<Site>)
    requires IsInstr(f, b, i) && InstructionInRange(m, f, f.blocks[b].instructions[i])
    requires count <= |f.blocks[b].instructions[i].operands| && Seen(f, e, b, i, 0)
    requires Within(AddOperands(m, f, k, Base(f.blocks, b) + i, f.blocks[b].instructions[i], count, e), table)
    ensures var after := AddOperands(m, f, k, Base(f.blocks, b) + i, f.blocks[b].instructions[i], count, e);
            Stage(m, f, k, table, e, after, sites) && Seen(f, after, b, i, count)
    ensures Exactly(sites, (s: Site) => (s.FirstUse? || s.Use? || s.Reference?) && s.o < count && OfOperand(s, b, i, s.o) &&
                                        Valid(f, s))
  {
    hide Stage, Seen, AddOperand, Base, Within, Keeps, Valid, InstructionInRange;
    if count == 0 {
      sites := [];
      StageNone(m, f, k, table, e);
    } else {
      var ins, n := f.blocks[b].instructions[i], Base(f.blocks, b) + i;
      OperandsRange(m, f, b, i, count - 1);
      var before, after := AddOperands(m, f, k, n, ins, count - 1, e), AddOperands(m, f, k, n, ins, count, e);
      OperandKeeps(m, k, n, ins, count - 1, before);
      WithinBefore(before, after, table);
      var init := OperandsStage(m, f, k, table, b, i, count - 1, e);
      var last := OperandStage(m, f, k, table, b, i, count - 1, before);
      StageJoin(m, f, k, table, e, before, after, init, last);
      sites := init + last;
    }
  }

  lemma OperandsRange(m: Module, f: Function, b: nat, i: nat, o: nat)
    requires IsOperand(f, b, i, o) && InstructionInRange(m, f, f.blocks[b].instructions[i])
    ensures OperandInRange(m, f, OperandAt(f, b, i, o))
  {
  }

  lemma {:induction false} OperandsKeep(m: Module, f: Function, k: nat, n: nat, ins: Instruction, count: nat, e: Emission)
    requires InstructionInRange(m, f, ins) && count <= |ins.operands|
    ensures Keeps(e, AddOperands(m, f, k, n, ins, count, e))
  {
    hide AddOperand, Keeps;
    if count == 0 {
      KeepsItself(e);
    } else {
      var before := AddOperands(m, f, k, n, ins, count - 1, e);
      OperandsKeep(m, f, k, n, ins, count - 1, e);
      OperandKeeps(m, k, n, ins, count - 1, before);
      KeepsTransitive(e, before, AddOperands(m, f, k, n, ins, count, e));
    }
  }

  lemma KeepsItself(e: Emission)
    ensures Keeps(e, e)
  {
  }

  // ---- The rest of an instruction ----------------------------------------------------------------------------

  lemma {:induction false} BranchesStage(m: Module, f: Function, k: nat, table: map<Operand, Local>, b: nat, count: nat,
                                         e: Emission) returns (sites: seq<Site>)
    requires b < |f.blocks| && |f.blocks[b].instructions| > 0 && count <= |f.blocks[b].successors|
    ensures var after := AddSuccessors(k, Base(f.blocks, b) + |f.blocks[b].instructions| - 1, f.blocks[b], count, e);
            Stage(m, f, k, table, e, after, sites) && after.extra == e.extra
    ensures Exactly(sites, (s: Site) => s.Branch? && s.b == b && s.s < count)
  {
    hide Stage, Base;
    if count == 0 {
      sites := [];
      StageNone(m, f, k, table, e);
    } else {
      var n := Base(f.blocks, b) + |f.blocks[b].instructions| - 1;
      var before, after := AddSuccessors(k, n, f.blocks[b], count - 1, e), AddSuccessors(k, n, f.blocks[b], count, e);
      var init := BranchesStage(m, f, k, table, b, count - 1, e);
      StageOne(m, f, k, table, before, after, Branch(b, count - 1));
      sites := init + [Branch(b, count - 1)];
      StageJoin(m, f, k, table, e, before, after, init, [Branch(b, count - 1)]);
    }
  }

  lemma CallStage(m: Module, f: Function, k: nat, table: map<Operand, Local>, b: nat, i: nat, e: Emission)
    returns (sites: seq<Site>)
    requires IsInstr(f, b, i) && InstructionInRange(m, f, f.blocks[b].instructions[i])
    ensures var after := AddCall(m, k, Base(f.blocks, b) + i, f.blocks[b].instructions[i], e);
            Stage(m, f, k, table, e, after, sites) && after.extra == e.extra
    ensures Exactly(sites, (s: Site) => s == Call(b, i) && Valid(f, s))
  {
    hide Stage, Base;
    var after := AddCall(m, k, Base(f.blocks, b) + i, f.blocks[b].instructions[i], e);
    if f.blocks[b].instructions[i].callee.None? {
      sites := [];
      StageNone(m, f, k, table, e);
    } else {
      sites := [Call(b, i)];
      StageOne(m, f, k, table, e, after, Call(b, i));
    }
  }

  lemma {:induction false} PlacesStage(m: Module, f: Function, k: nat, table: map<Operand, Local>, b: nat, i: nat,
                                       count: nat, e: Emission) returns (sites: seq<Site>)
    requires IsInstr(f, b, i) && count <= |f.blocks[b].instructions[i].places|
    ensures var after := AddSources(k, Base(f.blocks, b) + i, f.blocks[b].instructions[i], count, e);
            Stage(m, f, k, table, e, after, sites) && after.extra == e.extra
    ensures Exactly(sites, (s: Site) => s.Place? && s.b == b && s.i == i && s.d < count)
  {
    hide Stage, Base;
    if count == 0 {
      sites := [];
      StageNone(m, f, k, table, e);
    } else {
      var n, ins := Base(f.blocks, b) + i, f.blocks[b].instructions[i];
      var before, after := AddSources(k, n, ins, count - 1, e), AddSources(k, n, ins, count, e);
      var init := PlacesStage(m, f, k, table, b, i, count - 1, e);
      StageOne(m, f, k, table, before, after, Place(b, i, count - 1));
      sites := init + [Place(b, i, count - 1)];
      StageJoin(m, f, k, table, e, before, after, init, [Place(b, i, count - 1)]);
    }
  }

  /** The place is one of instruction `i` of block `b`; branches are places of the last instruction. */
  predicate AtInstr(f: Function, s: Site, b: nat, i: nat) {
    match s
    case InstrIn(c, j) => c == b && j == i
    case FirstUse(c, j, _) => c == b && j == i
    case Use(c, j, _) => c == b && j == i
    case Reference(c, j, _) => c == b && j == i
    case Branch(c, _) => c == b && b < |f.blocks| && i + 1 == |f.blocks[b].instructions|
    case Call(c, j) => c == b && j == i
    case Place(c, j, _) => c == b && j == i
    case _ => false
  }

  /** All places are of one instruction, and of the parts from `low` to `high` of what is said about it. */
  ghost predicate Between(f: Function, sites: seq<Site>, b: nat, i: nat, low: nat, high: nat) {
    forall s :: s in sites ==> var r := RankOf(f, s); r.phase == 4 && r.x == b && r.y == i + 1 && low <= r.part <= high
  }

  lemma PartsApart(f: Function, a: seq<Site>, c: seq<Site>, b: nat, i: nat, low: nat, mid: nat, high: nat)
    requires low <= mid <= high
    requires Between(f, a, b, i, low, mid) && Between(f, c, b, i, mid + 1, high)
    ensures Apart(f, a, c) && Between(f, a + c, b, i, low, high)
  {
    hide RankOf;
  }

  /** The next part of what is said about an instruction. */
  lemma NextPart(m: Module, f: Function, k: nat, table: map<Operand, Local>, e: Emission, mid: Emission, after: Emission,
                 a: seq<Site>, c: seq<Site>, b: nat, i: nat, part: nat)
    requires Stage(m, f, k, table, e, mid, a) && Stage(m, f, k, table, mid, after, c)
    requires Between(f, a, b, i, 0, part) && Between(f, c, b, i, part + 1, part + 1)
    ensures Stage(m, f, k, table, e, after, a + c) && Between(f, a + c, b, i, 0, part + 1)
  {
    hide Stage, Between, Apart;
    PartsApart(f, a, c, b, i, 0, part, part + 1);
    StageJoin(m, f, k, table, e, mid, after, a, c);
  }

  /** Branches, calls and source locations, after the operands. */
  lemma RestStage(m: Module, f: Function, k: nat, table: map<Operand, Local>, b: nat, i: nat, e: Emission, e2: Emission,
                  some: seq<Site>) returns (sites: seq<Site>)
    requires IsInstr(f, b, i) && BlockInRange(m, f, f.blocks[b])
    requires Stage(m, f, k, table, e, e2, some) && Between(f, some, b, i, 0, 1)
    ensures Stage(m, f, k, table, e, Rest(m, f, k, b, i, e2), sites) && Rest(m, f, k, b, i, e2).extra == e2.extra
    ensures forall s :: s in sites <==>
                        s in some || (AtInstr(f, s, b, i) && Valid(f, s) && (s.Branch? || s.Call? || s.Place?))
  {
    hide Stage, AddSuccessors, AddCall, AddSources, Base;
    var block := f.blocks[b];
    var ins, n := block.instructions[i], Base(f.blocks, b) + i;
    var e3 := if i == |block.instructions| - 1 then AddSuccessors(k, n, block, |block.successors|, e2) else e2;
    var e4 := AddCall(m, k, n, ins, e3);
    var branches: seq<Site> := [];
    if i == |block.instructions| - 1 {
      branches := BranchesStage(m, f, k, table, b, |block.successors|, e2);
    } else {
      StageNone(m, f, k, table, e2);
    }
    NextPart(m, f, k, table, e, e2, e3, some, branches, b, i, 1);
    var calls := CallStage(m, f, k, table, b, i, e3);
    NextPart(m, f, k, table, e, e3, e4, some + branches, calls, b, i, 2);
    var places := PlacesStage(m, f, k, table, b, i, |ins.places|, e4);
    NextPart(m, f, k, table, e, e4, Rest(m, f, k, b, i, e2), some + branches + calls, places, b, i, 3);
    sites := some + branches + calls + places;
  }

  function Rest(m: Module, f: Function, k: nat, b: nat, i: nat, e: Emission): Emission
    requires IsInstr(f, b, i) && BlockInRange(m, f, f.blocks[b])
  {
    var block := f.blocks[b];
    var ins, n := block.instructions[i], Base(f.blocks, b) + i;
    var e3 := if i == |block.instructions| - 1 then AddSuccessors(k, n, block, |block.successors|, e) else e;
    AddSources(k, n, ins, |ins.places|, AddCall(m, k, n, ins, e3))
  }

  lemma {:induction false} RestExtra(m: Module, f: Function, k: nat, b: nat, i: nat, e: Emission)
    requires IsInstr(f, b, i) && BlockInRange(m, f, f.blocks[b])
    ensures Rest(m, f, k, b, i, e).extra == e.extra
  {
    hide Base;
    var block := f.blocks[b];
    var ins, n := block.instructions[i], Base(f.blocks, b) + i;
    SuccessorsExtra(k, n, block, |block.successors|, e);
    var e3 := if i == |block.instructions| - 1 then AddSuccessors(k, n, block, |block.successors|, e) else e;
    SourcesExtra(k, n, ins, |ins.places|, AddCall(m, k, n, ins, e3));
  }

  lemma {:induction false} SuccessorsExtra(k: nat, n: nat, block: BasicBlock, count: nat, e: Emission)
    requires count <= |block.successors|
    ensures AddSuccessors(k, n, block, count, e).extra == e.extra
  {
    if count > 0 {
      SuccessorsExtra(k, n, block, count - 1, e);
    }
  }

  lemma {:induction false} SourcesExtra(k: nat, n: nat, ins: Instruction, count: nat, e: Emission)
    requires count <= |ins.places|
    ensures AddSources(k, n, ins, count, e).extra == e.extra
  {
    if count > 0 {
      SourcesExtra(k, n, ins, count - 1, e);
    }
  }

  lemma SplitInstruction(m: Module, f: Function, k: nat, b: nat, i: nat, e: Emission)
    requires IsInstr(f, b, i) && BlockInRange(m, f, f.blocks[b])
    ensures var ins, n := f.blocks[b].instructions[i], Base(f.blocks, b) + i;
            AddInstruction(m, f, k, b, i, e) ==
            Rest(m, f, k, b, i,
                 AddOperands(m, f, k, n, ins, |ins.operands|, With(e, Contains(BlockOf(k, b), InstructionOf(k, n)))))
  {
    hide Base, AddOperands, AddSuccessors, AddCall, AddSources;
  }

  lemma InstructionKeeps(m: Module, f: Function, k: nat, b: nat, i: nat, e: Emission)
    requires IsInstr(f, b, i) && BlockInRange(m, f, f.blocks[b])
    ensures Keeps(e, AddInstruction(m, f, k, b, i, e))
  {
    hide Base, AddOperands, AddInstruction, Rest, InstructionInRange;
    var ins, n := f.blocks[b].instructions[i], Base(f.blocks, b) + i;
    var e1 := With(e, Contains(BlockOf(k, b), InstructionOf(k, n)));
    SplitInstruction(m, f, k, b, i, e);
    OperandsKeep(m, f, k, n, ins, |ins.operands|, e1);
    RestExtra(m, f, k, b, i, AddOperands(m, f, k, n, ins, |ins.operands|, e1));
  }

  lemma InstructionStage(m: Module, f: Function, k: nat, table: map<Operand, Local>, b: nat, i: nat, e: Emission)
    returns (sites: seq<Site>)
    requires IsInstr(f, b, i) && BlockInRange(m, f, f.blocks[b]) && Seen(f, e, b, i, 0)
    requires Within(AddInstruction(m, f, k, b, i, e), table)
    ensures Stage(m, f, k, table, e, AddInstruction(m, f, k, b, i, e), sites)
    ensures Seen(f, AddInstruction(m, f, k, b, i, e), b, i + 1, 0)
    ensures Exactly(sites, (s: Site) => AtInstr(f, s, b, i) && Valid(f, s))
  {
    hide Stage, AddOperands, AddInstruction, Rest, Base, Used, Seen, InstructionInRange;
    var ins, n := f.blocks[b].instructions[i], Base(f.blocks, b) + i;
    var e1 := With(e, Contains(BlockOf(k, b), InstructionOf(k, n)));
    var e2 := AddOperands(m, f, k, n, ins, |ins.operands|, e1);
    var after := AddInstruction(m, f, k, b, i, e);
    SplitInstruction(m, f, k, b, i, e);
    RestExtra(m, f, k, b, i, e2);
    StageOne(m, f, k, table, e, e1, InstrIn(b, i));
    SeenSame(f, e, e1, b, i, 0);
    var operands := OperandsStage(m, f, k, table, b, i, |ins.operands|, e1);
    NextPart(m, f, k, table, e, e1, e2, [InstrIn(b, i)], operands, b, i, 0);
    sites := RestStage(m, f, k, table, b, i, e, e2, [InstrIn(b, i)] + operands);
    SeenSame(f, e2, after, b, i, |ins.operands|);
    SeenNext(f, after, b, i);
  }

  lemma SeenNext(f: Function, e: Emission, b: nat, i: nat)
    requires IsInstr(f, b, i) && Seen(f, e, b, i, |f.blocks[b].instructions[i].operands|)
    ensures Seen(f, e, b, i + 1, 0)
  {
    hide Used;
    forall op ensures Used(f, op, b, i, |f.blocks[b].instructions[i].operands|) <==> Used(f, op, b, i + 1, 0) {
      UsedSame(f, op, b, i, |f.blocks[b].instructions[i].operands|, b, i + 1, 0);
    }
  }

  // ---- Blocks ------------------------------------------------------------------------------------------------

  lemma {:induction false} InsideStage(m: Module, f: Function, k: nat, table: map<Operand, Local>, b: nat, count: nat,
                                       e: Emission) returns (sites: seq<Site>)
    requires b < |f.blocks| && count <= |f.blocks[b].instructions| && BlockInRange(m, f, f.blocks[b]) && Seen(f, e, b, 0, 0)
    requires Within(AddInstructions(m, f, k, b, count, e), table)
    ensures Stage(m, f, k, table, e, AddInstructions(m, f, k, b, count, e), sites)
    ensures Seen(f, AddInstructions(m, f, k, b, count, e), b, count, 0)
    ensures Exactly(sites, (s: Site) => exists i: nat :: i < count && AtInstr(f, s, b, i) && Valid(f, s))
  {
    hide Stage, AddInstruction, Seen, BlockInRange, Valid, Within, Keeps;
    if count == 0 {
      sites := [];
      StageNone(m, f, k, table, e);
    } else {
      var before, after := AddInstructions(m, f, k, b, count - 1, e), AddInstructions(m, f, k, b, count, e);
      InstructionKeeps(m, f, k, b, count - 1, before);
      WithinBefore(before, after, table);
      var init := InsideStage(m, f, k, table, b, count - 1, e);
      var last := InstructionStage(m, f, k, table, b, count - 1, before);
      assert Apart(f, init, last);
      StageJoin(m, f, k, table, e, before, after, init, last);
      sites := init + last;
    }
  }

  lemma {:induction false} InsideKeeps(m: Module, f: Function, k: nat, b: nat, count: nat, e: Emission)
    requires b < |f.blocks| && count <= |f.blocks[b].instructions| && BlockInRange(m, f, f.blocks[b])
    ensures Keeps(e, AddInstructions(m, f, k, b, count, e))
  {
    hide AddInstruction, Keeps, BlockInRange;
    if count == 0 {
      KeepsItself(e);
    } else {
      var before := AddInstructions(m, f, k, b, count - 1, e);
      InsideKeeps(m, f, k, b, count - 1, e);
      InstructionKeeps(m, f, k, b, count - 1, before);
      KeepsTransitive(e, before, AddInstructions(m, f, k, b, count, e));
    }
  }

  /** The place is one of block `b` or of its instructions. */
  predicate AtBlock(f: Function, s: Site, b: nat) {
    s == BlockIn(b) || (RankOf(f, s).phase == 4 && RankOf(f, s).x == b)
  }

  lemma BlockStage(m: Module, f: Function, k: nat, table: map<Operand, Local>, b: nat, e: Emission)
    returns (sites: seq<Site>)
    requires b < |f.blocks| && BlockInRange(m, f, f.blocks[b]) && Seen(f, e, b, 0, 0)
    requires Within(OneBlock(m, f, k, b, e), table)
    ensures Stage(m, f, k, table, e, OneBlock(m, f, k, b, e), sites) && Seen(f, OneBlock(m, f, k, b, e), b + 1, 0, 0)
    ensures Exactly(sites, (s: Site) => AtBlock(f, s, b) && Valid(f, s))
  {
    hide Stage, AddInstructions, Seen, BlockInRange;
    var e1, after := With(e, Contains(FunctionOf(k), BlockOf(k, b))), OneBlock(m, f, k, b, e);
    StageOne(m, f, k, table, e, e1, BlockIn(b));
    SeenSame(f, e, e1, b, 0, 0);
    var inside := InsideStage(m, f, k, table, b, |f.blocks[b].instructions|, e1);
    InsideAll(f, inside, b);
    StageJoin(m, f, k, table, e, e1, after, [BlockIn(b)], inside);
    sites := [BlockIn(b)] + inside;
    SeenNextBlock(f, after, b);
  }

  lemma InsideAll(f: Function, sites: seq<Site>, b: nat)
    requires b < |f.blocks|
    requires Exactly(sites, (s: Site) => exists i: nat ::
                       i < |f.blocks[b].instructions| && AtInstr(f, s, b, i) && Valid(f, s))
    ensures forall s :: s in sites <==> AtBlock(f, s, b) && Valid(f, s) && s != BlockIn(b)
    ensures forall s :: s in sites ==> RankOf(f, s).y > 0
  {
    forall s ensures s in sites <==> AtBlock(f, s, b) && Valid(f, s) && s != BlockIn(b) {
      if AtBlock(f, s, b) && Valid(f, s) && s != BlockIn(b) {
        assert AtInstr(f, s, b, RankOf(f, s).y - 1);
      }
    }
  }

  function OneBlock(m: Module, f: Function, k: nat, b: nat, e: Emission): Emission
    requires b < |f.blocks| && BlockInRange(m, f, f.blocks[b])
  {
    AddInstructions(m, f, k, b, |f.blocks[b].instructions|, With(e, Contains(FunctionOf(k), BlockOf(k, b))))
  }

  lemma SeenNextBlock(f: Function, e: Emission, b: nat)
    requires b < |f.blocks| && Seen(f, e, b, |f.blocks[b].instructions|, 0)
    ensures Seen(f, e, b + 1, 0, 0)
  {
    hide Used;
    forall op ensures Used(f, op, b, |f.blocks[b].instructions|, 0) <==> Used(f, op, b + 1, 0, 0) {
      UsedSame(f, op, b, |f.blocks[b].instructions|, 0, b + 1, 0, 0);
    }
  }

  lemma {:induction false} AllBlocksStage(m: Module, f: Function, k: nat, table: map<Operand, Local>, count: nat,
                                          e: Emission) returns (sites: seq<Site>)
    requires WellFormed(m, f) && count <= |f.blocks| && Seen(f, e, 0, 0, 0)
    requires Within(AddBlocks(m, f, k, count, e), table)
    ensures Stage(m, f, k, table, e, AddBlocks(m, f, k, count, e), sites)
    ensures Seen(f, AddBlocks(m, f, k, count, e), count, 0, 0)
    ensures Exactly(sites, (s: Site) => RankOf(f, s).phase == 4 && RankOf(f, s).x < count && Valid(f, s))
  {
    hide Stage, OneBlock, Seen, BlockInRange, Valid, Within, Keeps, WellFormed, Exactly, RankOf, AtBlock, Apart, AddBlocks;
    if count == 0 {
      sites := [];
      NoBlocks(m, f, k, e);
      StageNone(m, f, k, table, e);
    } else {
      var b := count - 1;
      BlockFits(m, f, b);
      var before, after := AddBlocks(m, f, k, b, e), AddBlocks(m, f, k, count, e);
      assert after == OneBlock(m, f, k, b, before) by {
        LastBlock(m, f, k, count, e);
      }
      BlockKeeps(m, f, k, b, before);
      WithinBefore(before, after, table);
      var init := AllBlocksStage(m, f, k, table, b, e);
      var last := BlockStage(m, f, k, table, b, before);
      BlocksApart(f, init, last, b);
      StageJoin(m, f, k, table, e, before, after, init, last);
      sites := init + last;
    }
  }

  lemma NoBlocks(m: Module, f: Function, k: nat, e: Emission)
    requires WellFormed(m, f)
    ensures AddBlocks(m, f, k, 0, e) == e
    ensures Exactly([], (s: Site) => RankOf(f, s).phase == 4 && RankOf(f, s).x < 0 && Valid(f, s))
  {
    hide Valid, RankOf, WellFormed;
  }

  lemma BlocksApart(f: Function, a: seq<Site>, c: seq<Site>, b: nat)
    requires Exactly(a, (s: Site) => RankOf(f, s).phase == 4 && RankOf(f, s).x < b && Valid(f, s))
    requires Exactly(c, (s: Site) => AtBlock(f, s, b) && Valid(f, s))
    ensures Apart(f, a, c)
    ensures Exactly(a + c, (s: Site) => RankOf(f, s).phase == 4 && RankOf(f, s).x < b + 1 && Valid(f, s))
  {
    hide Valid, RankOf;
    forall s: Site ensures AtBlock(f, s, b) <==> RankOf(f, s).phase == 4 && RankOf(f, s).x == b {
      RankOfBlock(f, s, b);
    }
  }

  lemma RankOfBlock(f: Function, s: Site, b: nat)
    ensures AtBlock(f, s, b) <==> RankOf(f, s).phase == 4 && RankOf(f, s).x == b
  {
  }

  lemma BlockFits(m: Module, f: Function, b: nat)
    requires WellFormed(m, f) && b < |f.blocks|
    ensures BlockInRange(m, f, f.blocks[b])
  {
  }

  lemma LastBlock(m: Module, f: Function, k: nat, count: nat, e: Emission)
    requires WellFormed(m, f) && 0 < count <= |f.blocks|
    ensures BlockInRange(m, f, f.blocks[count - 1])
    ensures AddBlocks(m, f, k, count, e) == OneBlock(m, f, k, count - 1, AddBlocks(m, f, k, count - 1, e))
  {
    hide AddInstructions;
  }

  lemma BlockKeeps(m: Module, f: Function, k: nat, b: nat, e: Emission)
    requires b < |f.blocks| && BlockInRange(m, f, f.blocks[b])
    ensures Keeps(e, OneBlock(m, f, k, b, e))
  {
    hide AddInstructions, BlockInRange;
    InsideKeeps(m, f, k, b, |f.blocks[b].instructions|, With(e, Contains(FunctionOf(k), BlockOf(k, b))));
  }

  // ---- The whole list ----------------------------------------------------------------------------------------

  /**
   * The list is the two headers and then the record of every place that exists, once each and in order; the constants
   * are numbered in the order of their first uses. Control dependence is not part of it.
   */
  ghost predicate IsList(m: Module, k: nat, table: map<Operand, Local>, sites: seq<Site>, rs: seq<Record<Local>>)
    requires k < |m.functions|
  {
    var f := m.functions[k];
    && AllValid(f, sites) && Ordered(f, sites) && Exactly(sites, (s: Site) => Valid(f, s))
    && rs == [Header("capabilities"), Header("module")] + RecordsAt(m, f, k, table, sites)
    && Constants(f, k, table, sites) == Counted(k, 0, |Constants(f, k, table, sites)|)
  }

  lemma OpeningStage(m: Module, f: Function, k: nat, table: map<Operand, Local>) returns (sites: seq<Site>)
    ensures Stage(m, f, k, table, Emission([Header("capabilities"), Header("module")], map[], 0), Opening(k, f), sites)
    ensures Exactly(sites, (s: Site) => RankOf(f, s).phase <= 2 && Valid(f, s))
  {
    hide Stage, OpenArguments, OpenBlocks;
    var start := Emission([Header("capabilities"), Header("module")], map[], 0);
    var e := Emission([Header("capabilities"), Header("module"), FunctionEntity(k, f)], map[], 0);
    assert e.records == start.records + [RecordAt(m, f, k, table, Whole)];
    StageOne(m, f, k, table, start, e, Whole);
    var arguments := ArgumentsStage(m, f, k, table, |f.arguments|, e);
    var e1 := OpenArguments(k, f, |f.arguments|, e);
    StageJoin(m, f, k, table, start, e, e1, [Whole], arguments);
    var blocks := BlocksStage(m, f, k, table, |f.blocks|, e1);
    StageJoin(m, f, k, table, start, e1, Opening(k, f), [Whole] + arguments, blocks);
    sites := [Whole] + arguments + blocks;
  }

  lemma {:induction false} ArgumentsExtra(k: nat, f: Function, count: nat, e: Emission)
    requires count <= |f.arguments|
    ensures OpenArguments(k, f, count, e).extra == e.extra && AddArguments(f, k, count, e).extra == e.extra
  {
    if count > 0 {
      ArgumentsExtra(k, f, count - 1, e);
    }
  }

  lemma {:induction false} InstructionsExtra(k: nat, base: nat, instructions: seq<Instruction>, count: nat, e: Emission)
    requires count <= |instructions|
    ensures OpenInstructions(k, base, instructions, count, e).extra == e.extra
  {
    if count > 0 {
      InstructionsExtra(k, base, instructions, count - 1, e);
    }
  }

  lemma {:induction false} BlocksExtra(k: nat, f: Function, count: nat, e: Emission)
    requires count <= |f.blocks|
    ensures OpenBlocks(k, f, count, e).extra == e.extra
  {
    hide OpenInstructions, Base;
    if count > 0 {
      var b := count - 1;
      BlocksExtra(k, f, b, e);
      InstructionsExtra(k, Base(f.blocks, b), f.blocks[b].instructions, |f.blocks[b].instructions|,
                        With(OpenBlocks(k, f, b, e), BlockEntity(k, f, b)));
    }
  }

  lemma NothingSeen(f: Function, e: Emission)
    requires e.extra == map[]
    ensures Seen(f, e, 0, 0, 0)
  {
  }

  lemma StructureStage(m: Module, k: nat) returns (sites: seq<Site>)
    requires k < |m.functions| && WellFormed(m, m.functions[k])
    ensures Stage(m, m.functions[k], k, Structure(m, k).extra,
                  Emission([Header("capabilities"), Header("module")], map[], 0), Structure(m, k), sites)
    ensures Exactly(sites, (s: Site) => Valid(m.functions[k], s))
  {
    hide Stage, Opening, AddArguments, AddBlocks, WellFormed, Valid;
    var f, table := m.functions[k], Structure(m, k).extra;
    var start := Emission([Header("capabilities"), Header("module")], map[], 0);
    var e1 := Opening(k, f);
    var e2 := AddArguments(f, k, |f.arguments|, e1);
    var opening := OpeningStage(m, f, k, table);
    var arguments := ArgumentsInStage(m, f, k, table, |f.arguments|, e1);
    OpeningExtra(k, f);
    ArgumentsExtra(k, f, |f.arguments|, e1);
    NothingSeen(f, e2);
    var blocks := AllBlocksStage(m, f, k, table, |f.blocks|, e2);
    PhasesApart(f, opening, arguments, blocks);
    StageJoin(m, f, k, table, start, e1, e2, opening, arguments);
    StageJoin(m, f, k, table, start, e2, Structure(m, k), opening + arguments, blocks);
    sites := opening + arguments + blocks;
    EveryPhase(f, sites);
  }

  lemma OpeningExtra(k: nat, f: Function)
    ensures Opening(k, f).extra == map[]
  {
    hide OpenArguments, OpenBlocks;
    var e := Emission([Header("capabilities"), Header("module"), FunctionEntity(k, f)], map[], 0);
    ArgumentsExtra(k, f, |f.arguments|, e);
    BlocksExtra(k, f, |f.blocks|, OpenArguments(k, f, |f.arguments|, e));
  }

  lemma PhasesApart(f: Function, a: seq<Site>, b: seq<Site>, c: seq<Site>)
    requires Exactly(a, (s: Site) => RankOf(f, s).phase <= 2 && Valid(f, s))
    requires Exactly(b, (s: Site) => s.ArgumentIn? && s.a < |f.arguments|)
    requires Exactly(c, (s: Site) => RankOf(f, s).phase == 4 && RankOf(f, s).x < |f.blocks| && Valid(f, s))
    ensures Apart(f, a, b) && Apart(f, a + b, c)
    ensures forall s :: s in a + b + c <==>
                        (RankOf(f, s).phase <= 2 && Valid(f, s)) || (s.ArgumentIn? && s.a < |f.arguments|) ||
                        (RankOf(f, s).phase == 4 && RankOf(f, s).x < |f.blocks| && Valid(f, s))
  {
    hide Valid;
    assert forall s :: s in b ==> RankOf(f, s).phase == 3;
  }

  lemma EveryPhase(f: Function, sites: seq<Site>)
    requires forall s :: s in sites <==>
                         (RankOf(f, s).phase <= 2 && Valid(f, s)) || (s.ArgumentIn? && s.a < |f.arguments|) ||
                         (RankOf(f, s).phase == 4 && RankOf(f, s).x < |f.blocks| && Valid(f, s))
    ensures Exactly(sites, (s: Site) => Valid(f, s))
  {
    hide Used;
  }

  /** The list of the adapter is that list, followed by control dependence. */
  lemma ListExact(m: Module, k: nat) returns (sites: seq<Site>)
    requires k < |m.functions| && WellFormed(m, m.functions[k])
    ensures IsList(m, k, Structure(m, k).extra, sites, Structure(m, k).records)
    ensures Structure(m, k).records <= Graph(m, k)
  {
    hide Structure, WellFormed, Valid, RecordsAt, Constants, DependenceRecords;
    sites := StructureStage(m, k);
  }
}
