/** What the adapter's list says, record by record. */
module AdapterRecords {
  import opened Wrappers
  import opened Keys
  import opened Records
  import opened Adapter
  import opened AdapterProperties
  import opened AdapterSites
  import CD = ControlDependence

  function TableOf(m: Module, k: nat): map<Operand, Local>
    requires k < |m.functions| && WellFormed(m, m.functions[k])
  {
    Structure(m, k).extra
  }

  /** The dependence's record: from the block to the last instruction of the branch, with the edge's attributes. */
  function DependenceAt(f: Function, k: nat, d: CD.Dependence): Record<Local>
    requires DependenceInRange(f, d)
  {
    var edge := f.blocks[d.branch].successors[d.ordinal];
    Relation("llvm.control-dependence", BlockOf(k, d.block),
             InstrKey(f, k, d.branch, |f.blocks[d.branch].instructions| - 1), Some(d.ordinal),
             edge.attributes["successor" := Render(BlockOf(k, edge.block))])
  }

  lemma SiteKinds(m: Module, f: Function, k: nat, table: map<Operand, Local>, s: Site)
    requires Valid(f, s)
    ensures var r := RecordAt(m, f, k, table, s); !IsDependence(r) && !r.Header? && !r.Failure?
  {
  }

  /**
   * Record by record: a header; what a place says; or a control dependence. Nothing else is in the list, and all of
   * these are.
   */
  lemma GraphExact(m: Module, k: nat, r: Record<Local>)
    requires k < |m.functions| && WellFormed(m, m.functions[k])
    ensures var f := m.functions[k];
            r in Graph(m, k) <==>
            || r == Header("capabilities") || r == Header("module")
            || (exists s :: Valid(f, s) && r == RecordAt(m, f, k, TableOf(m, k), s))
            || (exists d :: CD.Depends(CfgOf(f), d) && DependenceInRange(f, d) && r == DependenceAt(f, k, d))
  {
    hide WellFormed, Valid, RecordAt, Constants, Graph, Structure, CD.Depends, DependenceInRange, Ordered, Numbers;
    var f, table := m.functions[k], TableOf(m, k);
    var sites := ListExact(m, k);
    var rs := RecordsAt(m, f, k, table, sites);
    GraphSplits(m, k, r);
    DependenceRecordsExact(m, k, r);
    forall d | DependenceInRange(f, d) ensures DependenceRecord(f, k, d) == DependenceAt(f, k, d) {
    }
    if s :| Valid(f, s) && r == RecordAt(m, f, k, table, s) {
      assert s in sites;
      var i :| 0 <= i < |sites| && sites[i] == s;
      assert rs[i] == r;
      SiteKinds(m, f, k, table, s);
    }
    if r in rs {
      var i :| 0 <= i < |rs| && rs[i] == r;
      assert sites[i] in sites;
      SiteKinds(m, f, k, table, sites[i]);
    }
  }

  lemma GraphSplits(m: Module, k: nat, r: Record<Local>)
    requires k < |m.functions| && WellFormed(m, m.functions[k])
    ensures r in Graph(m, k) <==> r in Structure(m, k).records || (r in Graph(m, k) && IsDependence(r))
  {
    hide Structure, WellFormed, CD.Dependences, DependenceRecord, DependenceInRange;
    StructureContains(m, k);
    var f := m.functions[k];
    InputOf(m, f);
    DependencesInRange(m, f);
    var ds := CD.Dependences(CfgOf(f), f.parent);
    forall x | x in DependenceRecords(f, k, ds) ensures IsDependence(x) {
      IsDependenceRecord(f, k, ds, x);
    }
  }

  lemma IsDependenceRecord(f: Function, k: nat, ds: seq<CD.Dependence>, x: Record<Local>)
    requires (forall d :: d in ds ==> DependenceInRange(f, d)) && x in DependenceRecords(f, k, ds)
    ensures IsDependence(x)
  {
    hide DependenceInRange;
    var i :| 0 <= i < |ds| && DependenceRecords(f, k, ds)[i] == x;
    assert ds[i] in ds;
  }

  /** The operand relations are those from each instruction to what each of its operands names. */
  lemma OperandRelations(m: Module, k: nat, r: Record<Local>)
    requires k < |m.functions| && WellFormed(m, m.functions[k])
    ensures var f := m.functions[k];
            r in Graph(m, k) && r.Relation? && r.kind == "llvm.operand" <==>
            exists b: nat, i: nat, o: nat ::
              IsOperand(f, b, i, o) &&
              r == Relation("llvm.operand", InstrKey(f, k, b, i), NameOf(k, TableOf(m, k), OperandAt(f, b, i, o)), Some(o),
                            Incoming(f, k, b, i, o))
  {
    hide WellFormed, Graph, Structure, CD.Depends, DependenceInRange, Used, InstrKey, NameOf, Incoming;
    var f, table := m.functions[k], TableOf(m, k);
    GraphExact(m, k, r);
    if b: nat, i: nat, o: nat :|
      IsOperand(f, b, i, o) &&
      r == Relation("llvm.operand", InstrKey(f, k, b, i), NameOf(k, table, OperandAt(f, b, i, o)), Some(o),
                    Incoming(f, k, b, i, o))
    {
      assert Valid(f, Use(b, i, o)) && r == RecordAt(m, f, k, table, Use(b, i, o));
    }
    if r in Graph(m, k) && r.Relation? && r.kind == "llvm.operand" {
      var s :| Valid(f, s) && r == RecordAt(m, f, k, table, s);
      assert s.Use?;
    }
  }

  /** Whatever is used is first used somewhere. */
  lemma FirstUseOf(f: Function, b: nat, i: nat, o: nat) returns (s: Site)
    requires IsOperand(f, b, i, o) && Outside(OperandAt(f, b, i, o))
    ensures s.FirstUse? && Valid(f, s) && OperandAt(f, s.b, s.i, s.o) == OperandAt(f, b, i, o)
    decreases b, i, o
  {
    if Used(f, OperandAt(f, b, i, o), b, i, o) {
      var c: nat, j: nat, p: nat :|
        IsOperand(f, c, j, p) && Precedes(c, j, p, b, i, o) && OperandAt(f, c, j, p) == OperandAt(f, b, i, o);
      s := FirstUseOf(f, c, j, p);
    } else {
      s := FirstUse(b, i, o);
    }
  }

  /** Different places of new constants have different names. */
  lemma ConstantsApart(f: Function, k: nat, table: map<Operand, Local>, sites: seq<Site>, x: nat, y: nat)
    requires Constants(f, k, table, sites) == Counted(k, 0, |Constants(f, k, table, sites)|)
    requires x < y < |sites| && NewConstant(f, sites[x]) && NewConstant(f, sites[y])
    ensures ConstantName(f, k, table, sites[x]) != ConstantName(f, k, table, sites[y])
  {
    hide NewConstant, ConstantName, Constants;
    var a, s, b, t, c := sites[..x], sites[x], sites[x + 1..y], sites[y], sites[y + 1..];
    assert sites == a + [s] + (b + [t] + c);
    ConstantsAround(f, k, table, a, s, b + [t] + c);
    ConstantsAround(f, k, table, b, t, c);
    var all, n := Constants(f, k, table, sites), |Constants(f, k, table, a)|;
    assert all[n] == ConstantName(f, k, table, s);
    assert all[n + 1 + |Constants(f, k, table, b)|] == ConstantName(f, k, table, t);
  }

  lemma ConstantsAround(f: Function, k: nat, table: map<Operand, Local>, a: seq<Site>, s: Site, b: seq<Site>)
    requires NewConstant(f, s)
    ensures Constants(f, k, table, a + [s] + b) ==
            Constants(f, k, table, a) + [ConstantName(f, k, table, s)] + Constants(f, k, table, b)
  {
    hide NewConstant, ConstantName, Constants;
    ConstantsJoin(f, k, table, a + [s], b);
    ConstantsJoin(f, k, table, a, [s]);
    ConstantOne(f, k, table, s);
  }

  lemma ConstantOne(f: Function, k: nat, table: map<Operand, Local>, s: Site)
    requires NewConstant(f, s)
    ensures Constants(f, k, table, [s]) == [ConstantName(f, k, table, s)]
  {
    hide NewConstant, ConstantName;
    assert [s][..0] == [];
  }

  /** One operand has one name, and different operands have different ones. */
  lemma NamesApart(m: Module, k: nat, b: nat, i: nat, o: nat, c: nat, j: nat, p: nat)
    requires k < |m.functions| && WellFormed(m, m.functions[k])
    requires IsOperand(m.functions[k], b, i, o) && IsOperand(m.functions[k], c, j, p)
    ensures var f, table := m.functions[k], TableOf(m, k);
            NameOf(k, table, OperandAt(f, b, i, o)) == NameOf(k, table, OperandAt(f, c, j, p)) <==>
            OperandAt(f, b, i, o) == OperandAt(f, c, j, p)
  {
    hide WellFormed, Structure, NameOf;
    var u, v := OperandAt(m.functions[k], b, i, o), OperandAt(m.functions[k], c, j, p);
    ConstantNamed(m, k, b, i, o);
    ConstantNamed(m, k, c, j, p);
    if u.OtherRef? && v.OtherRef? && u != v {
      OthersApart(m, k, b, i, o, c, j, p);
    } else if u != v {
      OtherNames(k, TableOf(m, k), u, v);
    }
  }

  lemma OthersApart(m: Module, k: nat, b: nat, i: nat, o: nat, c: nat, j: nat, p: nat)
    requires k < |m.functions| && WellFormed(m, m.functions[k])
    requires IsOperand(m.functions[k], b, i, o) && IsOperand(m.functions[k], c, j, p)
    requires OperandAt(m.functions[k], b, i, o).OtherRef? && OperandAt(m.functions[k], c, j, p).OtherRef?
    requires OperandAt(m.functions[k], b, i, o) != OperandAt(m.functions[k], c, j, p)
    ensures var f, table := m.functions[k], TableOf(m, k);
            NameOf(k, table, OperandAt(f, b, i, o)) != NameOf(k, table, OperandAt(f, c, j, p))
  {
    hide WellFormed, Structure, Ordered, RecordsAt, Used, Constants, NameOf;
    var f, table := m.functions[k], TableOf(m, k);
    var sites := ListExact(m, k);
    var s := FirstUseOf(f, b, i, o);
    var t := FirstUseOf(f, c, j, p);
    var x := Listed(f, sites, s);
    var y := Listed(f, sites, t);
    ConstantsApart(f, k, table, sites, if x < y then x else y, if x < y then y else x);
  }

  lemma Listed(f: Function, sites: seq<Site>, s: Site) returns (x: nat)
    requires Exactly(sites, (s: Site) => Valid(f, s)) && Valid(f, s)
    ensures x < |sites| && sites[x] == s
  {
    hide Valid;
    assert s in sites;
    x :| 0 <= x < |sites| && sites[x] == s;
  }

  lemma OtherNames(k: nat, table: map<Operand, Local>, u: Operand, v: Operand)
    requires u != v && (!u.OtherRef? || !v.OtherRef?)
    requires u.OtherRef? ==> NameOf(k, table, u).ConstantOf?
    requires v.OtherRef? ==> NameOf(k, table, v).ConstantOf?
    ensures NameOf(k, table, u) != NameOf(k, table, v)
  {
  }

  /** Constants are named as constants of the function. */
  lemma ConstantNamed(m: Module, k: nat, b: nat, i: nat, o: nat)
    requires k < |m.functions| && WellFormed(m, m.functions[k]) && IsOperand(m.functions[k], b, i, o)
    ensures var op := OperandAt(m.functions[k], b, i, o);
            op.OtherRef? ==> NameOf(k, TableOf(m, k), op).ConstantOf? && NameOf(k, TableOf(m, k), op).owner == k
  {
    hide WellFormed, Structure, Ordered, RecordsAt, Used, Constants, NameOf;
    var f, table := m.functions[k], TableOf(m, k);
    if OperandAt(f, b, i, o).OtherRef? {
      var sites := ListExact(m, k);
      var s := FirstUseOf(f, b, i, o);
      var x := Listed(f, sites, s);
      ConstantAt(f, k, table, sites, x);
    }
  }

  lemma ConstantAt(f: Function, k: nat, table: map<Operand, Local>, sites: seq<Site>, x: nat)
    requires Constants(f, k, table, sites) == Counted(k, 0, |Constants(f, k, table, sites)|)
    requires x < |sites| && NewConstant(f, sites[x])
    ensures ConstantName(f, k, table, sites[x]).ConstantOf? && ConstantName(f, k, table, sites[x]).owner == k
  {
    hide NewConstant, ConstantName, Constants;
    var a, s, b := sites[..x], sites[x], sites[x + 1..];
    assert sites == a + [s] + b;
    ConstantsAround(f, k, table, a, s, b);
    assert Constants(f, k, table, sites)[|Constants(f, k, table, a)|] == ConstantName(f, k, table, s);
  }
}
