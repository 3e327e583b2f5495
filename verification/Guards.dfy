/** The guards of an entity: the branches its block is control-dependent on, under a budget. */
module Guards {
  import opened Wrappers
  import opened Records
  import opened Snapshot
  import R = Relations

  /** An instruction is answered for its block, everything else for itself. */
  function GuardedBlock(t: Tables, handle: Handle): Handle
    requires handle in t.entities
  {
    var e := t.entities[handle];
    if e.kind == "instruction" && e.blockId.Some? then e.blockId.value else handle
  }

  /** The function's manifest says that control dependence was computed. */
  predicate DependenceKnown(t: Tables, handle: Handle)
    requires handle in t.entities
  {
    var e := t.entities[handle];
    var f := if e.functionId.None? && e.kind == "function" then Some(handle) else e.functionId;
    f.Some? && (f.value, "control_dependence") in t.capabilities
  }

  /** The exact query joins dependence rows with their terminators; the fallback uses predecessors in the CFG. */
  predicate IsGuard(es: map<Handle, EntityRow>, exact: bool, block: Handle, r: R.Relation) {
    if exact then r.kind == CONTROL_DEPENDENCE && r.src == block && r.dst in es
    else r.kind == SUCCESSOR && r.dst == block && r.src in es
  }

  function TerminatorOf(exact: bool, r: R.Relation): Handle {
    if exact then r.dst else r.src
  }

  function GuardRows(es: map<Handle, EntityRow>, exact: bool, block: Handle, rows: seq<R.Relation>): (g: seq<R.Relation>)
    ensures forall r :: r in g <==> r in rows && IsGuard(es, exact, block, r)
  {
    if rows == [] then []
    else
      var init, last := GuardRows(es, exact, block, rows[..|rows| - 1]), rows[|rows| - 1];
      assert rows == rows[..|rows| - 1] + [last];
      if IsGuard(es, exact, block, last) then init + [last] else init
  }

  /** All guards, sorted by terminator and ordinal. */
  function AllGuards(t: Tables, exact: bool, block: Handle): (g: seq<R.Relation>)
    ensures forall r :: r in g <==> r in t.relations && IsGuard(t.entities, exact, block, r)
  {
    var rows := GuardRows(t.entities, exact, block, t.relations);
    var g := R.Sort(if exact then R.ByDst else R.BySrc, rows);
    assert forall r :: r in g <==> r in multiset(rows);
    g
  }

  /** A negative limit means no limit. */
  function Limit<T>(rows: seq<T>, n: int): seq<T> {
    if n < 0 || n >= |rows| then rows else rows[..n]
  }

  /** How many of `n` rows the budget shows. */
  function Shown(budget: int, n: nat): nat {
    if budget < 0 then 0 else if budget < n then budget else n
  }

  function Terminators(exact: bool, rows: seq<R.Relation>): (r: seq<Handle>)
    ensures |r| == |rows| && forall i :: 0 <= i < |rows| ==> r[i] == TerminatorOf(exact, rows[i])
  {
    seq(|rows|, i requires 0 <= i < |rows| => TerminatorOf(exact, rows[i]))
  }

  lemma ShownStep(exact: bool, rows: seq<R.Relation>, budget: int, i: nat)
    requires i < |rows|
    ensures 0 <= Shown(budget, i) <= i && 0 <= Shown(budget, i + 1) <= i + 1
    ensures i < budget ==> rows[..Shown(budget, i + 1)] == rows[..Shown(budget, i)] + [rows[i]] &&
                           rows[Shown(budget, i + 1)..i + 1] == [] && rows[Shown(budget, i)..i] == []
    ensures i >= budget ==> Shown(budget, i + 1) == Shown(budget, i) &&
                            Terminators(exact, rows[Shown(budget, i)..i + 1]) ==
                            Terminators(exact, rows[Shown(budget, i)..i]) + [TerminatorOf(exact, rows[i])]
  {
    if i >= budget {
      assert rows[Shown(budget, i)..i + 1] == rows[Shown(budget, i)..i] + [rows[i]];
    }
  }

  /** Fetching one row beyond the budget tells truncation exactly. */
  lemma ShownOfLimit(exact: bool, all: seq<R.Relation>, budget: int)
    ensures var rows := Limit(all, budget + 1);
            && 0 <= Shown(budget, |rows|) <= |rows| && 0 <= Shown(budget, |all|) <= |all|
            && rows[..Shown(budget, |rows|)] == all[..Shown(budget, |all|)]
            && (|rows| > budget <==> |all| > budget)
            && Terminators(exact, rows[Shown(budget, |rows|)..]) == Beyond(exact, all, budget)
  {
    var rows := Limit(all, budget + 1);
    if 0 <= budget < |all| {
      assert rows == all[..budget + 1];
      assert rows[budget..] == [all[budget]];
    } else if budget == -1 {
      assert rows == [];
    } else if budget < 0 {
      assert rows[0..] == all;
    } else {
      assert rows[|rows|..] == [];
    }
  }

  /** The boundaries: the first terminator left out. A limit of zero finds nothing, a negative limit everything. */
  function Beyond(exact: bool, all: seq<R.Relation>, budget: int): seq<Handle> {
    if budget < -1 then Terminators(exact, all)
    else if budget < 0 || budget >= |all| then []
    else [TerminatorOf(exact, all[budget])]
  }

  lemma NothingShown(exact: bool, rows: seq<R.Relation>, budget: int)
    ensures Shown(budget, 0) == 0 && rows[..0] == [] && Terminators(exact, rows[0..0]) == []
  {
  }

  datatype Answer = Answer(guards: seq<R.Relation>, boundaries: seq<Handle>, truncated: bool, exact: bool)

  /** The answer under a budget, cut from all guards. */
  function AnswerOf(t: Tables, handle: Handle, budget: int): Option<Answer> {
    if handle !in t.entities then None
    else
      var exact := DependenceKnown(t, handle);
      var all := AllGuards(t, exact, GuardedBlock(t, handle));
      Some(Answer(all[..Shown(budget, |all|)], Beyond(exact, all, budget), |all| > budget, exact))
  }

  lemma AnswerIs(t: Tables, handle: Handle, budget: int)
    requires handle in t.entities
    ensures var exact := DependenceKnown(t, handle);
            var all := AllGuards(t, exact, GuardedBlock(t, handle));
            0 <= Shown(budget, |all|) <= |all| &&
            AnswerOf(t, handle, budget) ==
            Some(Answer(all[..Shown(budget, |all|)], Beyond(exact, all, budget), |all| > budget, exact))
  {
    hide DependenceKnown, AllGuards, GuardedBlock, Beyond;
  }

  lemma NoAnswer(t: Tables, handle: Handle, budget: int)
    requires handle !in t.entities
    ensures AnswerOf(t, handle, budget) == None
  {
  }

  /**
   * The answer shows the first rows up to the budget, is truncated exactly when there are more rows than the
   * budget allows, and then names the terminator of the first row left out.
   */
  method GuardsOf(t: Tables, handle: Handle, budget: int) returns (a: Option<Answer>)
    ensures a == AnswerOf(t, handle, budget)
    ensures a.None? <==> handle !in t.entities
    ensures a.Some? ==>
              var exact := DependenceKnown(t, handle);
              var all := AllGuards(t, exact, GuardedBlock(t, handle));
              && a.value.exact == exact
              && a.value.guards == all[..Shown(budget, |all|)]
              && (a.value.truncated <==> |all| > budget)
              && a.value.boundaries == Beyond(exact, all, budget)
  {
    hide *;
    if handle !in t.entities {
      NoAnswer(t, handle, budget);
      return None;
    }
    AnswerIs(t, handle, budget);
    var block := GuardedBlock(t, handle);
    var exact := DependenceKnown(t, handle);
    var all := AllGuards(t, exact, block);
    var rows := Limit(all, budget + 1);
    var truncated := |rows| > budget;
    var guards: seq<R.Relation> := [];
    var boundaries: seq<Handle> := [];
    NothingShown(exact, rows, budget);
    for i := 0 to |rows|
      invariant 0 <= Shown(budget, i) <= i
      invariant guards == rows[..Shown(budget, i)]
      invariant boundaries == Terminators(exact, rows[Shown(budget, i)..i])
    {
      ShownStep(exact, rows, budget, i);
      if i >= budget {
        boundaries := boundaries + [TerminatorOf(exact, rows[i])];
        continue;
      }
      guards := guards + [rows[i]];
    }
    assert rows[Shown(budget, |rows|)..|rows|] == rows[Shown(budget, |rows|)..];
    ShownOfLimit(exact, all, budget);
    a := Some(Answer(guards, boundaries, truncated, exact));
  }
}
