/**
 * Small concrete programs run through the model of update_state_info.
 *
 *   program p                 ! statement 0
 *     subroutine sub(a)       ! statement 1, a has the intent given below
 *     integer :: x            ! statement 2, x is a STATE_IN request of the call site
 *     call sub(x)             ! statement 3, the call site
 *
 * The call's parsed items are the Call_Stmt node 0 whose argument is the
 * Name node 1 ("x"), or, with a keyword, the Actual_Arg_Spec node 1 ("a")
 * holding the Name node 2 ("x").
 */
module IntentExamples {
  import opened Wrappers
  import opened Ast
  import opened ArgMatch
  import opened IntentSpec

  const X: UName := UName("x", [])
  const SUB: UName := UName("sub", [])

  function Program(dummies: seq<Dummy>, exprs: seq<Expr>): Tree
  {
    Tree(
      [ Stmt(OtherBlock, None, Some([1, 2, 3]), Some("p"), [], 0, [], [], map[]),
        Stmt(SubProgram, Some(0), Some([]), Some("sub"), [], 0, [], dummies, map[]),
        Stmt(TypeDeclaration, Some(0), None, None, [], 0, [], [], map[]),
        Stmt(OtherStmt, Some(0), None, None, [], 0, [Unknown(SUB, [1], [])], [], map[]) ],
      exprs)
  }

  /** call sub(x): a positional argument. */
  const Positional: seq<Expr> :=
    [ Expr(CallStmt, "sub", Some(1), [], None),
      Expr(Name, "x", None, [], Some(0)) ]

  /** call sub(a=x): a keyword argument. */
  const Keyword: seq<Expr> :=
    [ Expr(CallStmt, "sub", Some(1), [], None),
      Expr(ActualArgSpec, "a", None, [], Some(0)),
      Expr(Name, "x", None, [], Some(1)) ]

  /** Before the pass: x is a STATE_IN request of declaration 2, originating at the call site. */
  const Before: St := St(map[2 := map[StateIn := [Entry(X, 0)]]], [Req(StateIn, X, Some(3))], [])

  lemma ProgramWellFormed(dummies: seq<Dummy>, exprs: seq<Expr>)
    requires exprs == Positional || exprs == Keyword
    ensures WellFormed(Program(dummies, exprs)) && StOk(Program(dummies, exprs), Before)
  {
    var t := Program(dummies, exprs);
    forall i | 0 <= i < |t.stmts| ensures StmtOk(t, i) {
      assert t.stmts[i].content.Some? ==> t.stmts[i].content.value == [1, 2, 3] || t.stmts[i].content.value == [];
    }
  }

  /** After the pass: x is also filed under STATE_OUT and its record is STATE_OUT. */
  const After: St := St(map[2 := map[StateIn := [Entry(X, 0)], StateOut := [Entry(X, 0)]]], [Req(StateOut, X, Some(3))], [])

  /** The only occurrence of x in call sub(x) is node 1, below the call node. */
  lemma PositionalLineages(dummies: seq<Dummy>)
    ensures WellFormed(Program(dummies, Positional))
    ensures OccLineages(Program(dummies, Positional), 0, "x", 0) == [[0, 1]]
  {
    var t := Program(dummies, Positional);
    ProgramWellFormed(dummies, Positional);
    assert Lineage(t, 1) == [0, 1];
    assert !IsOccurrence(t, 0, 0, "x") && IsUnder(t, 1, 0) && IsOccurrence(t, 1, 0, "x");
    assert OccLineages(t, 0, "x", 2) == [];
    assert OccLineages(t, 0, "x", 1) == [[0, 1]];
  }

  /** The only occurrence of x in call sub(a=x) is node 2, below the keyword node and the call node. */
  lemma KeywordLineages(dummies: seq<Dummy>)
    ensures WellFormed(Program(dummies, Keyword))
    ensures OccLineages(Program(dummies, Keyword), 0, "x", 0) == [[0, 1, 2]]
  {
    var t := Program(dummies, Keyword);
    ProgramWellFormed(dummies, Keyword);
    assert Lineage(t, 2) == [0, 1, 2];
    assert !IsOccurrence(t, 0, 0, "x") && !IsOccurrence(t, 1, 0, "x");
    assert IsUnder(t, 1, 0) && IsUnder(t, 2, 0) && IsOccurrence(t, 2, 0, "x");
    assert OccLineages(t, 0, "x", 3) == [];
    assert OccLineages(t, 0, "x", 2) == [[0, 1, 2]];
    assert OccLineages(t, 0, "x", 1) == [[0, 1, 2]];
  }

  /** The call node decides: sub resolves to statement 1, and the argument selects dummy i. */
  lemma CallNodeDecides(dummies: seq<Dummy>, exprs: seq<Expr>, lin: seq<ExprId>, i: nat)
    requires exprs == Positional || exprs == Keyword
    requires lin == [0, |exprs| - 1] || lin == [0, 1, 2]
    requires WellFormed(Program(dummies, exprs)) && LineageOk(Program(dummies, exprs), lin)
    requires ArgIndex(Program(dummies, exprs), lin, 0, dummies) == ArgAt(i) && i < |dummies|
    ensures AncVerdict(Program(dummies, exprs), 3, lin, 0) == (if IsOutIntent(dummies[i].intent) then Upgrade else Keep)
  {
    assert CalleeOf(Program(dummies, exprs), 3, "sub") == CalleeAt(1);
  }

  /** The verdict of x: the call site is the originator, so its lineages decide. */
  lemma VerdictFromLineage(t: Tree, lin: seq<ExprId>)
    requires WellFormed(t) && |t.stmts| == 4 && t.stmts[3].f2003 == 0 && StOk(t, Before)
    requires OccLineages(t, 0, "x", 0) == [lin] && LineageOk(t, lin)
    requires forall k :: 1 <= k < |lin| ==> AncVerdict(t, 3, lin, k) == Keep
    requires |lin| > 0
    ensures VarVerdict(t, [3], Before, Entry(X, 0)) == AncVerdict(t, 3, lin, 0)
  {
    assert SearchPairs(t, [3], Before, X, 0) == Ok([Pair(X, Some(3))]);
    var k := |lin|;
    while k > 1
      invariant 1 <= k <= |lin|
      invariant AncScan(t, 3, lin, k) == Keep
    {
      k := k - 1;
    }
    assert LinScan(t, 3, [lin], 1) == Keep;
    assert PairScan(t, [Pair(X, Some(3))], 1) == Keep;
  }

  /** In call sub(x), x is passed to the first dummy of sub. */
  lemma PositionalVerdict(intent: Intent)
    ensures var t := Program([Dummy("a", intent)], Positional);
            && WellFormed(t) && StOk(t, Before)
            && VarVerdict(t, [3], Before, Entry(X, 0)) == (if IsOutIntent(intent) then Upgrade else Keep)
  {
    var ds := [Dummy("a", intent)];
    var t := Program(ds, Positional);
    ProgramWellFormed(ds, Positional);
    PositionalLineages(ds);
    PositionalArgIndex(ds);
    CallNodeDecides(ds, Positional, [0, 1], 0);
    PositionalTailKeeps(ds);
    VerdictFromLineage(t, [0, 1]);
  }

  /** The name node below the call decides nothing. */
  lemma PositionalTailKeeps(ds: seq<Dummy>)
    ensures WellFormed(Program(ds, Positional)) && LineageOk(Program(ds, Positional), [0, 1])
    ensures forall k :: 1 <= k < 2 ==> AncVerdict(Program(ds, Positional), 3, [0, 1], k) == Keep
  {
    ProgramWellFormed(ds, Positional);
    assert AncVerdict(Program(ds, Positional), 3, [0, 1], 1) == Keep;
  }

  lemma PositionalArgIndex(ds: seq<Dummy>)
    requires |ds| == 1
    ensures WellFormed(Program(ds, Positional)) && ArgIndex(Program(ds, Positional), [0, 1], 0, ds) == ArgAt(0)
  {
    ProgramWellFormed(ds, Positional);
  }

  lemma KeywordArgIndex(ds: seq<Dummy>)
    requires |ds| == 2 && ds[0].name == "b" && ds[1].name == "a"
    ensures WellFormed(Program(ds, Keyword)) && ArgIndex(Program(ds, Keyword), [0, 1, 2], 0, ds) == ArgAt(1)
  {
    ProgramWellFormed(ds, Keyword);
    assert DummyNames(ds) == ["b", "a"];
    assert KeywordIndex(ds, "a") == ArgAt(1);
  }

  /** In call sub(a=x), the keyword selects the second dummy of sub. */
  lemma KeywordVerdict(intent: Intent)
    ensures var t := Program([Dummy("b", IntentIn), Dummy("a", intent)], Keyword);
            && WellFormed(t) && StOk(t, Before)
            && VarVerdict(t, [3], Before, Entry(X, 0)) == (if IsOutIntent(intent) then Upgrade else Keep)
  {
    var ds := [Dummy("b", IntentIn), Dummy("a", intent)];
    var t := Program(ds, Keyword);
    ProgramWellFormed(ds, Keyword);
    KeywordLineages(ds);
    KeywordArgIndex(ds);
    CallNodeDecides(ds, Keyword, [0, 1, 2], 1);
    KeywordTailKeeps(ds);
    VerdictFromLineage(t, [0, 1, 2]);
  }

  /** The keyword node and the name node below the call decide nothing. */
  lemma KeywordTailKeeps(ds: seq<Dummy>)
    ensures WellFormed(Program(ds, Keyword)) && LineageOk(Program(ds, Keyword), [0, 1, 2])
    ensures forall k :: 1 <= k < 3 ==> AncVerdict(Program(ds, Keyword), 3, [0, 1, 2], k) == Keep
  {
    ProgramWellFormed(ds, Keyword);
    assert AncVerdict(Program(ds, Keyword), 3, [0, 1, 2], 1) == Keep;
    assert AncVerdict(Program(ds, Keyword), 3, [0, 1, 2], 2) == Keep;
  }

  lemma UpgradedBefore()
    ensures Upgraded(Before, 2, Entry(X, 0)) == After
  {
    var g := Before.geninfo[2];
    assert !HasUname(X, GetStateOut(g));
    assert [] + [Entry(X, 0)] == [Entry(X, 0)];
    assert AddGeninfo(g, X, 0, StateOut) == After.geninfo[2];
    assert Before.geninfo[2 := After.geninfo[2]] == After.geninfo;
  }

  /** The step for x alone: After on Upgrade, Before on Keep. */
  lemma StepOnProgram(dummies: seq<Dummy>, exprs: seq<Expr>, v: Verdict)
    requires WellFormed(Program(dummies, exprs)) && StOk(Program(dummies, exprs), Before)
    requires VarVerdict(Program(dummies, exprs), [3], Before, Entry(X, 0)) == v && !v.Raise?
    ensures VarStep(Program(dummies, exprs), [3], Before, 2, Entry(X, 0)) == Outcome(if v == Upgrade then After else Before, None)
  {
    assert !HasUnameOut(X, Before.geninfo[2]);
    UpgradedBefore();
  }

  /** The declaration of x, the only examined statement: After on Upgrade, Before on Keep. */
  lemma DeclOnProgram(dummies: seq<Dummy>, exprs: seq<Expr>, v: Verdict)
    requires WellFormed(Program(dummies, exprs)) && StOk(Program(dummies, exprs), Before)
    requires VarVerdict(Program(dummies, exprs), [3], Before, Entry(X, 0)) == v && !v.Raise?
    ensures StmtStep(Program(dummies, exprs), [3], Before, 2) == Outcome(if v == Upgrade then After else Before, None)
  {
    var t := Program(dummies, exprs);
    var s1 := if v == Upgrade then After else Before;
    StepOnProgram(dummies, exprs, v);
    assert GetStateIn(Before.geninfo[2]) == [Entry(X, 0)];
    assert [Entry(X, 0)][1..] == [];
    assert EntriesFold(t, [3], Before, 2, [Entry(X, 0)]) == Outcome(s1, None);
    assert Examined(t, Before, 2);
  }

  /** The subroutine and the call site are not declarations, so their steps change nothing. */
  lemma OthersUnexamined(dummies: seq<Dummy>, exprs: seq<Expr>, s: St)
    requires WellFormed(Program(dummies, exprs)) && StOk(Program(dummies, exprs), s)
    ensures StmtStep(Program(dummies, exprs), [3], s, 1) == Outcome(s, None)
    ensures StmtStep(Program(dummies, exprs), [3], s, 3) == Outcome(s, None)
  {
    assert !Examined(Program(dummies, exprs), s, 1) && !Examined(Program(dummies, exprs), s, 3);
  }

  /** The content of the program: the subroutine and the call site are not examined. */
  lemma ContentOnProgram(dummies: seq<Dummy>, exprs: seq<Expr>, v: Verdict)
    requires WellFormed(Program(dummies, exprs)) && StOk(Program(dummies, exprs), Before)
    requires VarVerdict(Program(dummies, exprs), [3], Before, Entry(X, 0)) == v && !v.Raise?
    ensures StmtsOk(Program(dummies, exprs), [1, 2, 3])
    ensures ContentFold(Program(dummies, exprs), [3], Before, [1, 2, 3]) == Outcome(if v == Upgrade then After else Before, None)
  {
    SubroutineSkipped(dummies, exprs, Before);
    DeclThenCall(dummies, exprs, v);
  }

  /** Content [1, 2, 3]: the subroutine statement is not examined, so the content starts at the declaration. */
  lemma SubroutineSkipped(dummies: seq<Dummy>, exprs: seq<Expr>, s: St)
    requires WellFormed(Program(dummies, exprs)) && StOk(Program(dummies, exprs), s)
    ensures StmtsOk(Program(dummies, exprs), [1, 2, 3]) && StmtsOk(Program(dummies, exprs), [2, 3])
    ensures ContentFold(Program(dummies, exprs), [3], s, [1, 2, 3]) == ContentFold(Program(dummies, exprs), [3], s, [2, 3])
  {
    OthersUnexamined(dummies, exprs, s);
    assert [1, 2, 3][1..] == [2, 3];
  }

  /** Content [2, 3]: the declaration of x, then the call site. */
  lemma DeclThenCall(dummies: seq<Dummy>, exprs: seq<Expr>, v: Verdict)
    requires WellFormed(Program(dummies, exprs)) && StOk(Program(dummies, exprs), Before)
    requires VarVerdict(Program(dummies, exprs), [3], Before, Entry(X, 0)) == v && !v.Raise?
    ensures StmtsOk(Program(dummies, exprs), [2, 3])
    ensures ContentFold(Program(dummies, exprs), [3], Before, [2, 3]) == Outcome(if v == Upgrade then After else Before, None)
  {
    var s1 := if v == Upgrade then After else Before;
    DeclOnProgram(dummies, exprs, v);
    CallAlone(dummies, exprs, s1);
    assert [2, 3][1..] == [3];
  }

  /** Content [3]: the call site alone changes nothing. */
  lemma CallAlone(dummies: seq<Dummy>, exprs: seq<Expr>, s: St)
    requires WellFormed(Program(dummies, exprs)) && StOk(Program(dummies, exprs), s)
    ensures StmtsOk(Program(dummies, exprs), [3])
    ensures ContentFold(Program(dummies, exprs), [3], s, [3]) == Outcome(s, None)
  {
    OthersUnexamined(dummies, exprs, s);
    assert [3][1..] == [];
  }

  /** The whole pass over the program, given the verdict for x: only the declaration of x may change. */
  lemma PassOnProgram(dummies: seq<Dummy>, exprs: seq<Expr>, v: Verdict)
    requires WellFormed(Program(dummies, exprs)) && StOk(Program(dummies, exprs), Before)
    requires VarVerdict(Program(dummies, exprs), [3], Before, Entry(X, 0)) == v && !v.Raise?
    ensures UpdateSpec(Program(dummies, exprs), [3], Before, 0) == Outcome(if v == Upgrade then After else Before, None)
  {
    ContentOnProgram(dummies, exprs, v);
  }

  /** call sub(x) with an intent(out) dummy: x becomes STATE_OUT and its record is upgraded. */
  lemma PositionalOutUpgrades()
    ensures var t := Program([Dummy("a", IntentOut)], Positional);
            WellFormed(t) && StOk(t, Before) && UpdateSpec(t, [3], Before, 0) == Outcome(After, None)
  {
    PositionalVerdict(IntentOut);
    PassOnProgram([Dummy("a", IntentOut)], Positional, Upgrade);
  }

  /** call sub(x) with an intent(in) dummy: nothing changes. */
  lemma PositionalInKeeps()
    ensures var t := Program([Dummy("a", IntentIn)], Positional);
            WellFormed(t) && StOk(t, Before) && UpdateSpec(t, [3], Before, 0) == Outcome(Before, None)
  {
    PositionalVerdict(IntentIn);
    PassOnProgram([Dummy("a", IntentIn)], Positional, Keep);
  }

  /** call sub(a=x) with an intent(inout) dummy a: x becomes STATE_OUT. */
  lemma KeywordInOutUpgrades()
    ensures var t := Program([Dummy("b", IntentIn), Dummy("a", IntentInOut)], Keyword);
            WellFormed(t) && StOk(t, Before) && UpdateSpec(t, [3], Before, 0) == Outcome(After, None)
  {
    KeywordVerdict(IntentInOut);
    PassOnProgram([Dummy("b", IntentIn), Dummy("a", IntentInOut)], Keyword, Upgrade);
  }
}
