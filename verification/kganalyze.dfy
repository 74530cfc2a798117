/**
 * update_state_info: for every STATE_IN variable of every examined type
 * declaration of a scope, search the variable's occurrences for one that is
 * passed to an intent(out) or intent(inout) dummy argument; the first such
 * occurrence makes the variable STATE_OUT.  Then do the same for the
 * enclosing scope.  Each method is proved equal to its counterpart in
 * IntentSpec.
 */
module KgAnalyze {
  import opened Wrappers
  import opened Ast
  import opened ArgMatch
  import opened IntentSpec

  /** The callee of called name cn in org: the first unknown named cn decides, then the search stops. */
  method FindCallee(t: Tree, org: StmtId, cn: string) returns (c: Callee)
    requires WellFormed(t) && org < |t.stmts|
    ensures c == CalleeOf(t, org, cn)
  {
    var us := t.stmts[org].unknowns;
    var j := 0;
    while j < |us|
      invariant 0 <= j <= |us|
      invariant FirstUnknownFrom(us, cn, 0) == FirstUnknownFrom(us, cn, j)
    {
      if us[j].uname.first == cn {
        var rs := us[j].resStmts;
        if rs == [] {
          return CalleeFail(CalleeUnresolved);
        }
        assert StmtOk(t, org) && us[j] in us && rs[0] in rs;
        if t.stmts[rs[0]].kind == SubProgram {
          return CalleeAt(rs[0]);
        }
        return NotCallable;
      }
      j := j + 1;
    }
    return NotCallable;
  }

  /** get_nodes: the lineage of occurrence i, built by climbing parents and prepending each. */
  method LineageOf(t: Tree, i: ExprId) returns (anc: seq<ExprId>)
    requires WellFormed(t) && i < |t.exprs|
    ensures anc == Lineage(t, i)
  {
    var node := i;
    anc := [i];
    while t.exprs[node].parent.Some?
      invariant node < |t.exprs| && |anc| > 0 && anc[0] == node
      invariant Lineage(t, i) == Lineage(t, node) + anc[1..]
      decreases node
    {
      assert ExprOk(t, node);
      var p := t.exprs[node].parent.value;
      anc := [p] + anc;
      node := p;
    }
  }

  /** traverse(root, get_nodes, bag): the lineages of every Name node spelled name under root, in traversal order. */
  method CollectLineages(t: Tree, root: ExprId, name: string) returns (bag: seq<seq<ExprId>>)
    requires WellFormed(t)
    ensures bag == OccLineages(t, root, name, 0)
  {
    bag := [];
    var i := 0;
    while i < |t.exprs|
      invariant 0 <= i <= |t.exprs|
      invariant bag + OccLineages(t, root, name, i) == OccLineages(t, root, name, 0)
    {
      OccLineagesStep(t, root, name, i);
      if IsOccurrence(t, i, root, name) {
        var l := LineageOf(t, i);
        AppendOne(bag, l, OccLineages(t, root, name, i + 1));
        bag := bag + [l];
      }
      i := i + 1;
    }
  }

  lemma AppendOne<T>(a: seq<T>, x: T, rest: seq<T>)
    ensures (a + [x]) + rest == a + ([x] + rest)
  {
  }

  /** The decision of lineage node k: called name, callee, argument index, dummy intent. */
  method DecideAncestor(t: Tree, org: StmtId, lin: seq<ExprId>, k: nat) returns (v: Verdict)
    requires WellFormed(t) && org < |t.stmts| && LineageOk(t, lin) && k < |lin|
    ensures v == AncVerdict(t, org, lin, k)
  {
    var cn := CallName(t.exprs[lin[k]]);
    if cn.None? {
      return Keep;
    }
    var callee := FindCallee(t, org, cn.value);
    match callee
    case NotCallable =>
      return Keep;
    case CalleeFail(x) =>
      return Raise(x);
    case CalleeAt(sp) =>
      var ds := t.stmts[sp].dummies;
      var ai := ArgIndex(t, lin, k, ds);
      match ai
      case NoArg =>
        return Keep;
      case ArgFail(x) =>
        return Raise(x);
      case ArgAt(i) =>
        if i >= |ds| {
          return Raise(DummyOutOfRange);
        }
        if IsOutIntent(ds[i].intent) {
          return Upgrade;
        }
        return Keep;
  }

  /** The search pairs (respairs) of variable uname whose request is r. */
  method BuildPairs(t: Tree, cs: seq<StmtId>, s: St, uname: UName, r: ReqId) returns (res: Result<seq<Pair>, Error>)
    requires WellFormed(t) && StOk(t, s) && r < |s.reqs|
    ensures res == SearchPairs(t, cs, s, uname, r)
  {
    var org := s.reqs[r].originator;
    if org.None? {
      return Ok([]);
    }
    var o := org.value;
    if o in cs {
      return Ok([Pair(uname, Some(o))]);
    }
    if !(t.stmts[o].kind == Associate && uname in t.stmts[o].assocMap) {
      return Ok([]);
    }
    var targets := t.stmts[o].assocMap[uname];
    if targets == [] {
      return Ok([]);
    }
    if o !in s.geninfo {
      return Err(MissingGeninfo);
    }
    StateInOk(t, s, o);
    var es := GetStateIn(s.geninfo[o]);
    var pairs := [];
    var a := 0;
    while a < |targets|
      invariant 0 <= a <= |targets|
      invariant pairs == AliasPairs(t, s, targets[..a], es)
    {
      var found := MatchTarget(t, s, targets[a], es);
      assert targets[..a + 1][..a] == targets[..a];
      pairs := pairs + found;
      a := a + 1;
    }
    assert targets[..a] == targets;
    return Ok(pairs);
  }

  /** For alias target a: the originators of the STATE_IN requests named a, in order. */
  method MatchTarget(t: Tree, s: St, a: UName, es: seq<Entry>) returns (found: seq<Pair>)
    requires StOk(t, s) && EntriesOk(s, es)
    ensures found == MatchingRequests(t, s, a, es)
  {
    found := [];
    var b := 0;
    while b < |es|
      invariant 0 <= b <= |es|
      invariant EntriesOk(s, es[..b])
      invariant found == MatchingRequests(t, s, a, es[..b])
    {
      assert es[..b + 1][..b] == es[..b];
      assert es[b] in es;
      if es[b].uname == a {
        found := found + [Pair(a, s.reqs[es[b].req].originator)];
      }
      b := b + 1;
    }
    assert es[..b] == es;
  }

  /** The verdict for a variable with search pairs ps: pairs, lineages and lineage nodes in order; the first decisive node wins. */
  method FindVerdict(t: Tree, ps: seq<Pair>) returns (v: Verdict)
    requires WellFormed(t) && PairsOk(t, ps)
    ensures v == PairScan(t, ps, 0)
  {
    var p := 0;
    while p < |ps|
      invariant 0 <= p <= |ps|
      invariant PairScan(t, ps, 0) == PairScan(t, ps, p)
    {
      assert ps[p] in ps;
      if ps[p].org.None? {
        return Raise(NoOriginator);
      }
      var o := ps[p].org.value;
      assert StmtOk(t, o);
      var lins := CollectLineages(t, t.stmts[o].f2003, ps[p].name.first);
      v := ScanLineages(t, o, lins);
      assert v == PairVerdict(t, ps[p]);
      if v != Keep {
        return;
      }
      p := p + 1;
    }
    return Keep;
  }

  /** The lineages of one pair in traversal order; the first decisive one wins. */
  method ScanLineages(t: Tree, o: StmtId, lins: seq<seq<ExprId>>) returns (v: Verdict)
    requires WellFormed(t) && o < |t.stmts| && forall x :: x in lins ==> LineageOk(t, x)
    ensures v == LinScan(t, o, lins, 0)
  {
    var l := 0;
    while l < |lins|
      invariant 0 <= l <= |lins|
      invariant LinScan(t, o, lins, 0) == LinScan(t, o, lins, l)
    {
      assert lins[l] in lins;
      v := ScanLineage(t, o, lins[l]);
      if v != Keep {
        return;
      }
      l := l + 1;
    }
    return Keep;
  }

  /** The nodes of one lineage, root first; the first that does not keep the variable decides. */
  method ScanLineage(t: Tree, o: StmtId, lin: seq<ExprId>) returns (v: Verdict)
    requires WellFormed(t) && o < |t.stmts| && LineageOk(t, lin)
    ensures v == AncScan(t, o, lin, 0)
  {
    var k := 0;
    while k < |lin|
      invariant 0 <= k <= |lin|
      invariant AncScan(t, o, lin, 0) == AncScan(t, o, lin, k)
    {
      v := DecideAncestor(t, o, lin, k);
      if v != Keep {
        return;
      }
      k := k + 1;
    }
    return Keep;
  }

  /** One STATE_IN entry e of type declaration x: skipped when already STATE_OUT, else searched and possibly upgraded. */
  method UpdateVar(t: Tree, cs: seq<StmtId>, ann: Annotations, x: StmtId, e: Entry) returns (err: Option<Error>)
    requires WellFormed(t) && StOk(t, ann.Snap()) && x in ann.geninfo && e.req < |ann.reqs|
    requires VarDecl(t, x)
    modifies ann
    ensures Outcome(ann.Snap(), err) == VarStep(t, cs, old(ann.Snap()), x, e)
  {
    err := None;
    if HasUnameOut(e.uname, ann.geninfo[x]) {
      return;
    }
    var pr := BuildPairs(t, cs, ann.Snap(), e.uname, e.req);
    var v;
    if pr.Err? {
      v := Raise(pr.error);
    } else {
      v := FindVerdict(t, pr.value);
    }
    assert v == VarVerdict(t, cs, ann.Snap(), e);
    if v.Raise? {
      err := Some(v.e);
    } else if v == Upgrade {
      ann.reqs := ann.reqs[e.req := ann.reqs[e.req].(gentype := StateOut)];
      ann.geninfo := ann.geninfo[x := AddGeninfo(ann.geninfo[x], e.uname, e.req, StateOut)];
    }
  }

  /** One statement of a scope's content: every STATE_IN entry when the statement is examined. */
  method UpdateStmt(t: Tree, cs: seq<StmtId>, ann: Annotations, x: StmtId) returns (err: Option<Error>)
    requires WellFormed(t) && StOk(t, ann.Snap()) && x < |t.stmts|
    modifies ann
    ensures Outcome(ann.Snap(), err) == StmtStep(t, cs, old(ann.Snap()), x)
  {
    err := None;
    ghost var sx := ann.Snap();
    if !Examined(t, ann.Snap(), x) {
      return;
    }
    StateInOk(t, ann.Snap(), x);
    var es := GetStateIn(ann.geninfo[x]);
    assert StmtStep(t, cs, sx, x) == EntriesFold(t, cs, sx, x, es);
    var j := 0;
    while j < |es|
      invariant 0 <= j <= |es| && err.None?
      invariant StOk(t, ann.Snap()) && x in ann.geninfo && |ann.reqs| == |sx.reqs|
      invariant StmtStep(t, cs, sx, x) == EntriesFold(t, cs, ann.Snap(), x, es[j..])
    {
      assert es[j] in es;
      ghost var before := ann.Snap();
      assert es[j..][0] == es[j] && es[j..][1..] == es[j + 1..];
      assert EntriesFold(t, cs, before, x, es[j..])
          == (var o := VarStep(t, cs, before, x, es[j]);
              if o.err.Some? then o else EntriesFold(t, cs, o.s, x, es[j + 1..]));
      err := UpdateVar(t, cs, ann, x, es[j]);
      if err.Some? {
        return;
      }
      j := j + 1;
    }
  }

  /**
   * update_state_info(scope): processes the scope's content and then its
   * parent, changing the annotations exactly as UpdateSpec says, and
   * reporting the exception that stopped it, if any.
   */
  method UpdateStateInfo(t: Tree, cs: seq<StmtId>, ann: Annotations, scope: StmtId) returns (err: Option<Error>)
    requires WellFormed(t) && StOk(t, ann.Snap()) && scope < |t.stmts|
    modifies ann
    ensures Outcome(ann.Snap(), err) == UpdateSpec(t, cs, old(ann.Snap()), scope)
    decreases scope
  {
    assert StmtOk(t, scope);
    var st := t.stmts[scope];
    ghost var s0 := ann.Snap();
    err := None;
    if st.content.Some? {
      var xs := st.content.value;
      assert StmtsOk(t, xs) by {
        forall i | 0 <= i < |xs| ensures xs[i] < |t.stmts| {
          assert xs[i] in xs;
        }
      }
      err := UpdateContent(t, cs, ann, xs);
      if err.Some? {
        return;
      }
    }
    ghost var s1 := ann.Snap();
    assert UpdateSpec(t, cs, s0, scope)
        == (if st.parent.None? then Outcome(s1, None) else UpdateSpec(t, cs, s1, st.parent.value));
    if st.parent.Some? {
      err := UpdateStateInfo(t, cs, ann, st.parent.value);
    }
  }

  /** The statements of a scope's content in order; the first exception stops the loop. */
  method UpdateContent(t: Tree, cs: seq<StmtId>, ann: Annotations, xs: seq<StmtId>) returns (err: Option<Error>)
    requires WellFormed(t) && StOk(t, ann.Snap()) && StmtsOk(t, xs)
    modifies ann
    ensures Outcome(ann.Snap(), err) == ContentFold(t, cs, old(ann.Snap()), xs)
  {
    ghost var s0 := ann.Snap();
    err := None;
    var i := 0;
    while i < |xs|
      invariant 0 <= i <= |xs| && err.None?
      invariant StOk(t, ann.Snap())
      invariant ContentFold(t, cs, s0, xs) == ContentFold(t, cs, ann.Snap(), xs[i..])
    {
      ghost var before := ann.Snap();
      assert xs[i..][0] == xs[i] && xs[i..][1..] == xs[i + 1..];
      assert ContentFold(t, cs, before, xs[i..])
          == (var o := StmtStep(t, cs, before, xs[i]);
              if o.err.Some? then o else ContentFold(t, cs, o.s, xs[i + 1..]));
      err := UpdateStmt(t, cs, ann, xs[i]);
      if err.Some? {
        return;
      }
      i := i + 1;
    }
  }
}
