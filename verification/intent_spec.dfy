/**
 * The meaning of update_state_info as functions on snapshots of the
 * annotations: which names are searched for each STATE_IN variable
 * (search pairs), where they occur (lineages), what the first decisive
 * lineage node says (the verdict), and how the verdicts of all variables of
 * all type declarations of a scope and of its enclosing scopes change the
 * geninfo.  The methods of module KgAnalyze are proved equal to these.
 */
module IntentSpec {
  import opened Wrappers
  import opened Ast
  import opened ArgMatch

  /** A search pair: the name to look for, and the statement whose parsed items are searched. */
  datatype Pair = Pair(name: UName, org: Option<StmtId>)

  ghost predicate EntriesOk(s: St, es: seq<Entry>)
  {
    forall e :: e in es ==> e.req < |s.reqs|
  }

  ghost predicate PairsOk(t: Tree, ps: seq<Pair>)
  {
    forall p :: p in ps && p.org.Some? ==> p.org.value < |t.stmts|
  }

  lemma StateInOk(t: Tree, s: St, k: StmtId)
    requires StOk(t, s) && k in s.geninfo
    ensures EntriesOk(s, GetStateIn(s.geninfo[k]))
  {
    if StateIn in s.geninfo[k] {
      assert GenInfoOk(s.geninfo[k], |s.reqs|);
    }
  }

  // ---------------------------------------------------------------------
  // Search pairs

  /** For alias target a: a pair (a, originator) for each STATE_IN request of es named a, in order. */
  function MatchingRequests(t: Tree, s: St, a: UName, es: seq<Entry>): (r: seq<Pair>)
    requires StOk(t, s) && EntriesOk(s, es)
    ensures PairsOk(t, r)
    decreases |es|
  {
    if es == [] then []
    else
      var e := es[|es| - 1];
      assert e in es;
      MatchingRequests(t, s, a, es[..|es| - 1]) + (if e.uname == a then [Pair(a, s.reqs[e.req].originator)] else [])
  }

  /** The pairs of all alias targets, target by target. */
  function AliasPairs(t: Tree, s: St, targets: seq<UName>, es: seq<Entry>): (r: seq<Pair>)
    requires StOk(t, s) && EntriesOk(s, es)
    ensures PairsOk(t, r)
    decreases |targets|
  {
    if targets == [] then []
    else AliasPairs(t, s, targets[..|targets| - 1], es) + MatchingRequests(t, s, targets[|targets| - 1], es)
  }

  /**
   * The search pairs of variable uname with request r: the call site itself
   * when the request originates there; the associate's own STATE_IN requests
   * for each alias target when it originates at an Associate construct;
   * none otherwise.
   */
  function SearchPairs(t: Tree, cs: seq<StmtId>, s: St, uname: UName, r: ReqId): (res: Result<seq<Pair>, Error>)
    requires WellFormed(t) && StOk(t, s) && r < |s.reqs|
    ensures res.Ok? ==> PairsOk(t, res.value)
    ensures res.Err? ==> res.error == MissingGeninfo
  {
    match s.reqs[r].originator
    case None => Ok([])
    case Some(o) =>
      if o in cs then Ok([Pair(uname, Some(o))])
      else if t.stmts[o].kind == Associate && uname in t.stmts[o].assocMap then
        var targets := t.stmts[o].assocMap[uname];
        if targets == [] then Ok([])
        else if o !in s.geninfo then Err(MissingGeninfo)
        else
          StateInOk(t, s, o);
          Ok(AliasPairs(t, s, targets, GetStateIn(s.geninfo[o])))
      else Ok([])
  }

  // ---------------------------------------------------------------------
  // Occurrences and their lineages

  /** Node i lies in the subtree of root (root itself included). */
  predicate IsUnder(t: Tree, i: ExprId, root: ExprId)
    requires WellFormed(t) && i < |t.exprs|
    decreases i
  {
    assert ExprOk(t, i);
    i == root || (t.exprs[i].parent.Some? && IsUnder(t, t.exprs[i].parent.value, root))
  }

  /** Node i is an occurrence of name inside root: a Name node spelled name. */
  predicate IsOccurrence(t: Tree, i: ExprId, root: ExprId, name: string)
    requires WellFormed(t) && i < |t.exprs|
  {
    t.exprs[i].kind == Ast.Name && t.exprs[i].text == name && IsUnder(t, i, root)
  }

  /**
   * The lineages of the occurrences of name under root among nodes i, i+1, ...
   * in arena order. The arena is taken to be numbered in the order in which
   * the traversal visits the nodes.
   */
  function OccLineages(t: Tree, root: ExprId, name: string, i: nat): (r: seq<seq<ExprId>>)
    requires WellFormed(t) && i <= |t.exprs|
    ensures forall l :: l in r ==> LineageOk(t, l) && |l| > 0
    ensures forall l :: l in r ==> l[|l| - 1] < |t.exprs| && IsOccurrence(t, l[|l| - 1], root, name)
    decreases |t.exprs| - i
  {
    if i == |t.exprs| then []
    else (if IsOccurrence(t, i, root, name) then [Lineage(t, i)] else []) + OccLineages(t, root, name, i + 1)
  }

  /** One node of the traversal: its lineage when it is an occurrence, then the rest. */
  lemma OccLineagesStep(t: Tree, root: ExprId, name: string, i: nat)
    requires WellFormed(t) && i < |t.exprs|
    ensures IsOccurrence(t, i, root, name) ==> OccLineages(t, root, name, i) == [Lineage(t, i)] + OccLineages(t, root, name, i + 1)
    ensures !IsOccurrence(t, i, root, name) ==> OccLineages(t, root, name, i) == OccLineages(t, root, name, i + 1)
  {
  }

  // ---------------------------------------------------------------------
  // First decisive verdict

  /** The first decisive verdict among lineage nodes k, k+1, ... (root first). */
  function AncScan(t: Tree, o: StmtId, lin: seq<ExprId>, k: nat): (r: Verdict)
    requires WellFormed(t) && o < |t.stmts| && LineageOk(t, lin) && k <= |lin|
    decreases |lin| - k
  {
    if k == |lin| then Keep
    else
      var v := AncVerdict(t, o, lin, k);
      if v == Keep then AncScan(t, o, lin, k + 1) else v
  }

  /** The first decisive verdict among lineages l, l+1, ... */
  function LinScan(t: Tree, o: StmtId, lins: seq<seq<ExprId>>, l: nat): (r: Verdict)
    requires WellFormed(t) && o < |t.stmts| && (forall x :: x in lins ==> LineageOk(t, x)) && l <= |lins|
    decreases |lins| - l
  {
    if l == |lins| then Keep
    else
      assert lins[l] in lins;
      var v := AncScan(t, o, lins[l], 0);
      if v == Keep then LinScan(t, o, lins, l + 1) else v
  }

  /** The verdict of one search pair: searched in its originator's parsed items. */
  function PairVerdict(t: Tree, p: Pair): (r: Verdict)
    requires WellFormed(t) && (p.org.Some? ==> p.org.value < |t.stmts|)
  {
    match p.org
    case None => Raise(NoOriginator)
    case Some(o) =>
      assert StmtOk(t, o);
      LinScan(t, o, OccLineages(t, t.stmts[o].f2003, p.name.first, 0), 0)
  }

  /** The first decisive verdict among pairs p, p+1, ... */
  function PairScan(t: Tree, ps: seq<Pair>, p: nat): (r: Verdict)
    requires WellFormed(t) && PairsOk(t, ps) && p <= |ps|
    decreases |ps| - p
  {
    if p == |ps| then Keep
    else
      assert ps[p] in ps;
      var v := PairVerdict(t, ps[p]);
      if v == Keep then PairScan(t, ps, p + 1) else v
  }

  /** The verdict for STATE_IN entry e: its search pairs scanned in order, the first decisive one wins. */
  function VarVerdict(t: Tree, cs: seq<StmtId>, s: St, e: Entry): (r: Verdict)
    requires WellFormed(t) && StOk(t, s) && e.req < |s.reqs|
  {
    match SearchPairs(t, cs, s, e.uname, e.req)
    case Err(x) => Raise(x)
    case Ok(ps) => PairScan(t, ps, 0)
  }

  // ---------------------------------------------------------------------
  // Effect on the annotations

  /**
   * The annotations only grow: same statements with geninfo, same records
   * and originators, same STATE_IN lists, each STATE_OUT list extended at
   * its end, same check_spec_stmts calls.
   */
  ghost predicate Grows(s: St, s': St)
  {
    && s'.geninfo.Keys == s.geninfo.Keys
    && |s'.reqs| == |s.reqs|
    && (forall r | 0 <= r < |s.reqs| :: s'.reqs[r].originator == s.reqs[r].originator)
    && (forall k :: k in s.geninfo ==>
          && GetStateIn(s'.geninfo[k]) == GetStateIn(s.geninfo[k])
          && GetStateOut(s.geninfo[k]) <= GetStateOut(s'.geninfo[k]))
    && s'.specLog == s.specLog
  }

  lemma GrowsTrans(a: St, b: St, c: St)
    requires Grows(a, b) && Grows(b, c)
    ensures Grows(a, c)
  {
    forall k | k in a.geninfo
      ensures GetStateOut(a.geninfo[k]) <= GetStateOut(c.geninfo[k])
    {
      assert GetStateOut(a.geninfo[k]) <= GetStateOut(b.geninfo[k]);
    }
  }

  /** A type declaration without the "parameter" attribute: the only statements whose geninfo the pass may touch. */
  predicate VarDecl(t: Tree, stmt: StmtId)
    requires stmt < |t.stmts|
  {
    t.stmts[stmt].kind == TypeDeclaration && "parameter" !in t.stmts[stmt].attrspec
  }

  /** Only the geninfo of non-parameter type declarations is touched. */
  ghost predicate OnlyDeclsChange(t: Tree, s: St, s': St)
    requires StOk(t, s)
  {
    forall k :: k in s.geninfo && !VarDecl(t, k) ==> k in s'.geninfo && s'.geninfo[k] == s.geninfo[k]
  }

  /** Upgrading entry e of stmt: its record becomes STATE_OUT and is filed under STATE_OUT. */
  function Upgraded(s: St, stmt: StmtId, e: Entry): St
    requires stmt in s.geninfo && e.req < |s.reqs|
  {
    St(s.geninfo[stmt := AddGeninfo(s.geninfo[stmt], e.uname, e.req, StateOut)],
       s.reqs[e.req := s.reqs[e.req].(gentype := StateOut)],
       s.specLog)
  }

  /**
   * One STATE_IN entry of a type declaration: skipped when its name is
   * already STATE_OUT; otherwise upgraded when its verdict says so.
   */
  function VarStep(t: Tree, cs: seq<StmtId>, s: St, stmt: StmtId, e: Entry): (r: Outcome)
    requires WellFormed(t) && StOk(t, s) && stmt in s.geninfo && e.req < |s.reqs|
    requires VarDecl(t, stmt)
    ensures StOk(t, r.s) && Grows(s, r.s) && OnlyDeclsChange(t, s, r.s)
    ensures forall k :: k in s.geninfo && k != stmt ==> r.s.geninfo[k] == s.geninfo[k]
    ensures HasUnameOut(e.uname, s.geninfo[stmt]) ==> r == Outcome(s, None)
    ensures r.err.Some? <==> !HasUnameOut(e.uname, s.geninfo[stmt]) && VarVerdict(t, cs, s, e).Raise?
    ensures r.err.None? ==>
              (HasUnameOut(e.uname, r.s.geninfo[stmt]) <==>
                 HasUnameOut(e.uname, s.geninfo[stmt]) || VarVerdict(t, cs, s, e) == Upgrade)
  {
    if HasUnameOut(e.uname, s.geninfo[stmt]) then Outcome(s, None)
    else
      var v := VarVerdict(t, cs, s, e);
      if v.Raise? then Outcome(s, Some(v.e))
      else if v == Keep then Outcome(s, None)
      else
        UpgradedProps(t, s, stmt, e);
        Outcome(Upgraded(s, stmt, e), None)
  }

  lemma UpgradedProps(t: Tree, s: St, stmt: StmtId, e: Entry)
    requires WellFormed(t) && StOk(t, s) && stmt in s.geninfo && e.req < |s.reqs|
    requires VarDecl(t, stmt)
    ensures var s' := Upgraded(s, stmt, e);
            && StOk(t, s') && Grows(s, s') && OnlyDeclsChange(t, s, s')
            && (forall k :: k in s.geninfo && k != stmt ==> s'.geninfo[k] == s.geninfo[k])
            && HasUnameOut(e.uname, s'.geninfo[stmt])
            && s'.reqs[e.req].gentype == StateOut
  {
    var s' := Upgraded(s, stmt, e);
    assert GenInfoOk(s.geninfo[stmt], |s.reqs|);
    FiledOut(s.geninfo[stmt], e.uname, e.req, |s.reqs|);
    assert s'.geninfo[stmt] == AddGeninfo(s.geninfo[stmt], e.uname, e.req, StateOut);
  }

  /** Filing a record under STATE_OUT keeps the STATE_IN list, extends the STATE_OUT list and names the record there. */
  lemma FiledOut(g: GenInfo, u: UName, r: ReqId, n: nat)
    requires GenInfoOk(g, n) && r < n
    ensures var g' := AddGeninfo(g, u, r, StateOut);
            && GenInfoOk(g', n)
            && GetStateIn(g') == GetStateIn(g)
            && GetStateOut(g) <= GetStateOut(g')
            && HasUnameOut(u, g')
  {
    var g' := AddGeninfo(g, u, r, StateOut);
    assert StateIn != StateOut;
    assert GetStateOut(g') == g'[StateOut];
  }

  /** The STATE_IN entries es of stmt processed in order; the first exception stops the loop. */
  function EntriesFold(t: Tree, cs: seq<StmtId>, s: St, stmt: StmtId, es: seq<Entry>): (r: Outcome)
    requires WellFormed(t) && StOk(t, s) && stmt in s.geninfo && EntriesOk(s, es)
    requires VarDecl(t, stmt)
    ensures StOk(t, r.s) && Grows(s, r.s) && OnlyDeclsChange(t, s, r.s)
    ensures forall k :: k in s.geninfo && k != stmt ==> r.s.geninfo[k] == s.geninfo[k]
    decreases |es|
  {
    if es == [] then Outcome(s, None)
    else
      assert es[0] in es;
      var o := VarStep(t, cs, s, stmt, es[0]);
      if o.err.Some? then o
      else
        assert forall x :: x in es[1..] ==> x in es;
        var o' := EntriesFold(t, cs, o.s, stmt, es[1..]);
        GrowsTrans(s, o.s, o'.s);
        o'
  }

  /** The statement is examined: a type declaration, not a parameter, with a non-empty geninfo. */
  predicate Examined(t: Tree, s: St, stmt: StmtId)
    requires stmt < |t.stmts|
  {
    && VarDecl(t, stmt)
    && stmt in s.geninfo
    && HasGenEntries(s.geninfo[stmt])
  }

  /** One statement of the scope: its STATE_IN entries when it is examined, nothing otherwise. */
  function StmtStep(t: Tree, cs: seq<StmtId>, s: St, stmt: StmtId): (r: Outcome)
    requires WellFormed(t) && StOk(t, s) && stmt < |t.stmts|
    ensures StOk(t, r.s) && Grows(s, r.s) && OnlyDeclsChange(t, s, r.s)
    ensures !Examined(t, s, stmt) ==> r == Outcome(s, None)
  {
    if Examined(t, s, stmt) then
      StateInOk(t, s, stmt);
      EntriesFold(t, cs, s, stmt, GetStateIn(s.geninfo[stmt]))
    else Outcome(s, None)
  }

  ghost predicate StmtsOk(t: Tree, xs: seq<StmtId>)
  {
    forall i | 0 <= i < |xs| :: xs[i] < |t.stmts|
  }

  /** The statements xs of a scope's content processed in order; the first exception stops the loop. */
  function ContentFold(t: Tree, cs: seq<StmtId>, s: St, xs: seq<StmtId>): (r: Outcome)
    requires WellFormed(t) && StOk(t, s) && StmtsOk(t, xs)
    ensures StOk(t, r.s) && Grows(s, r.s) && OnlyDeclsChange(t, s, r.s)
    decreases |xs|
  {
    if xs == [] then Outcome(s, None)
    else
      var o := StmtStep(t, cs, s, xs[0]);
      if o.err.Some? then o
      else
        var o' := ContentFold(t, cs, o.s, xs[1..]);
        GrowsTrans(s, o.s, o'.s);
        o'
  }

  /** update_state_info(scope): the scope's content, then its parent scope, up to the statement without a parent. */
  function UpdateSpec(t: Tree, cs: seq<StmtId>, s: St, scope: StmtId): (r: Outcome)
    requires WellFormed(t) && StOk(t, s) && scope < |t.stmts|
    ensures StOk(t, r.s) && Grows(s, r.s) && OnlyDeclsChange(t, s, r.s)
    decreases scope
  {
    assert StmtOk(t, scope);
    var st := t.stmts[scope];
    assert st.content.Some? ==> StmtsOk(t, st.content.value) by {
      if st.content.Some? {
        forall i | 0 <= i < |st.content.value| ensures st.content.value[i] < |t.stmts| {
          assert st.content.value[i] in st.content.value;
        }
      }
    }
    var o := if st.content.Some? then ContentFold(t, cs, s, st.content.value) else Outcome(s, None);
    if o.err.Some? || st.parent.None? then o
    else
      var o' := UpdateSpec(t, cs, o.s, st.parent.value);
      GrowsTrans(s, o.s, o'.s);
      o'
  }
}
