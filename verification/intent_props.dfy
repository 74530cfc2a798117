/**
 * What update_state_info guarantees, proved about the functions of
 * IntentSpec: which search pairs an alias produces, that the scans return
 * the first decisive verdict, that verdicts depend only on what the pass
 * never changes, that a variable becomes STATE_OUT exactly when one of its
 * STATE_IN requests has an Upgrade verdict (for every declaration of the
 * scope and of the scopes above it), and that a second pass over the result
 * changes nothing.
 */
module IntentProps {
  import opened Wrappers
  import opened Ast
  import opened ArgMatch
  import opened IntentSpec

  // ---------------------------------------------------------------------
  // Occurrences

  /** The node a lineage ends at. */
  function End(l: seq<ExprId>): ExprId
    requires |l| > 0
  {
    l[|l| - 1]
  }

  /** The traversal from node i on collects only lineages of nodes i, i+1, .... */
  lemma {:induction false} OccLineagesFrom(t: Tree, root: ExprId, name: string, i: nat)
    requires WellFormed(t) && i <= |t.exprs|
    ensures forall l :: l in OccLineages(t, root, name, i) ==> i <= End(l)
    decreases |t.exprs| - i
  {
    if i < |t.exprs| {
      OccLineagesStep(t, root, name, i);
      OccLineagesFrom(t, root, name, i + 1);
    }
  }

  /** The lineages end at strictly increasing nodes. */
  ghost predicate Ascending(r: seq<seq<ExprId>>)
  {
    && (forall l :: l in r ==> |l| > 0)
    && (forall a, b | 0 <= a < b < |r| :: End(r[a]) < End(r[b]))
  }

  /** r is rest, or x in front of rest when x ends before every lineage of rest. */
  lemma AscendingCons(x: seq<ExprId>, rest: seq<seq<ExprId>>, r: seq<seq<ExprId>>, front: bool)
    requires |x| > 0 && Ascending(rest) && forall l :: l in rest ==> End(x) < End(l)
    requires r == if front then [x] + rest else rest
    ensures Ascending(r)
  {
    forall a, b | front && 0 <= a < b < |r| ensures End(r[a]) < End(r[b]) {
      assert r[b] == rest[b - 1] && rest[b - 1] in rest;
      if a > 0 {
        assert r[a] == rest[a - 1];
      }
    }
  }

  /** Each occurrence is collected once and in arena order: the nodes the lineages end at strictly increase. */
  lemma {:induction false} OccLineagesOrdered(t: Tree, root: ExprId, name: string, i: nat)
    requires WellFormed(t) && i <= |t.exprs|
    ensures Ascending(OccLineages(t, root, name, i))
    decreases |t.exprs| - i
  {
    if i < |t.exprs| {
      OccLineagesOrdered(t, root, name, i + 1);
      OrderedStep(t, root, name, i);
    }
  }

  lemma OrderedStep(t: Tree, root: ExprId, name: string, i: nat)
    requires WellFormed(t) && i < |t.exprs| && Ascending(OccLineages(t, root, name, i + 1))
    ensures Ascending(OccLineages(t, root, name, i))
  {
    var rest := OccLineages(t, root, name, i + 1);
    OccLineagesStep(t, root, name, i);
    OccLineagesFrom(t, root, name, i + 1);
    var x := Lineage(t, i);
    assert End(x) == i;
    AscendingCons(x, rest, OccLineages(t, root, name, i), IsOccurrence(t, i, root, name));
  }

  /**
   * The traversal from node i on misses no occurrence of name under root;
   * with OccLineages' own contract, it collects exactly those.
   */
  lemma {:induction false} OccLineagesComplete(t: Tree, root: ExprId, name: string, i: nat, j: ExprId)
    requires WellFormed(t) && i <= j < |t.exprs| && IsOccurrence(t, j, root, name)
    ensures Lineage(t, j) in OccLineages(t, root, name, i)
    decreases |t.exprs| - i
  {
    if j > i {
      OccLineagesComplete(t, root, name, i + 1, j);
    }
    CompleteStep(t, root, name, i, Lineage(t, j), j == i);
  }

  /** Node i collects its own lineage when it is an occurrence, and keeps every lineage the later nodes collect. */
  lemma CompleteStep(t: Tree, root: ExprId, name: string, i: nat, l: seq<ExprId>, own: bool)
    requires WellFormed(t) && i < |t.exprs|
    requires if own then IsOccurrence(t, i, root, name) && l == Lineage(t, i) else l in OccLineages(t, root, name, i + 1)
    ensures l in OccLineages(t, root, name, i)
  {
    OccLineagesStep(t, root, name, i);
    InFrontOrRest(Lineage(t, i), OccLineages(t, root, name, i + 1), OccLineages(t, root, name, i), IsOccurrence(t, i, root, name), l);
  }

  /** A member of rest, or x itself when it is put in front, is a member of r. */
  lemma InFrontOrRest(x: seq<ExprId>, rest: seq<seq<ExprId>>, r: seq<seq<ExprId>>, front: bool, l: seq<ExprId>)
    requires r == if front then [x] + rest else rest
    requires (front && l == x) || l in rest
    ensures l in r
  {
  }

  // ---------------------------------------------------------------------
  // Search pairs

  /** A pair is matched for alias target a exactly when a STATE_IN request named a has that originator. */
  lemma {:induction false} MatchingRequestsMembership(t: Tree, s: St, a: UName, es: seq<Entry>, p: Pair)
    requires StOk(t, s) && EntriesOk(s, es)
    ensures p in MatchingRequests(t, s, a, es) <==>
              p.name == a && exists e :: e in es && e.uname == a && p.org == s.reqs[e.req].originator
    decreases |es|
  {
    if es != [] {
      var init := es[..|es| - 1];
      var last := es[|es| - 1];
      assert es == init + [last];
      assert forall e :: e in init ==> e in es;
      MatchingRequestsMembership(t, s, a, init, p);
      if p in MatchingRequests(t, s, a, es) && p !in MatchingRequests(t, s, a, init) {
        assert last in es && last.uname == a && p == Pair(a, s.reqs[last.req].originator);
      }
      if p.name == a && exists e :: e in es && e.uname == a && p.org == s.reqs[e.req].originator {
        var e :| e in es && e.uname == a && p.org == s.reqs[e.req].originator;
        if e != last {
          assert e in init;
        }
      }
    }
  }

  /** An Associate's search pairs: one per alias target and per STATE_IN request of the associate named by that target. */
  lemma {:induction false} AliasPairsMembership(t: Tree, s: St, targets: seq<UName>, es: seq<Entry>, p: Pair)
    requires StOk(t, s) && EntriesOk(s, es)
    ensures p in AliasPairs(t, s, targets, es) <==>
              p.name in targets && exists e :: e in es && e.uname == p.name && p.org == s.reqs[e.req].originator
    decreases |targets|
  {
    if targets != [] {
      var init := targets[..|targets| - 1];
      var last := targets[|targets| - 1];
      assert targets == init + [last];
      AliasPairsMembership(t, s, init, es, p);
      MatchingRequestsMembership(t, s, last, es, p);
    }
  }

  /**
   * The search pairs of a variable: the call site itself when its request
   * originates there; the alias pairs when it originates at an Associate
   * construct that maps the variable; nothing for any other originator.
   */
  lemma SearchPairsMeaning(t: Tree, cs: seq<StmtId>, s: St, uname: UName, r: ReqId, p: Pair)
    requires WellFormed(t) && StOk(t, s) && r < |s.reqs|
    ensures var org := s.reqs[r].originator;
            && (org.None? ==> SearchPairs(t, cs, s, uname, r) == Ok([]))
            && (org.Some? && org.value in cs ==> SearchPairs(t, cs, s, uname, r) == Ok([Pair(uname, org)]))
            && ((org.Some? && org.value !in cs && !(t.stmts[org.value].kind == Associate && uname in t.stmts[org.value].assocMap))
                  ==> SearchPairs(t, cs, s, uname, r) == Ok([]))
            && ((org.Some? && org.value !in cs && t.stmts[org.value].kind == Associate && uname in t.stmts[org.value].assocMap
                 && org.value in s.geninfo) ==>
                  SearchPairs(t, cs, s, uname, r).Ok?
                  && (p in SearchPairs(t, cs, s, uname, r).value <==>
                        && p.name in t.stmts[org.value].assocMap[uname]
                        && exists e :: e in GetStateIn(s.geninfo[org.value]) && e.uname == p.name
                                       && p.org == s.reqs[e.req].originator))
  {
    var org := s.reqs[r].originator;
    if org.Some? && org.value !in cs && t.stmts[org.value].kind == Associate && uname in t.stmts[org.value].assocMap
       && org.value in s.geninfo
    {
      StateInOk(t, s, org.value);
      AliasPairsMembership(t, s, t.stmts[org.value].assocMap[uname], GetStateIn(s.geninfo[org.value]), p);
    }
  }

  // ---------------------------------------------------------------------
  // The first decisive verdict wins

  /** AncScan is Keep when every lineage node keeps, and otherwise the verdict of the first node that does not. */
  lemma AncScanFirst(t: Tree, o: StmtId, lin: seq<ExprId>, k: nat)
    requires WellFormed(t) && o < |t.stmts| && LineageOk(t, lin) && k <= |lin|
    ensures AncScan(t, o, lin, k) == Keep <==> forall j :: k <= j < |lin| ==> AncVerdict(t, o, lin, j) == Keep
    ensures AncScan(t, o, lin, k) != Keep ==>
              exists j :: k <= j < |lin| && AncVerdict(t, o, lin, j) == AncScan(t, o, lin, k)
                          && forall i :: k <= i < j ==> AncVerdict(t, o, lin, i) == Keep
  {
    AncScanDecides(t, o, lin, k);
    FirstDecisiveMeaning(AncVerdicts(t, o, lin), k);
  }

  /** The verdict of every node of a lineage, root first. */
  function AncVerdicts(t: Tree, o: StmtId, lin: seq<ExprId>): (vs: seq<Verdict>)
    requires WellFormed(t) && o < |t.stmts| && LineageOk(t, lin)
    ensures |vs| == |lin| && forall j :: 0 <= j < |lin| ==> vs[j] == AncVerdict(t, o, lin, j)
  {
    seq(|lin|, j requires 0 <= j < |lin| => AncVerdict(t, o, lin, j))
  }

  lemma {:induction false} AncScanDecides(t: Tree, o: StmtId, lin: seq<ExprId>, k: nat)
    requires WellFormed(t) && o < |t.stmts| && LineageOk(t, lin) && k <= |lin|
    ensures AncScan(t, o, lin, k) == FirstDecisive(AncVerdicts(t, o, lin), k)
    decreases |lin| - k
  {
    if k < |lin| {
      var vs := AncVerdicts(t, o, lin);
      var v := AncVerdict(t, o, lin, k);
      assert vs[k] == v;
      assert AncScan(t, o, lin, k) == if v == Keep then AncScan(t, o, lin, k + 1) else v;
      AncScanDecides(t, o, lin, k + 1);
    }
  }

  /** LinScan is Keep when every lineage keeps, and otherwise the verdict of the first lineage that does not. */
  lemma LinScanFirst(t: Tree, o: StmtId, lins: seq<seq<ExprId>>, l: nat)
    requires WellFormed(t) && o < |t.stmts| && (forall x :: x in lins ==> LineageOk(t, x)) && l <= |lins|
    ensures LinScan(t, o, lins, l) == Keep <==> forall j :: l <= j < |lins| ==> AncScan(t, o, lins[j], 0) == Keep
    ensures LinScan(t, o, lins, l) != Keep ==>
              exists j :: l <= j < |lins| && AncScan(t, o, lins[j], 0) == LinScan(t, o, lins, l)
                          && forall i :: l <= i < j ==> AncScan(t, o, lins[i], 0) == Keep
  {
    LinScanDecides(t, o, lins, l);
    FirstDecisiveMeaning(LinVerdicts(t, o, lins), l);
  }

  /** The verdict of every lineage, in traversal order. */
  function LinVerdicts(t: Tree, o: StmtId, lins: seq<seq<ExprId>>): (vs: seq<Verdict>)
    requires WellFormed(t) && o < |t.stmts| && forall x :: x in lins ==> LineageOk(t, x)
    ensures |vs| == |lins| && forall j :: 0 <= j < |lins| ==> vs[j] == AncScan(t, o, lins[j], 0)
  {
    seq(|lins|, j requires 0 <= j < |lins| => assert lins[j] in lins; AncScan(t, o, lins[j], 0))
  }

  lemma {:induction false} LinScanDecides(t: Tree, o: StmtId, lins: seq<seq<ExprId>>, l: nat)
    requires WellFormed(t) && o < |t.stmts| && (forall x :: x in lins ==> LineageOk(t, x)) && l <= |lins|
    ensures LinScan(t, o, lins, l) == FirstDecisive(LinVerdicts(t, o, lins), l)
    decreases |lins| - l
  {
    if l < |lins| {
      var vs := LinVerdicts(t, o, lins);
      assert lins[l] in lins;
      var v := AncScan(t, o, lins[l], 0);
      assert vs[l] == v;
      assert LinScan(t, o, lins, l) == if v == Keep then LinScan(t, o, lins, l + 1) else v;
      LinScanDecides(t, o, lins, l + 1);
    }
  }

  /** PairScan is Keep when every pair keeps, and otherwise the verdict of the first pair that does not. */
  lemma PairScanFirst(t: Tree, ps: seq<Pair>, p: nat)
    requires WellFormed(t) && PairsOk(t, ps) && p <= |ps|
    ensures PairScan(t, ps, p) == Keep <==> forall j :: p <= j < |ps| ==> PairVerdict(t, ps[j]) == Keep
    ensures PairScan(t, ps, p) != Keep ==>
              exists j :: p <= j < |ps| && PairVerdict(t, ps[j]) == PairScan(t, ps, p)
                          && forall i :: p <= i < j ==> PairVerdict(t, ps[i]) == Keep
  {
    var vs := PairVerdicts(t, ps);
    PairScanDecides(t, ps, p);
    FirstDecisiveMeaning(vs, p);
  }

  /** The verdict of every pair, in order. */
  function PairVerdicts(t: Tree, ps: seq<Pair>): (vs: seq<Verdict>)
    requires WellFormed(t) && PairsOk(t, ps)
    ensures |vs| == |ps| && forall j :: 0 <= j < |ps| ==> vs[j] == PairVerdict(t, ps[j])
  {
    seq(|ps|, j requires 0 <= j < |ps| => assert ps[j] in ps; PairVerdict(t, ps[j]))
  }

  lemma {:induction false} PairScanDecides(t: Tree, ps: seq<Pair>, p: nat)
    requires WellFormed(t) && PairsOk(t, ps) && p <= |ps|
    ensures PairScan(t, ps, p) == FirstDecisive(PairVerdicts(t, ps), p)
    decreases |ps| - p
  {
    if p < |ps| {
      var vs := PairVerdicts(t, ps);
      assert ps[p] in ps;
      var v := PairVerdict(t, ps[p]);
      assert vs[p] == v;
      assert PairScan(t, ps, p) == if v == Keep then PairScan(t, ps, p + 1) else v;
      PairScanDecides(t, ps, p + 1);
    }
  }

  /** The first verdict of vs from position p on that does not keep the variable; Keep when there is none. */
  function FirstDecisive(vs: seq<Verdict>, p: nat): Verdict
    requires p <= |vs|
    decreases |vs| - p
  {
    if p == |vs| then Keep
    else if vs[p] != Keep then vs[p]
    else FirstDecisive(vs, p + 1)
  }

  lemma {:induction false} FirstDecisiveMeaning(vs: seq<Verdict>, p: nat)
    requires p <= |vs|
    ensures FirstDecisive(vs, p) == Keep <==> forall j :: p <= j < |vs| ==> vs[j] == Keep
    ensures FirstDecisive(vs, p) != Keep ==>
              exists j :: p <= j < |vs| && vs[j] == FirstDecisive(vs, p) && forall i :: p <= i < j ==> vs[i] == Keep
    decreases |vs| - p
  {
    if p < |vs| {
      FirstDecisiveMeaning(vs, p + 1);
      if vs[p] == Keep && FirstDecisive(vs, p + 1) != Keep {
        var j :| p + 1 <= j < |vs| && vs[j] == FirstDecisive(vs, p + 1) && forall i :: p + 1 <= i < j ==> vs[i] == Keep;
        assert forall i :: p <= i < j ==> vs[i] == Keep;
      }
    }
  }

  // ---------------------------------------------------------------------
  // Verdicts read only what the pass never changes

  lemma {:induction false} MatchingRequestsStable(t: Tree, s: St, s2: St, a: UName, es: seq<Entry>)
    requires StOk(t, s) && StOk(t, s2) && EntriesOk(s, es) && Grows(s, s2)
    ensures EntriesOk(s2, es) && MatchingRequests(t, s2, a, es) == MatchingRequests(t, s, a, es)
    decreases |es|
  {
    if es != [] {
      assert forall e :: e in es[..|es| - 1] ==> e in es;
      assert es[|es| - 1] in es;
      MatchingRequestsStable(t, s, s2, a, es[..|es| - 1]);
    }
  }

  lemma {:induction false} AliasPairsStable(t: Tree, s: St, s2: St, targets: seq<UName>, es: seq<Entry>)
    requires StOk(t, s) && StOk(t, s2) && EntriesOk(s, es) && Grows(s, s2)
    ensures EntriesOk(s2, es) && AliasPairs(t, s2, targets, es) == AliasPairs(t, s, targets, es)
    decreases |targets|
  {
    MatchingRequestsStable(t, s, s2, UName("", []), es);
    if targets != [] {
      AliasPairsStable(t, s, s2, targets[..|targets| - 1], es);
      MatchingRequestsStable(t, s, s2, targets[|targets| - 1], es);
    }
  }

  /** A variable's verdict is the same in any state the pass can reach: it reads only originators and STATE_IN lists. */
  lemma VerdictStable(t: Tree, cs: seq<StmtId>, s: St, s2: St, e: Entry)
    requires WellFormed(t) && StOk(t, s) && StOk(t, s2) && Grows(s, s2) && e.req < |s.reqs|
    ensures e.req < |s2.reqs| && VarVerdict(t, cs, s2, e) == VarVerdict(t, cs, s, e)
  {
    var org := s.reqs[e.req].originator;
    if org.Some? && org.value !in cs && t.stmts[org.value].kind == Associate && e.uname in t.stmts[org.value].assocMap
       && org.value in s.geninfo
    {
      StateInOk(t, s, org.value);
      AliasPairsStable(t, s, s2, t.stmts[org.value].assocMap[e.uname], GetStateIn(s.geninfo[org.value]));
    }
  }

  /** A name recorded as STATE_OUT stays recorded in any state that grows from it. */
  lemma OutStays(s: St, s2: St, k: StmtId, u: UName)
    requires Grows(s, s2) && k in s.geninfo && HasUnameOut(u, s.geninfo[k])
    ensures k in s2.geninfo && HasUnameOut(u, s2.geninfo[k])
  {
    var before := GetStateOut(s.geninfo[k]);
    var after := GetStateOut(s2.geninfo[k]);
    var e :| e in before && e.uname == u;
    var i :| 0 <= i < |before| && before[i] == e;
    assert after[i] == e;
  }

  /** A statement with some request keeps it in any state that grows from it. */
  lemma GenEntriesStay(s: St, s2: St, k: StmtId)
    requires Grows(s, s2) && k in s.geninfo && HasGenEntries(s.geninfo[k])
    ensures k in s2.geninfo && HasGenEntries(s2.geninfo[k])
  {
    var g := s.geninfo[k];
    var g2 := s2.geninfo[k];
    var gt :| gt in g && |g[gt]| > 0;
    if gt == StateIn {
      assert GetStateIn(g2) == g[gt];
    } else {
      assert |GetStateOut(g2)| >= |g[gt]|;
    }
  }

  // ---------------------------------------------------------------------
  // Soundness: a name becomes STATE_OUT only for an Upgrade verdict

  /**
   * Every name that is STATE_OUT in s' but not in s belongs to a
   * non-parameter type declaration and to one of its STATE_IN requests whose
   * verdict (in s) is Upgrade.
   */
  ghost predicate UpgradesJustified(t: Tree, cs: seq<StmtId>, s: St, s': St)
    requires WellFormed(t) && StOk(t, s)
  {
    forall k, u :: k in s.geninfo && k in s'.geninfo && HasUnameOut(u, s'.geninfo[k]) && !HasUnameOut(u, s.geninfo[k]) ==>
      && VarDecl(t, k)
      && exists e :: e in GetStateIn(s.geninfo[k]) && e.uname == u && e.req < |s.reqs| && VarVerdict(t, cs, s, e) == Upgrade
  }

  lemma JustifiedTrans(t: Tree, cs: seq<StmtId>, s: St, a: St, b: St)
    requires WellFormed(t) && StOk(t, s) && StOk(t, a) && StOk(t, b) && Grows(s, a) && Grows(a, b)
    requires UpgradesJustified(t, cs, s, a) && UpgradesJustified(t, cs, a, b)
    ensures UpgradesJustified(t, cs, s, b)
  {
    forall k, u | k in s.geninfo && k in b.geninfo && HasUnameOut(u, b.geninfo[k]) && !HasUnameOut(u, s.geninfo[k])
      ensures VarDecl(t, k)
      ensures exists e :: e in GetStateIn(s.geninfo[k]) && e.uname == u && e.req < |s.reqs| && VarVerdict(t, cs, s, e) == Upgrade
    {
      if !HasUnameOut(u, a.geninfo[k]) {
        var e :| e in GetStateIn(a.geninfo[k]) && e.uname == u && e.req < |a.reqs| && VarVerdict(t, cs, a, e) == Upgrade;
        VerdictStable(t, cs, s, a, e);
        assert e in GetStateIn(s.geninfo[k]);
      }
    }
  }

  lemma VarStepJustified(t: Tree, cs: seq<StmtId>, s: St, stmt: StmtId, e: Entry)
    requires WellFormed(t) && StOk(t, s) && stmt in s.geninfo && e.req < |s.reqs| && VarDecl(t, stmt)
    requires e in GetStateIn(s.geninfo[stmt])
    ensures UpgradesJustified(t, cs, s, VarStep(t, cs, s, stmt, e).s)
  {
    var r := VarStep(t, cs, s, stmt, e);
    forall k, u | k in s.geninfo && k in r.s.geninfo && HasUnameOut(u, r.s.geninfo[k]) && !HasUnameOut(u, s.geninfo[k])
      ensures VarDecl(t, k)
      ensures exists x :: x in GetStateIn(s.geninfo[k]) && x.uname == u && x.req < |s.reqs| && VarVerdict(t, cs, s, x) == Upgrade
    {
      assert k == stmt;
      var before := GetStateOut(s.geninfo[stmt]);
      assert r.s.geninfo[stmt] == AddGeninfo(s.geninfo[stmt], e.uname, e.req, StateOut);
      assert GetStateOut(r.s.geninfo[stmt]) == before + [Entry(e.uname, e.req)];
      var x :| x in before + [Entry(e.uname, e.req)] && x.uname == u;
      assert u == e.uname;
    }
  }

  lemma {:induction false} EntriesJustified(t: Tree, cs: seq<StmtId>, s: St, stmt: StmtId, es: seq<Entry>)
    requires WellFormed(t) && StOk(t, s) && stmt in s.geninfo && EntriesOk(s, es) && VarDecl(t, stmt)
    requires forall e :: e in es ==> e in GetStateIn(s.geninfo[stmt])
    ensures UpgradesJustified(t, cs, s, EntriesFold(t, cs, s, stmt, es).s)
    decreases |es|
  {
    if es != [] {
      assert es[0] in es;
      var o := VarStep(t, cs, s, stmt, es[0]);
      VarStepJustified(t, cs, s, stmt, es[0]);
      if o.err.None? {
        assert forall x :: x in es[1..] ==> x in es;
        EntriesJustified(t, cs, o.s, stmt, es[1..]);
        JustifiedTrans(t, cs, s, o.s, EntriesFold(t, cs, o.s, stmt, es[1..]).s);
      }
    }
  }

  lemma StmtJustified(t: Tree, cs: seq<StmtId>, s: St, x: StmtId)
    requires WellFormed(t) && StOk(t, s) && x < |t.stmts|
    ensures UpgradesJustified(t, cs, s, StmtStep(t, cs, s, x).s)
  {
    if Examined(t, s, x) {
      StateInOk(t, s, x);
      EntriesJustified(t, cs, s, x, GetStateIn(s.geninfo[x]));
    }
  }

  lemma {:induction false} ContentJustified(t: Tree, cs: seq<StmtId>, s: St, xs: seq<StmtId>)
    requires WellFormed(t) && StOk(t, s) && StmtsOk(t, xs)
    ensures UpgradesJustified(t, cs, s, ContentFold(t, cs, s, xs).s)
    decreases |xs|
  {
    if xs != [] {
      var o := StmtStep(t, cs, s, xs[0]);
      StmtJustified(t, cs, s, xs[0]);
      if o.err.None? {
        ContentJustified(t, cs, o.s, xs[1..]);
        JustifiedTrans(t, cs, s, o.s, ContentFold(t, cs, o.s, xs[1..]).s);
      }
    }
  }

  /** A pass over scope and its enclosing scopes turns a name into STATE_OUT only where an Upgrade verdict justifies it. */
  lemma {:induction false} UpdateJustified(t: Tree, cs: seq<StmtId>, s: St, scope: StmtId)
    requires WellFormed(t) && StOk(t, s) && scope < |t.stmts|
    ensures UpgradesJustified(t, cs, s, UpdateSpec(t, cs, s, scope).s)
    decreases scope
  {
    assert StmtOk(t, scope);
    var st := t.stmts[scope];
    var o := Outcome(s, None);
    if st.content.Some? {
      var xs := st.content.value;
      assert StmtsOk(t, xs) by {
        forall i | 0 <= i < |xs| ensures xs[i] < |t.stmts| {
          assert xs[i] in xs;
        }
      }
      o := ContentFold(t, cs, s, xs);
      ContentJustified(t, cs, s, xs);
    }
    if o.err.None? && st.parent.Some? {
      UpdateJustified(t, cs, o.s, st.parent.value);
      JustifiedTrans(t, cs, s, o.s, UpdateSpec(t, cs, o.s, st.parent.value).s);
    }
  }

  // ---------------------------------------------------------------------
  // Completeness: every Upgrade verdict makes its name STATE_OUT

  lemma {:induction false} EntriesComplete(t: Tree, cs: seq<StmtId>, s: St, stmt: StmtId, es: seq<Entry>, e: Entry)
    requires WellFormed(t) && StOk(t, s) && stmt in s.geninfo && EntriesOk(s, es) && VarDecl(t, stmt)
    requires EntriesFold(t, cs, s, stmt, es).err.None?
    requires e in es && e.req < |s.reqs| && VarVerdict(t, cs, s, e) == Upgrade
    ensures HasUnameOut(e.uname, EntriesFold(t, cs, s, stmt, es).s.geninfo[stmt])
    decreases |es|
  {
    assert es[0] in es;
    var o := VarStep(t, cs, s, stmt, es[0]);
    var rest := es[1..];
    assert forall x :: x in rest ==> x in es;
    var r := EntriesFold(t, cs, o.s, stmt, rest);
    if es[0] == e {
      OutStays(o.s, r.s, stmt, e.uname);
    } else {
      assert e in rest;
      VerdictStable(t, cs, s, o.s, e);
      EntriesComplete(t, cs, o.s, stmt, rest, e);
    }
  }

  lemma StmtComplete(t: Tree, cs: seq<StmtId>, s: St, x: StmtId, e: Entry)
    requires WellFormed(t) && StOk(t, s) && x < |t.stmts|
    requires StmtStep(t, cs, s, x).err.None?
    requires Examined(t, s, x) && e in GetStateIn(s.geninfo[x]) && e.req < |s.reqs| && VarVerdict(t, cs, s, e) == Upgrade
    ensures x in StmtStep(t, cs, s, x).s.geninfo && HasUnameOut(e.uname, StmtStep(t, cs, s, x).s.geninfo[x])
  {
    StateInOk(t, s, x);
    EntriesComplete(t, cs, s, x, GetStateIn(s.geninfo[x]), e);
  }

  lemma {:induction false} ContentComplete(t: Tree, cs: seq<StmtId>, s: St, xs: seq<StmtId>, x: StmtId, e: Entry)
    requires WellFormed(t) && StOk(t, s) && StmtsOk(t, xs)
    requires ContentFold(t, cs, s, xs).err.None?
    requires x in xs && x < |t.stmts| && Examined(t, s, x)
    requires e in GetStateIn(s.geninfo[x]) && e.req < |s.reqs| && VarVerdict(t, cs, s, e) == Upgrade
    ensures x in ContentFold(t, cs, s, xs).s.geninfo && HasUnameOut(e.uname, ContentFold(t, cs, s, xs).s.geninfo[x])
    decreases |xs|
  {
    var o := StmtStep(t, cs, s, xs[0]);
    var r := ContentFold(t, cs, o.s, xs[1..]);
    if xs[0] == x {
      StmtComplete(t, cs, s, x, e);
      OutStays(o.s, r.s, x, e.uname);
    } else {
      assert x in xs[1..];
      GenEntriesStay(s, o.s, x);
      VerdictStable(t, cs, s, o.s, e);
      ContentComplete(t, cs, o.s, xs[1..], x, e);
    }
  }

  /** Statement x belongs to the content of scope or of one of the scopes above it. */
  ghost predicate InScopeChain(t: Tree, x: StmtId, scope: StmtId)
    requires WellFormed(t) && scope < |t.stmts|
    decreases scope
  {
    assert StmtOk(t, scope);
    || (t.stmts[scope].content.Some? && x in t.stmts[scope].content.value)
    || (t.stmts[scope].parent.Some? && InScopeChain(t, x, t.stmts[scope].parent.value))
  }

  /** After a successful pass, every examined declaration of the scope chain has the name of each Upgrade request as STATE_OUT. */
  lemma {:induction false} UpdateComplete(t: Tree, cs: seq<StmtId>, s: St, scope: StmtId, x: StmtId, e: Entry)
    requires WellFormed(t) && StOk(t, s) && scope < |t.stmts|
    requires UpdateSpec(t, cs, s, scope).err.None?
    requires x < |t.stmts| && InScopeChain(t, x, scope) && Examined(t, s, x)
    requires e in GetStateIn(s.geninfo[x]) && e.req < |s.reqs| && VarVerdict(t, cs, s, e) == Upgrade
    ensures x in UpdateSpec(t, cs, s, scope).s.geninfo && HasUnameOut(e.uname, UpdateSpec(t, cs, s, scope).s.geninfo[x])
    decreases scope
  {
    assert StmtOk(t, scope);
    var st := t.stmts[scope];
    var o := Outcome(s, None);
    if st.content.Some? {
      var xs := st.content.value;
      assert StmtsOk(t, xs) by {
        forall i | 0 <= i < |xs| ensures xs[i] < |t.stmts| {
          assert xs[i] in xs;
        }
      }
      o := ContentFold(t, cs, s, xs);
      if x in xs {
        ContentComplete(t, cs, s, xs, x, e);
      }
    }
    if st.content.Some? && x in st.content.value {
      if st.parent.Some? {
        OutStays(o.s, UpdateSpec(t, cs, o.s, st.parent.value).s, x, e.uname);
      }
    } else {
      GenEntriesStay(s, o.s, x);
      VerdictStable(t, cs, s, o.s, e);
      UpdateComplete(t, cs, o.s, st.parent.value, x, e);
    }
  }

  /**
   * The outcome of a successful pass, for every examined declaration x in
   * the scope chain: a name is STATE_OUT afterwards exactly when it was
   * before or one of x's STATE_IN requests of that name has an Upgrade
   * verdict.
   */
  lemma UpdateOutputsExactly(t: Tree, cs: seq<StmtId>, s: St, scope: StmtId, x: StmtId, u: UName)
    requires WellFormed(t) && StOk(t, s) && scope < |t.stmts|
    requires UpdateSpec(t, cs, s, scope).err.None?
    requires x < |t.stmts| && InScopeChain(t, x, scope) && Examined(t, s, x)
    ensures x in UpdateSpec(t, cs, s, scope).s.geninfo
    ensures HasUnameOut(u, UpdateSpec(t, cs, s, scope).s.geninfo[x]) <==>
              || HasUnameOut(u, s.geninfo[x])
              || exists e :: e in GetStateIn(s.geninfo[x]) && e.uname == u && e.req < |s.reqs| && VarVerdict(t, cs, s, e) == Upgrade
  {
    var r := UpdateSpec(t, cs, s, scope);
    UpdateJustified(t, cs, s, scope);
    if HasUnameOut(u, s.geninfo[x]) {
      OutStays(s, r.s, x, u);
    }
    if exists e :: e in GetStateIn(s.geninfo[x]) && e.uname == u && e.req < |s.reqs| && VarVerdict(t, cs, s, e) == Upgrade {
      var e :| e in GetStateIn(s.geninfo[x]) && e.uname == u && e.req < |s.reqs| && VarVerdict(t, cs, s, e) == Upgrade;
      UpdateComplete(t, cs, s, scope, x, e);
    }
  }

  // ---------------------------------------------------------------------
  // A second pass changes nothing

  /** A settled request: in any state grown from its own result, the step for it is a no-op. */
  lemma VarStepSettled(t: Tree, cs: seq<StmtId>, s: St, stmt: StmtId, e: Entry, s2: St)
    requires WellFormed(t) && StOk(t, s) && stmt in s.geninfo && e.req < |s.reqs| && VarDecl(t, stmt)
    requires VarStep(t, cs, s, stmt, e).err.None?
    requires StOk(t, s2) && Grows(VarStep(t, cs, s, stmt, e).s, s2)
    ensures stmt in s2.geninfo && e.req < |s2.reqs| && VarStep(t, cs, s2, stmt, e) == Outcome(s2, None)
  {
    var r := VarStep(t, cs, s, stmt, e);
    GrowsTrans(s, r.s, s2);
    if HasUnameOut(e.uname, s.geninfo[stmt]) {
      OutStays(s, s2, stmt, e.uname);
    } else {
      VerdictStable(t, cs, s, s2, e);
      if VarVerdict(t, cs, s, e) == Upgrade {
        OutStays(r.s, s2, stmt, e.uname);
      }
    }
  }

  lemma {:induction false} EntriesSettled(t: Tree, cs: seq<StmtId>, s: St, stmt: StmtId, es: seq<Entry>, s2: St)
    requires WellFormed(t) && StOk(t, s) && stmt in s.geninfo && EntriesOk(s, es) && VarDecl(t, stmt)
    requires EntriesFold(t, cs, s, stmt, es).err.None?
    requires StOk(t, s2) && Grows(EntriesFold(t, cs, s, stmt, es).s, s2)
    ensures stmt in s2.geninfo && EntriesOk(s2, es) && EntriesFold(t, cs, s2, stmt, es) == Outcome(s2, None)
    decreases |es|
  {
    GrowsTrans(s, EntriesFold(t, cs, s, stmt, es).s, s2);
    if es != [] {
      assert es[0] in es;
      var o := VarStep(t, cs, s, stmt, es[0]);
      assert forall x :: x in es[1..] ==> x in es;
      assert o.err.None?;
      var o' := EntriesFold(t, cs, o.s, stmt, es[1..]);
      assert EntriesFold(t, cs, s, stmt, es) == o';
      EntriesSettled(t, cs, o.s, stmt, es[1..], s2);
      GrowsTrans(o.s, o'.s, s2);
      VarStepSettled(t, cs, s, stmt, es[0], s2);
      assert EntriesFold(t, cs, s2, stmt, es) == EntriesFold(t, cs, s2, stmt, es[1..]);
    }
  }

  lemma StmtSettled(t: Tree, cs: seq<StmtId>, s: St, x: StmtId, s2: St)
    requires WellFormed(t) && StOk(t, s) && x < |t.stmts|
    requires StmtStep(t, cs, s, x).err.None?
    requires StOk(t, s2) && Grows(StmtStep(t, cs, s, x).s, s2)
    ensures StmtStep(t, cs, s2, x) == Outcome(s2, None)
  {
    GrowsTrans(s, StmtStep(t, cs, s, x).s, s2);
    if Examined(t, s2, x) {
      assert GetStateIn(s2.geninfo[x]) == GetStateIn(s.geninfo[x]);
      StateInOk(t, s, x);
      if Examined(t, s, x) {
        EntriesSettled(t, cs, s, x, GetStateIn(s.geninfo[x]), s2);
      } else {
        assert GetStateIn(s.geninfo[x]) == [];
      }
    }
  }

  lemma {:induction false} ContentSettled(t: Tree, cs: seq<StmtId>, s: St, xs: seq<StmtId>, s2: St)
    requires WellFormed(t) && StOk(t, s) && StmtsOk(t, xs)
    requires ContentFold(t, cs, s, xs).err.None?
    requires StOk(t, s2) && Grows(ContentFold(t, cs, s, xs).s, s2)
    ensures ContentFold(t, cs, s2, xs) == Outcome(s2, None)
    decreases |xs|
  {
    if xs != [] {
      var o := StmtStep(t, cs, s, xs[0]);
      var o' := ContentFold(t, cs, o.s, xs[1..]);
      ContentSettled(t, cs, o.s, xs[1..], s2);
      GrowsTrans(o.s, o'.s, s2);
      StmtSettled(t, cs, s, xs[0], s2);
    }
  }

  lemma {:induction false} UpdateSettled(t: Tree, cs: seq<StmtId>, s: St, scope: StmtId, s2: St)
    requires WellFormed(t) && StOk(t, s) && scope < |t.stmts|
    requires UpdateSpec(t, cs, s, scope).err.None?
    requires StOk(t, s2) && Grows(UpdateSpec(t, cs, s, scope).s, s2)
    ensures UpdateSpec(t, cs, s2, scope) == Outcome(s2, None)
    decreases scope
  {
    assert StmtOk(t, scope);
    var st := t.stmts[scope];
    var o := Outcome(s, None);
    if st.content.Some? {
      var xs := st.content.value;
      assert StmtsOk(t, xs) by {
        forall i | 0 <= i < |xs| ensures xs[i] < |t.stmts| {
          assert xs[i] in xs;
        }
      }
      o := ContentFold(t, cs, s, xs);
    }
    if st.parent.Some? {
      var o' := UpdateSpec(t, cs, o.s, st.parent.value);
      UpdateSettled(t, cs, o.s, st.parent.value, s2);
      GrowsTrans(o.s, o'.s, s2);
    }
    if st.content.Some? {
      ContentSettled(t, cs, s, st.content.value, s2);
    }
  }

  /** update_state_info is idempotent: run again on its own successful result, it changes nothing and raises nothing. */
  lemma UpdateIdempotent(t: Tree, cs: seq<StmtId>, s: St, scope: StmtId)
    requires WellFormed(t) && StOk(t, s) && scope < |t.stmts|
    requires UpdateSpec(t, cs, s, scope).err.None?
    ensures var s1 := UpdateSpec(t, cs, s, scope).s;
            UpdateSpec(t, cs, s1, scope) == Outcome(s1, None)
  {
    var s1 := UpdateSpec(t, cs, s, scope).s;
    assert Grows(s1, s1);
    UpdateSettled(t, cs, s, scope, s1);
  }

  /** A name already STATE_OUT stays STATE_OUT, whatever the pass does (even when it raises). */
  lemma OutputsStayOutputs(t: Tree, cs: seq<StmtId>, s: St, scope: StmtId, k: StmtId, u: UName)
    requires WellFormed(t) && StOk(t, s) && scope < |t.stmts|
    requires k in s.geninfo && HasUnameOut(u, s.geninfo[k])
    ensures k in UpdateSpec(t, cs, s, scope).s.geninfo && HasUnameOut(u, UpdateSpec(t, cs, s, scope).s.geninfo[k])
  {
    OutStays(s, UpdateSpec(t, cs, s, scope).s, k, u);
  }

  // ---------------------------------------------------------------------
  // The pass raises only its own exceptions

  /** A variable's verdict raises only one of the exceptions of the search itself. */
  lemma VarVerdictPass(t: Tree, cs: seq<StmtId>, s: St, e: Entry)
    requires WellFormed(t) && StOk(t, s) && e.req < |s.reqs|
    ensures VarVerdict(t, cs, s, e).Raise? ==> PassError(VarVerdict(t, cs, s, e).e)
  {
    var sp := SearchPairs(t, cs, s, e.uname, e.req);
    if sp.Ok? && PairScan(t, sp.value, 0).Raise? {
      var ps := sp.value;
      PairScanFirst(t, ps, 0);
      var j :| 0 <= j < |ps| && PairVerdict(t, ps[j]) == PairScan(t, ps, 0);
      assert ps[j] in ps;
      if ps[j].org.Some? {
        var o := ps[j].org.value;
        assert StmtOk(t, o);
        var lins := OccLineages(t, t.stmts[o].f2003, ps[j].name.first, 0);
        LinScanFirst(t, o, lins, 0);
        var l :| 0 <= l < |lins| && AncScan(t, o, lins[l], 0) == LinScan(t, o, lins, 0);
        assert lins[l] in lins;
        AncScanFirst(t, o, lins[l], 0);
      }
    }
  }

  lemma {:induction false} EntriesPass(t: Tree, cs: seq<StmtId>, s: St, stmt: StmtId, es: seq<Entry>)
    requires WellFormed(t) && StOk(t, s) && stmt in s.geninfo && EntriesOk(s, es) && VarDecl(t, stmt)
    ensures EntriesFold(t, cs, s, stmt, es).err.Some? ==> PassError(EntriesFold(t, cs, s, stmt, es).err.value)
    decreases |es|
  {
    if es != [] {
      assert es[0] in es;
      VarVerdictPass(t, cs, s, es[0]);
      var o := VarStep(t, cs, s, stmt, es[0]);
      if o.err.None? {
        assert forall x :: x in es[1..] ==> x in es;
        EntriesPass(t, cs, o.s, stmt, es[1..]);
      }
    }
  }

  lemma {:induction false} ContentPass(t: Tree, cs: seq<StmtId>, s: St, xs: seq<StmtId>)
    requires WellFormed(t) && StOk(t, s) && StmtsOk(t, xs)
    ensures ContentFold(t, cs, s, xs).err.Some? ==> PassError(ContentFold(t, cs, s, xs).err.value)
    decreases |xs|
  {
    if xs != [] {
      if Examined(t, s, xs[0]) {
        StateInOk(t, s, xs[0]);
        EntriesPass(t, cs, s, xs[0], GetStateIn(s.geninfo[xs[0]]));
      }
      var o := StmtStep(t, cs, s, xs[0]);
      if o.err.None? {
        ContentPass(t, cs, o.s, xs[1..]);
      }
    }
  }

  /** update_state_info raises only exceptions of its own search, never one of the checks of run. */
  lemma {:induction false} UpdatePass(t: Tree, cs: seq<StmtId>, s: St, scope: StmtId)
    requires WellFormed(t) && StOk(t, s) && scope < |t.stmts|
    ensures UpdateSpec(t, cs, s, scope).err.Some? ==> PassError(UpdateSpec(t, cs, s, scope).err.value)
    decreases scope
  {
    assert StmtOk(t, scope);
    var st := t.stmts[scope];
    var o := Outcome(s, None);
    if st.content.Some? {
      var xs := st.content.value;
      assert StmtsOk(t, xs) by {
        forall i | 0 <= i < |xs| ensures xs[i] < |t.stmts| {
          assert xs[i] in xs;
        }
      }
      o := ContentFold(t, cs, s, xs);
      ContentPass(t, cs, s, xs);
    }
    if o.err.None? && st.parent.Some? {
      UpdatePass(t, cs, o.s, st.parent.value);
    }
  }
}
