/**
 * Parser.run and Parser.add_geninfo_ancestors: prepare the scopes around
 * the call site and drive update_state_info.
 *
 * The ancestors of the call site are visited innermost first.  Each gets an
 * empty geninfo when it has none, and so does its trailing END statement;
 * each scope also receives a STATE_IN request for the named scope visited
 * just before it (a call of check_spec_stmts, recorded in the annotations'
 * specLog).  run then fixes the parent and top blocks, insists that every
 * unknown name of the call site resolved, and runs update_state_info on the
 * parent block and on every module statement other than the top block.
 */
module ParserMain {
  import opened Wrappers
  import opened Ast
  import opened ArgMatch
  import opened IntentSpec
  import opened KgAnalyze
  import opened IntentProps

  // ---------------------------------------------------------------------
  // add_geninfo_ancestors

  /** The last statement of block a when it is an END statement. */
  function TrailingEnd(t: Tree, a: StmtId): (r: Option<StmtId>)
    requires WellFormed(t) && a < |t.stmts|
    ensures r.Some? ==> r.value < |t.stmts| && t.stmts[r.value].kind == EndStatement
    ensures r.Some? ==> t.stmts[a].content.Some? && |t.stmts[a].content.value| > 0
                        && r.value == t.stmts[a].content.value[|t.stmts[a].content.value| - 1]
    ensures r.None? ==> t.stmts[a].content.None? || |t.stmts[a].content.value| == 0
                        || (var last := t.stmts[a].content.value[|t.stmts[a].content.value| - 1];
                            last < |t.stmts| && t.stmts[last].kind != EndStatement)
  {
    assert StmtOk(t, a);
    match t.stmts[a].content
    case None => None
    case Some(c) =>
      if |c| == 0 then None
      else
        assert c[|c| - 1] in c;
        if t.stmts[c[|c| - 1]].kind == EndStatement then Some(c[|c| - 1]) else None
  }

  /** A name that Python treats as true: present and non-empty. */
  predicate Named(n: Option<string>)
  {
    n.Some? && n.value != ""
  }

  /** The STATE_IN request that scope anc receives for the scope prev visited before it, named n. */
  function ChainRequest(anc: StmtId, n: string, prev: StmtId): SpecRequest
  {
    SpecRequest(anc, UName(n, []), [prev])
  }

  /** One ancestor: empty geninfo for it and its trailing END statement when missing, and the request for prev. */
  function AncestorStep(t: Tree, s: St, anc: StmtId, prevstmt: StmtId, prevname: Option<string>): (r: St)
    requires WellFormed(t) && anc < |t.stmts|
  {
    var g1 := if anc in s.geninfo then s.geninfo else s.geninfo[anc := map[]];
    var g2 := match TrailingEnd(t, anc)
              case Some(e) => if e in g1 then g1 else g1[e := map[]]
              case None => g1;
    var log := if Named(prevname) then s.specLog + [ChainRequest(anc, prevname.value, prevstmt)] else s.specLog;
    St(g2, s.reqs, log)
  }

  ghost predicate AllBelow(ancs: seq<StmtId>, n: nat)
  {
    forall i | 0 <= i < |ancs| :: ancs[i] < n
  }

  /** The ancestors ancs (root first) visited from the last one back to the first. */
  function InstallFrom(t: Tree, s: St, ancs: seq<StmtId>, prevstmt: StmtId, prevname: Option<string>): (r: St)
    requires WellFormed(t) && AllBelow(ancs, |t.stmts|)
    decreases |ancs|
  {
    if ancs == [] then s
    else
      var anc := ancs[|ancs| - 1];
      InstallFrom(t, AncestorStep(t, s, anc, prevstmt, prevname), ancs[..|ancs| - 1], anc, t.stmts[anc].name)
  }

  lemma AncestorsBelow(t: Tree, stmt: StmtId)
    requires WellFormed(t) && stmt < |t.stmts|
    ensures AllBelow(Ancestors(t, stmt), |t.stmts|)
  {
  }

  /** add_geninfo_ancestors(stmt): the ancestors of stmt, innermost first, starting without a previous name. */
  function InstallAncestors(t: Tree, s: St, stmt: StmtId): (r: St)
    requires WellFormed(t) && stmt < |t.stmts|
    ensures StOk(t, s) ==> StOk(t, r)
  {
    AncestorsBelow(t, stmt);
    InstallOk(t, s, Ancestors(t, stmt), stmt, None);
    InstallFrom(t, s, Ancestors(t, stmt), stmt, None)
  }

  // ---------------------------------------------------------------------
  // What the installation guarantees

  /** Installation leaves every record and every existing geninfo as it was, and gives each new statement an empty geninfo. */
  lemma {:induction false} InstallKeeps(t: Tree, s: St, ancs: seq<StmtId>, prevstmt: StmtId, prevname: Option<string>)
    requires WellFormed(t) && AllBelow(ancs, |t.stmts|)
    ensures var r := InstallFrom(t, s, ancs, prevstmt, prevname);
            && r.reqs == s.reqs
            && (forall k :: k in s.geninfo ==> k in r.geninfo && r.geninfo[k] == s.geninfo[k])
            && (forall k :: k in r.geninfo && k !in s.geninfo ==> r.geninfo[k] == map[])
    decreases |ancs|
  {
    if ancs != [] {
      var anc := ancs[|ancs| - 1];
      InstallKeeps(t, AncestorStep(t, s, anc, prevstmt, prevname), ancs[..|ancs| - 1], anc, t.stmts[anc].name);
    }
  }

  /** Every ancestor, and every trailing END statement of one, has a geninfo afterwards. */
  lemma {:induction false} InstallCovers(t: Tree, s: St, ancs: seq<StmtId>, prevstmt: StmtId, prevname: Option<string>)
    requires WellFormed(t) && AllBelow(ancs, |t.stmts|)
    ensures var r := InstallFrom(t, s, ancs, prevstmt, prevname);
            && (forall i | 0 <= i < |ancs| :: ancs[i] in r.geninfo)
            && (forall i | 0 <= i < |ancs| :: TrailingEnd(t, ancs[i]).Some? ==> TrailingEnd(t, ancs[i]).value in r.geninfo)
    decreases |ancs|
  {
    if ancs != [] {
      var anc := ancs[|ancs| - 1];
      var init := ancs[..|ancs| - 1];
      var s1 := AncestorStep(t, s, anc, prevstmt, prevname);
      InstallCovers(t, s1, init, anc, t.stmts[anc].name);
      InstallKeeps(t, s1, init, anc, t.stmts[anc].name);
      var r := InstallFrom(t, s1, init, anc, t.stmts[anc].name);
      forall i | 0 <= i < |ancs|
        ensures ancs[i] in r.geninfo
        ensures TrailingEnd(t, ancs[i]).Some? ==> TrailingEnd(t, ancs[i]).value in r.geninfo
      {
        if i < |init| {
          assert ancs[i] == init[i];
        }
      }
    }
  }

  /** No statement other than an ancestor or a trailing END statement of one gains a geninfo. */
  lemma {:induction false} InstallOnly(t: Tree, s: St, ancs: seq<StmtId>, prevstmt: StmtId, prevname: Option<string>, k: StmtId)
    requires WellFormed(t) && AllBelow(ancs, |t.stmts|)
    requires k in InstallFrom(t, s, ancs, prevstmt, prevname).geninfo && k !in s.geninfo
    ensures exists i :: 0 <= i < |ancs| && (k == ancs[i] || TrailingEnd(t, ancs[i]) == Some(k))
    decreases |ancs|
  {
    var anc := ancs[|ancs| - 1];
    var init := ancs[..|ancs| - 1];
    var s1 := AncestorStep(t, s, anc, prevstmt, prevname);
    if k !in s1.geninfo {
      InstallOnly(t, s1, init, anc, t.stmts[anc].name, k);
      var i :| 0 <= i < |init| && (k == init[i] || TrailingEnd(t, init[i]) == Some(k));
      assert ancs[i] == init[i];
    } else {
      assert k == ancs[|ancs| - 1] || TrailingEnd(t, ancs[|ancs| - 1]) == Some(k);
    }
  }

  /** When every ancestor and trailing END statement already has geninfo, installation changes no geninfo. */
  lemma {:induction false} InstallNoop(t: Tree, s: St, ancs: seq<StmtId>, prevstmt: StmtId, prevname: Option<string>)
    requires WellFormed(t) && AllBelow(ancs, |t.stmts|)
    requires forall i | 0 <= i < |ancs| :: ancs[i] in s.geninfo
    requires forall i | 0 <= i < |ancs| :: TrailingEnd(t, ancs[i]).Some? ==> TrailingEnd(t, ancs[i]).value in s.geninfo
    ensures InstallFrom(t, s, ancs, prevstmt, prevname).geninfo == s.geninfo
    decreases |ancs|
  {
    if ancs != [] {
      var anc := ancs[|ancs| - 1];
      var init := ancs[..|ancs| - 1];
      var s1 := AncestorStep(t, s, anc, prevstmt, prevname);
      assert s1.geninfo == s.geninfo;
      forall i | 0 <= i < |init|
        ensures init[i] in s1.geninfo
        ensures TrailingEnd(t, init[i]).Some? ==> TrailingEnd(t, init[i]).value in s1.geninfo
      {
        assert init[i] == ancs[i];
      }
      InstallNoop(t, s1, init, anc, t.stmts[anc].name);
    }
  }

  /** Installation keeps the annotations well formed. */
  lemma InstallOk(t: Tree, s: St, ancs: seq<StmtId>, prevstmt: StmtId, prevname: Option<string>)
    requires WellFormed(t) && AllBelow(ancs, |t.stmts|)
    ensures StOk(t, s) ==> StOk(t, InstallFrom(t, s, ancs, prevstmt, prevname))
  {
    var r := InstallFrom(t, s, ancs, prevstmt, prevname);
    InstallKeeps(t, s, ancs, prevstmt, prevname);
    if StOk(t, s) {
      forall k | k in r.geninfo
        ensures k < |t.stmts| && GenInfoOk(r.geninfo[k], |r.reqs|)
      {
        if k !in s.geninfo {
          InstallOnly(t, s, ancs, prevstmt, prevname, k);
          var i :| 0 <= i < |ancs| && (k == ancs[i] || TrailingEnd(t, ancs[i]) == Some(k));
        }
      }
    }
  }

  /** A second add_geninfo_ancestors leaves every geninfo as the first one left it. */
  lemma InstallIdempotent(t: Tree, s: St, stmt: StmtId)
    requires WellFormed(t) && stmt < |t.stmts|
    ensures InstallAncestors(t, InstallAncestors(t, s, stmt), stmt).geninfo == InstallAncestors(t, s, stmt).geninfo
  {
    AncestorsBelow(t, stmt);
    var ancs := Ancestors(t, stmt);
    InstallCovers(t, s, ancs, stmt, None);
    InstallNoop(t, InstallAncestors(t, s, stmt), ancs, stmt, None);
  }

  /** Ancestor ancs[i] requests the scope ancs[i + 1] nested directly inside it, which is named. */
  ghost predicate EdgeRequest(t: Tree, ancs: seq<StmtId>, i: int, q: SpecRequest)
    requires AllBelow(ancs, |t.stmts|)
  {
    && 0 <= i < |ancs| - 1
    && Named(t.stmts[ancs[i + 1]].name)
    && q == ChainRequest(ancs[i], t.stmts[ancs[i + 1]].name.value, ancs[i + 1])
  }

  /**
   * The requests installation makes: the last ancestor visited gets one for
   * prevname when it is a name; every other ancestor gets its edge request.
   */
  ghost predicate Requested(t: Tree, ancs: seq<StmtId>, prevstmt: StmtId, prevname: Option<string>, q: SpecRequest)
    requires AllBelow(ancs, |t.stmts|)
  {
    || (ancs != [] && Named(prevname) && q == ChainRequest(ancs[|ancs| - 1], prevname.value, prevstmt))
    || exists i :: EdgeRequest(t, ancs, i, q)
  }

  lemma EdgeRequestInit(t: Tree, ancs: seq<StmtId>, i: int, q: SpecRequest)
    requires AllBelow(ancs, |t.stmts|) && ancs != []
    ensures AllBelow(ancs[..|ancs| - 1], |t.stmts|)
    ensures i < |ancs| - 2 ==> (EdgeRequest(t, ancs[..|ancs| - 1], i, q) <==> EdgeRequest(t, ancs, i, q))
    ensures !EdgeRequest(t, ancs[..|ancs| - 1], |ancs| - 2, q)
  {
    if 0 <= i < |ancs| - 2 {
      assert ancs[..|ancs| - 1][i] == ancs[i] && ancs[..|ancs| - 1][i + 1] == ancs[i + 1];
    }
  }

  /** Requested, unfolded at the last ancestor: its own request, or a request of the ancestors before it. */
  lemma RequestedStep(t: Tree, ancs: seq<StmtId>, prevstmt: StmtId, prevname: Option<string>, q: SpecRequest)
    requires AllBelow(ancs, |t.stmts|) && ancs != []
    ensures AllBelow(ancs[..|ancs| - 1], |t.stmts|)
    ensures Requested(t, ancs, prevstmt, prevname, q) <==>
              || (Named(prevname) && q == ChainRequest(ancs[|ancs| - 1], prevname.value, prevstmt))
              || Requested(t, ancs[..|ancs| - 1], ancs[|ancs| - 1], t.stmts[ancs[|ancs| - 1]].name, q)
  {
    var anc := ancs[|ancs| - 1];
    var init := ancs[..|ancs| - 1];
    EdgeRequestInit(t, ancs, 0, q);
    var last := |ancs| - 2;
    assert init != [] ==> init[|init| - 1] == ancs[last];
    assert (init != [] && Named(t.stmts[anc].name) && q == ChainRequest(init[|init| - 1], t.stmts[anc].name.value, anc))
           <==> EdgeRequest(t, ancs, last, q);
    if exists i :: EdgeRequest(t, init, i, q) {
      var i :| EdgeRequest(t, init, i, q);
      EdgeRequestInit(t, ancs, i, q);
    }
    if exists i :: EdgeRequest(t, ancs, i, q) {
      var i :| EdgeRequest(t, ancs, i, q);
      EdgeRequestInit(t, ancs, i, q);
    }
  }

  /** The requests of installation, in terms of Requested; the requests already made stay in front. */
  lemma {:induction false} InstallRequests(t: Tree, s: St, ancs: seq<StmtId>, prevstmt: StmtId, prevname: Option<string>, q: SpecRequest)
    requires WellFormed(t) && AllBelow(ancs, |t.stmts|)
    ensures s.specLog <= InstallFrom(t, s, ancs, prevstmt, prevname).specLog
    ensures q in InstallFrom(t, s, ancs, prevstmt, prevname).specLog[|s.specLog|..] <==> Requested(t, ancs, prevstmt, prevname, q)
    decreases |ancs|
  {
    if ancs != [] {
      var anc := ancs[|ancs| - 1];
      var init := ancs[..|ancs| - 1];
      var s1 := AncestorStep(t, s, anc, prevstmt, prevname);
      var r := InstallFrom(t, s1, init, anc, t.stmts[anc].name);
      assert InstallFrom(t, s, ancs, prevstmt, prevname) == r;
      var own := if Named(prevname) then [ChainRequest(anc, prevname.value, prevstmt)] else [];
      assert s1.specLog == s.specLog + own;
      RequestedStep(t, ancs, prevstmt, prevname, q);
      InstallRequests(t, s1, init, anc, t.stmts[anc].name, q);
      SuffixAfter(s.specLog, own, r.specLog);
    }
  }

  /** What follows a + o in a longer log is what follows a, without o. */
  lemma SuffixAfter<T>(a: seq<T>, o: seq<T>, r: seq<T>)
    requires a + o <= r
    ensures a <= r && r[|a|..] == o + r[|a + o|..]
  {
    assert r == (a + o) + r[|a + o|..];
    assert r[|a|..] == r[|a|..|a + o|] + r[|a + o|..];
    assert r[|a|..|a + o|] == o;
  }

  /** Ancestors come in strictly increasing arena order, root first. */
  lemma {:induction false} AncestorsIncreasing(t: Tree, stmt: StmtId)
    requires WellFormed(t) && stmt < |t.stmts|
    ensures forall i, j | 0 <= i < j < |Ancestors(t, stmt)| :: Ancestors(t, stmt)[i] < Ancestors(t, stmt)[j]
    decreases stmt
  {
    assert StmtOk(t, stmt);
    if t.stmts[stmt].parent.Some? {
      var p := t.stmts[stmt].parent.value;
      var a := Ancestors(t, p);
      var ancs := Ancestors(t, stmt);
      assert ancs == a + [p];
      AncestorsIncreasing(t, p);
      forall i, j | 0 <= i < j < |ancs| ensures ancs[i] < ancs[j] {
        if j < |a| {
          assert ancs[i] == a[i] && ancs[j] == a[j];
          assert a[i] < a[j];
        } else {
          assert ancs[j] == p && ancs[i] == a[i] && a[i] < p;
        }
      }
    }
  }

  /**
   * add_geninfo_ancestors(stmt): each enclosing scope other than the
   * innermost receives a request exactly when the scope directly inside it
   * is named, with that scope as the only resolved statement; the innermost
   * scope receives none.
   */
  lemma InnermostGetsNoRequest(t: Tree, s: St, stmt: StmtId, q: SpecRequest)
    requires WellFormed(t) && stmt < |t.stmts|
    ensures AllBelow(Ancestors(t, stmt), |t.stmts|)
    ensures s.specLog <= InstallAncestors(t, s, stmt).specLog
    ensures q in InstallAncestors(t, s, stmt).specLog[|s.specLog|..] <==> exists i :: EdgeRequest(t, Ancestors(t, stmt), i, q)
    ensures Ancestors(t, stmt) != [] && q in InstallAncestors(t, s, stmt).specLog[|s.specLog|..] ==>
              q.scope != Ancestors(t, stmt)[|Ancestors(t, stmt)| - 1]
  {
    AncestorsBelow(t, stmt);
    var ancs := Ancestors(t, stmt);
    InstallRequests(t, s, ancs, stmt, None, q);
    assert InstallAncestors(t, s, stmt) == InstallFrom(t, s, ancs, stmt, None);
    assert Requested(t, ancs, stmt, None, q) <==> exists i :: EdgeRequest(t, ancs, i, q);
    AncestorsIncreasing(t, stmt);
    if q in InstallAncestors(t, s, stmt).specLog[|s.specLog|..] {
      var i :| EdgeRequest(t, ancs, i, q);
      assert ancs[i] < ancs[|ancs| - 1];
      assert EdgeRequest(t, Ancestors(t, stmt), i, q);
    }
    if exists i :: EdgeRequest(t, Ancestors(t, stmt), i, q) {
      var i :| EdgeRequest(t, Ancestors(t, stmt), i, q);
      assert EdgeRequest(t, ancs, i, q);
    }
  }

  // ---------------------------------------------------------------------
  // run

  /** Some name of us resolved to no statement at all. */
  predicate SomeUnresolved(us: seq<Unknown>)
  {
    exists j | 0 <= j < |us| :: us[j].resStmts == []
  }

  /** Some unknown name of some call-site statement resolved to no statement at all. */
  predicate Unresolved(t: Tree, cs: seq<StmtId>)
    requires AllBelow(cs, |t.stmts|)
  {
    exists c | 0 <= c < |cs| :: SomeUnresolved(t.stmts[cs[c]].unknowns)
  }

  // ---------------------------------------------------------------------
  // Resolution of the call-site names

  /** A record of resolution points into the arena. */
  ghost predicate FilingOk(t: Tree, f: Filing)
  {
    f.originator < |t.stmts| && forall x :: x in f.targets ==> x < |t.stmts|
  }

  ghost predicate UnknownsOk(t: Tree, us: seq<Unknown>)
  {
    forall u, f :: u in us && f in u.filings ==> FilingOk(t, f)
  }

  /** Every record that resolving the names of the call-site statements files points into the arena. */
  ghost predicate ResolutionOk(t: Tree, cs: seq<StmtId>)
    requires AllBelow(cs, |t.stmts|)
  {
    forall c | 0 <= c < |cs| :: UnknownsOk(t, t.stmts[cs[c]].unknowns)
  }

  /**
   * s' differs from s only by what resolution files: new records, all
   * STATE_IN, at the end of the record list; STATE_IN entries at the end of
   * the STATE_IN lists, of existing or new geninfo; no STATE_OUT entry and no
   * check_spec_stmts call.
   */
  ghost predicate FilesIn(s: St, s': St)
  {
    && s.reqs <= s'.reqs
    && (forall r | |s.reqs| <= r < |s'.reqs| :: s'.reqs[r].gentype == StateIn)
    && s'.specLog == s.specLog
    && s.geninfo.Keys <= s'.geninfo.Keys
    && (forall k :: k in s'.geninfo ==> GetStateOut(s'.geninfo[k]) == if k in s.geninfo then GetStateOut(s.geninfo[k]) else [])
    && (forall k :: k in s.geninfo ==> GetStateIn(s.geninfo[k]) <= GetStateIn(s'.geninfo[k]))
  }

  lemma FilesInTrans(a: St, b: St, c: St)
    requires FilesIn(a, b) && FilesIn(b, c)
    ensures FilesIn(a, c)
  {
    forall r | |a.reqs| <= r < |c.reqs| ensures c.reqs[r].gentype == StateIn {
      if r < |b.reqs| {
        assert c.reqs[r] == b.reqs[r];
      }
    }
  }

  /** Record f is filed: every statement it resolved to has its name among its STATE_IN requests. */
  ghost predicate Filed(s: St, f: Filing)
  {
    forall x :: x in f.targets ==> x in s.geninfo && HasUname(f.uname, GetStateIn(s.geninfo[x]))
  }

  /** A filed record stays filed while resolution goes on. */
  lemma FiledStays(s: St, s': St, f: Filing)
    requires FilesIn(s, s') && Filed(s, f)
    ensures Filed(s', f)
  {
    forall x | x in f.targets ensures x in s'.geninfo && HasUname(f.uname, GetStateIn(s'.geninfo[x])) {
      var a := GetStateIn(s.geninfo[x]);
      var e :| e in a && e.uname == f.uname;
      var i :| 0 <= i < |a| && a[i] == e;
      assert GetStateIn(s'.geninfo[x])[i] == e;
    }
  }

  /** add_geninfo under STATE_IN: statement x gets (u, r) in its STATE_IN list, with an empty geninfo first when it has none. */
  function FileOn(s: St, u: UName, r: ReqId, x: StmtId): (s': St)
    ensures x in s'.geninfo && HasUname(u, GetStateIn(s'.geninfo[x]))
    ensures FilesIn(s, s') && s'.reqs == s.reqs
  {
    var g := if x in s.geninfo then s.geninfo[x] else map[];
    St(s.geninfo[x := AddGeninfo(g, u, r, StateIn)], s.reqs, s.specLog)
  }

  lemma FileOnOk(t: Tree, s: St, u: UName, r: ReqId, x: StmtId)
    requires StOk(t, s) && r < |s.reqs| && x < |t.stmts|
    ensures StOk(t, FileOn(s, u, r, x))
  {
    var g := if x in s.geninfo then s.geninfo[x] else map[];
    var g' := AddGeninfo(g, u, r, StateIn);
    assert GenInfoOk(g, |s.reqs|);
    forall gt: GenType, e: Entry | gt in g' && e in g'[gt] ensures e.req < |s.reqs| {
      if gt != StateIn || StateIn !in g || !HasUname(u, g[StateIn]) {
        assert gt == StateIn ==> e in (if StateIn in g then g[StateIn] else []) + [Entry(u, r)];
      }
    }
  }

  /** Record r, for name u, filed on the statements xs in turn. */
  function FileTargets(t: Tree, s: St, u: UName, r: ReqId, xs: seq<StmtId>): (s': St)
    requires StOk(t, s) && r < |s.reqs| && forall x :: x in xs ==> x < |t.stmts|
    ensures StOk(t, s') && FilesIn(s, s') && s'.reqs == s.reqs
    ensures forall x :: x in xs ==> x in s'.geninfo && HasUname(u, GetStateIn(s'.geninfo[x]))
    decreases |xs|
  {
    if xs == [] then s
    else
      assert xs[0] in xs;
      var s1 := FileOn(s, u, r, xs[0]);
      FileOnOk(t, s, u, r, xs[0]);
      assert forall x :: x in xs[1..] ==> x in xs;
      var s2 := FileTargets(t, s1, u, r, xs[1..]);
      FilesInTrans(s, s1, s2);
      FiledStays(s1, s2, Filing(u, 0, [xs[0]]));
      assert forall x :: x in xs ==> x == xs[0] || x in xs[1..];
      s2
  }

  /** Resolving one record: a new STATE_IN request from its originator, filed on every statement it resolved to. */
  function ApplyFiling(t: Tree, s: St, f: Filing): (s': St)
    requires StOk(t, s) && FilingOk(t, f)
    ensures StOk(t, s') && FilesIn(s, s') && Filed(s', f)
    ensures s'.reqs == s.reqs + [Req(StateIn, f.uname, Some(f.originator))]
  {
    var s1 := St(s.geninfo, s.reqs + [Req(StateIn, f.uname, Some(f.originator))], s.specLog);
    assert forall k :: k in s1.geninfo ==> GenInfoOk(s1.geninfo[k], |s1.reqs|);
    FileTargets(t, s1, f.uname, |s.reqs|, f.targets)
  }

  /** The records of one resolution, in order. */
  function ApplyFilings(t: Tree, s: St, fs: seq<Filing>): (s': St)
    requires StOk(t, s) && forall f :: f in fs ==> FilingOk(t, f)
    ensures StOk(t, s') && FilesIn(s, s')
    ensures forall f :: f in fs ==> Filed(s', f)
    decreases |fs|
  {
    if fs == [] then s
    else
      var s1 := ApplyFiling(t, s, fs[0]);
      var s2 := ApplyFilings(t, s1, fs[1..]);
      FilesInTrans(s, s1, s2);
      FiledStays(s1, s2, fs[0]);
      assert forall f :: f in fs ==> f == fs[0] || f in fs[1..];
      s2
  }

  /** The unknown names us of one statement, each resolved in turn; the first that resolved to nothing raises. */
  function ResolveUnknowns(t: Tree, s: St, us: seq<Unknown>): (r: Outcome)
    requires StOk(t, s) && UnknownsOk(t, us)
    ensures StOk(t, r.s) && FilesIn(s, r.s)
    decreases |us|
  {
    if us == [] then Outcome(s, None)
    else
      assert us[0] in us;
      var s1 := ApplyFilings(t, s, us[0].filings);
      if us[0].resStmts == [] then Outcome(s1, Some(ResolutionFail))
      else
        assert forall u :: u in us[1..] ==> u in us;
        var o := ResolveUnknowns(t, s1, us[1..]);
        FilesInTrans(s, s1, o.s);
        o
  }

  lemma ResolutionOkTail(t: Tree, cs: seq<StmtId>)
    requires AllBelow(cs, |t.stmts|) && ResolutionOk(t, cs) && cs != []
    ensures AllBelow(cs[1..], |t.stmts|) && ResolutionOk(t, cs[1..])
    ensures UnknownsOk(t, t.stmts[cs[0]].unknowns)
  {
    forall c | 0 <= c < |cs[1..]| ensures cs[1..][c] < |t.stmts| && UnknownsOk(t, t.stmts[cs[1..][c]].unknowns) {
      assert cs[1..][c] == cs[c + 1];
    }
  }

  /** The resolution loop of run: every unknown name of every call-site statement, in order, until one resolved to nothing. */
  function ResolveAll(t: Tree, s: St, cs: seq<StmtId>): (r: Outcome)
    requires StOk(t, s) && AllBelow(cs, |t.stmts|) && ResolutionOk(t, cs)
    ensures StOk(t, r.s) && FilesIn(s, r.s)
    decreases |cs|
  {
    if cs == [] then Outcome(s, None)
    else
      ResolutionOkTail(t, cs);
      var o := ResolveUnknowns(t, s, t.stmts[cs[0]].unknowns);
      if o.err.Some? then o
      else
        var o' := ResolveAll(t, o.s, cs[1..]);
        FilesInTrans(s, o.s, o'.s);
        o'
  }

  /** Resolving the names of one statement raises "Resolution fail." exactly when one of them resolved to nothing. */
  lemma {:induction false} ResolveUnknownsErrors(t: Tree, s: St, us: seq<Unknown>)
    requires StOk(t, s) && UnknownsOk(t, us)
    ensures ResolveUnknowns(t, s, us).err == if SomeUnresolved(us) then Some(ResolutionFail) else None
    decreases |us|
  {
    if us != [] {
      assert us[0] in us;
      var s1 := ApplyFilings(t, s, us[0].filings);
      if us[0].resStmts != [] {
        assert forall u :: u in us[1..] ==> u in us;
        assert ResolveUnknowns(t, s, us) == ResolveUnknowns(t, s1, us[1..]);
        ResolveUnknownsErrors(t, s1, us[1..]);
        UnresolvedTail(us);
      }
    }
  }

  lemma UnresolvedTail(us: seq<Unknown>)
    requires us != [] && us[0].resStmts != []
    ensures SomeUnresolved(us) <==> SomeUnresolved(us[1..])
  {
    if SomeUnresolved(us) {
      var j :| 0 <= j < |us| && us[j].resStmts == [];
      assert us[1..][j - 1] == us[j];
    }
    if SomeUnresolved(us[1..]) {
      var j :| 0 <= j < |us[1..]| && us[1..][j].resStmts == [];
      assert us[j + 1] == us[1..][j];
    }
  }

  /** The resolution loop raises "Resolution fail." exactly when some call-site name resolved to nothing, and raises nothing else. */
  lemma {:induction false} ResolveErrors(t: Tree, s: St, cs: seq<StmtId>)
    requires StOk(t, s) && AllBelow(cs, |t.stmts|) && ResolutionOk(t, cs)
    ensures ResolveAll(t, s, cs).err == if Unresolved(t, cs) then Some(ResolutionFail) else None
    decreases |cs|
  {
    if cs != [] {
      ResolutionOkTail(t, cs);
      var us := t.stmts[cs[0]].unknowns;
      var o := ResolveUnknowns(t, s, us);
      ResolveUnknownsErrors(t, s, us);
      if o.err.None? {
        ResolveErrors(t, o.s, cs[1..]);
        if Unresolved(t, cs) {
          var c :| 0 <= c < |cs| && SomeUnresolved(t.stmts[cs[c]].unknowns);
          assert cs[1..][c - 1] == cs[c];
        }
        if Unresolved(t, cs[1..]) {
          var c :| 0 <= c < |cs[1..]| && SomeUnresolved(t.stmts[cs[1..][c]].unknowns);
          assert cs[c + 1] == cs[1..][c];
        }
      } else {
        assert SomeUnresolved(t.stmts[cs[0]].unknowns);
      }
    }
  }

  /** After a statement's names resolved, each of their records is filed on every statement it resolved to. */
  lemma {:induction false} UnknownsFiled(t: Tree, s: St, us: seq<Unknown>, j: nat, f: Filing)
    requires StOk(t, s) && UnknownsOk(t, us) && ResolveUnknowns(t, s, us).err.None?
    requires j < |us| && f in us[j].filings
    ensures Filed(ResolveUnknowns(t, s, us).s, f)
    decreases |us|
  {
    assert us[0] in us;
    var s1 := ApplyFilings(t, s, us[0].filings);
    assert forall u :: u in us[1..] ==> u in us;
    var o := ResolveUnknowns(t, s1, us[1..]);
    if j == 0 {
      FiledStays(s1, o.s, f);
    } else {
      assert us[1..][j - 1] == us[j];
      UnknownsFiled(t, s1, us[1..], j - 1, f);
    }
  }

  /** A resolution loop that gets past the first call-site statement goes on from where that statement left the annotations. */
  lemma ResolveAllStep(t: Tree, s: St, cs: seq<StmtId>)
    requires StOk(t, s) && AllBelow(cs, |t.stmts|) && ResolutionOk(t, cs) && cs != [] && ResolveAll(t, s, cs).err.None?
    ensures UnknownsOk(t, t.stmts[cs[0]].unknowns) && AllBelow(cs[1..], |t.stmts|) && ResolutionOk(t, cs[1..])
    ensures ResolveUnknowns(t, s, t.stmts[cs[0]].unknowns).err.None?
    ensures ResolveAll(t, s, cs) == ResolveAll(t, ResolveUnknowns(t, s, t.stmts[cs[0]].unknowns).s, cs[1..])
  {
    ResolutionOkTail(t, cs);
  }

  /** After a successful resolution loop, every record of every call-site name is filed on every statement it resolved to. */
  lemma {:induction false} ResolveFiled(t: Tree, s: St, cs: seq<StmtId>, c: nat, j: nat, f: Filing)
    requires StOk(t, s) && AllBelow(cs, |t.stmts|) && ResolutionOk(t, cs) && ResolveAll(t, s, cs).err.None?
    requires c < |cs| && j < |t.stmts[cs[c]].unknowns| && f in t.stmts[cs[c]].unknowns[j].filings
    ensures Filed(ResolveAll(t, s, cs).s, f)
    decreases |cs|
  {
    ResolutionOkTail(t, cs);
    var o := ResolveUnknowns(t, s, t.stmts[cs[0]].unknowns);
    ResolveAllStep(t, s, cs);
    var o' := ResolveAll(t, o.s, cs[1..]);
    if c == 0 {
      UnknownsFiled(t, s, t.stmts[cs[0]].unknowns, j, f);
      FiledStays(o.s, o'.s, f);
    } else {
      assert cs[1..][c - 1] == cs[c];
      ResolveFiled(t, o.s, cs[1..], c - 1, j, f);
    }
    FiledSame(o'.s, ResolveAll(t, s, cs).s, f);
  }

  lemma FiledSame(s: St, s': St, f: Filing)
    requires s == s' && Filed(s, f)
    ensures Filed(s', f)
  {
  }

  /** The passes keep every filed record filed: they never touch a STATE_IN list. */
  lemma FiledGrows(s: St, s': St, f: Filing)
    requires Grows(s, s') && Filed(s, f)
    ensures Filed(s', f)
  {
  }

  /** update_state_info on every module statement in registry order, skipping the top block. */
  function ModulesFold(t: Tree, cs: seq<StmtId>, s: St, mods: seq<StmtId>, top: StmtId): (r: Outcome)
    requires WellFormed(t) && StOk(t, s) && AllBelow(mods, |t.stmts|)
    ensures StOk(t, r.s) && Grows(s, r.s)
    decreases |mods|
  {
    if mods == [] then Outcome(s, None)
    else
      var o := if mods[0] == top then Outcome(s, None) else UpdateSpec(t, cs, s, mods[0]);
      if o.err.Some? then o
      else
        var o' := ModulesFold(t, cs, o.s, mods[1..], top);
        GrowsTrans(s, o.s, o'.s);
        o'
  }

  /** What run leaves behind: the annotations, the exception, and the parent and top blocks. */
  datatype RunResult = RunResult(out: Outcome, parentBlock: Option<StmtId>, topBlock: Option<StmtId>)

  /**
   * run on call-site statements cs and module statements mods, starting from
   * annotations s and blocks pb0, tb0.
   */
  function RunSpec(t: Tree, cs: seq<StmtId>, mods: seq<StmtId>, s: St, pb0: Option<StmtId>, tb0: Option<StmtId>): RunResult
    requires WellFormed(t) && StOk(t, s) && AllBelow(cs, |t.stmts|) && AllBelow(mods, |t.stmts|) && ResolutionOk(t, cs)
  {
    if cs == [] then RunResult(Outcome(s, Some(CallsiteNotFound)), pb0, tb0)
    else
      var ancs := Ancestors(t, cs[0]);
      var s1 := InstallAncestors(t, s, cs[0]);
      if ancs == [] then RunResult(Outcome(s1, Some(NoAncestors)), pb0, tb0)
      else
        var pb := ancs[|ancs| - 1];
        var tb := ancs[0];
        var o0 := ResolveAll(t, s1, cs);
        if o0.err.Some? then RunResult(o0, Some(pb), Some(tb))
        else
          var o := UpdateSpec(t, cs, o0.s, pb);
          if o.err.Some? then RunResult(o, Some(pb), Some(tb))
          else RunResult(ModulesFold(t, cs, o.s, mods, tb), Some(pb), Some(tb))
  }

  lemma {:induction false} ModulesPass(t: Tree, cs: seq<StmtId>, s: St, mods: seq<StmtId>, top: StmtId)
    requires WellFormed(t) && StOk(t, s) && AllBelow(mods, |t.stmts|)
    ensures ModulesFold(t, cs, s, mods, top).err.Some? ==> PassError(ModulesFold(t, cs, s, mods, top).err.value)
    decreases |mods|
  {
    if mods != [] {
      if mods[0] != top {
        UpdatePass(t, cs, s, mods[0]);
      }
      var o := if mods[0] == top then Outcome(s, None) else UpdateSpec(t, cs, s, mods[0]);
      if o.err.None? {
        ModulesPass(t, cs, o.s, mods[1..], top);
      }
    }
  }

  /** The module passes turn a name into STATE_OUT only where an Upgrade verdict, taken before them, justifies it. */
  lemma {:induction false} ModulesJustified(t: Tree, cs: seq<StmtId>, s: St, mods: seq<StmtId>, top: StmtId)
    requires WellFormed(t) && StOk(t, s) && AllBelow(mods, |t.stmts|)
    ensures UpgradesJustified(t, cs, s, ModulesFold(t, cs, s, mods, top).s)
    decreases |mods|
  {
    if mods != [] {
      var o := if mods[0] == top then Outcome(s, None) else UpdateSpec(t, cs, s, mods[0]);
      if mods[0] != top {
        UpdateJustified(t, cs, s, mods[0]);
      }
      if o.err.None? {
        ModulesJustified(t, cs, o.s, mods[1..], top);
        JustifiedTrans(t, cs, s, o.s, ModulesFold(t, cs, o.s, mods[1..], top).s);
      }
    }
  }

  /**
   * After successful module passes, every examined declaration in the scope
   * chain of a module other than the top block has the name of each of its
   * Upgrade requests as STATE_OUT.
   */
  lemma {:induction false} ModulesComplete(t: Tree, cs: seq<StmtId>, s: St, mods: seq<StmtId>, top: StmtId, i: nat, x: StmtId, e: Entry)
    requires WellFormed(t) && StOk(t, s) && AllBelow(mods, |t.stmts|)
    requires ModulesFold(t, cs, s, mods, top).err.None?
    requires i < |mods| && mods[i] != top
    requires x < |t.stmts| && InScopeChain(t, x, mods[i]) && Examined(t, s, x)
    requires e in GetStateIn(s.geninfo[x]) && e.req < |s.reqs| && VarVerdict(t, cs, s, e) == Upgrade
    ensures x in ModulesFold(t, cs, s, mods, top).s.geninfo
    ensures HasUnameOut(e.uname, ModulesFold(t, cs, s, mods, top).s.geninfo[x])
    decreases |mods|
  {
    var o := if mods[0] == top then Outcome(s, None) else UpdateSpec(t, cs, s, mods[0]);
    assert o.err.None?;
    var r := ModulesFold(t, cs, o.s, mods[1..], top);
    if i == 0 {
      UpdateComplete(t, cs, s, mods[0], x, e);
      OutStays(o.s, r.s, x, e.uname);
    } else {
      GenEntriesStay(s, o.s, x);
      VerdictStable(t, cs, s, o.s, e);
      assert mods[1..][i - 1] == mods[i];
      ModulesComplete(t, cs, o.s, mods[1..], top, i - 1, x, e);
    }
  }

  /**
   * run's own checks: it stops with "Can not find callsite" exactly when
   * there is no call-site statement, fails on an empty ancestor list exactly
   * when the first call-site statement has no parent, and reports
   * "Resolution fail." exactly when that is not so and some unknown name of
   * a call site resolved to nothing.
   */
  lemma RunErrors(t: Tree, cs: seq<StmtId>, mods: seq<StmtId>, s: St, pb0: Option<StmtId>, tb0: Option<StmtId>)
    requires WellFormed(t) && StOk(t, s) && AllBelow(cs, |t.stmts|) && AllBelow(mods, |t.stmts|) && ResolutionOk(t, cs)
    ensures var e := RunSpec(t, cs, mods, s, pb0, tb0).out.err;
            && (e == Some(CallsiteNotFound) <==> cs == [])
            && (e == Some(NoAncestors) <==> cs != [] && t.stmts[cs[0]].parent.None?)
            && (e == Some(ResolutionFail) <==> cs != [] && t.stmts[cs[0]].parent.Some? && Unresolved(t, cs))
            && (e.Some? && PassError(e.value) <==>
                  cs != [] && t.stmts[cs[0]].parent.Some? && !Unresolved(t, cs) && e.Some?)
  {
    if cs != [] && t.stmts[cs[0]].parent.Some? {
      var ancs := Ancestors(t, cs[0]);
      var s1 := InstallAncestors(t, s, cs[0]);
      var pb := ancs[|ancs| - 1];
      ResolveErrors(t, s1, cs);
      var o0 := ResolveAll(t, s1, cs);
      if o0.err.None? {
        UpdatePass(t, cs, o0.s, pb);
        var o := UpdateSpec(t, cs, o0.s, pb);
        if o.err.None? {
          ModulesPass(t, cs, o.s, mods, ancs[0]);
        }
      }
    }
  }

  /**
   * After the call-site checks, the parent block is the statement directly
   * enclosing the first call-site statement and the top block is the
   * outermost enclosing statement, the one with no parent.
   */
  lemma RunBlocks(t: Tree, cs: seq<StmtId>, mods: seq<StmtId>, s: St, pb0: Option<StmtId>, tb0: Option<StmtId>)
    requires WellFormed(t) && StOk(t, s) && AllBelow(cs, |t.stmts|) && AllBelow(mods, |t.stmts|) && ResolutionOk(t, cs)
    requires cs != [] && t.stmts[cs[0]].parent.Some?
    ensures var r := RunSpec(t, cs, mods, s, pb0, tb0);
            && r.parentBlock == t.stmts[cs[0]].parent
            && r.topBlock.Some? && r.topBlock.value < |t.stmts| && t.stmts[r.topBlock.value].parent.None?
            && r.topBlock.value in Ancestors(t, cs[0])
  {
    var ancs := Ancestors(t, cs[0]);
    var r := RunSpec(t, cs, mods, s, pb0, tb0);
    assert r.parentBlock == Some(ancs[|ancs| - 1]) && r.topBlock == Some(ancs[0]);
    assert ancs[0] in ancs;
  }

  /**
   * Every enclosing statement of the first call-site statement has a geninfo
   * when run ends, whether or not it raised after the installation; the
   * resolution loop only files STATE_IN records on top of the installation,
   * and the passes only add to what the resolution left.
   */
  lemma RunInstalls(t: Tree, cs: seq<StmtId>, mods: seq<StmtId>, s: St, pb0: Option<StmtId>, tb0: Option<StmtId>)
    requires WellFormed(t) && StOk(t, s) && AllBelow(cs, |t.stmts|) && AllBelow(mods, |t.stmts|) && ResolutionOk(t, cs)
    requires cs != []
    ensures var s1 := InstallAncestors(t, s, cs[0]);
            && FilesIn(s1, ResolveAll(t, s1, cs).s)
            && (Ancestors(t, cs[0]) != [] ==> Grows(ResolveAll(t, s1, cs).s, RunSpec(t, cs, mods, s, pb0, tb0).out.s))
    ensures forall a | a in Ancestors(t, cs[0]) :: a in RunSpec(t, cs, mods, s, pb0, tb0).out.s.geninfo
  {
    AncestorsBelow(t, cs[0]);
    var ancs := Ancestors(t, cs[0]);
    var s1 := InstallAncestors(t, s, cs[0]);
    InstallCovers(t, s, ancs, cs[0], None);
    var r := RunSpec(t, cs, mods, s, pb0, tb0).out.s;
    if ancs != [] {
      var o0 := ResolveAll(t, s1, cs);
      if o0.err.None? {
        var o := UpdateSpec(t, cs, o0.s, ancs[|ancs| - 1]);
        if o.err.None? {
          GrowsTrans(o0.s, o.s, r);
        }
      }
    }
    forall a | a in ancs ensures a in r.geninfo {
      var i :| 0 <= i < |ancs| && ancs[i] == a;
    }
  }

  /**
   * When run gets past resolution, every record that resolving a call-site
   * name filed is still filed when it ends: the passes never touch a
   * STATE_IN list.
   */
  lemma RunFiles(t: Tree, cs: seq<StmtId>, mods: seq<StmtId>, s: St, pb0: Option<StmtId>, tb0: Option<StmtId>, c: nat, j: nat, f: Filing)
    requires WellFormed(t) && StOk(t, s) && AllBelow(cs, |t.stmts|) && AllBelow(mods, |t.stmts|) && ResolutionOk(t, cs)
    requires c < |cs| && t.stmts[cs[0]].parent.Some? && !Unresolved(t, cs)
    requires j < |t.stmts[cs[c]].unknowns| && f in t.stmts[cs[c]].unknowns[j].filings
    ensures Filed(RunSpec(t, cs, mods, s, pb0, tb0).out.s, f)
  {
    var s1 := InstallAncestors(t, s, cs[0]);
    ResolveErrors(t, s1, cs);
    ResolveFiled(t, s1, cs, c, j, f);
    RunInstalls(t, cs, mods, s, pb0, tb0);
    FiledGrows(ResolveAll(t, s1, cs).s, RunSpec(t, cs, mods, s, pb0, tb0).out.s, f);
  }

  /**
   * The parser of one kernel extraction: the tree, the call-site statements,
   * the module statements of the registry, the annotations, and the parent and
   * top blocks run fills in.
   */
  class Parser {
    const tree: Tree
    const callsites: seq<StmtId>
    const modules: seq<StmtId>
    const ann: Annotations
    var parentBlock: Option<StmtId>
    var topBlock: Option<StmtId>

    ghost predicate Valid()
      reads this, ann
    {
      && WellFormed(tree)
      && StOk(tree, ann.Snap())
      && AllBelow(callsites, |tree.stmts|)
      && AllBelow(modules, |tree.stmts|)
    }

    constructor (tree: Tree, callsites: seq<StmtId>, modules: seq<StmtId>, ann: Annotations)
      requires WellFormed(tree) && StOk(tree, ann.Snap())
      requires AllBelow(callsites, |tree.stmts|) && AllBelow(modules, |tree.stmts|)
      ensures Valid()
      ensures this.tree == tree && this.callsites == callsites && this.modules == modules && this.ann == ann
      ensures parentBlock.None? && topBlock.None?
    {
      this.tree := tree;
      this.callsites := callsites;
      this.modules := modules;
      this.ann := ann;
      parentBlock := None;
      topBlock := None;
    }

    /** add_geninfo_ancestors(stmt): changes the annotations as InstallAncestors says. */
    method AddGeninfoAncestors(stmt: StmtId)
      requires Valid() && stmt < |tree.stmts|
      modifies ann
      ensures Valid()
      ensures ann.Snap() == InstallAncestors(tree, old(ann.Snap()), stmt)
    {
      AncestorsBelow(tree, stmt);
      var ancs := Ancestors(tree, stmt);
      ghost var s0 := ann.Snap();
      var prevstmt := stmt;
      var prevname: Option<string> := None;
      var i := |ancs|;
      assert ancs[..i] == ancs;
      while i > 0
        invariant 0 <= i <= |ancs|
        invariant InstallFrom(tree, s0, ancs, stmt, None) == InstallFrom(tree, ann.Snap(), ancs[..i], prevstmt, prevname)
      {
        var anc := ancs[i - 1];
        ghost var before := ann.Snap();
        assert ancs[..i][..i - 1] == ancs[..i - 1] && ancs[..i][i - 1] == anc;
        assert InstallFrom(tree, before, ancs[..i], prevstmt, prevname)
            == InstallFrom(tree, AncestorStep(tree, before, anc, prevstmt, prevname), ancs[..i - 1], anc, tree.stmts[anc].name);
        InstallOne(anc, prevstmt, prevname);
        prevname := tree.stmts[anc].name;
        prevstmt := anc;
        i := i - 1;
      }
      assert ann.Snap() == InstallAncestors(tree, s0, stmt);
    }

    /** One turn of the loop of add_geninfo_ancestors: geninfo for anc and its END statement, and the request for the scope inside it. */
    method InstallOne(anc: StmtId, prevstmt: StmtId, prevname: Option<string>)
      requires WellFormed(tree) && anc < |tree.stmts|
      modifies ann
      ensures ann.Snap() == AncestorStep(tree, old(ann.Snap()), anc, prevstmt, prevname)
    {
      if anc !in ann.geninfo {
        ann.geninfo := ann.geninfo[anc := map[]];
      }
      var end := TrailingEnd(tree, anc);
      if end.Some? && end.value !in ann.geninfo {
        ann.geninfo := ann.geninfo[end.value := map[]];
      }
      if prevname.Some? && prevname.value != "" {
        ann.specLog := ann.specLog + [ChainRequest(anc, prevname.value, prevstmt)];
      }
    }

    /** run: the checks, the installation and the passes, as RunSpec says. */
    method Run() returns (err: Option<Error>)
      requires Valid() && ResolutionOk(tree, callsites)
      modifies this, ann
      ensures Valid()
      ensures RunResult(Outcome(ann.Snap(), err), parentBlock, topBlock)
              == RunSpec(tree, callsites, modules, old(ann.Snap()), old(parentBlock), old(topBlock))
    {
      err := None;
      if |callsites| == 0 {
        return Some(CallsiteNotFound);
      }
      var ancs := Ancestors(tree, callsites[0]);
      AddGeninfoAncestors(callsites[0]);
      if |ancs| == 0 {
        return Some(NoAncestors);
      }
      parentBlock := Some(ancs[|ancs| - 1]);
      topBlock := Some(ancs[0]);
      err := Resolve();
      if err.Some? {
        return;
      }
      err := UpdateStateInfo(tree, callsites, ann, ancs[|ancs| - 1]);
      if err.Some? {
        return;
      }
      err := PassModules(ancs[0]);
    }

    /** The resolution loop of run: the names of each call-site statement in turn, until one resolved to nothing. */
    method Resolve() returns (err: Option<Error>)
      requires Valid() && ResolutionOk(tree, callsites)
      modifies ann
      ensures Valid()
      ensures Outcome(ann.Snap(), err) == ResolveAll(tree, old(ann.Snap()), callsites)
    {
      err := None;
      ghost var s0 := ann.Snap();
      var c := 0;
      while c < |callsites|
        invariant 0 <= c <= |callsites| && err.None?
        invariant Valid() && AllBelow(callsites[c..], |tree.stmts|) && ResolutionOk(tree, callsites[c..])
        invariant ResolveAll(tree, s0, callsites) == ResolveAll(tree, ann.Snap(), callsites[c..])
      {
        ghost var before := ann.Snap();
        ResolutionOkTail(tree, callsites[c..]);
        assert callsites[c..][0] == callsites[c] && callsites[c..][1..] == callsites[c + 1..];
        assert ResolveAll(tree, before, callsites[c..])
            == (var o := ResolveUnknowns(tree, before, tree.stmts[callsites[c]].unknowns);
                if o.err.Some? then o else ResolveAll(tree, o.s, callsites[c + 1..]));
        err := ResolveStmt(callsites[c]);
        if err.Some? {
          return;
        }
        c := c + 1;
      }
    }

    /** The unknown names of call-site statement c: each resolved, then checked for a resolved statement. */
    method ResolveStmt(c: StmtId) returns (err: Option<Error>)
      requires Valid() && c < |tree.stmts| && UnknownsOk(tree, tree.stmts[c].unknowns)
      modifies ann
      ensures Valid()
      ensures Outcome(ann.Snap(), err) == ResolveUnknowns(tree, old(ann.Snap()), tree.stmts[c].unknowns)
    {
      err := None;
      ghost var s0 := ann.Snap();
      var us := tree.stmts[c].unknowns;
      var j := 0;
      while j < |us|
        invariant 0 <= j <= |us| && err.None?
        invariant Valid() && UnknownsOk(tree, us[j..])
        invariant ResolveUnknowns(tree, s0, us) == ResolveUnknowns(tree, ann.Snap(), us[j..])
      {
        ghost var before := ann.Snap();
        assert us[j..][0] == us[j] && us[j..][1..] == us[j + 1..];
        assert us[j] in us[j..];
        assert forall u :: u in us[j + 1..] ==> u in us[j..];
        var after := ApplyFilings(tree, ann.Snap(), us[j].filings);
        ann.geninfo, ann.reqs := after.geninfo, after.reqs;
        assert ann.Snap() == after;
        if us[j].resStmts == [] {
          return Some(ResolutionFail);
        }
        j := j + 1;
      }
    }

    /** The passes over the module statements of the registry, skipping the top block. */
    method PassModules(top: StmtId) returns (err: Option<Error>)
      requires Valid()
      modifies ann
      ensures Valid()
      ensures Outcome(ann.Snap(), err) == ModulesFold(tree, callsites, old(ann.Snap()), modules, top)
    {
      err := None;
      ghost var s2 := ann.Snap();
      var m := 0;
      while m < |modules|
        invariant 0 <= m <= |modules| && err.None?
        invariant Valid()
        invariant ModulesFold(tree, callsites, s2, modules, top) == ModulesFold(tree, callsites, ann.Snap(), modules[m..], top)
      {
        ghost var before := ann.Snap();
        assert modules[m..][0] == modules[m] && modules[m..][1..] == modules[m + 1..];
        assert ModulesFold(tree, callsites, before, modules[m..], top)
            == (var o := if modules[m] == top then Outcome(before, None) else UpdateSpec(tree, callsites, before, modules[m]);
                if o.err.Some? then o else ModulesFold(tree, callsites, o.s, modules[m + 1..], top));
        if modules[m] != top {
          err := UpdateStateInfo(tree, callsites, ann, modules[m]);
          if err.Some? {
            return;
          }
        }
        m := m + 1;
      }
    }
  }
}
