/**
 * The per-ancestor step of update_state_info: given one node of an
 * occurrence's lineage, find the called name, the callee it resolves to,
 * the dummy argument the occurrence is passed to, and whether that dummy's
 * intent makes the variable an output.  Everything here is a pure case
 * split on the node's kind and the shape of its argument list.
 */
module ArgMatch {
  import opened Wrappers
  import opened Ast

  /** The argument index of an occurrence: -1 (NoArg), a dummy position, or the exception raised. */
  datatype ArgIdx = NoArg | ArgAt(idx: nat) | ArgFail(e: Error)

  /** What one lineage node decides for the variable. */
  datatype Verdict = Keep | Upgrade | Raise(e: Error)

  /** The callee found for a called name: none, a subprogram statement, or the exception raised. */
  datatype Callee = NotCallable | CalleeAt(sub: StmtId) | CalleeFail(e: Error)

  predicate IsCallLike(k: ExprKind)
  {
    k == CallStmt || k == FunctionReference || k == PartRef || k == InterfaceStmt
  }

  /** The called name of a call-like node; an empty name counts as none. */
  function CallName(e: Expr): (r: Option<string>)
    ensures r.Some? <==> IsCallLike(e.kind) && e.text != ""
    ensures r.Some? ==> r.value == e.text
  {
    if IsCallLike(e.kind) && e.text != "" then Some(e.text) else None
  }

  /** The first unknown at or after position i whose first name part is cn. */
  function FirstUnknownFrom(us: seq<Unknown>, cn: string, i: nat): (r: Option<nat>)
    requires i <= |us|
    ensures r.Some? ==> i <= r.value < |us| && us[r.value].uname.first == cn
    ensures forall j :: i <= j < |us| && (r.None? || j < r.value) ==> us[j].uname.first != cn
    decreases |us| - i
  {
    if i == |us| then None
    else if us[i].uname.first == cn then Some(i)
    else FirstUnknownFrom(us, cn, i + 1)
  }

  /**
   * The callee of called name cn in statement org: only the first unknown
   * whose first name part is cn is consulted, and it is used only when its
   * first resolved statement is a subprogram.
   */
  function CalleeOf(t: Tree, org: StmtId, cn: string): (r: Callee)
    requires WellFormed(t) && org < |t.stmts|
    ensures r.CalleeAt? ==> r.sub < |t.stmts| && t.stmts[r.sub].kind == SubProgram
    ensures r.CalleeFail? ==> r.e == CalleeUnresolved
  {
    var us := t.stmts[org].unknowns;
    match FirstUnknownFrom(us, cn, 0)
    case None => NotCallable
    case Some(j) =>
      var rs := us[j].resStmts;
      if rs == [] then CalleeFail(CalleeUnresolved)
      else
        assert StmtOk(t, org) && us[j] in us && rs[0] in rs;
        if t.stmts[rs[0]].kind == SubProgram then CalleeAt(rs[0]) else NotCallable
  }

  /** The names of a subprogram's dummy arguments, in declaration order (its args list). */
  function DummyNames(ds: seq<Dummy>): (r: seq<string>)
    ensures |r| == |ds| && forall i :: 0 <= i < |ds| ==> r[i] == ds[i].name
  {
    seq(|ds|, i requires 0 <= i < |ds| => ds[i].name)
  }

  /** args.index(kword): the position of the first dummy named kw. */
  function KeywordIndex(ds: seq<Dummy>, kw: string): (r: ArgIdx)
    ensures r.ArgAt? || r == ArgFail(KeywordNotDummy)
    ensures r.ArgAt? <==> exists i :: 0 <= i < |ds| && ds[i].name == kw
    ensures r.ArgAt? ==> r.idx < |ds| && ds[r.idx].name == kw
    ensures r.ArgAt? ==> forall j :: 0 <= j < r.idx ==> ds[j].name != kw
  {
    var names := DummyNames(ds);
    match IndexOf(names, kw)
    case None => ArgFail(KeywordNotDummy)
    case Some(i) =>
      assert forall j :: 0 <= j < i ==> names[j] in names[..i];
      ArgAt(i)
  }

  ghost predicate LineageOk(t: Tree, lin: seq<ExprId>)
  {
    forall j :: 0 <= j < |lin| ==> lin[j] < |t.exprs|
  }

  /**
   * The argument index for a call whose argument list is a single keyword
   * spec (keywordKind), a list (listKind), or anything else.
   */
  function ListArgIndex(t: Tree, lin: seq<ExprId>, k: nat, keywordKind: ExprKind, listKind: ExprKind,
                        ds: seq<Dummy>): (r: ArgIdx)
    requires WellFormed(t) && LineageOk(t, lin) && k < |lin|
    ensures r.ArgFail? ==> r.e in {KeywordNotDummy, ArgNotInList, LineageTooShort}
  {
    assert ExprOk(t, lin[k]);
    match t.exprs[lin[k]].args
    case None => NoArg
    case Some(a) =>
      if t.exprs[a].kind == keywordKind then
        if k + 1 < |lin| then KeywordIndex(ds, t.exprs[lin[k + 1]].text) else ArgFail(LineageTooShort)
      else if t.exprs[a].kind == listKind then
        if k + 2 < |lin| then
          var argobj := lin[k + 2];
          match IndexOf(t.exprs[a].items, argobj)
          case None => ArgFail(ArgNotInList)
          case Some(p) =>
            if t.exprs[argobj].kind == keywordKind then KeywordIndex(ds, t.exprs[argobj].text) else ArgAt(p)
        else ArgFail(LineageTooShort)
      else ArgAt(0)
  }

  /** The dummy position the occurrence below lineage node k is passed to. */
  function ArgIndex(t: Tree, lin: seq<ExprId>, k: nat, ds: seq<Dummy>): (r: ArgIdx)
    requires WellFormed(t) && LineageOk(t, lin) && k < |lin|
    ensures r.ArgFail? ==> r.e in {KeywordNotDummy, ArgNotInList, LineageTooShort, InterfaceNotExpected}
  {
    var kind := t.exprs[lin[k]].kind;
    if kind == CallStmt || kind == FunctionReference then
      ListArgIndex(t, lin, k, ActualArgSpec, ActualArgSpecList, ds)
    else if kind == PartRef then
      ListArgIndex(t, lin, k, StructureConstructor2, SectionSubscriptList, ds)
    else if kind == InterfaceStmt then
      ArgFail(InterfaceNotExpected)
    else
      NoArg
  }

  predicate IsOutIntent(i: Intent)
  {
    i == IntentOut || i == IntentInOut
  }

  /** What lineage node k decides for the variable whose occurrence ends the lineage. */
  function AncVerdict(t: Tree, org: StmtId, lin: seq<ExprId>, k: nat): (r: Verdict)
    requires WellFormed(t) && org < |t.stmts| && LineageOk(t, lin) && k < |lin|
    ensures r.Raise? ==> PassError(r.e)
  {
    match CallName(t.exprs[lin[k]])
    case None => Keep
    case Some(cn) =>
      match CalleeOf(t, org, cn)
      case NotCallable => Keep
      case CalleeFail(e) => Raise(e)
      case CalleeAt(sp) =>
        var ds := t.stmts[sp].dummies;
        match ArgIndex(t, lin, k, ds)
        case NoArg => Keep
        case ArgFail(e) => Raise(e)
        case ArgAt(i) =>
          if i >= |ds| then Raise(DummyOutOfRange)
          else if IsOutIntent(ds[i].intent) then Upgrade
          else Keep
  }

  // ---------------------------------------------------------------------
  // What the argument index means

  /**
   * A keyword argument, alone or inside a list, selects the dummy of that
   * name; a positional list entry selects its own position; an absent list
   * selects nothing; any other single argument is the first dummy.
   */
  lemma ArgIndexMeaning(t: Tree, lin: seq<ExprId>, k: nat, ds: seq<Dummy>, keywordKind: ExprKind, listKind: ExprKind)
    requires WellFormed(t) && LineageOk(t, lin) && k < |lin|
    requires var kind := t.exprs[lin[k]].kind;
             || (keywordKind == ActualArgSpec && listKind == ActualArgSpecList && (kind == CallStmt || kind == FunctionReference))
             || (keywordKind == StructureConstructor2 && listKind == SectionSubscriptList && kind == PartRef)
    ensures var r := ArgIndex(t, lin, k, ds);
            var args := t.exprs[lin[k]].args;
            && (args.None? ==> r == NoArg)
            && (args.Some? && args.value < |t.exprs| && t.exprs[args.value].kind == keywordKind && k + 1 < |lin| ==>
                  (r.ArgAt? <==> exists i :: 0 <= i < |ds| && ds[i].name == t.exprs[lin[k + 1]].text)
                  && (r.ArgAt? ==> ds[r.idx].name == t.exprs[lin[k + 1]].text))
            && (args.Some? && args.value < |t.exprs| && t.exprs[args.value].kind == listKind && k + 2 < |lin| ==>
                  && (lin[k + 2] !in t.exprs[args.value].items ==> r == ArgFail(ArgNotInList))
                  && (lin[k + 2] in t.exprs[args.value].items && t.exprs[lin[k + 2]].kind != keywordKind ==>
                        r.ArgAt? && t.exprs[args.value].items[r.idx] == lin[k + 2])
                  && (lin[k + 2] in t.exprs[args.value].items && t.exprs[lin[k + 2]].kind == keywordKind ==>
                        (r.ArgAt? <==> exists i :: 0 <= i < |ds| && ds[i].name == t.exprs[lin[k + 2]].text)))
            && ((args.Some? && args.value < |t.exprs| && t.exprs[args.value].kind != keywordKind
                  && t.exprs[args.value].kind != listKind) ==> r == ArgAt(0))
  {
  }

  /** A variable becomes an output exactly when the matched dummy of a subprogram callee is intent(out) or intent(inout). */
  lemma UpgradeMeansOutDummy(t: Tree, org: StmtId, lin: seq<ExprId>, k: nat)
    requires WellFormed(t) && org < |t.stmts| && LineageOk(t, lin) && k < |lin|
    ensures AncVerdict(t, org, lin, k) == Upgrade <==>
              exists sp: nat, i: nat ::
                && CallName(t.exprs[lin[k]]).Some?
                && CalleeOf(t, org, CallName(t.exprs[lin[k]]).value) == CalleeAt(sp)
                && ArgIndex(t, lin, k, t.stmts[sp].dummies) == ArgAt(i)
                && i < |t.stmts[sp].dummies|
                && IsOutIntent(t.stmts[sp].dummies[i].intent)
  {
    if AncVerdict(t, org, lin, k) == Upgrade {
      var cn := CallName(t.exprs[lin[k]]).value;
      var sp := CalleeOf(t, org, cn).sub;
      var i := ArgIndex(t, lin, k, t.stmts[sp].dummies).idx;
      assert i < |t.stmts[sp].dummies| && IsOutIntent(t.stmts[sp].dummies[i].intent);
    }
  }

  /** An interface statement whose name resolves to a subprogram is an error, never a match. */
  lemma InterfaceStatementRaises(t: Tree, org: StmtId, lin: seq<ExprId>, k: nat)
    requires WellFormed(t) && org < |t.stmts| && LineageOk(t, lin) && k < |lin|
    requires t.exprs[lin[k]].kind == InterfaceStmt && t.exprs[lin[k]].text != ""
    requires CalleeOf(t, org, t.exprs[lin[k]].text).CalleeAt?
    ensures AncVerdict(t, org, lin, k) == Raise(InterfaceNotExpected)
  {
  }
}
