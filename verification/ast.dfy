/**
 * The parsed program as KGen's analysis sees it, held in an arena.
 *
 * Statements (the block structure: files, modules, subprograms, type
 * declarations, ...) and Fortran 2003 expression nodes (the parsed items of
 * one statement) live in two sequences and refer to each other by index.
 * A parent index is always smaller than the index of its child, so every
 * upward walk terminates.  The generation information that the analysis
 * attaches to statements, and the shared resolution records it points at,
 * are the only mutable part; they live in the class Annotations.
 */
module Ast {
  import opened Wrappers

  type StmtId = nat
  type ExprId = nat
  type ReqId = nat

  /** A KGName: the first part of a name and the '%'-separated components after it. */
  datatype UName = UName(first: string, rest: seq<string>)

  datatype Intent = IntentIn | IntentOut | IntentInOut | IntentUnspecified

  /** A dummy argument of a subprogram, with its declared intent. */
  datatype Dummy = Dummy(name: string, intent: Intent)

  /**
   * One record that resolving a name creates: a STATE_IN request for uname
   * made by statement originator, filed on each statement of targets.
   */
  datatype Filing = Filing(uname: UName, originator: StmtId, targets: seq<StmtId>)

  /**
   * An unresolved name of a statement, the statements it resolved to, and
   * the records its resolution files (the resolver itself is not part of
   * this model; what it leaves behind is an input).
   */
  datatype Unknown = Unknown(uname: UName, resStmts: seq<StmtId>, filings: seq<Filing>)

  datatype StmtKind =
    | TypeDeclaration
    | SubProgram
    | Associate
    | EndStatement
    | Comment
    | OtherBlock
    | OtherStmt

  /**
   * A statement.  content is None for a statement that is not a block;
   * dummies is the subprogram's argument list (args) with each argument's
   * intent; assocMap is an Associate construct's alias map.
   */
  datatype Stmt = Stmt(
    kind: StmtKind,
    parent: Option<StmtId>,
    content: Option<seq<StmtId>>,
    name: Option<string>,
    attrspec: seq<string>,
    f2003: ExprId,
    unknowns: seq<Unknown>,
    dummies: seq<Dummy>,
    assocMap: map<UName, seq<UName>>)

  datatype ExprKind =
    | Name
    | CallStmt
    | FunctionReference
    | PartRef
    | InterfaceStmt
    | ActualArgSpec
    | ActualArgSpecList
    | StructureConstructor2
    | SectionSubscriptList
    | OtherExpr

  /**
   * A Fortran 2003 node.  text is the node's own string for a Name and the
   * string of its first item (the called name, or the keyword of an argument
   * spec) otherwise; args is its second item (an argument list, or absent);
   * items are the entries of a list node.
   */
  datatype Expr = Expr(
    kind: ExprKind,
    text: string,
    args: Option<ExprId>,
    items: seq<ExprId>,
    parent: Option<ExprId>)

  datatype Tree = Tree(stmts: seq<Stmt>, exprs: seq<Expr>)

  ghost predicate StmtOk(t: Tree, i: nat)
    requires i < |t.stmts|
  {
    var s := t.stmts[i];
    && (s.parent.Some? ==> s.parent.value < i && t.stmts[s.parent.value].content.Some?)
    && (s.content.Some? ==> forall c :: c in s.content.value ==> c < |t.stmts|)
    && s.f2003 < |t.exprs|
    && (forall u :: u in s.unknowns ==> forall r :: r in u.resStmts ==> r < |t.stmts|)
  }

  ghost predicate ExprOk(t: Tree, i: nat)
    requires i < |t.exprs|
  {
    var e := t.exprs[i];
    && (e.parent.Some? ==> e.parent.value < i)
    && (e.args.Some? ==> e.args.value < |t.exprs|)
    && (forall x :: x in e.items ==> x < |t.exprs|)
  }

  /** Every index in the arena points into it, parents come first, and a parent statement is a block. */
  ghost predicate WellFormed(t: Tree)
  {
    && (forall i | 0 <= i < |t.stmts| :: StmtOk(t, i))
    && (forall i | 0 <= i < |t.exprs| :: ExprOk(t, i))
  }

  /** The root-first chain of expression nodes from the top down to node i (a lineage). */
  function Lineage(t: Tree, i: ExprId): (r: seq<ExprId>)
    requires WellFormed(t) && i < |t.exprs|
    ensures |r| > 0 && r[|r| - 1] == i
    ensures forall k :: 0 <= k < |r| ==> r[k] < |t.exprs|
    ensures t.exprs[r[0]].parent.None?
    ensures forall k :: 0 < k < |r| ==> t.exprs[r[k]].parent == Some(r[k - 1])
    decreases i
  {
    assert ExprOk(t, i);
    match t.exprs[i].parent
    case None => [i]
    case Some(p) => Lineage(t, p) + [i]
  }

  /** The enclosing statements of s, root first and s's own parent last. */
  function Ancestors(t: Tree, s: StmtId): (r: seq<StmtId>)
    requires WellFormed(t) && s < |t.stmts|
    ensures t.stmts[s].parent.None? <==> r == []
    ensures t.stmts[s].parent.Some? ==> r[|r| - 1] == t.stmts[s].parent.value
    ensures forall k :: 0 <= k < |r| ==> r[k] < s && t.stmts[r[k]].content.Some?
    ensures r != [] ==> t.stmts[r[0]].parent.None?
    ensures forall k :: 0 < k < |r| ==> t.stmts[r[k]].parent == Some(r[k - 1])
    decreases s
  {
    assert StmtOk(t, s);
    match t.stmts[s].parent
    case None => []
    case Some(p) => Ancestors(t, p) + [p]
  }

  /** The first position of x in s, as Python's list.index finds it; None where it raises. */
  function IndexOf<T(==)>(s: seq<T>, x: T): (r: Option<nat>)
    ensures r.Some? <==> x in s
    ensures r.Some? ==> r.value < |s| && s[r.value] == x && x !in s[..r.value]
  {
    if s == [] then None
    else if s[0] == x then Some(0)
    else
      match IndexOf(s[1..], x)
      case None => None
      case Some(k) => assert s[1..][..k] == s[1..k + 1]; Some(k + 1)
  }

  // ---------------------------------------------------------------------
  // Generation information and resolution records

  datatype GenType = StateIn | StateOut

  /** One (uname, request) pair of a geninfo list. */
  datatype Entry = Entry(uname: UName, req: ReqId)

  /** A statement's geninfo: for each generation type, the ordered list of its requests. */
  type GenInfo = map<GenType, seq<Entry>>

  /** A shared resolution record (kgparse.ResState): its generation type, name and originating statement. */
  datatype Req = Req(gentype: GenType, uname: UName, originator: Option<StmtId>)

  /** One call of check_spec_stmts: a STATE_IN request for uname at scope, pre-resolved to resStmts. */
  datatype SpecRequest = SpecRequest(scope: StmtId, uname: UName, resStmts: seq<StmtId>)

  /** Snapshot of the mutable annotations: geninfo per statement, records, and the check_spec_stmts calls made. */
  datatype St = St(geninfo: map<StmtId, GenInfo>, reqs: seq<Req>, specLog: seq<SpecRequest>)

  datatype Error =
    | InterfaceNotExpected   // the Interface_Stmt exception
    | KeywordNotDummy        // ValueError: a keyword that is not a dummy argument name
    | ArgNotInList           // ValueError: the lineage node is not an entry of the argument list
    | LineageTooShort        // IndexError: the lineage ends at the call node or its argument list
    | CalleeUnresolved       // IndexError: the called name has no resolved statement
    | DummyOutOfRange        // IndexError: more actual arguments than dummy arguments
    | NoOriginator           // AttributeError: an alias request without an originating statement
    | MissingGeninfo         // AttributeError: an Associate construct without geninfo
    | CallsiteNotFound       // UserException('Can not find callsite')
    | NoAncestors            // IndexError: the call site has no enclosing statement
    | ResolutionFail         // ProgramException('Resolution fail.')

  /** The exceptions update_state_info itself can raise, as opposed to the checks of run. */
  predicate PassError(e: Error)
  {
    !(e == CallsiteNotFound || e == NoAncestors || e == ResolutionFail)
  }

  /** The annotations after an operation, and the exception it raised, if any. */
  datatype Outcome = Outcome(s: St, err: Option<Error>)

  function GetStateIn(g: GenInfo): seq<Entry>
  {
    if StateIn in g then g[StateIn] else []
  }

  function GetStateOut(g: GenInfo): seq<Entry>
  {
    if StateOut in g then g[StateOut] else []
  }

  predicate HasUname(u: UName, es: seq<Entry>)
  {
    exists e :: e in es && e.uname == u
  }

  predicate HasUnameOut(u: UName, g: GenInfo)
  {
    HasUname(u, GetStateOut(g))
  }

  /** Some generation type of g has at least one request. */
  predicate HasGenEntries(g: GenInfo)
  {
    exists gt :: gt in g && |g[gt]| > 0
  }

  /**
   * add_geninfo: file (u, r) under generation type gt, at the end of that
   * list, unless the list already holds u.
   */
  function AddGeninfo(g: GenInfo, u: UName, r: ReqId, gt: GenType): (g': GenInfo)
    ensures g'.Keys == g.Keys + {gt}
    ensures forall k :: k in g && k != gt ==> g'[k] == g[k]
    ensures HasUname(u, g'[gt])
    ensures var before := if gt in g then g[gt] else [];
            && (HasUname(u, before) ==> g'[gt] == before)
            && (!HasUname(u, before) ==> g'[gt] == before + [Entry(u, r)])
  {
    var before := if gt in g then g[gt] else [];
    if HasUname(u, before) then g[gt := before]
    else
      assert Entry(u, r) in before + [Entry(u, r)];
      g[gt := before + [Entry(u, r)]]
  }

  ghost predicate GenInfoOk(g: GenInfo, n: nat)
  {
    forall gt :: gt in g ==> forall e :: e in g[gt] ==> e.req < n
  }

  /** Every geninfo key is a statement, every entry a record, every originator a statement. */
  ghost predicate StOk(t: Tree, s: St)
  {
    && (forall k :: k in s.geninfo ==> k < |t.stmts| && GenInfoOk(s.geninfo[k], |s.reqs|))
    && (forall r | 0 <= r < |s.reqs| :: s.reqs[r].originator.Some? ==> s.reqs[r].originator.value < |t.stmts|)
  }

  /** The attributes the analysis attaches to AST objects: geninfo and the shared records. */
  class Annotations {
    var geninfo: map<StmtId, GenInfo>
    var reqs: seq<Req>
    var specLog: seq<SpecRequest>

    constructor (geninfo: map<StmtId, GenInfo>, reqs: seq<Req>)
      ensures Snap() == St(geninfo, reqs, [])
    {
      this.geninfo := geninfo;
      this.reqs := reqs;
      this.specLog := [];
    }

    function Snap(): St
      reads this
    {
      St(geninfo, reqs, specLog)
    }
  }
}
