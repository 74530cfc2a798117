/**
 * The state kept across KGen's phases: the phase constants of State, the
 * resolution record ResState with its temporary rename, the module
 * registry SrcFile fills while reading a file, and the first-match
 * statement search of SrcFile.
 */
module KgenState {
  import opened Wrappers
  import opened Ast

  // ---------------------------------------------------------------------
  // Phases

  const Created: nat := 0
  const CallsiteLocated: nat := 1
  const KernelinfoCollected: nat := 2
  const GeninfoMarked: nat := 3
  const StateGenerated: nat := 4
  const KernelGenerated: nat := 5
  const MakefilesGenerated: nat := 6

  /** The phases in the order KGen goes through them: range(7), one value each. */
  function Phases(): (r: seq<nat>)
    ensures |r| == 7
    ensures forall i :: 0 <= i < |r| ==> r[i] == i
  {
    [Created, CallsiteLocated, KernelinfoCollected, GeninfoMarked, StateGenerated, KernelGenerated, MakefilesGenerated]
  }

  // ---------------------------------------------------------------------
  // ResState

  datatype Resolution = NotStarted | Resolved

  /** A resolution request: the name to resolve, where it comes from, the statement kinds that may resolve it. */
  class ResState {
    var state: Resolution
    var uname: Option<UName>
    var originator: StmtId
    var resolvers: seq<StmtKind>
    var tempUname: Option<UName>
    var resStmt: Option<StmtId>

    constructor (uname: UName, org: StmtId, resolvers: seq<StmtKind>)
      ensures state == NotStarted && this.uname == Some(uname) && originator == org && this.resolvers == resolvers
      ensures tempUname.None? && resStmt.None?
    {
      state := NotStarted;
      this.uname := Some(uname);
      originator := org;
      this.resolvers := resolvers;
      tempUname := None;
      resStmt := None;
    }

    /** Resolve under another name for a while, keeping the current one aside. */
    method SetUname(u: UName)
      modifies this
      ensures tempUname == old(uname) && uname == Some(u)
      ensures state == old(state) && originator == old(originator) && resolvers == old(resolvers) && resStmt == old(resStmt)
    {
      tempUname := uname;
      uname := Some(u);
    }

    /** Take back the name kept aside (none if there is none) and forget it. */
    method ResetUname()
      modifies this
      ensures uname == old(tempUname) && tempUname.None?
      ensures state == old(state) && originator == old(originator) && resolvers == old(resolvers) && resStmt == old(resStmt)
    {
      uname := tempUname;
      tempUname := None;
    }
  }

  /** set_uname followed by reset_uname: the record is back to its name, with nothing kept aside. */
  method RenameRoundTrip(r: ResState, u: UName)
    modifies r
    ensures r.uname == old(r.uname) && r.tempUname.None?
    ensures r.state == old(r.state) && r.originator == old(r.originator) && r.resolvers == old(r.resolvers)
    ensures r.resStmt == old(r.resStmt)
  {
    r.SetUname(u);
    r.ResetUname();
  }

  // ---------------------------------------------------------------------
  // The module registry

  /**
   * A registered module: its number, its statement, the file (named by its
   * absolute path) and path it was read from, and the lists filled by later
   * phases, empty at registration.
   */
  datatype ModEntry = ModEntry(
    num: nat, stmt: StmtId, file: string, path: string,
    externNames: seq<string>, externResStmt: map<string, seq<StmtId>>, externTkdpat: seq<nat>,
    modRwVarDepends: seq<string>, dtype: seq<string>)

  function NewEntry(num: nat, stmt: StmtId, path: string): ModEntry
  {
    ModEntry(num, stmt, path, path, [], map[], [], [], [])
  }

  /** The numbers are 1, 2, ..., num - 1, one per registered module. */
  ghost predicate RegistryOk(m: map<string, ModEntry>, num: nat)
  {
    && num >= 1
    && |m| == num - 1
    && (forall n :: n in m ==> 1 <= m[n].num < num)
    && (forall a, b :: a in m && b in m && a != b ==> m[a].num != m[b].num)
  }

  function Names(mods: seq<(string, StmtId)>): (r: seq<string>)
    ensures |r| == |mods| && forall i :: 0 <= i < |mods| ==> r[i] == mods[i].0
  {
    seq(|mods|, i requires 0 <= i < |mods| => mods[i].0)
  }

  function NameSet(mods: seq<(string, StmtId)>): set<string>
  {
    set i | 0 <= i < |mods| :: mods[i].0
  }

  lemma NameSetCons(mods: seq<(string, StmtId)>)
    requires mods != []
    ensures NameSet(mods) == {mods[0].0} + NameSet(mods[1..])
    ensures Names(mods) == [mods[0].0] + Names(mods[1..])
  {
    forall x | x in NameSet(mods) ensures x in {mods[0].0} + NameSet(mods[1..]) {
      var i :| 0 <= i < |mods| && mods[i].0 == x;
      if i > 0 {
        assert mods[1..][i - 1].0 == x;
      }
    }
    forall x | x in NameSet(mods[1..]) ensures x in NameSet(mods) {
      var i :| 0 <= i < |mods[1..]| && mods[1..][i].0 == x;
      assert mods[i + 1].0 == x;
    }
  }

  /** A name other than the first is found one place further on than in the rest. */
  lemma IndexOfTail(mods: seq<(string, StmtId)>, n: string)
    requires mods != [] && n != mods[0].0 && n in NameSet(mods)
    ensures n in NameSet(mods[1..]) && IndexOf(Names(mods[1..]), n).Some?
    ensures IndexOf(Names(mods), n) == Some(IndexOf(Names(mods[1..]), n).value + 1)
  {
    NameSetCons(mods);
    var ns := Names(mods);
    assert ns[1..] == Names(mods[1..]);
    var i :| 0 <= i < |mods[1..]| && mods[1..][i].0 == n;
    assert ns[1..][i] == n;
    IndexOfCons(ns, n);
  }

  lemma IndexOfCons<T>(s: seq<T>, x: T)
    requires s != [] && s[0] != x && x in s[1..]
    ensures IndexOf(s[1..], x).Some? && IndexOf(s, x) == Some(IndexOf(s[1..], x).value + 1)
  {
  }

  /** What registry holds: modules by name, and the next module number. */
  datatype Registry = Registry(modules: map<string, ModEntry>, modNum: nat)

  /** Registering the modules of one file, in the order the file lists them. */
  function RegisterFold(g: Registry, mods: seq<(string, StmtId)>, path: string): Registry
    decreases |mods|
  {
    if mods == [] then g
    else RegisterFold(RegisterOne(g, mods[0].0, mods[0].1, path), mods[1..], path)
  }

  /** One module: a new name gets the counter as its number and the counter moves by one; a known name changes nothing. */
  function RegisterOne(g: Registry, name: string, stmt: StmtId, path: string): Registry
  {
    if name in g.modules then g
    else Registry(g.modules[name := NewEntry(g.modNum, stmt, path)], g.modNum + 1)
  }

  /** Registration keeps the numbers consecutive from 1 and distinct. */
  lemma {:induction false} RegisterOk(g: Registry, mods: seq<(string, StmtId)>, path: string)
    requires RegistryOk(g.modules, g.modNum)
    ensures RegistryOk(RegisterFold(g, mods, path).modules, RegisterFold(g, mods, path).modNum)
    decreases |mods|
  {
    if mods != [] {
      var g1 := RegisterOne(g, mods[0].0, mods[0].1, path);
      if mods[0].0 !in g.modules {
        assert |g1.modules| == |g.modules| + 1;
      }
      assert RegistryOk(g1.modules, g1.modNum);
      RegisterOk(g1, mods[1..], path);
    }
  }

  /** Registration keeps every registered module as it was and registers exactly the names of the file. */
  lemma {:induction false} RegisterKeys(g: Registry, mods: seq<(string, StmtId)>, path: string)
    ensures g.modNum <= RegisterFold(g, mods, path).modNum
    ensures RegisterFold(g, mods, path).modules.Keys == g.modules.Keys + NameSet(mods)
    ensures forall n :: n in g.modules ==> RegisterFold(g, mods, path).modules[n] == g.modules[n]
    decreases |mods|
  {
    if mods != [] {
      NameSetCons(mods);
      RegisterKeys(RegisterOne(g, mods[0].0, mods[0].1, path), mods[1..], path);
    }
  }

  /**
   * Each new name gets a fresh entry for the statement of its first
   * occurrence in the file, numbered from the counter on.
   */
  lemma {:induction false} RegisterNew(g: Registry, mods: seq<(string, StmtId)>, path: string, n: string)
    requires n !in g.modules && n in NameSet(mods)
    ensures IndexOf(Names(mods), n).Some?
    ensures var r := RegisterFold(g, mods, path);
            && n in r.modules
            && g.modNum <= r.modules[n].num < r.modNum
            && r.modules[n] == NewEntry(r.modules[n].num, mods[IndexOf(Names(mods), n).value].1, path)
    decreases |mods|
  {
    NameSetCons(mods);
    var g1 := RegisterOne(g, mods[0].0, mods[0].1, path);
    RegisterKeys(g1, mods[1..], path);
    if n == mods[0].0 {
      assert IndexOf(Names(mods), n) == Some(0);
    } else {
      IndexOfTail(mods, n);
      RegisterNew(g1, mods[1..], path, n);
    }
  }

  /** Among the new names, the one that occurs first in the file gets the smaller number. */
  lemma {:induction false} RegisterFirstSeen(g: Registry, mods: seq<(string, StmtId)>, path: string, a: string, b: string)
    requires a !in g.modules && b !in g.modules && a in NameSet(mods) && b in NameSet(mods)
    requires IndexOf(Names(mods), a).value < IndexOf(Names(mods), b).value
    ensures a in RegisterFold(g, mods, path).modules && b in RegisterFold(g, mods, path).modules
    ensures RegisterFold(g, mods, path).modules[a].num < RegisterFold(g, mods, path).modules[b].num
    decreases |mods|
  {
    NameSetCons(mods);
    var g1 := RegisterOne(g, mods[0].0, mods[0].1, path);
    RegisterNew(g, mods, path, a);
    RegisterNew(g, mods, path, b);
    assert b != mods[0].0;
    IndexOfTail(mods, b);
    if a == mods[0].0 {
      RegisterNew(g1, mods[1..], path, b);
      RegisterKeys(g1, mods[1..], path);
      assert g1.modules[a].num == g.modNum;
    } else {
      IndexOfTail(mods, a);
      RegisterFirstSeen(g1, mods[1..], path, a, b);
    }
  }

  /** A file whose modules are all registered changes nothing: reading it a second time registers nothing. */
  lemma {:induction false} RegisterAgain(g: Registry, mods: seq<(string, StmtId)>, path: string)
    requires forall i :: 0 <= i < |mods| ==> mods[i].0 in g.modules
    ensures RegisterFold(g, mods, path) == g
    decreases |mods|
  {
    if mods != [] {
      RegisterAgain(g, mods[1..], path);
    }
  }

  /** State.modules and State.mod_num. */
  class ModuleRegistry {
    var modules: map<string, ModEntry>
    var modNum: nat

    ghost predicate Valid()
      reads this
    {
      RegistryOk(modules, modNum)
    }

    constructor ()
      ensures Valid() && modules == map[] && modNum == 1
    {
      modules := map[];
      modNum := 1;
    }

    /** Registration of the modules a source file defines, as they come (name and statement). */
    method Register(mods: seq<(string, StmtId)>, path: string)
      requires Valid()
      modifies this
      ensures Valid()
      ensures Registry(modules, modNum) == RegisterFold(Registry(old(modules), old(modNum)), mods, path)
    {
      ghost var g0 := Registry(modules, modNum);
      RegisterOk(g0, mods, path);
      var i := 0;
      while i < |mods|
        invariant 0 <= i <= |mods|
        invariant RegisterFold(g0, mods, path) == RegisterFold(Registry(modules, modNum), mods[i..], path)
      {
        assert mods[i..][0] == mods[i] && mods[i..][1..] == mods[i + 1..];
        var (name, stmt) := mods[i];
        if name !in modules {
          modules := modules[name := NewEntry(modNum, stmt, path)];
          modNum := modNum + 1;
        }
        i := i + 1;
      }
    }
  }

  // ---------------------------------------------------------------------
  // stmt_by_name

  /**
   * One statement of the walk, with what the search reads of it: its kind
   * (a comment has kind Comment), the last line of its span, and what
   * expr_by_name finds in it for the name searched.
   */
  datatype WalkItem = WalkItem(stmt: StmtId, kind: StmtKind, spanEnd: int, expr: Option<ExprId>)

  /**
   * The statement is the one the search stops at: of one of the kinds asked
   * for (when a list is given); past line lineafter and not a comment (when
   * lineafter is positive), or holding the name otherwise.
   */
  predicate Selected(w: WalkItem, cls: Option<seq<StmtKind>>, lineafter: int)
  {
    && (cls.Some? ==> w.kind in cls.value)
    && (lineafter > 0 ==> w.spanEnd > lineafter && w.kind != Comment)
    && (lineafter > 0 || w.expr.Some?)
  }

  /** The first selected statement of the walk and its expression, or none. */
  method StmtByName(walk: seq<WalkItem>, cls: Option<seq<StmtKind>>, lineafter: int)
    returns (stmt: Option<StmtId>, expr: Option<ExprId>)
    ensures stmt.None? <==> forall i :: 0 <= i < |walk| ==> !Selected(walk[i], cls, lineafter)
    ensures stmt.None? ==> expr.None?
    ensures stmt.Some? ==>
              exists i :: && 0 <= i < |walk| && Selected(walk[i], cls, lineafter)
                          && (forall j :: 0 <= j < i ==> !Selected(walk[j], cls, lineafter))
                          && stmt == Some(walk[i].stmt) && expr == walk[i].expr
  {
    stmt := None;
    expr := None;
    var i := 0;
    while i < |walk|
      invariant 0 <= i <= |walk|
      invariant forall j :: 0 <= j < i ==> !Selected(walk[j], cls, lineafter)
    {
      var w := walk[i];
      if cls.Some? && w.kind !in cls.value {
        i := i + 1;
        continue;
      }
      if lineafter > 0 && (w.spanEnd <= lineafter || w.kind == Comment) {
        i := i + 1;
        continue;
      }
      if lineafter > 0 || w.expr.Some? {
        stmt := Some(w.stmt);
        expr := w.expr;
        return;
      }
      i := i + 1;
    }
  }
}
