# KGen analysis core in Dafny

KGen extracts one call site of a large Fortran program into a standalone
kernel.  Before generating code it must decide, for every variable the kernel
touches, whether the kernel has to be fed the variable's value (STATE_IN) or
must also check the value it leaves behind (STATE_OUT).  This project models
the part of KGen that makes that decision, and the bookkeeping around it,
and proves what it guarantees.

- **update_state_info** (`kgen/parser/kganalyze.py`).  Every examined type
  declaration of a scope has STATE_IN variables.  For each one, the pass
  looks for the places where the variable is passed to a subprogram.  If the
  first decisive place passes it to an `intent(out)` or `intent(inout)` dummy,
  the variable becomes STATE_OUT.  The pass then moves to the enclosing scope.
  - The pure argument-index case split is in `arg_match.dfy`.
  - The meaning of the pass, as functions on annotation snapshots, is in
    `intent_spec.dfy`.
  - The imperative pass, proved equal to those functions, is in
    `kganalyze.dfy`.
  - Soundness, completeness, idempotence and the exceptions raised are in
    `intent_props.dfy`.
  - Worked call sites (`call sub(x)`, `call sub(a=x)`) are in
    `intent_examples.dfy`.
- **Parser.run and Parser.add_geninfo_ancestors** (`kgen/parser/main.py`), in
  `parser_main.dfy`.
  - Empty geninfo is installed on the scopes around the call site.
  - Each of those scopes is asked to resolve the name of the scope nested
    inside it.
  - `run` checks the call site, fixes the parent and top blocks, and runs the
    pass on the parent block and on the modules.
- **kgen/kgen_state.py**:
  - the phase constants, `ResState`'s temporary rename, the module registry
    and `stmt_by_name`, in `kgen_state.dfy`;
  - the preprocessing strings of `SrcFile`, in `src_prep.dfy`.

The Fortran syntax tree is an arena (`ast.dfy`).
- Statements and parse-tree nodes are numbered, and a parent always has a
  smaller number than its child.
- The arena is assumed to be numbered in the order in which fparser's
  traversal visits the nodes, so that the traversal is ascending numbering.
  Parent-before-child numbering alone does not imply this.
- The mutable annotations live in the class `Ast.Annotations`: the geninfo
  of each statement, the shared resolution records, and the log of
  `check_spec_stmts` requests.
- A Python exception is an error outcome (`Ast.Error`), paired with the
  annotations as they stood when it was raised.

## Model

| member | source | states |
|---|---|---|
| `ArgMatch.FirstUnknownFrom` | kgen/parser/kganalyze.py:62-67 | the result is the first unknown whose first name part is the called name; no earlier unknown has that first part |
| `ArgMatch.CalleeOf` | kgen/parser/kganalyze.py:58-67 | a callee is always a subprogram statement; the only failure is an unknown that resolved to nothing (indexing `res_stmts[0]`) |
| `KgAnalyze.FindCallee` | kgen/parser/kganalyze.py:58-67 | the loop over the originator's unknowns, which stops at the first match, returns `CalleeOf` |
| `ArgMatch.KeywordIndex` | kgen/parser/kganalyze.py:78-79 | `args.index(kword)`: the position of the first dummy with that name; an error exactly when no dummy has it |
| `ArgMatch.ListArgIndex` | kgen/parser/kganalyze.py:72-102 | for one argument-list shape, it raises only a keyword-not-a-dummy, argument-not-in-list or lineage-too-short error |
| `ArgMatch.ArgIndex` | kgen/parser/kganalyze.py:69-104 | the argument index of a call-like node; errors are limited to those of the list shapes plus the interface-statement exception |
| `ArgMatch.ArgIndexMeaning` | kgen/parser/kganalyze.py:69-102 | a keyword argument, alone or in a list, selects the dummy of that name; a positional list entry selects its own position; no list selects nothing; any other single argument is dummy 0 |
| `ArgMatch.AncVerdict` | kgen/parser/kganalyze.py:49-116 | one lineage node's decision; any exception it raises belongs to the pass itself |
| `KgAnalyze.DecideAncestor` | kgen/parser/kganalyze.py:49-116 | the imperative decision for one lineage node equals `AncVerdict` |
| `ArgMatch.UpgradeMeansOutDummy` | kgen/parser/kganalyze.py:106-114 | a node upgrades the variable if and only if it calls a subprogram and the selected dummy exists and is intent(out) or intent(inout) |
| `ArgMatch.InterfaceStatementRaises` | kgen/parser/kganalyze.py:103-104 | an interface statement whose name resolves to a subprogram raises "Interface Statement is not expected" |
| `KgAnalyze.LineageOf` | kgen/parser/kganalyze.py:18-21 | the loop that climbs parents and prepends each one yields the root-first lineage `Ast.Lineage` |
| `Ast.Lineage` | kgen/parser/kganalyze.py:18-21 | the lineage ends at the occurrence, starts at a node without a parent, and each node is the parent of the next |
| `IntentSpec.OccLineages` | kgen/parser/kganalyze.py:15-22 | every collected lineage is that of a Name node spelled like the variable, inside the originator's parse tree |
| `IntentProps.OccLineagesComplete` | kgen/parser/kganalyze.py:15-22 | every Name node spelled like the variable inside the originator's parse tree, from the starting node on, has its lineage collected |
| `IntentProps.OccLineagesFrom` | kgen/parser/kganalyze.py:15-22 | the traversal from a node on collects only lineages of that node and later ones |
| `IntentProps.OccLineagesOrdered` | kgen/parser/kganalyze.py:15-22 | the collected lineages end at strictly increasing nodes: each occurrence once, in traversal order |
| `KgAnalyze.CollectLineages` | kgen/parser/kganalyze.py:45-46 | the traversal with `get_nodes` collects `OccLineages`, in traversal order |
| `IntentSpec.MatchingRequests` | kgen/parser/kganalyze.py:38-40 | one pair per STATE_IN entry of the associate with the same name, carrying that entry's originator |
| `IntentProps.MatchingRequestsMembership` | kgen/parser/kganalyze.py:38-40 | a pair is produced if and only if some STATE_IN entry has that name and that originator |
| `IntentProps.AliasPairsMembership` | kgen/parser/kganalyze.py:36-40 | the associate's pairs are exactly those of the alias targets of the name |
| `IntentSpec.SearchPairs` | kgen/parser/kganalyze.py:31-42 | the search pairs are well formed; the only error is an associate without geninfo |
| `IntentProps.SearchPairsMeaning` | kgen/parser/kganalyze.py:31-42 | a call-site originator gives the single pair (name, call site); an associate gives its alias pairs; any other originator gives none |
| `KgAnalyze.BuildPairs` | kgen/parser/kganalyze.py:31-42 | the loops that build `respairs` return `SearchPairs` |
| `KgAnalyze.MatchTarget` | kgen/parser/kganalyze.py:37-40 | for one alias target, the pairs found are exactly the originators of the STATE_IN requests of that name, in order |
| `IntentProps.AncScanFirst` | kgen/parser/kganalyze.py:48-114 | a lineage keeps the variable if and only if every node keeps it; otherwise the first node that does not keep decides |
| `IntentProps.LinScanFirst` | kgen/parser/kganalyze.py:47-115 | the same for the lineages of one pair: the first decisive lineage wins |
| `IntentProps.PairScanFirst` | kgen/parser/kganalyze.py:44-116 | the same for the pairs: the first decisive pair wins, so nothing after an upgrade is examined |
| `KgAnalyze.FindVerdict` | kgen/parser/kganalyze.py:43-116 | the nested loops with their breaks return the verdict of the first decisive pair, lineage and node |
| `KgAnalyze.ScanLineages` | kgen/parser/kganalyze.py:47-115 | the loop over the lineages of one pair returns the verdict of the first lineage that decides, or keeps |
| `KgAnalyze.ScanLineage` | kgen/parser/kganalyze.py:48-114 | the loop over the nodes of one lineage, root first, returns the verdict of the first node that decides, or keeps |
| `IntentSpec.VarStep` | kgen/parser/kganalyze.py:29-116 | a variable already STATE_OUT is skipped; the step raises if and only if the verdict raises; after it, the name is STATE_OUT if and only if it was or the verdict is an upgrade; only this declaration's geninfo changes, and only by growing |
| `IntentSpec.UpgradedProps` | kgen/parser/kganalyze.py:111-112 | the upgrade sets the record's gentype to STATE_OUT and appends the name to the declaration's STATE_OUT list, leaving its STATE_IN list as it was |
| `KgAnalyze.UpdateVar` | kgen/parser/kganalyze.py:29-116 | the imperative handling of one STATE_IN entry equals `VarStep` |
| `IntentSpec.EntriesFold` | kgen/parser/kganalyze.py:29-116 | the STATE_IN entries of one declaration, in order; the annotations only grow, and no other statement changes |
| `IntentSpec.StmtStep` | kgen/parser/kganalyze.py:25-28 | only a type declaration without "parameter" whose geninfo has a non-empty entry is examined; any other statement changes nothing |
| `KgAnalyze.UpdateStmt` | kgen/parser/kganalyze.py:25-116 | the imperative handling of one content statement equals `StmtStep` |
| `IntentSpec.ContentFold` | kgen/parser/kganalyze.py:24-28 | the content of a scope, in order; the annotations only grow, and only type declarations change |
| `IntentSpec.UpdateSpec` | kgen/parser/kganalyze.py:13-119 | a scope and then its enclosing scopes up to the top; the annotations only grow, and only type declarations change |
| `KgAnalyze.UpdateStateInfo` | kgen/parser/kganalyze.py:13-119 | the recursive imperative pass changes the annotations, and raises, exactly as `UpdateSpec` says |
| `KgAnalyze.UpdateContent` | kgen/parser/kganalyze.py:24-116 | the loop over a scope's statements changes the annotations, and stops at the first exception, exactly as `ContentFold` says |
| `IntentProps.UpdateJustified` | kgen/parser/kganalyze.py:106-114 | soundness: every name that becomes STATE_OUT belongs to a non-parameter type declaration and has a STATE_IN entry whose verdict is an upgrade |
| `IntentProps.UpdateComplete` | kgen/parser/kganalyze.py:106-116 | completeness: after a successful pass, every STATE_IN entry of an examined declaration in the scope chain whose verdict is an upgrade is STATE_OUT |
| `IntentProps.UpdateOutputsExactly` | kgen/parser/kganalyze.py:13-119 | after a successful pass, a name of an examined declaration in the scope chain is STATE_OUT if and only if it was before or one of its STATE_IN entries has an upgrade verdict |
| `IntentProps.VerdictStable` | kgen/parser/kganalyze.py:29-42 | verdicts read only what the pass never changes, so they are the same before and after any growth of the annotations |
| `IntentProps.UpdateIdempotent` | kgen/parser/kganalyze.py:29-30 | run again on its own successful result, the pass changes nothing and raises nothing |
| `IntentProps.OutputsStayOutputs` | kgen/parser/kganalyze.py:29-30 | a STATE_OUT name stays STATE_OUT whatever the pass does, even when it raises |
| `IntentProps.VarVerdictPass` | kgen/parser/kganalyze.py:58-104 | a verdict raises only an exception of the argument matching or of the search for pairs |
| `IntentProps.UpdatePass` | kgen/parser/kganalyze.py:13-119 | the pass never raises one of the exceptions of `run`'s own checks |
| `IntentExamples.PositionalOutUpgrades` | kgen/parser/kganalyze.py:72-87 | in `call sub(x)` with dummy `a` intent(out), x becomes STATE_OUT and its record's gentype becomes STATE_OUT |
| `IntentExamples.PositionalInKeeps` | kgen/parser/kganalyze.py:106-116 | with dummy `a` intent(in), the pass leaves the annotations unchanged |
| `IntentExamples.KeywordInOutUpgrades` | kgen/parser/kganalyze.py:80-85 | in `call sub(a=x)` with dummies `(b, a)` and `a` intent(inout), the keyword selects the second dummy and x becomes STATE_OUT |
| `ParserMain.TrailingEnd` | kgen/parser/main.py:73-75 | there is a trailing END statement exactly when the block's content is non-empty and its last element is an END statement, and then it is that element |
| `ParserMain.InstallKeeps` | kgen/parser/main.py:70-75 | installation leaves every record and every existing geninfo untouched and gives each new statement an empty geninfo |
| `ParserMain.InstallCovers` | kgen/parser/main.py:70-75 | afterwards every ancestor, and every trailing END statement of one, has a geninfo |
| `ParserMain.InstallOnly` | kgen/parser/main.py:70-75 | no statement other than an ancestor or its trailing END statement gains a geninfo |
| `ParserMain.InstallIdempotent` | kgen/parser/main.py:70-75 | a second installation leaves every geninfo as the first one left it |
| `ParserMain.InstallRequests` | kgen/parser/main.py:77-84 | the requests already logged stay in front; the new ones are exactly the requests of `Requested` |
| `ParserMain.InnermostGetsNoRequest` | kgen/parser/main.py:65-84 | each ancestor receives a request exactly when the scope nested directly inside it is named, with that scope as the only resolved statement; the innermost ancestor receives none |
| `ParserMain.AncestorsIncreasing` | kgen/parser/main.py:65 | the ancestors come root first, in strictly increasing arena order |
| `ParserMain.InstallOk` | kgen/parser/main.py:62-84 | installation keeps the annotations well formed |
| `ParserMain.InstallAncestors` | kgen/parser/main.py:62-84 | installing geninfo on the ancestors of a statement keeps the annotations well formed |
| `ParserMain.Parser.AddGeninfoAncestors` | kgen/parser/main.py:62-84 | the loop over the reversed ancestors, with `prevstmt` and `prevname`, changes the annotations exactly as `InstallAncestors` says |
| `ParserMain.Parser.InstallOne` | kgen/parser/main.py:71-84 | one turn of the loop: empty geninfo for the ancestor and its END statement when missing, and the chain request when the previous ancestor has a name |
| `ParserMain.ModulesFold` | kgen/parser/main.py:55-59 | the pass runs on every module statement except the top block; the annotations only grow |
| `ParserMain.ModulesJustified` | kgen/parser/main.py:55-59 | soundness through the module passes: every name they turn into STATE_OUT, on a statement that had a geninfo before them, belongs to a non-parameter type declaration and has a STATE_IN entry whose verdict, taken before them, is an upgrade |
| `ParserMain.ModulesComplete` | kgen/parser/main.py:55-59 | completeness through the module passes: after them, every STATE_IN entry with an upgrade verdict of an examined declaration in the scope chain of a module other than the top block is STATE_OUT |
| `ParserMain.FileOn` | kgen/parser/main.py:46 | filing a name on a statement gives it a geninfo whose STATE_IN list holds the name, changes no STATE_OUT list and keeps the other STATE_IN entries |
| `ParserMain.ApplyFiling` | kgen/parser/main.py:46 | resolving one name appends one STATE_IN record with its originator and files the name on every statement it resolved to, touching no STATE_OUT list |
| `ParserMain.ApplyFilings` | kgen/parser/main.py:46 | the records of one resolution, applied in order, are all filed afterwards and the annotations stay well formed |
| `ParserMain.ResolveUnknowns` | kgen/parser/main.py:45-48 | resolving the names of one statement only appends STATE_IN records and extends STATE_IN lists |
| `ParserMain.ResolveAll` | kgen/parser/main.py:41-48 | the resolution loop over every call-site statement only appends STATE_IN records and extends STATE_IN lists; no STATE_OUT list changes |
| `ParserMain.ResolveUnknownsErrors` | kgen/parser/main.py:45-48 | resolving one statement's names raises "Resolution fail." exactly when one of them resolved to nothing, and raises nothing else |
| `ParserMain.ResolveErrors` | kgen/parser/main.py:41-48 | the resolution loop raises "Resolution fail." exactly when some call-site name resolved to nothing, and raises nothing else |
| `ParserMain.UnknownsFiled` | kgen/parser/main.py:45-47 | after one statement's names resolved, each of their records is filed on every statement it resolved to |
| `ParserMain.ResolveFiled` | kgen/parser/main.py:41-48 | after a successful resolution loop, every record of every call-site name is filed on every statement it resolved to |
| `ParserMain.FilesInTrans` | kgen/parser/main.py:41-48 | two stretches of resolution together are again only resolution filings |
| `ParserMain.FiledStays` | kgen/parser/main.py:41-48 | a filed record stays filed while resolution goes on |
| `ParserMain.RunErrors` | kgen/parser/main.py:25-48 | "Can not find callsite" if and only if there is no call-site statement; the empty-ancestors failure if and only if the first call site has no parent; "Resolution fail." if and only if neither holds and some call-site unknown resolved to nothing; any other exception comes from the passes |
| `ParserMain.RunBlocks` | kgen/parser/main.py:29-37 | the parent block is the statement directly enclosing the first call site; the top block is the outermost ancestor, the one without a parent |
| `ParserMain.RunInstalls` | kgen/parser/main.py:29-59 | every ancestor of the first call site has a geninfo when `run` ends; resolution only files STATE_IN records on top of the installation, and the passes only grow what resolution left |
| `ParserMain.RunFiles` | kgen/parser/main.py:41-59 | when `run` gets past resolution, every record that resolving a call-site name filed is still filed when `run` ends |
| `ParserMain.Parser.Run` | kgen/parser/main.py:14-59 | the checks, installation, block assignments, resolution and passes change the parser and the annotations exactly as `RunSpec` says |
| `ParserMain.Parser.Resolve` | kgen/parser/main.py:41-48 | the loop over the call-site statements changes the annotations and raises exactly as `ResolveAll` says |
| `ParserMain.Parser.ResolveStmt` | kgen/parser/main.py:45-48 | the loop over one statement's unknown names files each resolution and stops at the first name resolved to nothing, exactly as `ResolveUnknowns` says |
| `ParserMain.Parser.PassModules` | kgen/parser/main.py:56-59 | the loop over the module registry runs the pass on every module but the top block, in order, exactly as `ModulesFold` says |
| `KgenState.Phases` | kgen/kgen_state.py:10-11 | the seven phases, from CREATED to MAKEFILES_GENERATED, are 0 to 6 in order |
| `KgenState.ResState.constructor` | kgen/kgen_state.py:109-115 | a fresh record is NOT_STARTED with the given name, originator and resolvers, and nothing kept aside or resolved |
| `KgenState.ResState.SetUname` | kgen/kgen_state.py:117-119 | the current name is kept aside and replaced; nothing else changes |
| `KgenState.ResState.ResetUname` | kgen/kgen_state.py:121-123 | the name kept aside comes back, and nothing stays aside |
| `KgenState.RenameRoundTrip` | kgen/kgen_state.py:117-123 | `set_uname` then `reset_uname` restores the original name and leaves nothing aside |
| `KgenState.RegisterOk` | kgen/kgen_state.py:184-188 | registration keeps the module numbers distinct and exactly 1, 2, ..., counter - 1 |
| `KgenState.RegisterKeys` | kgen/kgen_state.py:184-197 | registered modules keep their entries, and afterwards exactly the file's module names are registered as well |
| `KgenState.RegisterNew` | kgen/kgen_state.py:185-197 | a new name gets the statement of its first occurrence, the file's path, empty extern lists, and a number at or above the counter |
| `KgenState.RegisterFirstSeen` | kgen/kgen_state.py:184-188 | of two new names, the one listed first gets the smaller number |
| `KgenState.RegisterAgain` | kgen/kgen_state.py:185 | a file whose modules are all registered changes neither the registry nor the counter |
| `KgenState.ModuleRegistry.constructor` | kgen/kgen_state.py:17 | the registry starts empty, with the counter at 1 |
| `KgenState.ModuleRegistry.Register` | kgen/kgen_state.py:184-197 | the registration loop changes the registry and counter exactly as `RegisterFold` says, and keeps the numbering invariant |
| `KgenState.StmtByName` | kgen/kgen_state.py:199-219 | the result is the first statement in walk order that passes the class filter and either lies past `lineafter` (and is not a comment) or holds the name, with its expression; nothing if none does |
| `SrcPrep.JoinSplit` | kgen/kgen_state.py:156 | joining the lines of the preprocessor output with newlines gives the output back |
| `SrcPrep.SplitJoin` | kgen/kgen_state.py:159 | splitting a newline join of lines without newlines gives the lines back |
| `SrcPrep.RewriteLine` | kgen/kgen_state.py:156 | a line starting with '#' gets "!KGEN" in front; any other line is unchanged; no result starts with '#' |
| `SrcPrep.RewriteLines` | kgen/kgen_state.py:156 | the rewrite keeps the line count, leaves no line starting with '#', and changes only directive lines |
| `SrcPrep.RestoreRewrite` | kgen/kgen_state.py:156 | each original line can be recovered from its rewrite, unless it already started with "!KGEN#" |
| `SrcPrep.PreparedLines` | kgen/kgen_state.py:156-159 | the text handed to fparser has exactly the rewritten lines of the preprocessor output |
| `SrcPrep.IncludeWords` | kgen/kgen_state.py:144 | with at least one path, the include string is one "-I" word per path, global paths first, joined by spaces |
| `SrcPrep.IncludeFlags` | kgen/kgen_state.py:144 | the include string is empty without paths, and otherwise as written |
| `SrcPrep.MacrosInOrder` | kgen/kgen_state.py:143-145 | global and per-file macros form one space-separated list of -Dname=value definitions, the per-file ones last |
| `SrcPrep.MacrosWithoutEntry` | kgen/kgen_state.py:139-145 | without a per-file entry, only the global macros and paths are used |
| `SrcPrep.PreprocessorFlags` | kgen/kgen_state.py:149-152 | fpp_flags when the name ends in "fpp", cpp_flags when it ends in "cpp", and an error otherwise |
| `SrcPrep.PreprocessCommandAsWritten` | kgen/kgen_state.py:144-153 | the command as the source builds it, with the include string as written; it fails exactly when the flags do |
| `SrcPrep.LoneIncludeTakesFile` | kgen/kgen_state.py:144-153 | as written, without include paths and macros, the command ends in a lone "-I", blanks and the file |
| `SrcPrep.PreprocessCommand` | kgen/kgen_state.py:149-153 | corrected command (no lone "-I"): it fails exactly when the flags do; otherwise it starts with the preprocessor and its flags and ends with the file |
| `SrcPrep.CommandWords` | kgen/kgen_state.py:144-153 | corrected command, with include paths: the preprocessor, its flags, one -I word per include path, the macro string and the file, joined by single spaces |
| `SrcPrep.CommandsAgree` | kgen/kgen_state.py:144-153 | with at least one include path, the command as written and the corrected command are the same |
| `SrcPrep.CommandWithoutIncludes` | kgen/kgen_state.py:144-153 | corrected command, without include paths: no -I word; the preprocessor, its flags, two spaces, the macros and the file |

## Left out

- Reading and preprocessing files (`SrcFile` at kgen/parser/main.py:19-24, `exec_cmd` at kgen/kgen_state.py:153) is foreign I/O. The preprocessor output is taken as an input string.
- The fparser calls `parse`, `parse_f2003`, `walk`, `traverse`, `ancestors` and `expr_by_name` are left out. The tree is taken as an abstract arena:
  - `ancestors()` is the parent chain in `Ast.Ancestors`;
  - `traverse` is ascending arena order;
  - `walk` is the `WalkItem` sequence given to `KgenState.StmtByName`, each item carrying what `expr_by_name` found in it.
- `f2003_search_unknowns` and `resolve` (kgen/parser/main.py:43-46) are not modelled as code. What they leave behind is part of the tree: for each unknown name of a call-site statement, the statements it resolved to and the records resolution filed (name, originator, target statements). The loop of kgen/parser/main.py:41-48 applies those records to the annotations, in order: each is a new STATE_IN request, and its name is added to the STATE_IN list of every target statement. STATE_OUT records that resolution might file are not modelled.
- `check_spec_stmts` (kgen/parser/main.py:80) is recorded as a request in the annotations' log. Its own effect on the scope is not modelled.
- `KGName` parsing is left out: the name of a scope becomes a name with no '%' components.
- Logging, the `Config` singleton, the top block's file path (kgen/parser/main.py:38) and the placeholder lists of the `State` singleton (kgen/kgen_state.py:19-104) only store data, so they are left out. The TKDPAT constants (kgen/kgen_state.py:14) are not used by the modelled code.
- The `not node.parent in bag` test (kgen/parser/kganalyze.py:17) looks up a dictionary key that is never present, so it excludes nothing and is not modelled.
- Python exceptions are modelled as error outcomes, not as preconditions. This covers the ValueError of `list.index` (kgen/parser/kganalyze.py:79, 82, 85), the IndexError on `lineage[lidx+1]`, `res_stmts[0]`, `subpobj.args[argidx]` and `ancs[-1]`, and the exception on an interface statement. The annotations keep every change made before the raise.
- `analyze_callsite` (kgen/parser/kganalyze.py:126-184) is not modelled separately; `ParserMain.Parser.Run` models `run`. The two differ in two ways:
  - `analyze_callsite` reads `cs_stmt.unknowns` with no `hasattr` guard (kgen/parser/kganalyze.py:171), so a call-site statement without that attribute raises there, where `run` only logs a warning (kgen/parser/main.py:44-50);
  - `analyze_callsite` does not read the imported source files first (kgen/parser/main.py:19-21).
- A call-site statement without an `unknowns` attribute, which `run` only logs, is a statement with no unknowns.
- `ArgMatch.ListArgIndex`: node equality is taken as identity. `arglist.items.index(argobj)` (kgen/parser/kganalyze.py:82, 97) uses Python `==` on fparser nodes, which may compare them by structure, so in `call sub(x, x)` the second `x` may match the first position. The model compares arena node numbers instead, because fparser's node equality is not part of this model.
- `subpobj.a.variables[...]` (kgen/parser/kganalyze.py:109) is the declared intent stored with each dummy argument.
- The mapping of a subprogram's argument names to its variable records is not modelled separately.
- Python 2 dictionary order is not modelled. The module registry, `unknowns.items()` and `Config.modules.items()` are taken in the order given as input.
- `IntentSpec.VarStep`: its ensures do not mention the record's gentype. That is proved separately in `IntentSpec.UpgradedProps`.

## Findings

| source | as written | input that shows it | evidently intended | confidence | as-written member | corrected member |
|---|---|---|---|---|---|---|
| kgen/kgen_state.py:144 | the include string is "-I" followed by the paths joined with " -I" | no global include path and no per-file entry: the string is a lone "-I", which takes the next word of the command line (the first macro, or the source file itself) as an include directory | no -I flag at all when there is no include path | medium, not executed | `SrcPrep.LoneIncludeTakesFile` | `SrcPrep.CommandWithoutIncludes` |
