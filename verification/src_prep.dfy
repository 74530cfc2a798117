/**
 * The string handling of SrcFile's constructor: the include and macro flags
 * handed to the preprocessor, the choice of its flags, and the rewrite of
 * its output into the text fparser reads.  Running the preprocessor and the
 * parser is not part of this module; its output arrives as a string.
 */
module SrcPrep {
  import opened Wrappers
  import opened Ast

  predicate StartsWith(s: string, p: string)
  {
    |p| <= |s| && s[..|p|] == p
  }

  predicate EndsWith(s: string, p: string)
  {
    |p| <= |s| && s[|s| - |p|..] == p
  }

  /** sep.join(xs). */
  function Join(sep: string, xs: seq<string>): (r: string)
    ensures |xs| == 1 ==> r == xs[0]
    ensures |xs| > 1 ==> r == xs[0] + sep + Join(sep, xs[1..])
  {
    if xs == [] then ""
    else if |xs| == 1 then xs[0]
    else xs[0] + sep + Join(sep, xs[1..])
  }

  /** Joining two non-empty lists puts one separator between their joins. */
  lemma {:induction false} JoinAppend(sep: string, xs: seq<string>, ys: seq<string>)
    requires xs != [] && ys != []
    ensures Join(sep, xs + ys) == Join(sep, xs) + sep + Join(sep, ys)
    decreases |xs|
  {
    var zs := xs + ys;
    assert zs[0] == xs[0] && |zs| > 1;
    if |xs| == 1 {
      assert zs[1..] == ys;
    } else {
      assert zs[1..] == xs[1..] + ys;
      JoinAppend(sep, xs[1..], ys);
      var a, b := Join(sep, xs[1..]), Join(sep, ys);
      assert Join(sep, zs) == xs[0] + sep + (a + sep + b);
      assert Join(sep, xs) == xs[0] + sep + a;
    }
  }

  // ---------------------------------------------------------------------
  // Lines of the preprocessed output

  /** output.split(c): the pieces between the occurrences of c. */
  function Split(s: string, c: char): (r: seq<string>)
    ensures |r| >= 1
    ensures forall i :: 0 <= i < |r| ==> c !in r[i]
    decreases |s|
  {
    match IndexOf(s, c)
    case None => [s]
    case Some(k) => [s[..k]] + Split(s[k + 1..], c)
  }

  /** Joining the pieces of a split with the separator gives back the string. */
  lemma {:induction false} JoinSplit(s: string, c: char)
    ensures Join([c], Split(s, c)) == s
    decreases |s|
  {
    match IndexOf(s, c)
    case None =>
    case Some(k) =>
      var rest := Split(s[k + 1..], c);
      JoinSplit(s[k + 1..], c);
      var xs := [s[..k]] + rest;
      assert Split(s, c) == xs;
      assert xs[0] == s[..k] && xs[1..] == rest && |xs| > 1;
      assert Join([c], xs) == s[..k] + [c] + Join([c], rest);
      assert s == s[..k] + [c] + s[k + 1..];
  }

  /** Splitting the join of pieces that hold no separator gives back the pieces. */
  lemma {:induction false} SplitJoin(xs: seq<string>, c: char)
    requires xs != [] && forall i :: 0 <= i < |xs| ==> c !in xs[i]
    ensures Split(Join([c], xs), c) == xs
    decreases |xs|
  {
    if |xs| == 1 {
      assert IndexOf(xs[0], c).None?;
    } else {
      var s := Join([c], xs);
      var rest := Join([c], xs[1..]);
      assert s == xs[0] + [c] + rest;
      assert s[|xs[0]|] == c && s[..|xs[0]|] == xs[0];
      assert IndexOf(s, c) == Some(|xs[0]|);
      assert s[|xs[0]| + 1..] == rest;
      SplitJoin(xs[1..], c);
    }
  }

  /** A preprocessor directive line, prefixed with "!KGEN" so that fparser sees a comment. */
  function RewriteLine(l: string): (r: string)
    ensures StartsWith(l, "#") ==> r == "!KGEN" + l
    ensures !StartsWith(l, "#") ==> r == l
    ensures !StartsWith(r, "#")
    ensures '\n' in r <==> '\n' in l
  {
    if StartsWith(l, "#") then
      var r := "!KGEN" + l;
      assert r[0] == '!';
      r
    else l
  }

  /** The rewrite of every line: line count kept, no directive left, every other line as it was. */
  function RewriteLines(ls: seq<string>): (r: seq<string>)
    ensures |r| == |ls|
    ensures forall i :: 0 <= i < |ls| ==> !StartsWith(r[i], "#")
    ensures forall i :: 0 <= i < |ls| && !StartsWith(ls[i], "#") ==> r[i] == ls[i]
    ensures forall i :: 0 <= i < |ls| && StartsWith(ls[i], "#") ==> r[i] == "!KGEN" + ls[i]
  {
    seq(|ls|, i requires 0 <= i < |ls| => RewriteLine(ls[i]))
  }

  /** Undoes RewriteLine on a line that starts with "!KGEN#". */
  function RestoreLine(l: string): string
  {
    if StartsWith(l, "!KGEN#") then l[5..] else l
  }

  /**
   * The rewrite loses nothing: every line is recovered from its rewrite,
   * unless it already started with "!KGEN#" (such a line would be taken for
   * a rewritten directive).
   */
  lemma RestoreRewrite(ls: seq<string>)
    requires forall i :: 0 <= i < |ls| ==> !StartsWith(ls[i], "!KGEN#")
    ensures forall i :: 0 <= i < |ls| ==> RestoreLine(RewriteLines(ls)[i]) == ls[i]
  {
    forall i | 0 <= i < |ls| ensures RestoreLine(RewriteLines(ls)[i]) == ls[i] {
      var l := ls[i];
      if StartsWith(l, "#") {
        var r := "!KGEN" + l;
        assert r[..6] == "!KGEN" + l[..1];
        assert r[5..] == l;
      }
    }
  }

  /** The text handed to fparser: the output's lines, rewritten, joined again with newlines. */
  function PreparedText(output: string): string
  {
    Join("\n", RewriteLines(Split(output, '\n')))
  }

  /** fparser sees exactly as many lines as the preprocessor wrote, each the rewrite of the original one. */
  lemma PreparedLines(output: string)
    ensures Split(PreparedText(output), '\n') == RewriteLines(Split(output, '\n'))
  {
    var ls := Split(output, '\n');
    var rs := RewriteLines(ls);
    forall i | 0 <= i < |rs| ensures '\n' !in rs[i] {
      assert rs[i] == RewriteLine(ls[i]);
    }
    SplitJoin(rs, '\n');
  }

  // ---------------------------------------------------------------------
  // Include and macro flags

  /** The per-file include entry: extra paths and extra macros for one source file. */
  datatype FileInclude = FileInclude(path: seq<string>, macro: seq<(string, string)>)

  /** The include configuration: global paths and macros, and the per-file entries by absolute path. */
  datatype IncludeConfig = IncludeConfig(path: seq<string>, macro: seq<(string, string)>, file: map<string, FileInclude>)

  /** Every string of xs with p in front of it. */
  function Prefixed(p: string, xs: seq<string>): (r: seq<string>)
    ensures |r| == |xs| && forall i :: 0 <= i < |xs| ==> r[i] == p + xs[i]
  {
    seq(|xs|, i requires 0 <= i < |xs| => p + xs[i])
  }

  /** One -Dname=value definition per macro, in order. */
  function Defines(ms: seq<(string, string)>): (r: seq<string>)
    ensures |r| == |ms| && forall i :: 0 <= i < |ms| ==> r[i] == "-D" + ms[i].0 + "=" + ms[i].1
  {
    seq(|ms|, i requires 0 <= i < |ms| => "-D" + ms[i].0 + "=" + ms[i].1)
  }

  /** The include paths of one file: the global ones, then the file's own when it has an entry. */
  function IncludePaths(cfg: IncludeConfig, abspath: string): seq<string>
  {
    cfg.path + (if abspath in cfg.file then cfg.file[abspath].path else [])
  }

  /** The include string as written: "-I" followed by the paths joined with " -I". */
  function IncludeFlagsAsWritten(paths: seq<string>): string
  {
    "-I" + Join(" -I", paths)
  }

  /** Written with " -I" as a separator, the include string is one -I word per path. */
  lemma {:induction false} IncludeWords(paths: seq<string>)
    requires paths != []
    ensures IncludeFlagsAsWritten(paths) == Join(" ", Prefixed("-I", paths))
    decreases |paths|
  {
    if |paths| > 1 {
      var rest := paths[1..];
      var ws := Prefixed("-I", paths);
      IncludeWords(rest);
      assert ws[1..] == Prefixed("-I", rest);
      var tail := Join(" -I", rest);
      assert Join(" -I", paths) == paths[0] + " -I" + tail;
      assert Join(" ", ws) == ws[0] + " " + Join(" ", ws[1..]);
      assert Join(" ", ws[1..]) == "-I" + tail;
      Regroup(paths[0], tail);
    }
  }

  /** Moving the "-I" of a " -I" separator onto the word that follows it. */
  lemma Regroup(a: string, t: string)
    ensures "-I" + (a + " -I" + t) == ("-I" + a) + " " + ("-I" + t)
  {
    assert " -I" == " " + "-I";
    calc {
      "-I" + (a + " -I" + t);
      "-I" + (a + (" " + "-I") + t);
      ("-I" + a) + " " + ("-I" + t);
    }
  }

  /** The include string: one -I word per path, and nothing at all without paths. */
  function IncludeFlags(paths: seq<string>): (r: string)
    ensures paths == [] ==> r == ""
    ensures paths != [] ==> r == IncludeFlagsAsWritten(paths)
  {
    if paths != [] then IncludeWords(paths); Join(" ", Prefixed("-I", paths))
    else ""
  }

  /** The macro string: the global definitions, a space, then the file's own definitions when it has an entry. */
  function MacroFlags(cfg: IncludeConfig, abspath: string): string
  {
    Join(" ", Defines(cfg.macro)) + " "
      + (if abspath in cfg.file then Join(" ", Defines(cfg.file[abspath].macro)) else "")
  }

  /** With global and per-file macros, the definitions form one list, the per-file ones after the global ones. */
  lemma MacrosInOrder(cfg: IncludeConfig, abspath: string)
    requires abspath in cfg.file && cfg.macro != [] && cfg.file[abspath].macro != []
    ensures MacroFlags(cfg, abspath) == Join(" ", Defines(cfg.macro + cfg.file[abspath].macro))
  {
    var g := Defines(cfg.macro);
    var f := Defines(cfg.file[abspath].macro);
    assert Defines(cfg.macro + cfg.file[abspath].macro) == g + f;
    JoinAppend(" ", g, f);
  }

  /** Without a per-file entry, only the global definitions appear, followed by a space. */
  lemma MacrosWithoutEntry(cfg: IncludeConfig, abspath: string)
    requires abspath !in cfg.file
    ensures MacroFlags(cfg, abspath) == Join(" ", Defines(cfg.macro)) + " "
    ensures IncludePaths(cfg, abspath) == cfg.path
  {
  }

  // ---------------------------------------------------------------------
  // The preprocessor flags

  datatype PrepError = NotFppOrCpp

  /** The flags for preprocessor prep: fpp's when its name ends with "fpp", cpp's when it ends with "cpp". */
  function PreprocessorFlags(prep: string, fppFlags: string, cppFlags: string): (r: Result<string, PrepError>)
    ensures r == Ok(fppFlags) || r == Ok(cppFlags) || r == Err(NotFppOrCpp)
    ensures r.Err? <==> !(|prep| >= 3 && prep[|prep| - 3..] in {"fpp", "cpp"})
    ensures |prep| >= 3 && prep[|prep| - 3..] == "fpp" ==> r == Ok(fppFlags)
    ensures |prep| >= 3 && prep[|prep| - 3..] == "cpp" ==> r == Ok(cppFlags)
  {
    if EndsWith(prep, "fpp") then Ok(fppFlags)
    else if EndsWith(prep, "cpp") then Ok(cppFlags)
    else Err(NotFppOrCpp)
  }

  /**
   * The preprocessor command line for the source file at abspath: the
   * preprocessor, its flags, the include string and the macro string, then
   * the file.
   */
  function PreprocessCommand(prep: string, fppFlags: string, cppFlags: string, cfg: IncludeConfig, abspath: string)
    : (r: Result<string, PrepError>)
    ensures r.Err? <==> PreprocessorFlags(prep, fppFlags, cppFlags).Err?
    ensures r.Ok? ==> StartsWith(r.value, prep + " " + PreprocessorFlags(prep, fppFlags, cppFlags).value + " ")
    ensures r.Ok? ==> EndsWith(r.value, " " + abspath)
  {
    match PreprocessorFlags(prep, fppFlags, cppFlags)
    case Err(e) => Err(e)
    case Ok(flags) =>
      var head := prep + " " + flags + " ";
      var mid := IncludeFlags(IncludePaths(cfg, abspath)) + " " + MacroFlags(cfg, abspath);
      var tail := " " + abspath;
      Framed(head, mid, tail);
      Ok(head + mid + tail)
  }

  /** Without include paths the command holds no -I word: two spaces separate the flags from the macros. */
  lemma CommandWithoutIncludes(prep: string, fppFlags: string, cppFlags: string, cfg: IncludeConfig, abspath: string)
    requires PreprocessorFlags(prep, fppFlags, cppFlags).Ok? && IncludePaths(cfg, abspath) == []
    ensures PreprocessCommand(prep, fppFlags, cppFlags, cfg, abspath)
            == Ok(prep + " " + PreprocessorFlags(prep, fppFlags, cppFlags).value + "  " + MacroFlags(cfg, abspath) + " " + abspath)
  {
    var flags := PreprocessorFlags(prep, fppFlags, cppFlags).value;
    var m := MacroFlags(cfg, abspath);
    assert IncludeFlags([]) == "";
    assert (prep + " " + flags + " ") + ("" + " " + m) + (" " + abspath) == prep + " " + flags + "  " + m + " " + abspath;
  }

  /**
   * With include paths, the command is its words joined by single spaces:
   * the preprocessor, its flags, one -I word per include path (the global
   * ones first), the macro string, and the file.
   */
  lemma CommandWords(prep: string, fppFlags: string, cppFlags: string, cfg: IncludeConfig, abspath: string)
    requires PreprocessorFlags(prep, fppFlags, cppFlags).Ok? && IncludePaths(cfg, abspath) != []
    ensures PreprocessCommand(prep, fppFlags, cppFlags, cfg, abspath).value
            == Join(" ", [prep, PreprocessorFlags(prep, fppFlags, cppFlags).value]
                         + Prefixed("-I", IncludePaths(cfg, abspath)) + [MacroFlags(cfg, abspath), abspath])
  {
    var flags := PreprocessorFlags(prep, fppFlags, cppFlags).value;
    var w := Prefixed("-I", IncludePaths(cfg, abspath));
    var m := MacroFlags(cfg, abspath);
    var jw := Join(" ", w);
    assert PreprocessCommand(prep, fppFlags, cppFlags, cfg, abspath).value
           == (prep + " " + flags + " ") + (jw + " " + m) + (" " + abspath);
    assert Join(" ", [prep, flags] + w + [m, abspath]) == (prep + " " + flags) + " " + (jw + " " + (m + " " + abspath)) by {
      WordsSplit(prep, flags, w, m, abspath);
    }
    Reassociate(prep + " " + flags, jw, m, abspath);
  }

  /** Joining the words of the command, piece by piece. */
  lemma WordsSplit(prep: string, flags: string, w: seq<string>, m: string, abspath: string)
    requires w != []
    ensures Join(" ", [prep, flags] + w + [m, abspath]) == (prep + " " + flags) + " " + (Join(" ", w) + " " + (m + " " + abspath))
  {
    assert [prep, flags] + w + [m, abspath] == [prep, flags] + (w + [m, abspath]);
    JoinAppend(" ", [prep, flags], w + [m, abspath]);
    JoinAppend(" ", w, [m, abspath]);
    assert Join(" ", [prep, flags]) == prep + " " + flags by {
      assert [prep, flags][1..] == [flags];
    }
    assert Join(" ", [m, abspath]) == m + " " + abspath by {
      assert [m, abspath][1..] == [abspath];
    }
  }

  /** The two groupings of the command's pieces spell the same string. */
  lemma Reassociate(head: string, jw: string, m: string, abspath: string)
    ensures (head + " ") + (jw + " " + m) + (" " + abspath) == head + " " + (jw + " " + (m + " " + abspath))
  {
  }

  /** The command line as the source builds it: the include string as written, a lone "-I" when there is no include path. */
  function PreprocessCommandAsWritten(prep: string, fppFlags: string, cppFlags: string, cfg: IncludeConfig, abspath: string)
    : (r: Result<string, PrepError>)
    ensures r.Err? <==> PreprocessorFlags(prep, fppFlags, cppFlags).Err?
  {
    match PreprocessorFlags(prep, fppFlags, cppFlags)
    case Err(e) => Err(e)
    case Ok(flags) =>
      var head := prep + " " + flags + " ";
      var mid := IncludeFlagsAsWritten(IncludePaths(cfg, abspath)) + " " + MacroFlags(cfg, abspath);
      var tail := " " + abspath;
      Ok(head + mid + tail)
  }

  /** With at least one include path the command as written and the corrected command are the same. */
  lemma CommandsAgree(prep: string, fppFlags: string, cppFlags: string, cfg: IncludeConfig, abspath: string)
    requires IncludePaths(cfg, abspath) != []
    ensures PreprocessCommand(prep, fppFlags, cppFlags, cfg, abspath) == PreprocessCommandAsWritten(prep, fppFlags, cppFlags, cfg, abspath)
  {
    var paths := IncludePaths(cfg, abspath);
    assert IncludeFlags(paths) == IncludeFlagsAsWritten(paths);
  }

  /**
   * Without include paths and macros, the command as written ends with a
   * lone -I, blanks and the file: the -I takes the source file itself as
   * its directory, and the preprocessor is given no file to read.
   */
  lemma LoneIncludeTakesFile(prep: string, fppFlags: string, cppFlags: string, cfg: IncludeConfig, abspath: string)
    requires PreprocessorFlags(prep, fppFlags, cppFlags).Ok?
    requires cfg.path == [] && cfg.macro == [] && abspath !in cfg.file
    ensures PreprocessCommandAsWritten(prep, fppFlags, cppFlags, cfg, abspath)
            == Ok(prep + " " + PreprocessorFlags(prep, fppFlags, cppFlags).value + " -I   " + abspath)
  {
    var flags := PreprocessorFlags(prep, fppFlags, cppFlags).value;
    assert IncludeFlagsAsWritten(IncludePaths(cfg, abspath)) == "-I";
    assert MacroFlags(cfg, abspath) == " ";
    assert (prep + " " + flags + " ") + ("-I" + " " + " ") + (" " + abspath) == prep + " " + flags + " -I   " + abspath;
  }

  /** A string built as head + mid + tail starts with head and ends with tail. */
  lemma Framed(head: string, mid: string, tail: string)
    ensures StartsWith(head + mid + tail, head) && EndsWith(head + mid + tail, tail)
  {
    var r := head + mid + tail;
    assert r[..|head|] == head;
    assert r[|r| - |tail|..] == tail;
  }
}
