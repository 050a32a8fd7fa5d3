/** The driver, `main` and `fortran_to_cpp` (src/main.cpp:22-205): ROSE parses the command
    line into a project; every file that came from the command line is translated with
    one translator, each error thrown being reported and remembered in the exit code;
    then each module use gets the `#include` of the header of the file defining the
    module, and each translated file gets a header of its own, which it includes. */
module Driver {
  import opened Wrappers
  import opened Ast
  import opened FileNames
  import opened Header
  import opened Translator

  const MsgNothing := "nothing to be done."
  const MsgNoProject := "Cat. Error: Couldn't create SgProject"
  const ErrorPrefix := "ERROR: "
  const AssertModule := "module_map.find(iname)!=module_map.end()"

  /** A file of the ROSE project: the command line it was parsed from, its name, whether
      its output language is Fortran, and its tree from the global scope down. */
  datatype SourceFile = SourceFile(cmdl: seq<string>, name: string, isFortran: bool, tree: Node)

  /** `insertHeader(header, ...)` into the C file of the project file `unit`. */
  datatype Include = Include(unit: nat, header: string)

  /** A generated header: its name and its declarations. */
  datatype HFile = HFile(name: string, decls: seq<Stmt>)

  /** How a run ends: with an exit code, the lines written to standard output and the
      files built, or by a failed assertion or an uncaught exception. */
  datatype Outcome =
    | Exit(code: int, log: seq<string>, cfiles: seq<CFile>, headers: seq<HFile>, links: seq<Include>)
    | Aborted(why: string, log: seq<string>)

  /** `is_input_file`: the file's command line starts with the program's own name; a
      file ROSE generated for a module does not. */
  predicate IsInputFile(f: SourceFile, argv: seq<string>)
    requires |argv| > 0
  {
    |f.cmdl| > 0 && f.cmdl[0] == argv[0]
  }

  /** The positions of the input files among the project's files, in order. */
  function Inputs(files: seq<SourceFile>, argv: seq<string>): (r: seq<nat>)
    requires |argv| > 0
    ensures forall k :: 0 <= k < |r| ==> r[k] < |files|
  {
    if files == [] then []
    else
      var n := |files| - 1;
      Inputs(files[..n], argv) + (if IsInputFile(files[n], argv) then [n] else [])
  }

  /** The input positions are exactly the input files', each once, in increasing order. */
  lemma {:induction false} InputsExact(files: seq<SourceFile>, argv: seq<string>)
    requires |argv| > 0
    ensures forall i :: 0 <= i < |files| ==> (i in Inputs(files, argv) <==> IsInputFile(files[i], argv))
    ensures forall k, l :: 0 <= k < l < |Inputs(files, argv)| ==> Inputs(files, argv)[k] < Inputs(files, argv)[l]
    decreases |files|
  {
    if files != [] {
      var n := |files| - 1;
      InputsExact(files[..n], argv);
      forall i | 0 <= i < n
        ensures files[..n][i] == files[i]
      {
      }
    }
  }

  /** One more file adds its own position when it is an input file. */
  lemma InputsSnoc(files: seq<SourceFile>, argv: seq<string>, i: nat)
    requires |argv| > 0 && i < |files|
    ensures Inputs(files[..i + 1], argv) == Inputs(files[..i], argv) + (if IsInputFile(files[i], argv) then [i] else [])
  {
    assert files[..i + 1][..i] == files[..i];
  }

  /** A C file of the translator that belongs to an input Fortran file: the position of
      the file and the file's name with the extension replaced by ".c". */
  predicate UnitOf(u: UnitRef, files: seq<SourceFile>, argv: seq<string>)
    requires |argv| > 0
  {
    u.index < |files| && IsInputFile(files[u.index], argv) && '.' in files[u.index].name &&
    u.outName == ReplaceExt(files[u.index].name, ".c")
  }

  /** The loop of `fortran_to_cpp` gathering the global scopes of the input files. */
  method CollectInputs(files: seq<SourceFile>, argv: seq<string>) returns (globals: seq<Node>)
    requires |argv| > 0
    ensures |globals| == |Inputs(files, argv)|
    ensures forall k :: 0 <= k < |globals| ==> globals[k] == files[Inputs(files, argv)[k]].tree
  {
    globals := [];
    var i := 0;
    while i < |files|
      invariant 0 <= i <= |files|
      invariant |globals| == |Inputs(files[..i], argv)|
      invariant forall k :: 0 <= k < |globals| ==> Inputs(files[..i], argv)[k] < i
      invariant forall k :: 0 <= k < |globals| ==> globals[k] == files[Inputs(files[..i], argv)[k]].tree
    {
      assert files[..i + 1][..i] == files[..i];
      InputsExact(files[..i], argv);
      if IsInputFile(files[i], argv) {
        globals := globals + [files[i].tree];
      }
      i := i + 1;
    }
    assert files[..i] == files;
  }

  /** The modules defined and the uses recorded so far all belong to input files. */
  predicate UnitsOf(moduleMap: map<string, UnitRef>, uses: seq<(UnitRef, string)>, files: seq<SourceFile>, argv: seq<string>)
    requires |argv| > 0
  {
    (forall m :: m in moduleMap ==> UnitOf(moduleMap[m], files, argv)) &&
    (forall k :: 0 <= k < |uses| ==> UnitOf(uses[k].0, files, argv))
  }

  /** The C files of the first `n` files: each belongs to a Fortran input file, in the
      order of the files. */
  predicate CFilesOf(cfiles: seq<CFile>, files: seq<SourceFile>, argv: seq<string>, n: nat)
    requires |argv| > 0
  {
    (forall k :: 0 <= k < |cfiles| ==>
      UnitOf(cfiles[k].unit, files, argv) && files[cfiles[k].unit.index].isFortran && cfiles[k].unit.index < n) &&
    (forall k, l :: 0 <= k < l < |cfiles| ==> cfiles[k].unit.index < cfiles[l].unit.index)
  }

  /** Every line of the error log starts with `ERROR: `. */
  predicate ErrorLines(log: seq<string>)
  {
    forall k :: 0 <= k < |log| ==> |log[k]| >= |ErrorPrefix| && log[k][..|ErrorPrefix|] == ErrorPrefix
  }

  lemma CFilesSnoc(cfiles: seq<CFile>, c: CFile, files: seq<SourceFile>, argv: seq<string>, i: nat)
    requires |argv| > 0 && i < |files| && CFilesOf(cfiles, files, argv, i)
    requires c.unit.index == i && UnitOf(c.unit, files, argv) && files[i].isFortran
    ensures CFilesOf(cfiles + [c], files, argv, i + 1)
  {
  }

  lemma ErrorLinesSnoc(log: seq<string>, msg: string)
    requires ErrorLines(log)
    ensures ErrorLines(log + [ErrorPrefix + msg])
  {
    assert (ErrorPrefix + msg)[..|ErrorPrefix|] == ErrorPrefix;
  }

  /** The input positions of the first `i` files are the first input positions. */
  lemma {:induction false} InputsPrefix(files: seq<SourceFile>, argv: seq<string>, i: nat)
    requires |argv| > 0 && i <= |files|
    ensures Inputs(files[..i], argv) <= Inputs(files, argv)
    decreases |files|
  {
    if i < |files| {
      var n := |files| - 1;
      assert files[..n][..i] == files[..i];
      InputsPrefix(files[..n], argv, i);
    } else {
      assert files[..i] == files;
    }
  }

  /** What `xf_file` can give for the project file at position `i`: a C file of that
      input, the error for a file that is not Fortran, and `std::out_of_range` for a
      Fortran file whose name has no '.'. */
  predicate Translated(r: Result<CFile>, files: seq<SourceFile>, argv: seq<string>, i: nat)
    requires |argv| > 0 && i < |files|
  {
    (r.Ok? ==> r.value.unit.index == i && UnitOf(r.value.unit, files, argv) && files[i].isFortran) &&
    (!files[i].isFortran ==> r == Fail(MsgNotFortran)) &&
    (files[i].isFortran && '.' !in files[i].name ==> r == Abort(OutOfRange))
  }

  /** The results of the translation loop: one per input file, in order, from the
      first; only the last may have aborted the run. */
  predicate Outcomes(os: seq<Result<CFile>>, files: seq<SourceFile>, argv: seq<string>)
    requires |argv| > 0
  {
    |os| <= |Inputs(files, argv)| &&
    (forall k :: 0 <= k < |os| ==> Translated(os[k], files, argv, Inputs(files, argv)[k])) &&
    (forall k :: 0 <= k < |os| - 1 ==> !os[k].Abort?)
  }

  /** The run ended inside the translation loop. */
  predicate Aborts(os: seq<Result<CFile>>)
  {
    |os| > 0 && os[|os| - 1].Abort?
  }

  /** The C files among the results, in order. */
  function OkFiles(os: seq<Result<CFile>>): seq<CFile>
  {
    if os == [] then [] else OkFiles(os[..|os| - 1]) + (if os[|os| - 1].Ok? then [os[|os| - 1].value] else [])
  }

  /** The lines written for the errors among the results, in order. */
  function ErrorLog(os: seq<Result<CFile>>): seq<string>
  {
    if os == [] then [] else ErrorLog(os[..|os| - 1]) + (if os[|os| - 1].Fail? then [ErrorPrefix + os[|os| - 1].msg] else [])
  }

  /** Without an abort, every result is either a C file or an error line. */
  lemma {:induction false} OutcomesSplit(os: seq<Result<CFile>>)
    requires forall k :: 0 <= k < |os| ==> !os[k].Abort?
    ensures |OkFiles(os)| + |ErrorLog(os)| == |os|
    decreases |os|
  {
    if os != [] {
      OutcomesSplit(os[..|os| - 1]);
    }
  }

  /** The outcome of the input file at position `i` extends the outcomes of the inputs
      before it, and the C files and error lines by what it contributes. */
  lemma OutcomesSnoc(os: seq<Result<CFile>>, r: Result<CFile>, files: seq<SourceFile>, argv: seq<string>, i: nat)
    requires |argv| > 0 && i < |files| && IsInputFile(files[i], argv)
    requires |os| == |Inputs(files[..i], argv)| <= |Inputs(files, argv)|
    requires forall k :: 0 <= k < |os| ==> Translated(os[k], files, argv, Inputs(files, argv)[k])
    requires Translated(r, files, argv, i)
    ensures |os + [r]| == |Inputs(files[..i + 1], argv)| <= |Inputs(files, argv)|
    ensures forall k :: 0 <= k < |os + [r]| ==> Translated((os + [r])[k], files, argv, Inputs(files, argv)[k])
    ensures OkFiles(os + [r]) == OkFiles(os) + (if r.Ok? then [r.value] else [])
    ensures ErrorLog(os + [r]) == ErrorLog(os) + (if r.Fail? then [ErrorPrefix + r.msg] else [])
  {
    InputsSnoc(files, argv, i);
    InputsPrefix(files, argv, i + 1);
    assert Inputs(files, argv)[|os|] == i;
    assert (os + [r])[..|os|] == os;
  }

  /** The translation loop of `fortran_to_cpp`: `xf_file` on each input file in order;
      an error thrown is written out and sets the exit code, and the loop goes on with
      the next file; a failed assertion ends the run. */
  method TranslateFiles(t: Translator, files: seq<SourceFile>, argv: seq<string>)
    returns (cfiles: seq<CFile>, log: seq<string>, aborted: Option<string>, ghost outcomes: seq<Result<CFile>>)
    requires |argv| > 0 && UnitsOf(t.moduleMap, t.uses, files, argv)
    modifies t
    ensures UnitsOf(t.moduleMap, t.uses, files, argv)
    ensures Outcomes(outcomes, files, argv)
    ensures cfiles == OkFiles(outcomes) && log == ErrorLog(outcomes)
    ensures aborted.Some? <==> Aborts(outcomes)
    ensures aborted.Some? ==> aborted.value == outcomes[|outcomes| - 1].why
    ensures aborted.None? ==> |outcomes| == |Inputs(files, argv)| && |cfiles| + |log| == |Inputs(files, argv)|
    ensures CFilesOf(cfiles, files, argv, |files|) && ErrorLines(log)
  {
    cfiles, log, aborted, outcomes := [], [], None, [];
    var i := 0;
    while i < |files|
      invariant 0 <= i <= |files|
      invariant UnitsOf(t.moduleMap, t.uses, files, argv)
      invariant |outcomes| == |Inputs(files[..i], argv)| <= |Inputs(files, argv)|
      invariant forall k :: 0 <= k < |outcomes| ==> !outcomes[k].Abort?
      invariant forall k :: 0 <= k < |outcomes| ==> Translated(outcomes[k], files, argv, Inputs(files, argv)[k])
      invariant cfiles == OkFiles(outcomes) && log == ErrorLog(outcomes)
      invariant CFilesOf(cfiles, files, argv, i) && ErrorLines(log)
    {
      InputsSnoc(files, argv, i);
      if IsInputFile(files[i], argv) {
        var r := TranslateOne(t, files, argv, i);
        OutcomesSnoc(outcomes, r, files, argv, i);
        outcomes := outcomes + [r];
        match r {
          case Ok(c) =>
            CFilesSnoc(cfiles, c, files, argv, i);
            cfiles := cfiles + [c];
          case Fail(msg) =>
            ErrorLinesSnoc(log, msg);
            log := log + [ErrorPrefix + msg];
          case Abort(why) =>
            aborted := Some(why);
            return;
        }
      }
      i := i + 1;
    }
    assert files[..i] == files;
    OutcomesSplit(outcomes);
  }

  /** One turn of the translation loop: `xf_file` on the input file at position `i`. The
      modules it defines and the uses it records belong to that file. */
  method TranslateOne(t: Translator, files: seq<SourceFile>, argv: seq<string>, i: nat) returns (r: Result<CFile>)
    requires |argv| > 0 && i < |files| && IsInputFile(files[i], argv)
    requires UnitsOf(t.moduleMap, t.uses, files, argv)
    modifies t
    ensures UnitsOf(t.moduleMap, t.uses, files, argv)
    ensures !files[i].isFortran ==> r == Fail(MsgNotFortran)
    ensures r.Ok? ==> r.value.unit.index == i && UnitOf(r.value.unit, files, argv) && files[i].isFortran
    ensures files[i].isFortran && '.' !in files[i].name ==> r == Abort(OutOfRange)
  {
    ghost var acted;
    r, acted := t.XfFile(i, files[i].tree, files[i].name, files[i].isFortran);
  }

  /** The include the link pass inserts for a use of a module defined in `u`'s file. */
  function ModuleInclude(user: UnitRef, u: UnitRef): Include
    requires '.' in u.outName
  {
    Include(user.index, BaseName(ReplaceExt(u.outName, ".h")))
  }

  /** Whether the link pass can handle every use: each module used is defined, and its
      C file's name has an extension to replace. */
  predicate Linkable(uses: seq<(UnitRef, string)>, moduleMap: map<string, UnitRef>)
  {
    forall k :: 0 <= k < |uses| ==> uses[k].1 in moduleMap && '.' in moduleMap[uses[k].1].outName
  }

  /** The loop over `use_statements`: an unknown module fails the assertion; otherwise
      the using file includes the header named after the defining file's C file. */
  method LinkModules(uses: seq<(UnitRef, string)>, moduleMap: map<string, UnitRef>) returns (r: Result<seq<Include>>)
    ensures r.Ok? <==> Linkable(uses, moduleMap)
    ensures !r.Ok? ==> r == Abort(AssertModule) || r == Abort(OutOfRange)
    ensures r == Abort(OutOfRange) ==> exists k :: 0 <= k < |uses| && uses[k].1 in moduleMap && '.' !in moduleMap[uses[k].1].outName
    ensures r.Ok? ==>
      |r.value| == |uses| &&
      forall k :: 0 <= k < |uses| ==> r.value[k] == ModuleInclude(uses[k].0, moduleMap[uses[k].1])
  {
    var links, i := LinkPrefix(uses, moduleMap);
    if i == |uses| {
      r := Ok(links);
    } else if uses[i].1 !in moduleMap {
      assert |AssertModule| != |OutOfRange|;
      r := Abort(AssertModule);
    } else {
      r := Abort(OutOfRange);
    }
  }

  /** The loop of the link pass up to the first use it cannot handle: `i` uses are
      linked, and the use at `i`, if any, names an unknown module or a C file name
      without an extension. */
  method LinkPrefix(uses: seq<(UnitRef, string)>, moduleMap: map<string, UnitRef>) returns (links: seq<Include>, i: nat)
    ensures i <= |uses| && |links| == i
    ensures forall k :: 0 <= k < i ==> uses[k].1 in moduleMap && '.' in moduleMap[uses[k].1].outName
    ensures forall k :: 0 <= k < i ==> links[k] == ModuleInclude(uses[k].0, moduleMap[uses[k].1])
    ensures i < |uses| ==> !(uses[i].1 in moduleMap && '.' in moduleMap[uses[i].1].outName)
  {
    links, i := [], 0;
    while i < |uses| && uses[i].1 in moduleMap && '.' in moduleMap[uses[i].1].outName
      invariant i <= |uses| && |links| == i
      invariant forall k :: 0 <= k < i ==> uses[k].1 in moduleMap && '.' in moduleMap[uses[k].1].outName
      invariant forall k :: 0 <= k < i ==> links[k] == ModuleInclude(uses[k].0, moduleMap[uses[k].1])
    {
      links := links + [ModuleInclude(uses[i].0, moduleMap[uses[i].1])];
      i := i + 1;
    }
  }



  /** The C files of input files can always be linked, and the header a use includes is
      named after the Fortran file defining the module, with the extension ".h". */
  lemma LinksNameModuleHeaders(uses: seq<(UnitRef, string)>, moduleMap: map<string, UnitRef>, files: seq<SourceFile>, argv: seq<string>)
    requires |argv| > 0
    requires forall m :: m in moduleMap ==> UnitOf(moduleMap[m], files, argv)
    requires forall k :: 0 <= k < |uses| ==> uses[k].1 in moduleMap
    ensures Linkable(uses, moduleMap)
    ensures forall k :: 0 <= k < |uses| ==>
      var u := moduleMap[uses[k].1];
      u.index < |files| && '.' in files[u.index].name && ModuleInclude(uses[k].0, u).header == BaseName(ReplaceExt(files[u.index].name, ".h"))
  {
    forall k | 0 <= k < |uses|
      ensures '.' in moduleMap[uses[k].1].outName
      ensures ModuleInclude(uses[k].0, moduleMap[uses[k].1]).header ==
        BaseName(ReplaceExt(files[moduleMap[uses[k].1].index].name, ".h"))
    {
      var u := moduleMap[uses[k].1];
      ReplaceExtTwice(files[u.index].name, ".c", ".h");
    }
  }

  /** The modules of input files can be linked unless a use names an unknown module. */
  lemma UnknownModule(uses: seq<(UnitRef, string)>, moduleMap: map<string, UnitRef>, files: seq<SourceFile>, argv: seq<string>)
    requires |argv| > 0
    requires forall m :: m in moduleMap ==> UnitOf(moduleMap[m], files, argv)
    ensures forall m :: m in moduleMap ==> '.' in moduleMap[m].outName
    ensures !Linkable(uses, moduleMap) ==> exists k :: 0 <= k < |uses| && uses[k].1 !in moduleMap
  {
    if forall k :: 0 <= k < |uses| ==> uses[k].1 in moduleMap {
      LinksNameModuleHeaders(uses, moduleMap, files, argv);
    }
  }

  /** The header `h` re-declares the top-level declarations of `body`, in order. */
  predicate Redeclares(h: HFile, body: seq<Stmt>)
  {
    |h.decls| == |TopDecls(body)| &&
    forall i :: 0 <= i < |h.decls| ==> h.decls[i] == Redeclare(TopDecls(body)[i])
  }

  /** The header `xf_gen_header` makes of the C file `c`, and the file's include of it:
      named after the file with ".h", re-declaring each top-level declaration in order. */
  predicate HeaderOf(c: CFile, h: HFile, l: Include)
    requires '.' in c.unit.outName
  {
    h.name == ReplaceExt(c.unit.outName, ".h") && Redeclares(h, c.body) &&
    l == Include(c.unit.index, BaseName(h.name))
  }

  /** The header loop of `fortran_to_cpp`: `xf_gen_header` on each translated file, then
      the file includes its header. */
  method GenHeaders(cfiles: seq<CFile>) returns (headers: seq<HFile>, links: seq<Include>)
    requires forall k :: 0 <= k < |cfiles| ==> '.' in cfiles[k].unit.outName
    ensures |headers| == |cfiles| && |links| == |cfiles|
    ensures forall k :: 0 <= k < |cfiles| ==> HeaderOf(cfiles[k], headers[k], links[k])
  {
    headers, links := [], [];
    var i := 0;
    while i < |cfiles|
      invariant 0 <= i <= |cfiles| && |headers| == i && |links| == i
      invariant forall k :: 0 <= k < i ==> HeaderOf(cfiles[k], headers[k], links[k])
    {
      var hname, decls := GenHeader(cfiles[i].unit.outName, cfiles[i].body);
      assert HeaderOf(cfiles[i], HFile(hname, decls), Include(cfiles[i].unit.index, BaseName(hname)));
      headers := headers + [HFile(hname, decls)];
      links := links + [Include(cfiles[i].unit.index, BaseName(hname))];
      i := i + 1;
    }
  }

  /** The C files and error lines of a run that got through to the end: one C file or
      one error line per input file, the exit code saying whether there was an error,
      and a header per C file named after its Fortran file and re-declaring the file's
      top-level declarations in order. */
  ghost predicate CompletedFiles(o: Outcome, files: seq<SourceFile>, argv: seq<string>)
    requires |argv| > 0
  {
    o.Exit? &&
    (o.code == 0 <==> o.log == []) && (o.code == 0 || o.code == 1) &&
    |o.cfiles| + |o.log| == |Inputs(files, argv)| &&
    (forall k :: 0 <= k < |o.log| ==> |o.log[k]| >= |ErrorPrefix| && o.log[k][..|ErrorPrefix|] == ErrorPrefix) &&
    |o.headers| == |o.cfiles| &&
    (forall k :: 0 <= k < |o.cfiles| ==>
      var j := o.cfiles[k].unit.index;
      j < |files| && IsInputFile(files[j], argv) && files[j].isFortran && '.' in files[j].name &&
      o.cfiles[k].unit.outName == ReplaceExt(files[j].name, ".c") &&
      o.headers[k].name == ReplaceExt(files[j].name, ".h") &&
      Redeclares(o.headers[k], o.cfiles[k].body)) &&
    (forall k, l :: 0 <= k < l < |o.cfiles| ==> o.cfiles[k].unit.index < o.cfiles[l].unit.index)
  }

  /** The module links of a run: each names a using input file and the header of an input
      file, the one defining the module. */
  ghost predicate ModuleLinks(links: seq<Include>, files: seq<SourceFile>, argv: seq<string>)
    requires |argv| > 0
  {
    forall k :: 0 <= k < |links| ==>
      links[k].unit < |files| && IsInputFile(files[links[k].unit], argv) &&
      (exists d :: 0 <= d < |files| && IsInputFile(files[d], argv) && '.' in files[d].name &&
        links[k].header == BaseName(ReplaceExt(files[d].name, ".h")))
  }

  /** What a run that got through to the end has built: the files above, the module links
      first, then each C file's link to its own header. */
  ghost predicate Completed(o: Outcome, files: seq<SourceFile>, argv: seq<string>)
    requires |argv| > 0
  {
    CompletedFiles(o, files, argv) && |o.links| >= |o.cfiles| &&
    ModuleLinks(o.links[..|o.links| - |o.cfiles|], files, argv) &&
    (forall k :: 0 <= k < |o.cfiles| ==>
      o.links[|o.links| - |o.cfiles| + k] == Include(o.cfiles[k].unit.index, BaseName(o.headers[k].name)))
  }

  /** Every link the pass makes for uses recorded by the translator names input files. */
  lemma LinksOfInputs(uses: seq<(UnitRef, string)>, moduleMap: map<string, UnitRef>, files: seq<SourceFile>, argv: seq<string>, links: seq<Include>)
    requires |argv| > 0
    requires forall m :: m in moduleMap ==> UnitOf(moduleMap[m], files, argv)
    requires forall k :: 0 <= k < |uses| ==> UnitOf(uses[k].0, files, argv)
    requires Linkable(uses, moduleMap) && |links| == |uses|
    requires forall k :: 0 <= k < |uses| ==> links[k] == ModuleInclude(uses[k].0, moduleMap[uses[k].1])
    ensures ModuleLinks(links, files, argv)
  {
    LinksNameModuleHeaders(uses, moduleMap, files, argv);
    forall k | 0 <= k < |links|
      ensures exists d ::
        0 <= d < |files| && IsInputFile(files[d], argv) && '.' in files[d].name &&
        links[k].header == BaseName(ReplaceExt(files[d].name, ".h"))
    {
      var u := moduleMap[uses[k].1];
      assert UnitOf(u, files, argv);
    }
  }

  /** The header names of the C files of input files are their Fortran files' names with
      the extension ".h". */
  lemma HeaderNames(cfiles: seq<CFile>, files: seq<SourceFile>, argv: seq<string>)
    requires |argv| > 0
    requires forall k :: 0 <= k < |cfiles| ==> UnitOf(cfiles[k].unit, files, argv)
    ensures forall k :: 0 <= k < |cfiles| ==>
      '.' in cfiles[k].unit.outName && cfiles[k].unit.index < |files| && '.' in files[cfiles[k].unit.index].name &&
      ReplaceExt(cfiles[k].unit.outName, ".h") == ReplaceExt(files[cfiles[k].unit.index].name, ".h")
  {
    forall k | 0 <= k < |cfiles|
      ensures '.' in cfiles[k].unit.outName && cfiles[k].unit.index < |files|
      ensures ReplaceExt(cfiles[k].unit.outName, ".h") == ReplaceExt(files[cfiles[k].unit.index].name, ".h")
    {
      ReplaceExtTwice(files[cfiles[k].unit.index].name, ".c", ".h");
    }
  }

  /** A run that links its modules and writes a header per C file has completed. */
  lemma FinishCompletes(files: seq<SourceFile>, argv: seq<string>, cfiles: seq<CFile>, log: seq<string>,
                        used: seq<Include>, headers: seq<HFile>, own: seq<Include>)
    requires |argv| > 0
    requires |cfiles| + |log| == |Inputs(files, argv)| && |headers| == |cfiles| && |own| == |cfiles|
    requires forall k, l :: 0 <= k < l < |cfiles| ==> cfiles[k].unit.index < cfiles[l].unit.index
    requires forall k :: 0 <= k < |log| ==> |log[k]| >= |ErrorPrefix| && log[k][..|ErrorPrefix|] == ErrorPrefix
    requires ModuleLinks(used, files, argv)
    requires forall k :: 0 <= k < |cfiles| ==>
      UnitOf(cfiles[k].unit, files, argv) && files[cfiles[k].unit.index].isFortran &&
      headers[k].name == ReplaceExt(files[cfiles[k].unit.index].name, ".h") &&
      Redeclares(headers[k], cfiles[k].body) &&
      own[k] == Include(cfiles[k].unit.index, BaseName(headers[k].name))
    ensures Completed(Exit(if log == [] then 0 else 1, log, cfiles, headers, used + own), files, argv)
  {
    var o := Exit(if log == [] then 0 else 1, log, cfiles, headers, used + own);
    assert CompletedFiles(o, files, argv);
    assert o.links[..|o.links| - |o.cfiles|] == used;
    forall k | 0 <= k < |o.cfiles|
      ensures o.links[|o.links| - |o.cfiles| + k] == Include(o.cfiles[k].unit.index, BaseName(o.headers[k].name))
    {
      assert o.links[|used| + k] == own[k];
    }
  }

  /** The end of `fortran_to_cpp` after the translation loop: the link pass over the uses
      of modules, then the headers. */
  method Finish(files: seq<SourceFile>, argv: seq<string>, cfiles: seq<CFile>, log: seq<string>,
                uses: seq<(UnitRef, string)>, moduleMap: map<string, UnitRef>) returns (o: Outcome)
    requires |argv| > 0
    requires forall m :: m in moduleMap ==> UnitOf(moduleMap[m], files, argv)
    requires forall k :: 0 <= k < |uses| ==> UnitOf(uses[k].0, files, argv)
    requires |cfiles| + |log| == |Inputs(files, argv)|
    requires forall k :: 0 <= k < |cfiles| ==> UnitOf(cfiles[k].unit, files, argv) && files[cfiles[k].unit.index].isFortran
    requires forall k, l :: 0 <= k < l < |cfiles| ==> cfiles[k].unit.index < cfiles[l].unit.index
    requires forall k :: 0 <= k < |log| ==> |log[k]| >= |ErrorPrefix| && log[k][..|ErrorPrefix|] == ErrorPrefix
    ensures o.Exit? ==> Completed(o, files, argv) && o.log == log && o.cfiles == cfiles
    ensures o.Exit? ==>
      Linkable(uses, moduleMap) && |o.links| == |uses| + |cfiles| &&
      forall k :: 0 <= k < |uses| ==> o.links[k] == ModuleInclude(uses[k].0, moduleMap[uses[k].1])
    ensures o.Aborted? ==> o.log == log
    ensures o.Aborted? <==> exists k :: 0 <= k < |uses| && uses[k].1 !in moduleMap
    ensures o.Aborted? ==> o.why == AssertModule
  {
    var used := LinkModules(uses, moduleMap);
    if !used.Ok? {
      UnknownModule(uses, moduleMap, files, argv);
      o := Aborted(used.why, log);
      return;
    }
    LinksOfInputs(uses, moduleMap, files, argv, used.value);
    HeaderNames(cfiles, files, argv);
    var headers, own := GenHeaders(cfiles);
    FinishCompletes(files, argv, cfiles, log, used.value, headers, own);
    o := Exit(if log == [] then 0 else 1, log, cfiles, headers, used.value + own);
    assert o.links[..|uses|] == used.value;
  }

  /** `main` with `fortran_to_cpp`. `project` is what ROSE's `frontend` makes of the
      command line (`None`: no project); `typeOf` and `ftypeOf` are ROSE's typing of C
      and Fortran expressions. */
  method Run(argv: seq<string>, project: Option<seq<SourceFile>>, typeOf: Expr -> CType, ftypeOf: Expr -> FType)
    returns (o: Outcome, ghost outcomes: seq<Result<CFile>>, ghost uses: seq<(UnitRef, string)>, ghost moduleMap: map<string, UnitRef>)
    requires |argv| > 0
    ensures |argv| == 1 ==> o == Exit(0, [MsgNothing], [], [], [])
    ensures |argv| > 1 && project.None? ==> o == Exit(1, [MsgNoProject], [], [], [])
    ensures o.Exit? ==> o.code == 0 || o.code == 1
    ensures o.Exit? && |argv| > 1 && project.Some? ==> Completed(o, project.value, argv)
    ensures o.Aborted? ==> |argv| > 1 && project.Some?
    ensures |argv| > 1 && project.Some? ==>
      var files := project.value;
      Outcomes(outcomes, files, argv) && o.log == ErrorLog(outcomes) &&
      (o.Exit? ==> o.cfiles == OkFiles(outcomes)) &&
      (Aborts(outcomes) ==> o == Aborted(outcomes[|outcomes| - 1].why, ErrorLog(outcomes))) &&
      (!Aborts(outcomes) ==>
        |outcomes| == |Inputs(files, argv)| && UnitsOf(moduleMap, uses, files, argv) &&
        (o.Aborted? <==> exists k :: 0 <= k < |uses| && uses[k].1 !in moduleMap) &&
        (o.Aborted? ==> o.why == AssertModule) &&
        (o.Exit? ==>
           Linkable(uses, moduleMap) && |o.links| == |uses| + |o.cfiles| &&
           forall k :: 0 <= k < |uses| ==> o.links[k] == ModuleInclude(uses[k].0, moduleMap[uses[k].1])))
  {
    outcomes, uses, moduleMap := [], [], map[];
    if |argv| == 1 {
      o := Exit(0, [MsgNothing], [], [], []);
      return;
    }
    if project.None? {
      o := Exit(1, [MsgNoProject], [], [], []);
      return;
    }
    var files := project.value;
    var globals := CollectInputs(files, argv);
    var t := new Translator(typeOf, ftypeOf);
    var cfiles, log, aborted;
    cfiles, log, aborted, outcomes := TranslateFiles(t, files, argv);
    uses, moduleMap := t.uses, t.moduleMap;
    if aborted.Some? {
      o := Aborted(aborted.value, log);
      return;
    }
    o := Finish(files, argv, cfiles, log, t.uses, t.moduleMap);
  }
}
