/** The build driver of cmd/main.go: the default configuration path, the
    selection of installation scripts from the template, the order in which
    they run and the rule that stops at the first failure, and how the
    buffered output of a script is shown. */
module Driver {
  import opened Wrappers
  import opened GoStrings
  import opened GoFilepath

  // ---------------------------------------------------------------------------
  // Paths
  // ---------------------------------------------------------------------------

  /** The configuration file the build reads: the --config flag when one is
      given, otherwise config.yaml in the template directory. */
  function ConfigPath(configFlag: string, templatePath: string): string
  {
    if configFlag == "" then Join(templatePath, "config.yaml") else configFlag
  }

  /** A given --config flag is used as it is; without one the file read is
      config.yaml directly inside the cleaned template directory. */
  lemma ConfigPathDefault(configFlag: string, templatePath: string)
    ensures configFlag != "" ==> ConfigPath(configFlag, templatePath) == configFlag
    ensures configFlag == "" ==> Base(ConfigPath(configFlag, templatePath)) == "config.yaml"
    ensures configFlag == "" ==>
      ConfigPath(configFlag, templatePath) ==
        (if templatePath == "" then "config.yaml"
         else if Clean(templatePath) == "/" then "/" + "config.yaml"
         else if Clean(templatePath) == "." then "config.yaml"
         else Clean(templatePath) + "/" + "config.yaml")
  {
    if configFlag == "" {
      JoinBase(templatePath, "config.yaml");
      JoinName(templatePath, "config.yaml");
    }
  }

  /** The template's directory of installation scripts. */
  function ScriptsDir(templatePath: string): string
  {
    Join(templatePath, "scripts/install")
  }

  /** Where a script is found inside the chroot: under /scripts/install, by
      the last element of its path on the host. */
  function ChrootScriptPath(script: string): string
  {
    "/scripts/install/" + Base(script)
  }

  /** The chroot paths of a list of scripts, in the same order. */
  function ChrootPaths(scripts: seq<string>): (paths: seq<string>)
    ensures |paths| == |scripts|
  {
    seq(|scripts|, i requires 0 <= i < |scripts| => ChrootScriptPath(scripts[i]))
  }

  // ---------------------------------------------------------------------------
  // getScriptsInOrder
  // ---------------------------------------------------------------------------

  /** One entry of a directory listing. */
  datatype DirEntry = DirEntry(name: string, isDir: bool)

  /** The entries getScriptsInOrder keeps: not a directory, and extension ".sh". */
  predicate IsScript(e: DirEntry)
  {
    !e.isDir && Ext(e.name) == ".sh"
  }

  /** A script is a file (not a directory) whose name ends in ".sh". */
  lemma ScriptEntry(e: DirEntry)
    ensures IsScript(e) <==> !e.isDir && HasSuffix(e.name, ".sh")
  {
    ExtIsSh(e.name);
  }

  /** The suffix is matched exactly: in a different letter case, with more after
      it, or on a directory, it does not make a script. */
  lemma ScriptEntryExamples()
    ensures IsScript(DirEntry("01-base.sh", false))
    ensures !IsScript(DirEntry("run.SH", false))
    ensures !IsScript(DirEntry("setup.sh.bak", false))
    ensures !IsScript(DirEntry("lib.sh", true))
  {
    ScriptEntry(DirEntry("01-base.sh", false));
    ScriptEntry(DirEntry("run.SH", false));
    ScriptEntry(DirEntry("setup.sh.bak", false));
    assert "01-base.sh"[7..] == ".sh";
    assert "run.SH"[3..] != ".sh" by { assert "run.SH"[4] != 's'; }
    assert "setup.sh.bak"[9..] != ".sh" by { assert "setup.sh.bak"[9] != '.'; }
  }

  /** The names of the script entries of a listing, in listing order. */
  function ScriptNames(entries: seq<DirEntry>): seq<string>
  {
    if entries == [] then []
    else
      var n := |entries| - 1;
      ScriptNames(entries[..n]) + (if IsScript(entries[n]) then [entries[n].name] else [])
  }

  /** The script entries of a listing, joined onto dir, in listing order. */
  function Scripts(dir: string, entries: seq<DirEntry>): (scripts: seq<string>)
    ensures |scripts| == |ScriptNames(entries)|
  {
    var names := ScriptNames(entries);
    seq(|names|, k requires 0 <= k < |names| => Join(dir, names[k]))
  }

  /** The positions in the listing of its script entries, in listing order. */
  function ScriptIndices(entries: seq<DirEntry>): (ix: seq<nat>)
    ensures forall k :: 0 <= k < |ix| ==> ix[k] < |entries|
  {
    if entries == [] then []
    else
      var n := |entries| - 1;
      ScriptIndices(entries[..n]) + (if IsScript(entries[n]) then [n] else [])
  }

  /** Every listed position holds a script entry. */
  lemma {:induction false} ScriptIndicesAreScripts(entries: seq<DirEntry>)
    ensures forall k :: 0 <= k < |ScriptIndices(entries)| ==> IsScript(entries[ScriptIndices(entries)[k]])
  {
    if entries != [] {
      var n := |entries| - 1;
      var init := entries[..n];
      ScriptIndicesAreScripts(init);
      assert forall k :: 0 <= k < |ScriptIndices(init)| ==>
        entries[ScriptIndices(init)[k]] == init[ScriptIndices(init)[k]];
    }
  }

  /** The listed positions increase strictly, so none is listed twice. */
  lemma {:induction false} ScriptIndicesIncreasing(entries: seq<DirEntry>)
    ensures forall k, l :: 0 <= k < l < |ScriptIndices(entries)| ==>
      ScriptIndices(entries)[k] < ScriptIndices(entries)[l]
  {
    if entries != [] {
      ScriptIndicesIncreasing(entries[..|entries| - 1]);
    }
  }

  /** Every script entry's position is listed. */
  lemma {:induction false} ScriptIndicesComplete(entries: seq<DirEntry>)
    ensures forall i :: 0 <= i < |entries| && IsScript(entries[i]) ==> i in ScriptIndices(entries)
  {
    if entries != [] {
      var n := |entries| - 1;
      var init := entries[..n];
      ScriptIndicesComplete(init);
      assert forall i :: 0 <= i < n ==> entries[i] == init[i];
    }
  }

  /** ScriptNames holds the names of the entries at the listed positions. */
  lemma {:induction false} ScriptNamesAtIndices(entries: seq<DirEntry>)
    ensures |ScriptNames(entries)| == |ScriptIndices(entries)|
    ensures forall k :: 0 <= k < |ScriptIndices(entries)| ==>
      ScriptNames(entries)[k] == entries[ScriptIndices(entries)[k]].name
  {
    if entries != [] {
      var n := |entries| - 1;
      var init := entries[..n];
      ScriptNamesAtIndices(init);
      assert forall k :: 0 <= k < |ScriptIndices(init)| ==>
        entries[ScriptIndices(init)[k]] == init[ScriptIndices(init)[k]];
    }
  }

  /** ScriptIndices lists every script entry and nothing else, each once, in
      increasing order, and ScriptNames holds the names of exactly those entries. */
  lemma ScriptIndicesExact(entries: seq<DirEntry>)
    ensures var ix := ScriptIndices(entries); var names := ScriptNames(entries);
      && (forall k :: 0 <= k < |ix| ==> IsScript(entries[ix[k]]))
      && (forall k, l :: 0 <= k < l < |ix| ==> ix[k] < ix[l])
      && (forall i :: 0 <= i < |entries| && IsScript(entries[i]) ==> i in ix)
      && |names| == |ix|
      && (forall k :: 0 <= k < |ix| ==> names[k] == entries[ix[k]].name)
  {
    ScriptIndicesAreScripts(entries);
    ScriptIndicesIncreasing(entries);
    ScriptIndicesComplete(entries);
    ScriptNamesAtIndices(entries);
  }

  /** getScriptsInOrder: list dir and keep the script entries, each joined
      onto dir, in the order of the listing; a listing error is returned as is. */
  method ScriptsInOrder(dir: string, listing: Result<seq<DirEntry>, string>)
    returns (scripts: Result<seq<string>, string>)
    ensures listing.Failure? ==> scripts == Failure(listing.error)
    ensures listing.Success? ==> scripts == Success(Scripts(dir, listing.value))
  {
    if listing.Failure? {
      return Failure(listing.error);
    }
    var files := listing.value;
    var found: seq<string> := [];
    for i := 0 to |files|
      invariant found == Scripts(dir, files[..i])
    {
      var file := files[i];
      assert files[..i + 1][..i] == files[..i];
      if !file.isDir && Ext(file.name) == ".sh" {
        found := found + [Join(dir, file.name)];
      }
    }
    assert files[..|files|] == files;
    return Success(found);
  }

  /** Directory entries have plain names, so the k-th script runs in the chroot
      as /scripts/install/ followed by the name of the k-th script entry. */
  lemma ChrootPathsOfListing(dir: string, entries: seq<DirEntry>)
    requires forall i :: 0 <= i < |entries| ==> IsName(entries[i].name)
    ensures var scripts := Scripts(dir, entries); var ix := ScriptIndices(entries);
      && |scripts| == |ix|
      && forall k :: 0 <= k < |scripts| ==>
           ChrootScriptPath(scripts[k]) == "/scripts/install/" + entries[ix[k]].name
  {
    ScriptIndicesExact(entries);
    var ix := ScriptIndices(entries);
    forall k | 0 <= k < |ix|
      ensures Base(Scripts(dir, entries)[k]) == entries[ix[k]].name
    {
      JoinBase(dir, entries[ix[k]].name);
    }
  }

  // ---------------------------------------------------------------------------
  // The output preview of a script that succeeded in buffered mode
  // ---------------------------------------------------------------------------

  const OutputBegin := "--- Output begin ---"
  const OutputEnd := "--- Output end ---"
  const PreviewBegin := "--- Output preview (use --verbose for full output) ---"
  const PreviewEnd := "--- End of preview ---"

  /** The whole output between its two markers. */
  function Framed(output: string): seq<string>
  {
    [OutputBegin, output, OutputEnd]
  }

  /** The count pieces of lines from position start on. */
  function Excerpt(lines: seq<string>, start: nat, count: nat): (r: seq<string>)
    requires start + count <= |lines|
    ensures |r| == count
  {
    seq(count, k requires 0 <= k < count => lines[start + k])
  }

  /** The lines printed for the output of a script that succeeded: nothing for
      empty output, the whole output under 500 bytes, and from 500 bytes on the
      first five and the last five of its newline-separated pieces when it has
      more than ten, the whole output otherwise. */
  function PreviewLines(output: string): seq<string>
  {
    if |output| < 500 then
      if |output| > 0 then Framed(output) else []
    else
      var lines := Split(output, '\n');
      if |lines| > 10 then
        [PreviewBegin] + Excerpt(lines, 0, 5) + ["..."] + Excerpt(lines, |lines| - 5, 5) + [PreviewEnd]
      else Framed(output)
  }

  /** The first index loop of the preview: pieces 0 to 4, those that exist. */
  method PrintFirstFive(lines: seq<string>) returns (printed: seq<string>)
    ensures printed == lines[..if |lines| < 5 then |lines| else 5]
  {
    printed := [];
    for i := 0 to 5
      invariant printed == lines[..if |lines| < i then |lines| else i]
    {
      if i < |lines| {
        printed := printed + [lines[i]];
        assert lines[..i + 1] == lines[..i] + [lines[i]];
      }
    }
  }

  /** The second index loop of the preview: the last five pieces, those that exist. */
  method PrintLastFive(lines: seq<string>) returns (printed: seq<string>)
    ensures printed == lines[if |lines| < 5 then 0 else |lines| - 5..]
  {
    printed := [];
    var from := if |lines| < 5 then 0 else |lines| - 5;
    var i := |lines| - 5;
    while i < |lines|
      invariant |lines| - 5 <= i <= |lines|
      invariant printed == lines[from..if i < from then from else i]
    {
      if i >= 0 && i < |lines| {
        printed := printed + [lines[i]];
        assert lines[from..i + 1] == lines[from..i] + [lines[i]];
      }
      i := i + 1;
    }
  }

  /** The preview of a successful script's output, printed line by line with
      the two index loops of the build command. */
  method Preview(output: string) returns (printed: seq<string>)
    ensures printed == PreviewLines(output)
  {
    if |output| < 500 {
      if |output| > 0 {
        printed := Framed(output);
      } else {
        printed := [];
      }
      return;
    }
    var lines := Split(output, '\n');
    if |lines| > 10 {
      var head := PrintFirstFive(lines);
      var tail := PrintLastFive(lines);
      assert head == Excerpt(lines, 0, 5);
      assert tail == Excerpt(lines, |lines| - 5, 5);
      printed := [PreviewBegin] + head + ["..."] + tail + [PreviewEnd];
    } else {
      printed := Framed(output);
    }
  }

  /** Short output: shown in full between the markers when non-empty, and
      nothing at all when empty. */
  lemma PreviewShort(output: string)
    requires |output| < 500
    ensures |output| > 0 ==> PreviewLines(output) == [OutputBegin, output, OutputEnd]
    ensures |output| == 0 ==> PreviewLines(output) == []
  {
  }

  /** Long output with more than ten pieces: the preview shows pieces 0 to 4,
      "...", and the last five pieces, which do not overlap; at least one piece
      is hidden, no shown piece holds a newline, and the first five, the hidden
      pieces and the last five joined by newlines give back the whole output. */
  lemma PreviewTruncated(output: string)
    requires |output| >= 500 && |Split(output, '\n')| > 10
    ensures var lines := Split(output, '\n'); var p := PreviewLines(output);
      && |p| == 13
      && p[0] == PreviewBegin && p[6] == "..." && p[12] == PreviewEnd
      && p[1..6] == lines[..5]
      && p[7..12] == lines[|lines| - 5..]
      && 5 < |lines| - 5
      && (forall k :: 1 <= k < 12 && k != 6 ==> '\n' !in p[k])
      && JoinWith(p[1..6] + lines[5..|lines| - 5] + p[7..12], '\n') == output
  {
    var lines := Split(output, '\n');
    var p := PreviewLines(output);
    var head := Excerpt(lines, 0, 5);
    var tail := Excerpt(lines, |lines| - 5, 5);
    assert p == [PreviewBegin] + head + ["..."] + tail + [PreviewEnd];
    assert head == lines[..5];
    assert tail == lines[|lines| - 5..];
    assert p[1..6] == head;
    assert p[7..12] == tail;
    SplitPiecesFree(output, '\n');
    SplitJoin(output, '\n');
    assert lines[..5] + lines[5..|lines| - 5] + lines[|lines| - 5..] == lines;
    forall k | 1 <= k < 12 && k != 6
      ensures '\n' !in p[k]
    {
      if k < 6 {
        assert p[k] == lines[k - 1];
      } else {
        assert p[k] == lines[|lines| - 5 + k - 7];
      }
    }
  }

  /** Long output with at most ten pieces is shown in full between the markers. */
  lemma PreviewLongFewLines(output: string)
    requires |output| >= 500 && |Split(output, '\n')| <= 10
    ensures PreviewLines(output) == [OutputBegin, output, OutputEnd]
  {
  }

  // ---------------------------------------------------------------------------
  // The script loop
  // ---------------------------------------------------------------------------

  /** What running a script in the jail returns: its buffered output, and the
      error when it failed. */
  datatype ExecResult = ExecResult(output: string, failure: Option<string>)

  /** How the script loop ends: every script succeeded, or the named script
      failed with the given error. */
  datatype RunOutcome = AllScriptsSucceeded | ScriptFailed(script: string, cause: string)

  /** Script i (from 0), run in position i at its chroot path, succeeds; exec
      maps the position of a run and the path it runs to the result. */
  predicate Succeeds(exec: (nat, string) -> ExecResult, scripts: seq<string>, i: nat)
    requires i < |scripts|
  {
    exec(i, ChrootScriptPath(scripts[i])).failure.None?
  }

  /** What the loop shows of one script's output: nothing in verbose mode
      (the output went straight to the terminal), the full output when the
      script failed, and the preview when it succeeded. */
  function ScriptDisplay(verbose: bool, result: ExecResult): seq<string>
  {
    if verbose then []
    else if result.failure.Some? then Framed(result.output)
    else PreviewLines(result.output)
  }

  /** What the loop prints of one script's buffered output once it has run.
      It is a method because the preview it prints comes from the two index
      loops of Preview; ScriptDisplay is its specification. */
  method ShowResult(verbose: bool, result: ExecResult) returns (lines: seq<string>)
    ensures lines == ScriptDisplay(verbose, result)
  {
    lines := [];
    if !verbose {
      if result.failure.Some? {
        lines := Framed(result.output);
      } else {
        lines := Preview(result.output);
      }
    }
  }

  /** What the loop shows for a sequence of script results, in order. */
  function Displays(verbose: bool, results: seq<ExecResult>): seq<string>
  {
    if results == [] then []
    else
      var n := |results| - 1;
      Displays(verbose, results[..n]) + ScriptDisplay(verbose, results[n])
  }

  /** What the loop shows, one script at a time after each has run. */
  method ShowResults(verbose: bool, results: seq<ExecResult>) returns (shown: seq<string>)
    ensures shown == Displays(verbose, results)
  {
    shown := [];
    for k := 0 to |results|
      invariant shown == Displays(verbose, results[..k])
    {
      assert results[..k + 1][..k] == results[..k];
      var lines := ShowResult(verbose, results[k]);
      shown := shown + lines;
    }
    assert results[..|results|] == results;
  }

  /** In verbose mode nothing of the scripts' output is buffered or shown. */
  lemma {:induction false} VerboseShowsNothing(results: seq<ExecResult>)
    ensures Displays(true, results) == []
  {
    if results != [] {
      VerboseShowsNothing(results[..|results| - 1]);
    }
  }

  /** A failed script's output is shown in full, after what the scripts before
      it showed. */
  lemma FailureShownInFull(results: seq<ExecResult>, failed: ExecResult)
    requires failed.failure.Some?
    ensures Displays(false, results + [failed]) ==
      Displays(false, results) + [OutputBegin, failed.output, OutputEnd]
  {
    assert (results + [failed])[..|results|] == results;
  }

  /** A run whose paths are the first chroot paths of the scripts, in order,
      and whose results are what exec returned for them: result k reports the
      success of script k. */
  lemma ResultsReportSuccess(scripts: seq<string>, exec: (nat, string) -> ExecResult,
                             ran: seq<string>, results: seq<ExecResult>)
    requires |ran| <= |scripts| && ran == ChrootPaths(scripts)[..|ran|]
    requires |results| == |ran| && forall k :: 0 <= k < |ran| ==> results[k] == exec(k, ran[k])
    ensures forall k :: 0 <= k < |ran| ==> (results[k].failure.None? <==> Succeeds(exec, scripts, k))
  {
    forall k | 0 <= k < |ran|
      ensures results[k].failure.None? <==> Succeeds(exec, scripts, k)
    {
      assert ran[k] == ChrootPaths(scripts)[k] == ChrootScriptPath(scripts[k]);
    }
  }

  /** The chroot paths of the first i + 1 scripts extend those of the first i. */
  lemma ChrootPathsPrefix(scripts: seq<string>, i: nat)
    requires i < |scripts|
    ensures ChrootPaths(scripts)[..i + 1] == ChrootPaths(scripts)[..i] + [ChrootScriptPath(scripts[i])]
  {
  }

  /** The script loop: run each script in order as /bin/sh on its chroot path,
      and stop at the first script that fails, naming it. ran lists the chroot
      paths run and results what each returned, in order. Every script before
      the last one run succeeded; either all scripts ran and succeeded, or the
      last one run failed and the outcome names it with its error. */
  method RunScripts(scripts: seq<string>, exec: (nat, string) -> ExecResult)
    returns (ran: seq<string>, results: seq<ExecResult>, outcome: RunOutcome)
    ensures |ran| <= |scripts| && ran == ChrootPaths(scripts)[..|ran|]
    ensures |results| == |ran| && forall i :: 0 <= i < |ran| ==> results[i] == exec(i, ran[i])
    ensures forall i :: 0 <= i < |ran| - 1 ==> Succeeds(exec, scripts, i)
    ensures outcome.AllScriptsSucceeded? ==>
      |ran| == |scripts| && forall i :: 0 <= i < |ran| ==> Succeeds(exec, scripts, i)
    ensures outcome.ScriptFailed? ==>
      && |ran| > 0
      && var j := |ran| - 1;
         && !Succeeds(exec, scripts, j)
         && results[j].failure == Some(outcome.cause) && outcome.script == Base(scripts[j])
  {
    ran := [];
    results := [];
    for i := 0 to |scripts|
      invariant ran == ChrootPaths(scripts)[..i]
      invariant |results| == i && forall k :: 0 <= k < i ==> results[k] == exec(k, ran[k])
      invariant forall k :: 0 <= k < i ==> results[k].failure.None?
    {
      var scriptName := Base(scripts[i]);
      var chrootScriptPath := ChrootScriptPath(scripts[i]);
      var result := exec(i, chrootScriptPath);
      ChrootPathsPrefix(scripts, i);
      ran := ran + [chrootScriptPath];
      results := results + [result];
      if result.failure.Some? {
        ResultsReportSuccess(scripts, exec, ran, results);
        return ran, results, ScriptFailed(scriptName, result.failure.value);
      }
    }
    ResultsReportSuccess(scripts, exec, ran, results);
    outcome := AllScriptsSucceeded;
  }

  /** The installation stage of the build command: collect the scripts of the
      template's scripts/install directory and run them, showing each one's
      output. A listing error ends the stage before any script runs. */
  method InstallScripts(templatePath: string, listing: Result<seq<DirEntry>, string>, verbose: bool,
                        exec: (nat, string) -> ExecResult)
    returns (ran: seq<string>, results: seq<ExecResult>, shown: seq<string>, outcome: Result<RunOutcome, string>)
    ensures listing.Failure? ==> ran == [] && results == [] && shown == [] && outcome == Failure(listing.error)
    ensures listing.Success? ==>
      && outcome.Success?
      && var scripts := Scripts(ScriptsDir(templatePath), listing.value);
         && |ran| <= |scripts| && ran == ChrootPaths(scripts)[..|ran|]
         && (forall i :: 0 <= i < |ran| - 1 ==> Succeeds(exec, scripts, i))
         && (outcome.value.AllScriptsSucceeded? <==>
               |ran| == |scripts| && forall i :: 0 <= i < |ran| ==> Succeeds(exec, scripts, i))
         && |results| == |ran| && (forall i :: 0 <= i < |ran| ==> results[i] == exec(i, ran[i]))
         && (outcome.value.ScriptFailed? ==>
               && |ran| > 0
               && !Succeeds(exec, scripts, |ran| - 1)
               && results[|ran| - 1].failure == Some(outcome.value.cause)
               && outcome.value.script == Base(scripts[|ran| - 1]))
    ensures shown == Displays(verbose, results)
  {
    var scripts := ScriptsInOrder(ScriptsDir(templatePath), listing);
    if scripts.Failure? {
      return [], [], [], Failure(scripts.error);
    }
    var run: RunOutcome;
    ran, results, run := RunScripts(scripts.value, exec);
    shown := ShowResults(verbose, results);
    outcome := Success(run);
  }
}
