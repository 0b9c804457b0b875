/** The workflows of `setup.py`: `checkout_repo`, `repack`, `merge claudecode`,
    `apply_patch`, `apply` and the command dispatch of `main`. Each workflow is
    a pure function on `Host.State` (the specification) and a method on a
    `Host.Machine` proved to produce exactly that state. */
module Setup {
  import opened Fs
  import opened Host
  import opened Text

  /** The `claude` record of `info.json`, with its paths already resolved
      against the editor's data and config directories. */
  datatype PartInfo = PartInfo(
    repo: string,       // GitHub `owner/name`
    commit: string,     // the pinned base commit
    sparse: seq<string>,
    repoPath: Path,     // scratch checkout (data-path)
    localPath: Path,    // live config copy (config-path)
    patchPath: Path)    // the patch file

  /** The `lazy` record of `info.json`, resolved, with the `shaft.data-paths` list. */
  datatype LazyInfo = LazyInfo(repo: string, tag: string, path: Path, dataPaths: seq<Path>)

  function GithubUrl(repo: string): string {
    "https://github.com/" + repo
  }

  function InfoDir(path: Path): Path {
    path + "/.git/info"
  }

  function SparseFile(path: Path): Path {
    path + "/.git/info/sparse-checkout"
  }

  // ---------------------------------------------------------------------------
  // write_patch

  /** What `write_patch` puts in the file: CRLF rewritten to LF on win32 only. */
  function PatchContent(content: string, win32: bool): (r: string)
    ensures !win32 ==> r == content
    ensures '\r' !in content ==> r == content
    ensures Occurrences(r, '\n') == Occurrences(content, '\n')
    ensures win32 ==> |r| == |content| - CountPair(content, '\r', '\n')
    ensures win32 ==> Occurrences(r, '\r') == Occurrences(content, '\r') - CountPair(content, '\r', '\n')
    ensures r == content <==> !win32 || !HasPair(content, '\r', '\n')
  {
    ReplacePairKeepsSecond(content, '\r', '\n');
    ReplacePairLength(content, '\r', '\n', '\n');
    ReplacePairUnchanged(content, '\r', '\n', '\n');
    ReplacePairWithoutA(content, '\r', '\n', '\n');
    if win32 then NormalizeNewlines(content) else content
  }

  function WritePatchStep(s: State, path: Path, content: string, win32: bool): State {
    WriteStep(s, path, PatchContent(content, win32))
  }

  // ---------------------------------------------------------------------------
  // checkout_repo

  function FetchArgs(ref: string, shallow: bool): seq<string> {
    if shallow then ["fetch", "--depth", "1", "origin", ref] else ["fetch", "origin"]
  }

  function CheckoutArgs(ref: string, shallow: bool): seq<string> {
    if shallow then ["checkout", "FETCH_HEAD"] else ["checkout", ref]
  }

  /** First phase of `checkout_repo`: the dirty guard for an existing path, or
      `makedirs`, `git init` and `git remote add origin` for a new one. */
  function CheckoutOpen(g: GitOracle, s: State, path: Path, repo: string): State {
    if path in s.fs then
      var st := GitStep(g, s, path, StatusArgs, false);
      if Dirty(g, s.fs, path) then ExitStep(st, 1) else st
    else
      var m := MakedirsStep(s, path, false);
      var i := GitStep(g, m, path, ["init"], true);
      GitStep(g, i, path, ["remote", "add", "origin", GithubUrl(repo)], true)
  }

  /** Second phase: enable sparse checkout and write the sparse file, when a
      sparse list is given. */
  function CheckoutSparse(g: GitOracle, s: State, path: Path, sparse: seq<string>): State {
    if |sparse| > 0 then
      var c := GitStep(g, s, path, ["config", "core.sparseCheckout", "true"], true);
      var d := MakedirsStep(c, InfoDir(path), true);
      WriteStep(d, SparseFile(path), SparseFileText(sparse))
    else s
  }

  /** Last phase: silence the detached-head advice, fetch and check out. */
  function CheckoutFetch(g: GitOracle, s: State, path: Path, ref: string, shallow: bool): State {
    var s3 := GitStep(g, s, path, ["config", "advice.detachedHead", "false"], true);
    var s4 := GitStep(g, s3, path, FetchArgs(ref, shallow), true);
    GitStep(g, s4, path, CheckoutArgs(ref, shallow), true)
  }

  /** `checkout_repo(path, repo, ref, shallow, sparse)` (the empty list stands for `None`). */
  function CheckoutRepo(g: GitOracle, s: State, path: Path, repo: string, ref: string,
                        shallow: bool, sparse: seq<string>): State
  {
    if !s.outcome.Running? then s
    else
      var s1 := CheckoutOpen(g, s, path, repo);
      if !s1.outcome.Running? then s1
      else
        var s2 := CheckoutSparse(g, s1, path, sparse);
        if !s2.outcome.Running? then s2
        else CheckoutFetch(g, s2, path, ref, shallow)
  }

  method CheckoutRepoOn(m: Machine, path: Path, repo: string, ref: string, shallow: bool, sparse: seq<string>)
    modifies m
    ensures m.St() == CheckoutRepo(m.git, old(m.St()), path, repo, ref, shallow, sparse)
  {
    if !m.outcome.Running? { return; }
    if path in m.fs {
      var st := m.Git(path, StatusArgs, false);
      if !IsBlank(st.stdout) {
        m.Exit(1);
        return;
      }
    } else {
      m.Makedirs(path, false);
      var _ := m.Git(path, ["init"], true);
      var _ := m.Git(path, ["remote", "add", "origin", GithubUrl(repo)], true);
      if !m.outcome.Running? { return; }
    }
    if |sparse| > 0 {
      var _ := m.Git(path, ["config", "core.sparseCheckout", "true"], true);
      m.Makedirs(InfoDir(path), true);
      m.Write(SparseFile(path), SparseFileText(sparse));
      if !m.outcome.Running? { return; }
    }
    var _ := m.Git(path, ["config", "advice.detachedHead", "false"], true);
    var _ := m.Git(path, FetchArgs(ref, shallow), true);
    var _ := m.Git(path, CheckoutArgs(ref, shallow), true);
  }

  // ---------------------------------------------------------------------------
  // rmdir and the repack loop

  /** `rmdir(path)`: nothing when absent; otherwise the path and everything
      beneath it are removed (the fallback chain always ends in removal or exit). */
  function RemovePathStep(s: State, p: Path): State {
    if !s.outcome.Running? || p !in s.fs then s
    else State(RemoveTree(s.fs, p), s.trace + [Rmtree(p)], Running)
  }

  /** One iteration of the loop in `repack`: replace the repo's copy of one
      sparse path with the local one, or skip it if the local one is missing. */
  function RepackEntry(s: State, repoPath: Path, localPath: Path, sparsePath: string): State {
    if !s.outcome.Running? then s
    else
      var dir := RStripSlash(sparsePath);
      var dst := Join(repoPath, dir);
      var src := Join(localPath, dir);
      if src !in s.fs then s
      else
        var cleared := if dst in s.fs then RemovePathStep(s, dst) else s;
        CopytreeStep(cleared, src, dst)
  }

  /** The whole loop, entries in order; a raised copy stops it. */
  function RepackLoop(s: State, repoPath: Path, localPath: Path, sparse: seq<string>): State
    decreases |sparse|
  {
    if sparse == [] || !s.outcome.Running? then s
    else RepackLoop(RepackEntry(s, repoPath, localPath, sparse[0]), repoPath, localPath, sparse[1..])
  }

  lemma RepackLoopSnoc(s: State, repoPath: Path, localPath: Path, sparse: seq<string>, x: string)
    ensures RepackLoop(s, repoPath, localPath, sparse + [x])
         == RepackEntry(RepackLoop(s, repoPath, localPath, sparse), repoPath, localPath, x)
    decreases |sparse|
  {
    if sparse != [] && s.outcome.Running? {
      assert (sparse + [x])[1..] == sparse[1..] + [x];
      RepackLoopSnoc(RepackEntry(s, repoPath, localPath, sparse[0]), repoPath, localPath, sparse[1..], x);
    }
  }

  /** `repack()`. */
  function Repack(g: GitOracle, s: State, info: PartInfo, win32: bool): State {
    if !s.outcome.Running? then s
    else if !IsDir(s.fs, info.localPath) then ExitStep(s, 1)
    else
      var s1 := CheckoutRepo(g, s, info.repoPath, info.repo, info.commit, true, info.sparse);
      if !s1.outcome.Running? then s1
      else
        var s2 := RepackLoop(s1, info.repoPath, info.localPath, info.sparse);
        if !s2.outcome.Running? then s2
        else RepackFinish(g, s2, info, win32)
  }

  /** The end of `repack`: `git diff`; a blank diff ends the command; otherwise
      `write_patch` and `git checkout .` to restore the work tree. */
  function RepackFinish(g: GitOracle, s: State, info: PartInfo, win32: bool): State {
    var diff := g(info.repoPath, ["diff"], s.fs).stdout;
    var s3 := GitStep(g, s, info.repoPath, ["diff"], true);
    if !s3.outcome.Running? || IsBlank(diff) then s3
    else
      var s4 := WritePatchStep(s3, info.patchPath, diff, win32);
      GitStep(g, s4, info.repoPath, ["checkout", "."], true)
  }

  method RemovePathOn(m: Machine, p: Path)
    modifies m
    ensures m.St() == RemovePathStep(old(m.St()), p)
  {
    if !m.outcome.Running? || p !in m.fs { return; }
    m.fs := RemoveTree(m.fs, p);
    m.trace := m.trace + [Rmtree(p)];
  }

  method RepackEntryOn(m: Machine, repoPath: Path, localPath: Path, sparsePath: string)
    modifies m
    ensures m.St() == RepackEntry(old(m.St()), repoPath, localPath, sparsePath)
  {
    if !m.outcome.Running? { return; }
    var dir := RStripSlash(sparsePath);
    var dst := Join(repoPath, dir);
    var src := Join(localPath, dir);
    if src !in m.fs { return; }
    if dst in m.fs {
      RemovePathOn(m, dst);
    }
    m.Copytree(src, dst);
  }

  /** The `for sparse_path in sparse_paths` loop of `repack`. */
  method RepackLoopOn(m: Machine, repoPath: Path, localPath: Path, sparse: seq<string>)
    modifies m
    ensures m.St() == RepackLoop(old(m.St()), repoPath, localPath, sparse)
  {
    ghost var s0 := m.St();
    var i := 0;
    while i < |sparse| && m.outcome.Running?
      invariant 0 <= i <= |sparse|
      invariant m.St() == RepackLoop(s0, repoPath, localPath, sparse[..i])
    {
      RepackLoopSnoc(s0, repoPath, localPath, sparse[..i], sparse[i]);
      assert sparse[..i + 1] == sparse[..i] + [sparse[i]];
      RepackEntryOn(m, repoPath, localPath, sparse[i]);
      i := i + 1;
    }
    RepackLoopSplit(s0, repoPath, localPath, sparse, i);
    if i == |sparse| {
      assert sparse[..i] == sparse;
    }
  }

  method RepackOn(m: Machine, info: PartInfo)
    modifies m
    ensures m.St() == Repack(m.git, old(m.St()), info, m.win32)
  {
    if !m.outcome.Running? { return; }
    if !IsDir(m.fs, info.localPath) {
      m.Exit(1);
      return;
    }
    CheckoutRepoOn(m, info.repoPath, info.repo, info.commit, true, info.sparse);
    if !m.outcome.Running? { return; }
    RepackLoopOn(m, info.repoPath, info.localPath, info.sparse);
    if !m.outcome.Running? { return; }
    var r := m.Git(info.repoPath, ["diff"], true);
    if !m.outcome.Running? || IsBlank(r.stdout) { return; }
    m.Write(info.patchPath, PatchContent(r.stdout, m.win32));
    var _ := m.Git(info.repoPath, ["checkout", "."], true);
  }

  lemma RepackLoopHalted(s: State, repoPath: Path, localPath: Path, sparse: seq<string>)
    requires !s.outcome.Running?
    ensures RepackLoop(s, repoPath, localPath, sparse) == s
  {
  }

  lemma RepackLoopSplit(s: State, repoPath: Path, localPath: Path, sparse: seq<string>, i: nat)
    requires i <= |sparse|
    ensures RepackLoop(s, repoPath, localPath, sparse)
         == RepackLoop(RepackLoop(s, repoPath, localPath, sparse[..i]), repoPath, localPath, sparse[i..])
    decreases |sparse|
  {
    if i > 0 && s.outcome.Running? {
      assert sparse[..i][1..] == sparse[1..][..i - 1];
      assert sparse[i..] == sparse[1..][i - 1..];
      RepackLoopSplit(RepackEntry(s, repoPath, localPath, sparse[0]), repoPath, localPath, sparse[1..], i - 1);
    } else if i == 0 {
      assert sparse[..0] == [];
      assert sparse[0..] == sparse;
    }
  }

  // ---------------------------------------------------------------------------
  // merge claudecode

  /** `merge_claudecode()`: refuse a missing or dirty repo, otherwise write
      `git diff <base> HEAD` to the patch file as it is. */
  function MergeClaudecode(g: GitOracle, s: State, info: PartInfo): State {
    if !s.outcome.Running? then s
    else if !IsDir(s.fs, info.repoPath) then ExitStep(s, 1)
    else
      var st := GitStep(g, s, info.repoPath, StatusArgs, false);
      if Dirty(g, s.fs, info.repoPath) then ExitStep(st, 1)
      else
        var diff := g(info.repoPath, ["diff", info.commit, "HEAD"], st.fs).stdout;
        var d := GitStep(g, st, info.repoPath, ["diff", info.commit, "HEAD"], true);
        WriteStep(d, info.patchPath, diff)
  }

  method MergeClaudecodeOn(m: Machine, info: PartInfo)
    modifies m
    ensures m.St() == MergeClaudecode(m.git, old(m.St()), info)
  {
    if !m.outcome.Running? { return; }
    if !IsDir(m.fs, info.repoPath) {
      m.Exit(1);
      return;
    }
    var st := m.Git(info.repoPath, StatusArgs, false);
    if !IsBlank(st.stdout) {
      m.Exit(1);
      return;
    }
    var r := m.Git(info.repoPath, ["diff", info.commit, "HEAD"], true);
    m.Write(info.patchPath, r.stdout);
  }

  // ---------------------------------------------------------------------------
  // apply_patch

  function TempPatch(patchPath: Path): Path {
    patchPath + ".tmp"
  }

  /** `apply_patch(patch_path, repo_path)`: try `git apply`; on failure under
      win32, retry once with a CRLF-normalised temporary copy when the patch
      holds CRLF; otherwise re-run the original apply with `check=True`. */
  function ApplyPatch(g: GitOracle, s: State, patchPath: Path, repoPath: Path, win32: bool): State {
    if !s.outcome.Running? then s
    else
      var first := g(repoPath, ["apply", patchPath], s.fs);
      var s1 := GitStep(g, s, repoPath, ["apply", patchPath], false);
      if first.status == 0 then s1
      else if win32 && !IsFile(s1.fs, patchPath) then s1.(outcome := Raised)
      else if win32 && HasPair(s1.fs[patchPath].data, '\r', '\n') then
        var temp := TempPatch(patchPath);
        var w := WritePatchStep(s1, temp, s1.fs[patchPath].data, win32);
        var a := GitStep(g, w, repoPath, ["apply", temp], true);
        FinallyUnlinkStep(a, temp)
      else GitStep(g, s1, repoPath, ["apply", patchPath], true)
  }

  method ApplyPatchOn(m: Machine, patchPath: Path, repoPath: Path)
    modifies m
    ensures m.St() == ApplyPatch(m.git, old(m.St()), patchPath, repoPath, m.win32)
  {
    if !m.outcome.Running? { return; }
    var first := m.Git(repoPath, ["apply", patchPath], false);
    if first.status == 0 { return; }
    if m.win32 {
      if !IsFile(m.fs, patchPath) {
        m.outcome := Raised;
        return;
      }
      var content := m.fs[patchPath].data;
      if HasPair(content, '\r', '\n') {
        var temp := TempPatch(patchPath);
        m.Write(temp, PatchContent(content, m.win32));
        var _ := m.Git(repoPath, ["apply", temp], true);
        m.FinallyUnlink(temp);
        return;
      }
    }
    var _ := m.Git(repoPath, ["apply", patchPath], true);
  }

  // ---------------------------------------------------------------------------
  // apply

  /** The data-directory loop of `apply()`: each listed path that is not a
      directory is created with `os.makedirs` (no `exist_ok`). */
  function EnsureDataDirs(s: State, dataPaths: seq<Path>): State
    decreases |dataPaths|
  {
    if dataPaths == [] || !s.outcome.Running? then s
    else
      var s1 := if IsDir(s.fs, dataPaths[0]) then s else MakedirsStep(s, dataPaths[0], false);
      EnsureDataDirs(s1, dataPaths[1..])
  }

  /** `apply()`: create the data directories, then a full (non-shallow,
      non-sparse) checkout of the package manager at its tag. */
  function Apply(g: GitOracle, s: State, lazy: LazyInfo): State {
    var s1 := EnsureDataDirs(s, lazy.dataPaths);
    CheckoutRepo(g, s1, lazy.path, lazy.repo, lazy.tag, false, [])
  }

  lemma EnsureDataDirsSnoc(s: State, dataPaths: seq<Path>, x: Path)
    ensures EnsureDataDirs(s, dataPaths + [x]) == EnsureDataDirs(EnsureDataDirs(s, dataPaths), [x])
    decreases |dataPaths|
  {
    if dataPaths != [] && s.outcome.Running? {
      assert (dataPaths + [x])[1..] == dataPaths[1..] + [x];
      var s1 := if IsDir(s.fs, dataPaths[0]) then s else MakedirsStep(s, dataPaths[0], false);
      EnsureDataDirsSnoc(s1, dataPaths[1..], x);
    }
  }

  /** The loop never changes an entry already on disk; when it returns
      normally every listed path is a directory, and a listed path that is a
      file at the start always makes it raise. */
  lemma {:induction false} EnsureDataDirsMakes(s: State, dataPaths: seq<Path>)
    requires s.outcome.Running?
    ensures var r := EnsureDataDirs(s, dataPaths);
            && Extends(s, r) && !r.outcome.Exited?
            && (forall q :: q in s.fs ==> q in r.fs && r.fs[q] == s.fs[q])
            && (r.outcome.Running? ==> forall i :: 0 <= i < |dataPaths| ==> IsDir(r.fs, dataPaths[i]))
            && ((exists i :: 0 <= i < |dataPaths| && IsFile(s.fs, dataPaths[i])) ==> r.outcome.Raised?)
    decreases |dataPaths|
  {
    if dataPaths == [] { return; }
    var p := dataPaths[0];
    var s1 := if IsDir(s.fs, p) then s else MakedirsStep(s, p, false);
    var r := EnsureDataDirs(s, dataPaths);
    assert r == EnsureDataDirs(s1, dataPaths[1..]);
    if !s1.outcome.Running? {
      assert r == s1 && s1.fs == s.fs;
      return;
    }
    assert IsDir(s1.fs, p) && !IsFile(s.fs, p);
    EnsureDataDirsMakes(s1, dataPaths[1..]);
    assert Extends(s, s1);
    ExtendsTrans(s, s1, r);
    if r.outcome.Running? {
      forall i | 0 <= i < |dataPaths| ensures IsDir(r.fs, dataPaths[i]) {
        if i > 0 { assert dataPaths[i] == dataPaths[1..][i - 1]; }
      }
    }
    if exists i :: 0 <= i < |dataPaths| && IsFile(s.fs, dataPaths[i]) {
      var i :| 0 <= i < |dataPaths| && IsFile(s.fs, dataPaths[i]);
      assert i > 0 && dataPaths[i] == dataPaths[1..][i - 1] && IsFile(s1.fs, dataPaths[i]);
    }
  }

  /** After the data directories, `apply()` follows the checkout plan for a
      full clone at the tag; a failure among the directories stops it there. */
  lemma ApplyFollowsPlan(g: GitOracle, s: State, lazy: LazyInfo)
    requires s.outcome.Running?
    ensures var d := EnsureDataDirs(s, lazy.dataPaths);
            var r := Apply(g, s, lazy);
            && Extends(s, d)
            && (d.outcome.Running? ==> Issued(d, r, CheckoutPlan(lazy.path, lazy.repo, lazy.tag, false, [], lazy.path !in d.fs)))
            && (!d.outcome.Running? ==> r == d && r.outcome.Raised?)
  {
    var d := EnsureDataDirs(s, lazy.dataPaths);
    EnsureDataDirsMakes(s, lazy.dataPaths);
    if d.outcome.Running? {
      CheckoutFollowsPlan(g, d, lazy.path, lazy.repo, lazy.tag, false, []);
    }
  }

  method ApplyOn(m: Machine, lazy: LazyInfo)
    modifies m
    ensures m.St() == Apply(m.git, old(m.St()), lazy)
  {
    ghost var s0 := m.St();
    for i := 0 to |lazy.dataPaths|
      invariant m.St() == EnsureDataDirs(s0, lazy.dataPaths[..i])
    {
      EnsureDataDirsSnoc(s0, lazy.dataPaths[..i], lazy.dataPaths[i]);
      assert lazy.dataPaths[..i + 1] == lazy.dataPaths[..i] + [lazy.dataPaths[i]];
      if !IsDir(m.fs, lazy.dataPaths[i]) {
        m.Makedirs(lazy.dataPaths[i], false);
      }
    }
    assert lazy.dataPaths[..|lazy.dataPaths|] == lazy.dataPaths;
    CheckoutRepoOn(m, lazy.path, lazy.repo, lazy.tag, false, []);
  }

  // ---------------------------------------------------------------------------
  // main and merge dispatch

  /** Which command `main()` runs for `sys.argv[1:]`. */
  datatype Action = Stop(code: int) | RunNuke | RunApply | RunMergeClaudecode | RunRepack

  function Dispatch(argv: seq<string>): (r: Action)
    ensures r.Stop? ==> r.code == 0 || r.code == 1
    ensures r == Stop(0) <==> |argv| > 0 && (argv[0] == "-h" || argv[0] == "--help")
    ensures r.RunMergeClaudecode? <==> |argv| >= 2 && argv[0] == "merge" && argv[1] == "claudecode"
    ensures r == RunNuke <==> |argv| > 0 && argv[0] == "nuke"
    ensures r == RunApply <==> |argv| > 0 && argv[0] == "apply"
    ensures r == RunRepack <==> |argv| > 0 && argv[0] == "repack"
    ensures (r.Stop? && r.code == 1) <==>
              |argv| == 0 ||
              (argv[0] !in {"-h", "--help", "nuke", "apply", "merge", "repack"}) ||
              (argv[0] == "merge" && (|argv| < 2 || argv[1] != "claudecode"))
  {
    if |argv| < 1 then Stop(1)
    else if argv[0] == "-h" || argv[0] == "--help" then Stop(0)
    else if argv[0] == "nuke" then RunNuke
    else if argv[0] == "apply" then RunApply
    else if argv[0] == "repack" then RunRepack
    else if argv[0] == "merge" then
      if |argv| < 2 then Stop(1)
      else if argv[1] == "claudecode" then RunMergeClaudecode
      else Stop(1)
    else Stop(1)
  }

  /** `main()` with `sys.argv[1:]`; `nuke` only prints. */
  function RunCommand(g: GitOracle, s: State, argv: seq<string>, claude: PartInfo, lazy: LazyInfo, win32: bool): State {
    match Dispatch(argv)
    case Stop(code) => ExitStep(s, code)
    case RunNuke => s
    case RunApply => Apply(g, s, lazy)
    case RunMergeClaudecode => MergeClaudecode(g, s, claude)
    case RunRepack => Repack(g, s, claude, win32)
  }

  method RunCommandOn(m: Machine, argv: seq<string>, claude: PartInfo, lazy: LazyInfo)
    modifies m
    ensures m.St() == RunCommand(m.git, old(m.St()), argv, claude, lazy, m.win32)
  {
    var action := Dispatch(argv);
    match action
    case Stop(code) => m.Exit(code);
    case RunNuke =>
    case RunApply => ApplyOn(m, lazy);
    case RunMergeClaudecode => MergeClaudecodeOn(m, claude);
    case RunRepack => RepackOn(m, claude);
  }

  // ---------------------------------------------------------------------------
  // Properties of checkout_repo

  function OpenPlan(path: Path, repo: string, isNew: bool): seq<Event> {
    if isNew then [Makedirs(path), GitCall(path, ["init"]), GitCall(path, ["remote", "add", "origin", GithubUrl(repo)])]
    else [GitCall(path, StatusArgs)]
  }

  function SparsePlan(path: Path, sparse: seq<string>): seq<Event> {
    if |sparse| > 0
    then [GitCall(path, ["config", "core.sparseCheckout", "true"]), Makedirs(InfoDir(path)),
          WriteText(SparseFile(path), SparseFileText(sparse))]
    else []
  }

  function FetchPlan(path: Path, ref: string, shallow: bool): seq<Event> {
    [GitCall(path, ["config", "advice.detachedHead", "false"]),
     GitCall(path, FetchArgs(ref, shallow)),
     GitCall(path, CheckoutArgs(ref, shallow))]
  }

  /** The operations `checkout_repo` issues when nothing fails, in order. */
  function CheckoutPlan(path: Path, repo: string, ref: string, shallow: bool, sparse: seq<string>, isNew: bool): seq<Event> {
    OpenPlan(path, repo, isNew) + SparsePlan(path, sparse) + FetchPlan(path, ref, shallow)
  }

  /** A dirty existing worktree stops the checkout with status 1 right after
      `git status`, with nothing changed on disk. */
  lemma CheckoutDirtyGuard(g: GitOracle, s: State, path: Path, repo: string, ref: string, shallow: bool, sparse: seq<string>)
    requires s.outcome.Running? && path in s.fs && Dirty(g, s.fs, path)
    ensures CheckoutRepo(g, s, path, repo, ref, shallow, sparse) == State(s.fs, s.trace + [GitCall(path, StatusArgs)], Exited(1))
  {
  }

  lemma CheckoutOpenIssued(g: GitOracle, s: State, path: Path, repo: string)
    requires s.outcome.Running?
    ensures var r := CheckoutOpen(g, s, path, repo);
            Issued(s, r, OpenPlan(path, repo, path !in s.fs)) &&
            (r.outcome.Exited? ==> r.outcome == Exited(1) && path in s.fs && Dirty(g, s.fs, path))
  {
  }

  lemma CheckoutSparseIssued(g: GitOracle, s: State, path: Path, sparse: seq<string>)
    requires s.outcome.Running?
    ensures var r := CheckoutSparse(g, s, path, sparse);
            Issued(s, r, SparsePlan(path, sparse)) && !r.outcome.Exited?
  {
  }

  lemma CheckoutFetchIssued(g: GitOracle, s: State, path: Path, ref: string, shallow: bool)
    requires s.outcome.Running?
    ensures var r := CheckoutFetch(g, s, path, ref, shallow);
            Issued(s, r, FetchPlan(path, ref, shallow)) && !r.outcome.Exited?
  {
  }

  /** `checkout_repo` issues a prefix of its plan (all of it when it returns
      normally), and the only exit is the dirty-worktree one. */
  lemma CheckoutFollowsPlan(g: GitOracle, s: State, path: Path, repo: string, ref: string, shallow: bool, sparse: seq<string>)
    requires s.outcome.Running?
    ensures var r := CheckoutRepo(g, s, path, repo, ref, shallow, sparse);
            && Issued(s, r, CheckoutPlan(path, repo, ref, shallow, sparse, path !in s.fs))
            && (r.outcome.Exited? ==> r.outcome == Exited(1) && path in s.fs && Dirty(g, s.fs, path))
  {
    var s1 := CheckoutOpen(g, s, path, repo);
    CheckoutOpenIssued(g, s, path, repo);
    var s2 := if s1.outcome.Running? then CheckoutSparse(g, s1, path, sparse) else s1;
    if s1.outcome.Running? { CheckoutSparseIssued(g, s1, path, sparse); }
    IssuedThen(s, s1, s2, OpenPlan(path, repo, path !in s.fs), SparsePlan(path, sparse));
    var r := if s2.outcome.Running? then CheckoutFetch(g, s2, path, ref, shallow) else s2;
    if s2.outcome.Running? { CheckoutFetchIssued(g, s2, path, ref, shallow); }
    IssuedThen(s, s2, r, OpenPlan(path, repo, path !in s.fs) + SparsePlan(path, sparse), FetchPlan(path, ref, shallow));
  }

  lemma CheckoutOpenConfined(g: GitOracle, s: State, path: Path, repo: string)
    ensures ConfinedTo(s.fs, CheckoutOpen(g, s, path, repo).fs, {path})
  {
    if path in s.fs {
      GitStepConfined(g, s, path, StatusArgs, false);
    } else {
      var m := MakedirsStep(s, path, false);
      MakedirsStepConfined(s, path, false);
      var i := GitStep(g, m, path, ["init"], true);
      GitStepConfined(g, m, path, ["init"], true);
      ConfinedTrans(s.fs, m.fs, i.fs, {path}, {path});
      GitStepConfined(g, i, path, ["remote", "add", "origin", GithubUrl(repo)], true);
      ConfinedTrans(s.fs, i.fs, CheckoutOpen(g, s, path, repo).fs, {path}, {path});
    }
  }

  lemma CheckoutSparseConfined(g: GitOracle, s: State, path: Path, sparse: seq<string>)
    ensures ConfinedTo(s.fs, CheckoutSparse(g, s, path, sparse).fs, {path})
  {
    if |sparse| > 0 {
      var c := GitStep(g, s, path, ["config", "core.sparseCheckout", "true"], true);
      GitStepConfined(g, s, path, ["config", "core.sparseCheckout", "true"], true);
      var d := MakedirsStep(c, InfoDir(path), true);
      MakedirsStepConfined(c, InfoDir(path), true);
      assert Within(path, InfoDir(path)) by { assert InfoDir(path)[..|path|] == path; }
      ConfinedNarrow(c.fs, d.fs, path, InfoDir(path));
      var w := WriteStep(d, SparseFile(path), SparseFileText(sparse));
      WriteStepConfined(d, SparseFile(path), SparseFileText(sparse));
      assert Within(path, SparseFile(path)) by { assert SparseFile(path)[..|path|] == path; }
      ConfinedNarrow(d.fs, w.fs, path, SparseFile(path));
      ConfinedTrans(s.fs, c.fs, d.fs, {path}, {path});
      ConfinedTrans(s.fs, d.fs, w.fs, {path}, {path});
    }
  }

  lemma CheckoutFetchConfined(g: GitOracle, s: State, path: Path, ref: string, shallow: bool)
    ensures ConfinedTo(s.fs, CheckoutFetch(g, s, path, ref, shallow).fs, {path})
  {
    var s3 := GitStep(g, s, path, ["config", "advice.detachedHead", "false"], true);
    GitStepConfined(g, s, path, ["config", "advice.detachedHead", "false"], true);
    var s4 := GitStep(g, s3, path, FetchArgs(ref, shallow), true);
    GitStepConfined(g, s3, path, FetchArgs(ref, shallow), true);
    GitStepConfined(g, s4, path, CheckoutArgs(ref, shallow), true);
    ConfinedTrans(s.fs, s3.fs, s4.fs, {path}, {path});
    ConfinedTrans(s.fs, s4.fs, CheckoutFetch(g, s, path, ref, shallow).fs, {path}, {path});
  }

  /** `checkout_repo` changes nothing outside the repository tree, apart from
      creating the missing directories leading to it. */
  lemma CheckoutConfined(g: GitOracle, s: State, path: Path, repo: string, ref: string, shallow: bool, sparse: seq<string>)
    ensures ConfinedTo(s.fs, CheckoutRepo(g, s, path, repo, ref, shallow, sparse).fs, {path})
  {
    if s.outcome.Running? {
      var s1 := CheckoutOpen(g, s, path, repo);
      CheckoutOpenConfined(g, s, path, repo);
      if s1.outcome.Running? {
        var s2 := CheckoutSparse(g, s1, path, sparse);
        CheckoutSparseConfined(g, s1, path, sparse);
        ConfinedTrans(s.fs, s1.fs, s2.fs, {path}, {path});
        if s2.outcome.Running? {
          CheckoutFetchConfined(g, s2, path, ref, shallow);
          ConfinedTrans(s.fs, s2.fs, CheckoutFetch(g, s2, path, ref, shallow).fs, {path}, {path});
        }
      }
    } else {
      ConfinedRefl(s.fs, {path});
    }
  }

  // ---------------------------------------------------------------------------
  // Properties of repack

  /** Where sparse entry `e` lands in the repo, and where it is read from locally. */
  function RepoDest(repoPath: Path, e: string): Path {
    Join(repoPath, RStripSlash(e))
  }

  function LocalSource(localPath: Path, e: string): Path {
    Join(localPath, RStripSlash(e))
  }

  function RepackDests(repoPath: Path, sparse: seq<string>): set<Path> {
    set i | 0 <= i < |sparse| :: RepoDest(repoPath, sparse[i])
  }

  /** A missing local directory stops `repack` with status 1 before any git call. */
  lemma RepackMissingLocal(g: GitOracle, s: State, info: PartInfo, win32: bool)
    requires s.outcome.Running? && !IsDir(s.fs, info.localPath)
    ensures Repack(g, s, info, win32) == State(s.fs, s.trace, Exited(1))
  {
  }

  /** An entry whose local copy is missing is skipped, and the loop goes on
      with the remaining entries exactly as if it had not been listed. */
  lemma RepackSkipsMissing(s: State, repoPath: Path, localPath: Path, e: string, rest: seq<string>)
    requires LocalSource(localPath, e) !in s.fs
    ensures RepackLoop(s, repoPath, localPath, [e] + rest) == RepackLoop(s, repoPath, localPath, rest)
  {
    assert ([e] + rest)[1..] == rest;
  }

  lemma RepackEntryConfined(s: State, repoPath: Path, localPath: Path, e: string)
    ensures ConfinedTo(s.fs, RepackEntry(s, repoPath, localPath, e).fs, {RepoDest(repoPath, e)})
  {
    var dst := RepoDest(repoPath, e);
    var src := LocalSource(localPath, e);
    if s.outcome.Running? && src in s.fs {
      var cleared := if dst in s.fs then RemovePathStep(s, dst) else s;
      RemoveTreeConfined(s.fs, dst);
      CopytreeStepConfined(cleared, src, dst);
      ConfinedTrans(s.fs, cleared.fs, RepackEntry(s, repoPath, localPath, e).fs, {dst}, {dst});
    }
  }

  /** The loop changes nothing outside the repo copies of the sparse paths
      (apart from creating directories leading to them). */
  lemma {:induction false} RepackLoopConfined(s: State, repoPath: Path, localPath: Path, sparse: seq<string>)
    ensures ConfinedTo(s.fs, RepackLoop(s, repoPath, localPath, sparse).fs, RepackDests(repoPath, sparse))
    decreases |sparse|
  {
    if sparse == [] || !s.outcome.Running? {
      ConfinedRefl(s.fs, RepackDests(repoPath, sparse));
    } else {
      var s1 := RepackEntry(s, repoPath, localPath, sparse[0]);
      RepackEntryConfined(s, repoPath, localPath, sparse[0]);
      RepackLoopConfined(s1, repoPath, localPath, sparse[1..]);
      ConfinedTrans(s.fs, s1.fs, RepackLoop(s1, repoPath, localPath, sparse[1..]).fs,
                    {RepoDest(repoPath, sparse[0])}, RepackDests(repoPath, sparse[1..]));
      assert RepackDests(repoPath, sparse[1..]) <= RepackDests(repoPath, sparse) by {
        forall d | d in RepackDests(repoPath, sparse[1..]) ensures d in RepackDests(repoPath, sparse) {
          var j :| 0 <= j < |sparse[1..]| && d == RepoDest(repoPath, sparse[1..][j]);
          assert d == RepoDest(repoPath, sparse[j + 1]);
        }
      }
      assert RepoDest(repoPath, sparse[0]) in RepackDests(repoPath, sparse);
      ConfinedWiden(s.fs, RepackLoop(s, repoPath, localPath, sparse).fs,
                    {RepoDest(repoPath, sparse[0])} + RepackDests(repoPath, sparse[1..]), RepackDests(repoPath, sparse));
    }
  }

  /** One iteration that completes leaves the repo copy equal to the local tree. */
  lemma RepackEntryMirrors(s: State, repoPath: Path, localPath: Path, e: string)
    requires s.outcome.Running?
    requires IsDir(s.fs, LocalSource(localPath, e))
    requires Disjoint(LocalSource(localPath, e), RepoDest(repoPath, e))
    requires NoOrphans(s.fs, RepoDest(repoPath, e))
    ensures var r := RepackEntry(s, repoPath, localPath, e);
            r.outcome.Running? ==> SubtreeMirrors(s.fs, r.fs, LocalSource(localPath, e), RepoDest(repoPath, e))
  {
    var dst := RepoDest(repoPath, e);
    var src := LocalSource(localPath, e);
    var cleared := if dst in s.fs then RemovePathStep(s, dst) else s;
    assert cleared.fs == RemoveTree(s.fs, dst);
    ReplaceTreeMirrors(s.fs, src, dst);
    var r := RepackEntry(s, repoPath, localPath, e);
    if r.outcome.Running? {
      assert r.fs == CopyTree(cleared.fs, src, dst);
      forall p | Within(dst, p)
        ensures (p in r.fs <==> Rebase(dst, src, p) in s.fs) && (p in r.fs ==> r.fs[p] == s.fs[Rebase(dst, src, p)])
      {
        RebaseWithin(dst, src, p);
        DisjointNoCommon(src, dst, Rebase(dst, src, p));
      }
    }
  }

  /** The two roots are separate trees and every entry is relative, so each
      entry names a tree under each root. */
  predicate Separate(repoPath: Path, localPath: Path, sparse: seq<string>) {
    && Canonical(repoPath) && Canonical(localPath) && Disjoint(repoPath, localPath)
    && (forall i :: 0 <= i < |sparse| ==> Relative(RStripSlash(sparse[i])))
  }

  /** What the mirror property needs besides: distinct entries name disjoint trees. */
  predicate WellPlaced(repoPath: Path, localPath: Path, sparse: seq<string>) {
    && Separate(repoPath, localPath, sparse)
    && (forall i, j :: 0 <= i < j < |sparse| ==> Disjoint(RepoDest(repoPath, sparse[i]), RepoDest(repoPath, sparse[j])))
  }

  lemma WellPlacedTail(repoPath: Path, localPath: Path, sparse: seq<string>)
    requires |sparse| > 0 && WellPlaced(repoPath, localPath, sparse)
    ensures WellPlaced(repoPath, localPath, sparse[1..])
  {
    forall i, j | 0 <= i < j < |sparse| - 1
      ensures Disjoint(RepoDest(repoPath, sparse[1..][i]), RepoDest(repoPath, sparse[1..][j]))
    {
      assert sparse[1..][i] == sparse[i + 1] && sparse[1..][j] == sparse[j + 1];
    }
  }

  /** Every repo destination is disjoint from the local tree. */
  lemma DestsAvoidLocal(repoPath: Path, localPath: Path, sparse: seq<string>)
    requires Separate(repoPath, localPath, sparse)
    ensures forall d :: d in RepackDests(repoPath, sparse) ==> Disjoint(localPath, d)
  {
    forall d | d in RepackDests(repoPath, sparse) ensures Disjoint(localPath, d) {
      var i :| 0 <= i < |sparse| && d == RepoDest(repoPath, sparse[i]);
      JoinWithin(repoPath, RStripSlash(sparse[i]));
      assert Within(localPath, localPath);
      DisjointBeneath(localPath, repoPath, localPath, d);
    }
  }

  /** The loop never changes the local tree. */
  lemma RepackLoopKeepsLocal(s: State, repoPath: Path, localPath: Path, sparse: seq<string>, p: Path)
    requires Separate(repoPath, localPath, sparse) && Within(localPath, p)
    ensures var r := RepackLoop(s, repoPath, localPath, sparse);
            (p in s.fs <==> p in r.fs) && (p in s.fs ==> r.fs[p] == s.fs[p])
  {
    RepackLoopConfined(s, repoPath, localPath, sparse);
    DestsAvoidLocal(repoPath, localPath, sparse);
    ConfinedKeepsTree(s.fs, RepackLoop(s, repoPath, localPath, sparse).fs, RepackDests(repoPath, sparse), localPath, p);
  }

  /** After the whole loop, every sparse path whose local copy is a directory
      has, in the repo, exactly the local tree; later entries do not disturb
      earlier ones. */
  lemma {:induction false} RepackLoopMirrors(s: State, repoPath: Path, localPath: Path, sparse: seq<string>, k: nat)
    requires WellPlaced(repoPath, localPath, sparse)
    requires k < |sparse| && IsDir(s.fs, LocalSource(localPath, sparse[k]))
    requires NoOrphans(s.fs, RepoDest(repoPath, sparse[k]))
    ensures var r := RepackLoop(s, repoPath, localPath, sparse);
            r.outcome.Running? ==>
              SubtreeMirrors(s.fs, r.fs, LocalSource(localPath, sparse[k]), RepoDest(repoPath, sparse[k]))
    decreases |sparse|
  {
    var r := RepackLoop(s, repoPath, localPath, sparse);
    if !s.outcome.Running? || !r.outcome.Running? { return; }
    var src := LocalSource(localPath, sparse[k]);
    var dst := RepoDest(repoPath, sparse[k]);
    JoinWithin(localPath, RStripSlash(sparse[k]));
    JoinWithin(repoPath, RStripSlash(sparse[k]));
    DisjointBeneath(localPath, repoPath, src, dst);
    var s1 := RepackEntry(s, repoPath, localPath, sparse[0]);
    WellPlacedTail(repoPath, localPath, sparse);
    assert r == RepackLoop(s1, repoPath, localPath, sparse[1..]);
    if k == 0 {
      RepackEntryMirrors(s, repoPath, localPath, sparse[0]);
      RepackLoopConfined(s1, repoPath, localPath, sparse[1..]);
      forall d | d in RepackDests(repoPath, sparse[1..]) ensures Disjoint(dst, d) {
        var j :| 0 <= j < |sparse[1..]| && d == RepoDest(repoPath, sparse[1..][j]);
        assert sparse[1..][j] == sparse[j + 1];
      }
      forall p | Within(dst, p)
        ensures (p in r.fs <==> Rebase(dst, src, p) in s.fs) && (p in r.fs ==> r.fs[p] == s.fs[Rebase(dst, src, p)])
      {
        ConfinedKeepsTree(s1.fs, r.fs, RepackDests(repoPath, sparse[1..]), dst, p);
      }
    } else {
      assert sparse[1..][k - 1] == sparse[k];
      RepackEntryConfined(s, repoPath, localPath, sparse[0]);
      var d0 := RepoDest(repoPath, sparse[0]);
      JoinWithin(repoPath, RStripSlash(sparse[0]));
      assert Within(localPath, localPath);
      DisjointBeneath(localPath, repoPath, localPath, d0);
      ConfinedKeepsTree(s.fs, s1.fs, {d0}, localPath, src);
      assert Disjoint(dst, d0);
      forall q | q in s1.fs && Within(dst, q) ensures q in s.fs {
        ConfinedKeepsTree(s.fs, s1.fs, {d0}, dst, q);
      }
      assert Within(dst, dst);
      ConfinedKeepsTree(s.fs, s1.fs, {d0}, dst, dst);
      RepackLoopMirrors(s1, repoPath, localPath, sparse[1..], k - 1);
      forall p | Within(dst, p)
        ensures (p in r.fs <==> Rebase(dst, src, p) in s.fs) && (p in r.fs ==> r.fs[p] == s.fs[Rebase(dst, src, p)])
      {
        RebaseWithin(dst, src, p);
        WithinTrans(localPath, src, Rebase(dst, src, p));
        ConfinedKeepsTree(s.fs, s1.fs, {d0}, localPath, Rebase(dst, src, p));
      }
    }
  }

  /** A blank diff stops `repack` right after `git diff`, leaving the patch
      file alone; any other diff is written with `write_patch`, and only then is
      the work tree restored. */
  lemma RepackFinishOutcome(g: GitOracle, s: State, info: PartInfo, win32: bool)
    requires s.outcome.Running?
    ensures var diff := g(info.repoPath, ["diff"], s.fs);
            var r := RepackFinish(g, s, info, win32);
            && (diff.status == 0 && IsBlank(diff.stdout) ==>
                  r == State(s.fs, s.trace + [GitCall(info.repoPath, ["diff"])], Running))
            && (diff.status == 0 && !IsBlank(diff.stdout) ==>
                  Issued(s, r, [GitCall(info.repoPath, ["diff"]),
                                WriteText(info.patchPath, PatchContent(diff.stdout, win32)),
                                GitCall(info.repoPath, ["checkout", "."])]))
            && (diff.status != 0 ==> r == State(s.fs, s.trace + [GitCall(info.repoPath, ["diff"])], Raised))
  {
  }

  // ---------------------------------------------------------------------------
  // Properties of merge claudecode, apply_patch and main

  /** `merge claudecode` exits 1 for a missing or dirty repo before any write;
      otherwise the patch file receives the stdout of `git diff <base> HEAD`
      exactly, with no line-ending rewrite. */
  lemma MergeClaudecodeOutcome(g: GitOracle, s: State, info: PartInfo)
    requires s.outcome.Running?
    ensures var r := MergeClaudecode(g, s, info);
            var diff := g(info.repoPath, ["diff", info.commit, "HEAD"], s.fs);
            && (!IsDir(s.fs, info.repoPath) ==> r == State(s.fs, s.trace, Exited(1)))
            && (IsDir(s.fs, info.repoPath) && Dirty(g, s.fs, info.repoPath) ==>
                  r == State(s.fs, s.trace + [GitCall(info.repoPath, StatusArgs)], Exited(1)))
            && (IsDir(s.fs, info.repoPath) && !Dirty(g, s.fs, info.repoPath) && diff.status == 0 ==>
                  r.trace == s.trace + [GitCall(info.repoPath, StatusArgs), GitCall(info.repoPath, ["diff", info.commit, "HEAD"]),
                                        WriteText(info.patchPath, diff.stdout)]
                  && (r.outcome.Running? <==> !IsDir(s.fs, info.patchPath))
                  && (r.outcome.Running? ==> r.fs == s.fs[info.patchPath := File(diff.stdout)]))
            && (IsDir(s.fs, info.repoPath) && !Dirty(g, s.fs, info.repoPath) && diff.status != 0 ==>
                  r == State(s.fs, s.trace + [GitCall(info.repoPath, StatusArgs), GitCall(info.repoPath, ["diff", info.commit, "HEAD"])], Raised))
  {
  }

  /** `apply_patch`: a clean first apply is the only call; on win32 a failed
      apply of a patch that cannot be read raises; off win32 (or with no CRLF
      in the patch) a failed apply is re-run with `check=True`, so it raises
      unless the re-run succeeds. */
  lemma ApplyPatchPlain(g: GitOracle, s: State, patchPath: Path, repoPath: Path, win32: bool)
    requires s.outcome.Running?
    ensures var first := g(repoPath, ["apply", patchPath], s.fs);
            var r := ApplyPatch(g, s, patchPath, repoPath, win32);
            var s1 := GitStep(g, s, repoPath, ["apply", patchPath], false);
            && (first.status == 0 ==> r == s1 && r.outcome.Running? && r.trace == s.trace + [GitCall(repoPath, ["apply", patchPath])])
            && (first.status != 0 && win32 && !IsFile(s1.fs, patchPath) ==> r == s1.(outcome := Raised))
            && (first.status != 0 && (!win32 || (IsFile(s1.fs, patchPath) && !HasPair(s1.fs[patchPath].data, '\r', '\n'))) ==>
                  r.trace == s.trace + [GitCall(repoPath, ["apply", patchPath]), GitCall(repoPath, ["apply", patchPath])] &&
                  (r.outcome.Running? <==> g(repoPath, ["apply", patchPath], s1.fs).status == 0))
  {
  }

  /** On win32, a failed apply of a patch that holds CRLF is retried once on a
      normalised `.tmp` copy; the copy is removed in a `finally` clause, so it
      is gone afterwards unless the process raised, and an exception from the
      retry still propagates. */
  lemma ApplyPatchRetry(g: GitOracle, s: State, patchPath: Path, repoPath: Path)
    requires s.outcome.Running?
    ensures var first := g(repoPath, ["apply", patchPath], s.fs);
            var s1 := GitStep(g, s, repoPath, ["apply", patchPath], false);
            var temp := TempPatch(patchPath);
            var r := ApplyPatch(g, s, patchPath, repoPath, true);
            first.status != 0 && IsFile(s1.fs, patchPath) && HasPair(s1.fs[patchPath].data, '\r', '\n') ==>
              var w := WritePatchStep(s1, temp, s1.fs[patchPath].data, true);
              var a := GitStep(g, w, repoPath, ["apply", temp], true);
              && w.trace == s1.trace + [WriteText(temp, NormalizeNewlines(s1.fs[patchPath].data))]
              && (w.outcome.Running? ==> a.trace == w.trace + [GitCall(repoPath, ["apply", temp])])
              && (temp in a.fs ==> r.trace == a.trace + [Unlink(temp)])
              && (temp !in a.fs ==> r == a)
              && (r.outcome.Running? ==> temp !in r.fs)
              && (a.outcome.Raised? ==> r.outcome.Raised?)
  {
  }

  /** Only the command word (and, for `merge`, the part name) decides what `main` runs. */
  lemma DispatchIgnoresExtraArguments(argv: seq<string>)
    requires |argv| >= 2
    ensures argv[0] != "merge" ==> Dispatch(argv) == Dispatch(argv[..1])
    ensures Dispatch(argv) == Dispatch(argv[..2])
  {
  }
}
