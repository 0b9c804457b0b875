/** The workflows of `claudecode-setup.py`: a sparse, shallow scratch clone of
    claudecode.nvim at a pinned commit under `external/`, the three-way
    application of `claudecode.patch`, the copies between the clone and the
    live `lua/claudecode` and `plugin/claudecode.lua`, clean-up, and patch
    regeneration. Paths are relative to the directory the script runs in. */
module ClaudeSetup {
  import opened Fs
  import opened Host
  import opened Text

  const RepoUrl: string := "https://github.com/coder/claudecode.nvim.git"
  const CommitHash: string := "93f8e48b1f6cbf2469b378c20b3df4115252d379"
  const RepoParent: Path := "external"
  const RepoDir: Path := "external/claudecode.nvim"
  const PatchFile: Path := "claudecode.patch"
  const SparseText: string := "lua/\nplugin/\n"

  const LuaLocal: Path := "lua/claudecode"
  const PluginLocal: Path := "plugin/claudecode.lua"
  const PluginDirLocal: Path := "plugin"
  const LuaInRepo: Path := "external/claudecode.nvim/lua/claudecode"
  const PluginInRepo: Path := "external/claudecode.nvim/plugin/claudecode.lua"
  const PluginDirInRepo: Path := "external/claudecode.nvim/plugin"
  const InfoDirInRepo: Path := "external/claudecode.nvim/.git/info"
  const SparseFileInRepo: Path := "external/claudecode.nvim/.git/info/sparse-checkout"

  /** `str(PATCH_FILE.absolute())` for the directory the script runs in. */
  function PatchArgument(workDir: Path): string {
    Join(workDir, PatchFile)
  }

  /** The fixed sparse file is the one `setup.py` would write for `["lua/", "plugin/"]`,
      and it reads back as those two entries. */
  lemma SparseTextIsSparseFile()
    ensures SparseText == SparseFileText(["lua/", "plugin/"])
    ensures SplitLines(SparseText) == ["lua/", "plugin/"]
  {
    SparseFileRoundTrip(["lua/", "plugin/"]);
  }

  // ---------------------------------------------------------------------------
  // sparse_checkout_repo

  function InitArgs(): seq<seq<string>> {
    [["init"], ["remote", "add", "origin", RepoUrl], ["config", "core.sparseCheckout", "true"]]
  }

  /** `mkdir(parents=True, exist_ok=True)` of `external/`, then removal of any
      existing clone (no dirty check), then a new empty clone directory. */
  function CloneReset(s: State): State {
    var s1 := MakedirsStep(s, RepoParent, true);
    var s2 := if RepoDir in s1.fs then RmtreeStep(s1, RepoDir) else s1;
    MakedirsStep(s2, RepoDir, true)
  }

  /** `git init`, `remote add origin`, sparse mode on, and the sparse file. */
  function CloneConfigure(g: GitOracle, s: State): State {
    WriteStep(MakedirsStep(CloneInit(g, s), InfoDirInRepo, true), SparseFileInRepo, SparseText)
  }

  /** The three git commands at the start of `CloneConfigure`. */
  function CloneInit(g: GitOracle, s: State): State {
    var s1 := GitStep(g, s, RepoDir, ["init"], true);
    var s2 := GitStep(g, s1, RepoDir, ["remote", "add", "origin", RepoUrl], true);
    GitStep(g, s2, RepoDir, ["config", "core.sparseCheckout", "true"], true)
  }

  /** Depth-1 fetch of the pinned commit, then checkout of that commit. */
  function CloneFetch(g: GitOracle, s: State): State {
    var s1 := GitStep(g, s, RepoDir, ["fetch", "--depth=1", "origin", CommitHash], true);
    GitStep(g, s1, RepoDir, ["checkout", CommitHash], true)
  }

  /** `sparse_checkout_repo()`. */
  function SparseCheckout(g: GitOracle, s: State): State {
    CloneFetch(g, CloneConfigure(g, CloneReset(s)))
  }

  method SparseCheckoutOn(m: Machine)
    modifies m
    ensures m.St() == SparseCheckout(m.git, old(m.St()))
  {
    m.Makedirs(RepoParent, true);
    if !m.outcome.Running? { return; }
    if RepoDir in m.fs {
      m.Rmtree(RepoDir);
    }
    m.Makedirs(RepoDir, true);
    var _ := m.Git(RepoDir, ["init"], true);
    var _ := m.Git(RepoDir, ["remote", "add", "origin", RepoUrl], true);
    var _ := m.Git(RepoDir, ["config", "core.sparseCheckout", "true"], true);
    m.Makedirs(InfoDirInRepo, true);
    m.Write(SparseFileInRepo, SparseText);
    var _ := m.Git(RepoDir, ["fetch", "--depth=1", "origin", CommitHash], true);
    var _ := m.Git(RepoDir, ["checkout", CommitHash], true);
  }

  // ---------------------------------------------------------------------------
  // apply_patch

  /** `apply_patch()`: the new state and the returned boolean. */
  function ApplyPatch(g: GitOracle, s: State, win32: bool, workDir: Path): (State, bool) {
    if !s.outcome.Running? then (s, false)
    else if PatchFile !in s.fs then (s, true)
    else
      var s1 :=
        if !win32 then s
        else if IsFile(s.fs, PatchFile) then WriteStep(s, PatchFile, NormalizeNewlines(s.fs[PatchFile].data))
        else s.(outcome := Raised);
      if !s1.outcome.Running? then (s1, false)
      else
        var args := ["apply", "--3way", PatchArgument(workDir)];
        var r := g(RepoDir, args, s1.fs);
        (GitStep(g, s1, RepoDir, args, false), r.status == 0)
  }

  method ApplyPatchOn(m: Machine, workDir: Path) returns (ok: bool)
    modifies m
    ensures (m.St(), ok) == ApplyPatch(m.git, old(m.St()), m.win32, workDir)
  {
    if !m.outcome.Running? { return false; }
    if PatchFile !in m.fs { return true; }
    if m.win32 {
      if !IsFile(m.fs, PatchFile) {
        m.outcome := Raised;
        return false;
      }
      m.Write(PatchFile, NormalizeNewlines(m.fs[PatchFile].data));
      if !m.outcome.Running? { return false; }
    }
    var r := m.Git(RepoDir, ["apply", "--3way", PatchArgument(workDir)], false);
    ok := r.status == 0;
  }

  // ---------------------------------------------------------------------------
  // copy_local_to_repo and copy_repo_to_local

  /** The directory half of a copy helper: a present source replaces the
      destination directory wholesale. */
  function CopyDirItem(s: State, src: Path, dst: Path): State {
    if !s.outcome.Running? || src !in s.fs then s
    else
      var cleared := if dst in s.fs then RmtreeStep(s, dst) else s;
      CopytreeStep(cleared, src, dst)
  }

  /** The file half: a present source is copied after creating the parent. */
  function CopyFileItem(s: State, src: Path, dst: Path, dstParent: Path): State {
    if !s.outcome.Running? || src !in s.fs then s
    else Copy2Step(MakedirsStep(s, dstParent, true), src, dst)
  }

  /** Both copy helpers: the directory item, then the file item. */
  function CopyItems(s: State, luaSrc: Path, luaDst: Path, plugSrc: Path, plugDst: Path, plugParent: Path): State {
    CopyFileItem(CopyDirItem(s, luaSrc, luaDst), plugSrc, plugDst, plugParent)
  }

  /** `copy_local_to_repo()`. */
  function CopyLocalToRepo(s: State): State {
    CopyItems(s, LuaLocal, LuaInRepo, PluginLocal, PluginInRepo, PluginDirInRepo)
  }

  /** `copy_repo_to_local()`. */
  function CopyRepoToLocal(s: State): State {
    CopyItems(s, LuaInRepo, LuaLocal, PluginInRepo, PluginLocal, PluginDirLocal)
  }

  method CopyItemsOn(m: Machine, luaSrc: Path, luaDst: Path, plugSrc: Path, plugDst: Path, plugParent: Path)
    modifies m
    ensures m.St() == CopyItems(old(m.St()), luaSrc, luaDst, plugSrc, plugDst, plugParent)
  {
    if !m.outcome.Running? { return; }
    if luaSrc in m.fs {
      if luaDst in m.fs {
        m.Rmtree(luaDst);
      }
      m.Copytree(luaSrc, luaDst);
      if !m.outcome.Running? { return; }
    }
    if plugSrc in m.fs {
      m.Makedirs(plugParent, true);
      m.Copy2(plugSrc, plugDst);
    }
  }

  method CopyLocalToRepoOn(m: Machine)
    modifies m
    ensures m.St() == CopyLocalToRepo(old(m.St()))
  {
    CopyItemsOn(m, LuaLocal, LuaInRepo, PluginLocal, PluginInRepo, PluginDirInRepo);
  }

  method CopyRepoToLocalOn(m: Machine)
    modifies m
    ensures m.St() == CopyRepoToLocal(old(m.St()))
  {
    CopyItemsOn(m, LuaInRepo, LuaLocal, PluginInRepo, PluginLocal, PluginDirLocal);
  }

  // ---------------------------------------------------------------------------
  // cleanup

  /** `cleanup()`: remove the clone if present, then `external/` if it is an
      empty directory (`iterdir` on a file raises). */
  function Cleanup(s: State): State {
    if !s.outcome.Running? then s
    else
      var s1 := if RepoDir in s.fs then RmtreeStep(s, RepoDir) else s;
      if !s1.outcome.Running? || RepoParent !in s1.fs then s1
      else if !IsDir(s1.fs, RepoParent) then s1.(outcome := Raised)
      else if IsEmptyDir(s1.fs, RepoParent) then RmdirStep(s1, RepoParent)
      else s1
  }

  method CleanupOn(m: Machine)
    modifies m
    ensures m.St() == Cleanup(old(m.St()))
  {
    if !m.outcome.Running? { return; }
    if RepoDir in m.fs {
      m.Rmtree(RepoDir);
    }
    if !m.outcome.Running? || RepoParent !in m.fs { return; }
    if !IsDir(m.fs, RepoParent) {
      m.outcome := Raised;
    } else if IsEmptyDir(m.fs, RepoParent) {
      m.Rmdir(RepoParent);
    }
  }

  // ---------------------------------------------------------------------------
  // generate_repatch

  /** The bootstrap of `generate_repatch` when no clone exists: clone, copy
      the live files in, and commit them as a baseline. */
  function RepatchBootstrap(g: GitOracle, s: State): State {
    var s1 := SparseCheckout(g, s);
    var s2 := CopyLocalToRepo(s1);
    var s3 := GitStep(g, s2, RepoDir, AddArgs, true);
    GitStep(g, s3, RepoDir, CommitArgs, true)
  }

  /** `generate_repatch()`. */
  function GenerateRepatch(g: GitOracle, s: State): State {
    if !s.outcome.Running? then s
    else
      var s1 := RepatchBase(g, s);
      var diff := g(RepoDir, DiffArgs, s1.fs).stdout;
      Cleanup(WriteStep(GitStep(g, s1, RepoDir, DiffArgs, true), PatchFile, diff))
  }

  const DiffArgs: seq<string> := ["diff", CommitHash, "HEAD"]
  const AddArgs: seq<string> := ["add", "-A"]
  const CommitArgs: seq<string> := ["commit", "-m", "Local changes"]

  /** The clone the patch is taken from: the existing one, or a new baseline. */
  function RepatchBase(g: GitOracle, s: State): State {
    if RepoDir !in s.fs then RepatchBootstrap(g, s) else s
  }

  method GenerateRepatchOn(m: Machine)
    modifies m
    ensures m.St() == GenerateRepatch(m.git, old(m.St()))
  {
    if !m.outcome.Running? { return; }
    if RepoDir !in m.fs {
      SparseCheckoutOn(m);
      CopyLocalToRepoOn(m);
      var _ := m.Git(RepoDir, AddArgs, true);
      var _ := m.Git(RepoDir, CommitArgs, true);
    }
    var r := m.Git(RepoDir, DiffArgs, true);
    m.Write(PatchFile, r.stdout);
    CleanupOn(m);
  }

  // ---------------------------------------------------------------------------
  // main

  /** The `--update` flow. */
  function Update(g: GitOracle, s: State, win32: bool, workDir: Path): State {
    var s1 := SparseCheckout(g, s);
    if !s1.outcome.Running? then s1
    else
      var (s2, ok) := ApplyPatch(g, s1, win32, workDir);
      if !s2.outcome.Running? then s2
      else if !ok then ExitStep(s2, 1)
      else Cleanup(CopyRepoToLocal(s2))
  }

  /** `main()`: `--repatch` wins over `--update`; neither is an error. */
  function RunMain(g: GitOracle, s: State, repatch: bool, update: bool, win32: bool, workDir: Path): State {
    if repatch then GenerateRepatch(g, s)
    else if update then Update(g, s, win32, workDir)
    else ExitStep(s, 1)
  }

  method UpdateOn(m: Machine, workDir: Path)
    modifies m
    ensures m.St() == Update(m.git, old(m.St()), m.win32, workDir)
  {
    SparseCheckoutOn(m);
    if !m.outcome.Running? { return; }
    var ok := ApplyPatchOn(m, workDir);
    if !m.outcome.Running? { return; }
    if !ok {
      m.Exit(1);
      return;
    }
    CopyRepoToLocalOn(m);
    CleanupOn(m);
  }

  method RunMainOn(m: Machine, repatch: bool, update: bool, workDir: Path)
    modifies m
    ensures m.St() == RunMain(m.git, old(m.St()), repatch, update, m.win32, workDir)
  {
    if repatch {
      GenerateRepatchOn(m);
    } else if update {
      UpdateOn(m, workDir);
    } else {
      m.Exit(1);
    }
  }

  // ---------------------------------------------------------------------------
  // How the fixed paths nest

  lemma ParentFacts()
    ensures Within(RepoParent, RepoDir) && RepoDir != RepoParent
    ensures Ancestors(RepoParent) == {}
  {
    assert RepoDir[..|RepoParent|] == RepoParent;
    forall i | 0 < i < |RepoParent| ensures RepoParent[i] != '/' { }
  }

  lemma CloneFacts()
    ensures Within(RepoDir, InfoDirInRepo) && Within(RepoDir, SparseFileInRepo)
  {
    assert InfoDirInRepo[..|RepoDir|] == RepoDir;
    assert SparseFileInRepo[..|RepoDir|] == RepoDir;
  }

  lemma RepoItemFacts()
    ensures Within(RepoDir, LuaInRepo) && Within(RepoDir, PluginDirInRepo)
    ensures Within(PluginDirInRepo, PluginInRepo) && PluginInRepo != PluginDirInRepo
    ensures Disjoint(LuaInRepo, PluginDirInRepo)
  {
    assert LuaInRepo[..|RepoDir|] == RepoDir;
    assert PluginDirInRepo[..|RepoDir|] == RepoDir;
    assert PluginInRepo[..|PluginDirInRepo|] == PluginDirInRepo;
    assert LuaInRepo[..|PluginDirInRepo|] != PluginDirInRepo by { assert LuaInRepo[25] != PluginDirInRepo[25]; }
  }

  lemma LocalItemFacts()
    ensures Within(PluginDirLocal, PluginLocal) && PluginLocal != PluginDirLocal
    ensures Disjoint(LuaLocal, PluginDirLocal)
  {
    assert PluginLocal[..|PluginDirLocal|] == PluginDirLocal;
    assert LuaLocal[..|PluginDirLocal|] != PluginDirLocal by { assert LuaLocal[0] != PluginDirLocal[0]; }
  }

  /** The live files, the patch and the scratch area are separate trees. */
  lemma OutsideFacts()
    ensures Disjoint(RepoParent, LuaLocal) && Disjoint(RepoParent, PluginDirLocal) && Disjoint(RepoParent, PatchFile)
    ensures Disjoint(LuaLocal, PatchFile) && Disjoint(PluginDirLocal, PatchFile)
  {
    assert LuaLocal[..|RepoParent|] != RepoParent by { assert LuaLocal[0] != RepoParent[0]; }
    assert PatchFile[..|RepoParent|] != RepoParent by { assert PatchFile[0] != RepoParent[0]; }
    assert PatchFile[..|PluginDirLocal|] != PluginDirLocal by { assert PatchFile[0] != PluginDirLocal[0]; }
    assert PatchFile[..|LuaLocal|] != LuaLocal by { assert PatchFile[0] != LuaLocal[0]; }
  }

  // ---------------------------------------------------------------------------
  // Properties of sparse_checkout_repo

  /** The events of a run of `sparse_checkout_repo` on `fs`, in order. */
  function ClonePlan(fs: FileSystem): seq<Event> {
    ResetPlan(fs) + ConfigurePlan() + FetchPlan()
  }

  function ResetPlan(fs: FileSystem): seq<Event> {
    [Event.Makedirs(RepoParent)] + (if RepoDir in fs then [Event.Rmtree(RepoDir)] else []) + [Event.Makedirs(RepoDir)]
  }

  function ConfigurePlan(): seq<Event> {
    [GitCall(RepoDir, ["init"]), GitCall(RepoDir, ["remote", "add", "origin", RepoUrl]),
     GitCall(RepoDir, ["config", "core.sparseCheckout", "true"]), Event.Makedirs(InfoDirInRepo),
     WriteText(SparseFileInRepo, SparseText)]
  }

  function FetchPlan(): seq<Event> {
    [GitCall(RepoDir, ["fetch", "--depth=1", "origin", CommitHash]), GitCall(RepoDir, ["checkout", CommitHash])]
  }

  lemma CloneResetIssued(s: State)
    ensures Issued(s, CloneReset(s), ResetPlan(s.fs))
  {
    if s.outcome.Running? {
      ParentFacts();
      var s1 := MakedirsStep(s, RepoParent, true);
      assert RepoDir in s1.fs <==> RepoDir in s.fs;
    }
  }

  lemma CloneConfigureIssued(g: GitOracle, s: State)
    ensures Issued(s, CloneConfigure(g, s), ConfigurePlan())
  {
  }

  lemma CloneFetchIssued(g: GitOracle, s: State)
    ensures Issued(s, CloneFetch(g, s), FetchPlan())
  {
  }

  /** Every run issues a prefix of the plan, and all of it if nothing failed:
      any existing clone is removed (dirty or not) before a new one is
      initialised, and the sparse file is in place before the fetch. */
  lemma SparseCheckoutFollowsPlan(g: GitOracle, s: State)
    ensures Issued(s, SparseCheckout(g, s), ClonePlan(s.fs))
  {
    var s3 := CloneReset(s);
    var c := CloneConfigure(g, s3);
    CloneResetIssued(s);
    CloneConfigureIssued(g, s3);
    IssuedThen(s, s3, c, ResetPlan(s.fs), ConfigurePlan());
    CloneFetchIssued(g, c);
    IssuedThen(s, c, CloneFetch(g, c), ResetPlan(s.fs) + ConfigurePlan(), FetchPlan());
  }

  /** The reset leaves a new, empty clone directory for `git init`. */
  lemma CloneResetEmpty(s: State)
    requires s.outcome.Running? && NoOrphans(s.fs, RepoDir)
    ensures CloneReset(s).outcome.Running? ==> IsEmptyDir(CloneReset(s).fs, RepoDir)
  {
    ParentFacts();
    var s1 := MakedirsStep(s, RepoParent, true);
    var s2 := if RepoDir in s1.fs then RmtreeStep(s1, RepoDir) else s1;
    if s2.outcome.Running? {
      assert forall q :: q in s2.fs ==> !Within(RepoDir, q);
    }
  }

  /** `sparse_checkout_repo` changes nothing outside `external/`. */
  lemma SparseCheckoutConfined(g: GitOracle, s: State)
    ensures ConfinedTo(s.fs, SparseCheckout(g, s).fs, {RepoParent})
  {
    ParentFacts();
    var s3 := CloneReset(s);
    CloneResetConfined(s);
    var c := CloneConfigure(g, s3);
    CloneConfigureConfined(g, s3);
    ConfinedNarrow(s3.fs, c.fs, RepoParent, RepoDir);
    ConfinedTrans(s.fs, s3.fs, c.fs, {RepoParent}, {RepoParent});
    CloneFetchConfined(g, c);
    ConfinedNarrow(c.fs, SparseCheckout(g, s).fs, RepoParent, RepoDir);
    ConfinedTrans(s.fs, c.fs, SparseCheckout(g, s).fs, {RepoParent}, {RepoParent});
  }

  lemma CloneResetConfined(s: State)
    ensures ConfinedTo(s.fs, CloneReset(s).fs, {RepoParent})
  {
    ParentFacts();
    var s1 := MakedirsStep(s, RepoParent, true);
    MakedirsStepConfined(s, RepoParent, true);
    var s2 := if RepoDir in s1.fs then RmtreeStep(s1, RepoDir) else s1;
    RmtreeStepConfined(s1, RepoDir);
    ConfinedNarrow(s1.fs, s2.fs, RepoParent, RepoDir);
    MakedirsStepConfined(s2, RepoDir, true);
    ConfinedNarrow(s2.fs, CloneReset(s).fs, RepoParent, RepoDir);
    ConfinedTrans(s.fs, s1.fs, s2.fs, {RepoParent}, {RepoParent});
    ConfinedTrans(s.fs, s2.fs, CloneReset(s).fs, {RepoParent}, {RepoParent});
  }

  lemma CloneFetchConfined(g: GitOracle, s: State)
    ensures ConfinedTo(s.fs, CloneFetch(g, s).fs, {RepoDir})
  {
    var s1 := GitStep(g, s, RepoDir, ["fetch", "--depth=1", "origin", CommitHash], true);
    GitStepConfined(g, s, RepoDir, ["fetch", "--depth=1", "origin", CommitHash], true);
    GitStepConfined(g, s1, RepoDir, ["checkout", CommitHash], true);
    ConfinedTrans(s.fs, s1.fs, CloneFetch(g, s).fs, {RepoDir}, {RepoDir});
  }

  lemma CloneConfigureConfined(g: GitOracle, s: State)
    ensures ConfinedTo(s.fs, CloneConfigure(g, s).fs, {RepoDir})
  {
    var s3 := CloneInit(g, s);
    CloneInitConfined(g, s);
    var s4 := MakedirsStep(s3, InfoDirInRepo, true);
    SparseFileConfined(s3);
    ConfinedTrans(s.fs, s3.fs, CloneConfigure(g, s).fs, {RepoDir}, {RepoDir});
  }

  lemma CloneInitConfined(g: GitOracle, s: State)
    ensures ConfinedTo(s.fs, CloneInit(g, s).fs, {RepoDir})
  {
    var s1 := GitStep(g, s, RepoDir, ["init"], true);
    GitStepConfined(g, s, RepoDir, ["init"], true);
    var s2 := GitStep(g, s1, RepoDir, ["remote", "add", "origin", RepoUrl], true);
    GitStepConfined(g, s1, RepoDir, ["remote", "add", "origin", RepoUrl], true);
    GitStepConfined(g, s2, RepoDir, ["config", "core.sparseCheckout", "true"], true);
    ConfinedTrans(s.fs, s1.fs, s2.fs, {RepoDir}, {RepoDir});
    ConfinedTrans(s.fs, s2.fs, CloneInit(g, s).fs, {RepoDir}, {RepoDir});
  }

  lemma SparseFileConfined(s: State)
    ensures ConfinedTo(s.fs, WriteStep(MakedirsStep(s, InfoDirInRepo, true), SparseFileInRepo, SparseText).fs, {RepoDir})
  {
    CloneFacts();
    var s4 := MakedirsStep(s, InfoDirInRepo, true);
    MakedirsStepConfined(s, InfoDirInRepo, true);
    ConfinedNarrow(s.fs, s4.fs, RepoDir, InfoDirInRepo);
    var w := WriteStep(s4, SparseFileInRepo, SparseText);
    WriteStepConfined(s4, SparseFileInRepo, SparseText);
    ConfinedNarrow(s4.fs, w.fs, RepoDir, SparseFileInRepo);
    ConfinedTrans(s.fs, s4.fs, w.fs, {RepoDir}, {RepoDir});
  }

  // ---------------------------------------------------------------------------
  // Properties of apply_patch

  function ApplyArgs(workDir: Path): seq<string> {
    ["apply", "--3way", PatchArgument(workDir)]
  }

  /** What `apply_patch` does, case by case: without a patch it succeeds
      without running git; otherwise it runs one unchecked `git apply --3way`
      (after normalising the patch's line endings in place on Windows) and
      reports whether git succeeded; an unreadable patch raises. */
  lemma ApplyPatchOutcome(g: GitOracle, s: State, win32: bool, workDir: Path)
    requires s.outcome.Running?
    ensures var (r, ok) := ApplyPatch(g, s, win32, workDir);
            && (PatchFile !in s.fs ==> r == s && ok)
            && (PatchFile in s.fs && !win32 ==>
                  && r.trace == s.trace + [GitCall(RepoDir, ApplyArgs(workDir))]
                  && r.outcome.Running?
                  && (ok <==> g(RepoDir, ApplyArgs(workDir), s.fs).status == 0)
                  && r.fs[PatchFile] == s.fs[PatchFile])
            && (PatchFile in s.fs && win32 && IsFile(s.fs, PatchFile) ==>
                  var lf := NormalizeNewlines(s.fs[PatchFile].data);
                  && r.trace == s.trace + [WriteText(PatchFile, lf), GitCall(RepoDir, ApplyArgs(workDir))]
                  && r.outcome.Running?
                  && (ok <==> g(RepoDir, ApplyArgs(workDir), s.fs[PatchFile := File(lf)]).status == 0)
                  && r.fs[PatchFile] == File(lf))
            && (PatchFile in s.fs && win32 && !IsFile(s.fs, PatchFile) ==>
                  r == s.(outcome := Raised) && !ok)
  {
    OutsideFacts();
    ParentFacts();
    DisjointNoCommon(RepoParent, PatchFile, PatchFile);
    if PatchFile in s.fs {
      var s1 :=
        if !win32 then s
        else if IsFile(s.fs, PatchFile) then WriteStep(s, PatchFile, NormalizeNewlines(s.fs[PatchFile].data))
        else s.(outcome := Raised);
      if s1.outcome.Running? {
        assert !Within(RepoDir, PatchFile) by {
          if Within(RepoDir, PatchFile) { WithinTrans(RepoParent, RepoDir, PatchFile); }
        }
      }
    }
  }

  // ---------------------------------------------------------------------------
  // Properties of the copy helpers

  /** A present source directory replaces the destination tree: beneath the
      destination the new state is exactly the source tree of the old one. */
  lemma CopyDirItemMirrors(s: State, src: Path, dst: Path)
    requires s.outcome.Running? && IsDir(s.fs, src)
    requires Disjoint(src, dst) && NoOrphans(s.fs, dst)
    ensures var r := CopyDirItem(s, src, dst);
            r.outcome.Running? ==> SubtreeMirrors(s.fs, r.fs, src, dst)
  {
    var cleared := if dst in s.fs then RmtreeStep(s, dst) else s;
    var r := CopyDirItem(s, src, dst);
    if r.outcome.Running? {
      assert cleared.fs == RemoveTree(s.fs, dst);
      ReplaceTreeMirrors(s.fs, src, dst);
      forall p | Within(dst, p)
        ensures (p in r.fs <==> Rebase(dst, src, p) in s.fs) && (p in r.fs ==> r.fs[p] == s.fs[Rebase(dst, src, p)])
      {
        RebaseWithin(dst, src, p);
        DisjointNoCommon(src, dst, Rebase(dst, src, p));
      }
    }
  }

  lemma CopyDirItemConfined(s: State, src: Path, dst: Path)
    ensures ConfinedTo(s.fs, CopyDirItem(s, src, dst).fs, {dst})
  {
    if s.outcome.Running? && src in s.fs {
      var cleared := if dst in s.fs then RmtreeStep(s, dst) else s;
      RmtreeStepConfined(s, dst);
      CopytreeStepConfined(cleared, src, dst);
      ConfinedTrans(s.fs, cleared.fs, CopyDirItem(s, src, dst).fs, {dst}, {dst});
    }
  }

  /** A present source file lands at the destination, which is not a
      directory, inside its parent; the copy fails exactly when a file stands
      where the parent directory or one of its ancestors should be. */
  lemma CopyFileItemCopies(s: State, src: Path, dst: Path, parent: Path)
    requires s.outcome.Running? && IsFile(s.fs, src) && !IsDir(s.fs, dst)
    requires Within(parent, dst) && dst != parent
    ensures var r := CopyFileItem(s, src, dst, parent);
            && (r.outcome.Running? <==> !BlockedByFile(s.fs, parent))
            && (r.outcome.Running? ==> r.fs == MakeDirs(s.fs, parent)[dst := s.fs[src]])
            && r.trace == s.trace + [Event.Makedirs(parent), Copy2(src, dst)][..if BlockedByFile(s.fs, parent) then 1 else 2]
  {
    var m := MakedirsStep(s, parent, true);
    if m.outcome.Running? {
      if dst in m.fs && dst !in s.fs {
        if dst in Ancestors(parent) { AncestorNotWithin(parent, dst); }
      }
      assert !IsDir(m.fs, dst);
    }
  }

  lemma CopyFileItemConfined(s: State, src: Path, dst: Path, parent: Path)
    requires Within(parent, dst) && Canonical(dst)
    ensures ConfinedTo(s.fs, CopyFileItem(s, src, dst, parent).fs, {parent})
  {
    if s.outcome.Running? && src in s.fs {
      var m := MakedirsStep(s, parent, true);
      MakedirsStepConfined(s, parent, true);
      Copy2StepConfined(m, src, dst);
      var t := Copy2Target(m.fs, src, dst);
      if t != dst { JoinWithin(dst, Basename(src)); WithinTrans(parent, dst, t); }
      ConfinedNarrow(m.fs, CopyFileItem(s, src, dst, parent).fs, parent, t);
      ConfinedTrans(s.fs, m.fs, CopyFileItem(s, src, dst, parent).fs, {parent}, {parent});
    }
  }

  /** A mirror survives a later change that is confined to a tree disjoint from it. */
  lemma MirrorSurvives(a: FileSystem, b: FileSystem, c: FileSystem, src: Path, dst: Path, root: Path)
    requires SubtreeMirrors(a, b, src, dst)
    requires ConfinedTo(b, c, {root}) && Disjoint(dst, root)
    ensures SubtreeMirrors(a, c, src, dst)
  {
    forall p | Within(dst, p)
      ensures (p in c <==> p in b) && (p in b ==> c[p] == b[p])
    {
      ConfinedKeepsTree(b, c, {root}, dst, p);
    }
  }

  /** Replacing the directory item leaves the file item's source and
      destination as they were. */
  lemma CopyDirItemKeepsFile(s: State, luaSrc: Path, luaDst: Path, plugSrc: Path, plugDst: Path, plugParent: Path)
    requires IsFile(s.fs, plugSrc) && !IsDir(s.fs, plugDst)
    requires Within(plugParent, plugDst) && Disjoint(luaDst, plugParent) && !Within(luaDst, plugSrc)
    ensures var m := CopyDirItem(s, luaSrc, luaDst);
            IsFile(m.fs, plugSrc) && m.fs[plugSrc] == s.fs[plugSrc] && !IsDir(m.fs, plugDst)
  {
    var m := CopyDirItem(s, luaSrc, luaDst);
    CopyDirItemConfined(s, luaSrc, luaDst);
    DisjointNoCommon(luaDst, plugParent, plugDst);
    if plugDst in m.fs && plugDst !in s.fs {
      var d :| d in {luaDst} && plugDst in Ancestors(d);
      AncestorIsWithin(plugDst, luaDst);
      WithinTrans(plugParent, plugDst, luaDst);
    }
  }

  /** A missing source only skips its own item: the other one is still copied. */
  lemma CopyItemsSkipsMissing(s: State, luaSrc: Path, luaDst: Path, plugSrc: Path, plugDst: Path, plugParent: Path)
    ensures luaSrc !in s.fs ==>
              CopyItems(s, luaSrc, luaDst, plugSrc, plugDst, plugParent) == CopyFileItem(s, plugSrc, plugDst, plugParent)
    ensures plugSrc !in CopyDirItem(s, luaSrc, luaDst).fs ==>
              CopyItems(s, luaSrc, luaDst, plugSrc, plugDst, plugParent) == CopyDirItem(s, luaSrc, luaDst)
    ensures luaSrc !in s.fs && plugSrc !in s.fs ==> CopyItems(s, luaSrc, luaDst, plugSrc, plugDst, plugParent) == s
  {
  }

  /** Both items of a copy helper: the directory tree is mirrored and the
      file copied, and neither copy disturbs the other. */
  lemma CopyItemsSync(s: State, luaSrc: Path, luaDst: Path, plugSrc: Path, plugDst: Path, plugParent: Path)
    requires s.outcome.Running? && IsDir(s.fs, luaSrc) && IsFile(s.fs, plugSrc) && !IsDir(s.fs, plugDst)
    requires Disjoint(luaSrc, luaDst) && NoOrphans(s.fs, luaDst)
    requires Within(plugParent, plugDst) && plugDst != plugParent
    requires Disjoint(luaDst, plugParent) && !Within(luaDst, plugSrc) && Canonical(plugDst)
    ensures var r := CopyItems(s, luaSrc, luaDst, plugSrc, plugDst, plugParent);
            r.outcome.Running? ==> SubtreeMirrors(s.fs, r.fs, luaSrc, luaDst) && plugDst in r.fs && r.fs[plugDst] == s.fs[plugSrc]
  {
    var m := CopyDirItem(s, luaSrc, luaDst);
    var r := CopyFileItem(m, plugSrc, plugDst, plugParent);
    if r.outcome.Running? {
      CopyDirItemMirrors(s, luaSrc, luaDst);
      CopyDirItemKeepsFile(s, luaSrc, luaDst, plugSrc, plugDst, plugParent);
      CopyFileItemCopies(m, plugSrc, plugDst, plugParent);
      CopyFileItemConfined(m, plugSrc, plugDst, plugParent);
      MirrorSurvives(s.fs, m.fs, r.fs, luaSrc, luaDst, plugParent);
    }
  }

  /** `copy_repo_to_local` installs the clone's `lua/claudecode` tree and
      `plugin/claudecode.lua` as the live ones. */
  lemma CopyRepoToLocalInstalls(s: State)
    requires s.outcome.Running?
    ensures IsDir(s.fs, LuaInRepo) && IsFile(s.fs, PluginInRepo) && !IsDir(s.fs, PluginLocal) && NoOrphans(s.fs, LuaLocal) ==>
              var r := CopyRepoToLocal(s);
              r.outcome.Running? ==> SubtreeMirrors(s.fs, r.fs, LuaInRepo, LuaLocal) && PluginLocal in r.fs && r.fs[PluginLocal] == s.fs[PluginInRepo]
  {
    if IsDir(s.fs, LuaInRepo) && IsFile(s.fs, PluginInRepo) && !IsDir(s.fs, PluginLocal) && NoOrphans(s.fs, LuaLocal) {
      ParentFacts(); RepoItemFacts(); LocalItemFacts(); OutsideFacts();
      WithinTrans(RepoParent, RepoDir, LuaInRepo);
      WithinTrans(RepoParent, RepoDir, PluginDirInRepo);
      WithinTrans(RepoParent, PluginDirInRepo, PluginInRepo);
      DisjointBeneath(RepoParent, LuaLocal, LuaInRepo, LuaLocal);
      DisjointBeneath(RepoParent, LuaLocal, PluginInRepo, LuaLocal);
      CopyItemsSync(s, LuaInRepo, LuaLocal, PluginInRepo, PluginLocal, PluginDirLocal);
    }
  }

  /** `copy_local_to_repo` puts the live `lua/claudecode` tree and
      `plugin/claudecode.lua` into the clone. */
  lemma CopyLocalToRepoInstalls(s: State)
    requires s.outcome.Running?
    ensures IsDir(s.fs, LuaLocal) && IsFile(s.fs, PluginLocal) && !IsDir(s.fs, PluginInRepo) && NoOrphans(s.fs, LuaInRepo) ==>
              var r := CopyLocalToRepo(s);
              r.outcome.Running? ==> SubtreeMirrors(s.fs, r.fs, LuaLocal, LuaInRepo) && PluginInRepo in r.fs && r.fs[PluginInRepo] == s.fs[PluginLocal]
  {
    if IsDir(s.fs, LuaLocal) && IsFile(s.fs, PluginLocal) && !IsDir(s.fs, PluginInRepo) && NoOrphans(s.fs, LuaInRepo) {
      ParentFacts(); RepoItemFacts(); LocalItemFacts(); OutsideFacts();
      WithinTrans(RepoParent, RepoDir, LuaInRepo);
      DisjointBeneath(RepoParent, LuaLocal, LuaInRepo, LuaLocal);
      DisjointBeneath(RepoParent, PluginDirLocal, LuaInRepo, PluginLocal);
      CopyItemsSync(s, LuaLocal, LuaInRepo, PluginLocal, PluginInRepo, PluginDirInRepo);
    }
  }

  lemma CopyItemsConfined(s: State, luaSrc: Path, luaDst: Path, plugSrc: Path, plugDst: Path, plugParent: Path)
    requires Within(plugParent, plugDst) && Canonical(plugDst)
    ensures ConfinedTo(s.fs, CopyItems(s, luaSrc, luaDst, plugSrc, plugDst, plugParent).fs, {luaDst, plugParent})
  {
    var m := CopyDirItem(s, luaSrc, luaDst);
    CopyDirItemConfined(s, luaSrc, luaDst);
    CopyFileItemConfined(m, plugSrc, plugDst, plugParent);
    ConfinedTrans(s.fs, m.fs, CopyItems(s, luaSrc, luaDst, plugSrc, plugDst, plugParent).fs, {luaDst}, {plugParent});
  }

  // ---------------------------------------------------------------------------
  // Properties of cleanup

  /** A successful clean-up only removes entries: the whole clone, and
      `external/` exactly when nothing else is left in it; nothing outside
      `external/` is touched. It fails exactly when the clone or `external/`
      is of the wrong kind. */
  lemma CleanupEffect(s: State)
    requires s.outcome.Running? && NoOrphans(s.fs, RepoDir)
    ensures var r := Cleanup(s);
            && (r.outcome.Running? <==> (RepoDir in s.fs ==> IsDir(s.fs, RepoDir)) && (RepoParent in s.fs ==> IsDir(s.fs, RepoParent)))
            && (r.outcome.Running? ==>
                  && (forall p :: p in r.fs ==> p in s.fs && r.fs[p] == s.fs[p])
                  && (forall p :: Within(RepoDir, p) ==> p !in r.fs)
                  && (forall p :: p in s.fs && !Within(RepoParent, p) ==> p in r.fs)
                  && (RepoParent in r.fs <==> RepoParent in s.fs && !IsEmptyDir(RemoveTree(s.fs, RepoDir), RepoParent)))
  {
    ParentFacts();
    var s1 := if RepoDir in s.fs then RmtreeStep(s, RepoDir) else s;
    if s1.outcome.Running? {
      assert s1.fs == RemoveTree(s.fs, RepoDir);
      forall p | p in s.fs && !Within(RepoParent, p)
        ensures !Within(RepoDir, p)
      {
        if Within(RepoDir, p) { WithinTrans(RepoParent, RepoDir, p); }
      }
    }
  }

  lemma CleanupConfined(s: State)
    ensures ConfinedTo(s.fs, Cleanup(s).fs, {RepoParent})
  {
    if s.outcome.Running? {
      ParentFacts();
      var s1 := if RepoDir in s.fs then RmtreeStep(s, RepoDir) else s;
      RmtreeStepConfined(s, RepoDir);
      ConfinedNarrow(s.fs, s1.fs, RepoParent, RepoDir);
      RmdirStepConfined(s1, RepoParent);
      ConfinedTrans(s.fs, s1.fs, Cleanup(s).fs, {RepoParent}, {RepoParent});
    }
  }

  /** Cleaning up twice is cleaning up once. */
  lemma CleanupIdempotent(s: State)
    ensures Cleanup(Cleanup(s)) == Cleanup(s)
  {
    var r := Cleanup(s);
    if s.outcome.Running? && r.outcome.Running? {
      ParentFacts();
      var s1 := if RepoDir in s.fs then RmtreeStep(s, RepoDir) else s;
      assert RepoDir !in r.fs;
      if RepoParent in r.fs {
        assert r == s1;
        assert !IsEmptyDir(r.fs, RepoParent);
      }
    }
  }

  // ---------------------------------------------------------------------------
  // Properties of generate_repatch

  lemma CleanupExtends(s: State)
    ensures Extends(s, Cleanup(s))
  {
  }

  lemma SparseCheckoutStarts(g: GitOracle, s: State)
    requires s.outcome.Running?
    ensures var r := SparseCheckout(g, s);
            Extends(s, r) && |r.trace| > |s.trace| && r.trace[|s.trace|] == Event.Makedirs(RepoParent)
  {
    SparseCheckoutFollowsPlan(g, s);
    var r := SparseCheckout(g, s);
    assert r.trace[|s.trace|..] <= ClonePlan(s.fs);
    assert |r.trace| > |s.trace| by {
      CloneResetIssued(s);
      assert Extends(s, MakedirsStep(s, RepoParent, true));
    }
    assert r.trace[|s.trace|..][0] == ClonePlan(s.fs)[0];
  }

  lemma CopyItemsExtends(s: State, luaSrc: Path, luaDst: Path, plugSrc: Path, plugDst: Path, plugParent: Path)
    ensures Extends(s, CopyItems(s, luaSrc, luaDst, plugSrc, plugDst, plugParent))
  {
    var m := CopyDirItem(s, luaSrc, luaDst);
    assert Extends(s, m);
    assert Extends(m, CopyFileItem(m, plugSrc, plugDst, plugParent));
    ExtendsTrans(s, m, CopyFileItem(m, plugSrc, plugDst, plugParent));
  }

  /** Everything the bootstrap does after the clone only adds to the trace. */
  lemma RepatchBootstrapTail(g: GitOracle, s: State)
    ensures Extends(SparseCheckout(g, s), RepatchBootstrap(g, s))
  {
    var s1 := SparseCheckout(g, s);
    var s2 := CopyLocalToRepo(s1);
    CopyItemsExtends(s1, LuaLocal, LuaInRepo, PluginLocal, PluginInRepo, PluginDirInRepo);
    var s3 := GitStep(g, s2, RepoDir, AddArgs, true);
    ExtendsTrans(s1, s2, s3);
    ExtendsTrans(s1, s3, GitStep(g, s3, RepoDir, CommitArgs, true));
  }

  /** `generate_repatch` runs the clone, copy, add and commit only when no
      clone exists, and otherwise starts straight with the diff; on success
      the patch file holds exactly the diff of the pinned commit against HEAD
      of that clone, and the clone is gone. */
  lemma GenerateRepatchOutcome(g: GitOracle, s: State)
    requires s.outcome.Running?
    ensures var r := GenerateRepatch(g, s);
            && Extends(s, r) && |r.trace| > |s.trace|
            && (RepoDir in s.fs ==> r.trace[|s.trace|] == GitCall(RepoDir, DiffArgs))
            && (RepoDir !in s.fs ==> r.trace[|s.trace|] == Event.Makedirs(RepoParent))
            && (r.outcome.Running? ==>
                  && PatchFile in r.fs && r.fs[PatchFile] == File(g(RepoDir, DiffArgs, RepatchBase(g, s).fs).stdout)
                  && RepoDir !in r.fs)
  {
    var s1 := RepatchBase(g, s);
    var diff := g(RepoDir, DiffArgs, s1.fs).stdout;
    var s2 := GitStep(g, s1, RepoDir, DiffArgs, true);
    var w := WriteStep(s2, PatchFile, diff);
    var r := Cleanup(w);
    if RepoDir !in s.fs {
      RepatchBootstrapHeads(g, s);
    }
    assert Extends(s1, s2) && Extends(s2, w);
    CleanupExtends(w);
    ExtendsTrans(s1, s2, w);
    ExtendsTrans(s1, w, r);
    if RepoDir in s.fs {
      assert r.trace[|s.trace|] == w.trace[..|s2.trace|][|s.trace|];
    } else {
      ExtendsTrans(s, s1, r);
      assert r.trace[|s.trace|] == s1.trace[|s.trace|];
    }
    if r.outcome.Running? {
      OutsideFacts();
      assert !Within(RepoParent, PatchFile);
      CleanupRemovesClone(w);
    }
  }

  lemma RepatchBootstrapHeads(g: GitOracle, s: State)
    requires s.outcome.Running?
    ensures var r := RepatchBootstrap(g, s);
            Extends(s, r) && |r.trace| > |s.trace| && r.trace[|s.trace|] == Event.Makedirs(RepoParent)
  {
    var s1 := SparseCheckout(g, s);
    var r := RepatchBootstrap(g, s);
    SparseCheckoutStarts(g, s);
    RepatchBootstrapTail(g, s);
    ExtendsTrans(s, s1, r);
    assert r.trace[|s.trace|] == r.trace[..|s1.trace|][|s.trace|];
  }

  /** The copy helpers and the clean-up only move files: neither invokes git. */
  lemma CopyDirItemQuiet(s: State, src: Path, dst: Path)
    ensures Quiet(s, CopyDirItem(s, src, dst))
  {
    if s.outcome.Running? && src in s.fs {
      var cleared := if dst in s.fs then RmtreeStep(s, dst) else s;
      if dst in s.fs { QuietStep(s, cleared, Rmtree(dst)); }
      if cleared.outcome.Running? {
        QuietStep(cleared, CopytreeStep(cleared, src, dst), Copytree(src, dst));
        QuietTrans(s, cleared, CopytreeStep(cleared, src, dst));
      }
    }
  }

  lemma CopyFileItemQuiet(s: State, src: Path, dst: Path, dstParent: Path)
    ensures Quiet(s, CopyFileItem(s, src, dst, dstParent))
  {
    if s.outcome.Running? && src in s.fs {
      var d := MakedirsStep(s, dstParent, true);
      QuietStep(s, d, Event.Makedirs(dstParent));
      if d.outcome.Running? {
        QuietStep(d, Copy2Step(d, src, dst), Copy2(src, dst));
        QuietTrans(s, d, Copy2Step(d, src, dst));
      }
    }
  }

  lemma CopyItemsQuiet(s: State, luaSrc: Path, luaDst: Path, plugSrc: Path, plugDst: Path, plugParent: Path)
    ensures Quiet(s, CopyItems(s, luaSrc, luaDst, plugSrc, plugDst, plugParent))
  {
    var m := CopyDirItem(s, luaSrc, luaDst);
    CopyDirItemQuiet(s, luaSrc, luaDst);
    CopyFileItemQuiet(m, plugSrc, plugDst, plugParent);
    QuietTrans(s, m, CopyFileItem(m, plugSrc, plugDst, plugParent));
  }

  lemma CleanupQuiet(s: State)
    ensures Quiet(s, Cleanup(s))
  {
    var s1 := if s.outcome.Running? && RepoDir in s.fs then RmtreeStep(s, RepoDir) else s;
    QuietTrans(s, s1, Cleanup(s));
  }

  /** The baseline commit: `git add -A`, then the commit. */
  lemma BaselineIssued(g: GitOracle, c: State)
    ensures Issued(c, GitStep(g, GitStep(g, c, RepoDir, AddArgs, true), RepoDir, CommitArgs, true),
                   [GitCall(RepoDir, AddArgs), GitCall(RepoDir, CommitArgs)])
  {
    var a := GitStep(g, c, RepoDir, AddArgs, true);
    GitStepIssued(g, c, RepoDir, AddArgs, true);
    GitStepIssued(g, a, RepoDir, CommitArgs, true);
    IssuedThen(c, a, GitStep(g, a, RepoDir, CommitArgs, true), [GitCall(RepoDir, AddArgs)], [GitCall(RepoDir, CommitArgs)]);
  }

  /** Without a clone, `generate_repatch` first issues (a prefix of) the clone
      plan, then only the copy of the live files into the clone, then
      `git add -A` and the baseline commit, in that order. */
  lemma RepatchBootstrapOrder(g: GitOracle, s: State)
    ensures var sc := SparseCheckout(g, s);
            var c := CopyLocalToRepo(sc);
            && Issued(s, sc, ClonePlan(s.fs))
            && Quiet(sc, c)
            && Issued(c, RepatchBootstrap(g, s), [GitCall(RepoDir, AddArgs), GitCall(RepoDir, CommitArgs)])
  {
    SparseCheckoutFollowsPlan(g, s);
    var sc := SparseCheckout(g, s);
    CopyItemsQuiet(sc, LuaLocal, LuaInRepo, PluginLocal, PluginInRepo, PluginDirInRepo);
    BaselineIssued(g, CopyLocalToRepo(sc));
  }

  /** What `generate_repatch` does once it has a clone: the diff first; a
      failing diff stops it there with nothing changed, otherwise the patch
      file is written with the diff's output next and only clean-up follows. */
  lemma RepatchFinishOrder(g: GitOracle, b: State)
    requires b.outcome.Running?
    ensures var reply := g(RepoDir, DiffArgs, b.fs);
            var r := Cleanup(WriteStep(GitStep(g, b, RepoDir, DiffArgs, true), PatchFile, reply.stdout));
            && Extends(b, r) && |r.trace| > |b.trace| && r.trace[|b.trace|] == GitCall(RepoDir, DiffArgs)
            && (reply.status != 0 ==> r == State(b.fs, b.trace + [GitCall(RepoDir, DiffArgs)], Raised))
            && (reply.status == 0 ==>
                  && |r.trace| >= |b.trace| + 2 && r.trace[|b.trace| + 1] == WriteText(PatchFile, reply.stdout)
                  && forall i :: |b.trace| + 2 <= i < |r.trace| ==> !r.trace[i].GitCall?)
  {
    var reply := g(RepoDir, DiffArgs, b.fs);
    var d := GitStep(g, b, RepoDir, DiffArgs, true);
    var w := WriteStep(d, PatchFile, reply.stdout);
    var r := Cleanup(w);
    assert d.trace == b.trace + [GitCall(RepoDir, DiffArgs)];
    CleanupQuiet(w);
    if reply.status == 0 {
      assert w.trace == d.trace + [WriteText(PatchFile, reply.stdout)];
      assert w.trace[|b.trace|] == GitCall(RepoDir, DiffArgs) && w.trace[|b.trace| + 1] == WriteText(PatchFile, reply.stdout);
      ExtendsTrans(b, w, r);
      assert r.trace[|b.trace|] == r.trace[..|w.trace|][|b.trace|];
      assert r.trace[|b.trace| + 1] == r.trace[..|w.trace|][|b.trace| + 1];
    }
  }

  /** `generate_repatch` works on the existing clone when there is one, and
      from the clone it works on does what `RepatchFinishOrder` says. */
  lemma GenerateRepatchOrder(g: GitOracle, s: State)
    requires s.outcome.Running?
    ensures var b := RepatchBase(g, s);
            var reply := g(RepoDir, DiffArgs, b.fs);
            var r := GenerateRepatch(g, s);
            && (RepoDir in s.fs ==> b == s)
            && (!b.outcome.Running? ==> r == b)
            && (b.outcome.Running? ==>
                  && Extends(b, r) && |r.trace| > |b.trace| && r.trace[|b.trace|] == GitCall(RepoDir, DiffArgs)
                  && (reply.status != 0 ==> r == State(b.fs, b.trace + [GitCall(RepoDir, DiffArgs)], Raised))
                  && (reply.status == 0 ==>
                        && |r.trace| >= |b.trace| + 2 && r.trace[|b.trace| + 1] == WriteText(PatchFile, reply.stdout)
                        && forall i :: |b.trace| + 2 <= i < |r.trace| ==> !r.trace[i].GitCall?))
  {
    var b := RepatchBase(g, s);
    if b.outcome.Running? {
      RepatchFinishOrder(g, b);
    }
  }

  /** What survives any clean-up that does not fail: nothing of the clone,
      and every entry outside `external/`. */
  lemma CleanupRemovesClone(s: State)
    ensures var r := Cleanup(s);
            s.outcome.Running? && r.outcome.Running? ==>
              RepoDir !in r.fs && (forall p :: p in s.fs && !Within(RepoParent, p) ==> p in r.fs && r.fs[p] == s.fs[p])
  {
    CleanupConfined(s);
    ParentFacts();
  }

  lemma RepatchBaseConfined(g: GitOracle, s: State)
    ensures ConfinedTo(s.fs, RepatchBase(g, s).fs, {RepoParent})
  {
    if RepoDir !in s.fs {
      ParentFacts(); RepoItemFacts();
      var s1 := SparseCheckout(g, s);
      SparseCheckoutConfined(g, s);
      var s2 := CopyLocalToRepo(s1);
      CopyLocalToRepoConfined(s1);
      var s3 := GitStep(g, s2, RepoDir, AddArgs, true);
      GitStepConfined(g, s2, RepoDir, AddArgs, true);
      ConfinedNarrow(s2.fs, s3.fs, RepoParent, RepoDir);
      GitStepConfined(g, s3, RepoDir, CommitArgs, true);
      ConfinedNarrow(s3.fs, RepatchBase(g, s).fs, RepoParent, RepoDir);
      ConfinedTrans(s.fs, s1.fs, s2.fs, {RepoParent}, {RepoParent});
      ConfinedTrans(s.fs, s2.fs, s3.fs, {RepoParent}, {RepoParent});
      ConfinedTrans(s.fs, s3.fs, RepatchBase(g, s).fs, {RepoParent}, {RepoParent});
    } else {
      ConfinedRefl(s.fs, {RepoParent});
    }
  }

  /** `copy_local_to_repo` writes only inside the clone's tree. */
  lemma CopyLocalToRepoConfined(s: State)
    ensures ConfinedTo(s.fs, CopyLocalToRepo(s).fs, {RepoParent})
  {
    ParentFacts(); RepoItemFacts();
    WithinTrans(RepoParent, RepoDir, LuaInRepo);
    WithinTrans(RepoParent, RepoDir, PluginDirInRepo);
    WithinTrans(RepoParent, PluginDirInRepo, PluginInRepo);
    var m := CopyDirItem(s, LuaLocal, LuaInRepo);
    CopyDirItemConfined(s, LuaLocal, LuaInRepo);
    ConfinedNarrow(s.fs, m.fs, RepoParent, LuaInRepo);
    CopyFileItemConfined(m, PluginLocal, PluginInRepo, PluginDirInRepo);
    ConfinedNarrow(m.fs, CopyLocalToRepo(s).fs, RepoParent, PluginDirInRepo);
    ConfinedTrans(s.fs, m.fs, CopyLocalToRepo(s).fs, {RepoParent}, {RepoParent});
  }

  /** `generate_repatch` changes nothing but `external/` and the patch file. */
  lemma GenerateRepatchConfined(g: GitOracle, s: State)
    ensures ConfinedTo(s.fs, GenerateRepatch(g, s).fs, {RepoParent, PatchFile})
  {
    if s.outcome.Running? {
      ParentFacts();
      var s1 := RepatchBase(g, s);
      RepatchBaseConfined(g, s);
      var s2 := GitStep(g, s1, RepoDir, DiffArgs, true);
      assert s2.fs == s1.fs;
      var w := WriteStep(s2, PatchFile, g(RepoDir, DiffArgs, s1.fs).stdout);
      WriteStepConfined(s2, PatchFile, g(RepoDir, DiffArgs, s1.fs).stdout);
      CleanupConfined(w);
      ConfinedTrans(s.fs, s1.fs, w.fs, {RepoParent}, {PatchFile});
      ConfinedTrans(s.fs, w.fs, Cleanup(w).fs, {RepoParent, PatchFile}, {RepoParent});
      assert {RepoParent, PatchFile} + {RepoParent} == {RepoParent, PatchFile};
    }
  }

  // ---------------------------------------------------------------------------
  // Properties of the --update flow and of main

  lemma ApplyPatchConfined(g: GitOracle, s: State, win32: bool, workDir: Path)
    ensures ConfinedTo(s.fs, ApplyPatch(g, s, win32, workDir).0.fs, {RepoParent, PatchFile})
  {
    ParentFacts();
    if s.outcome.Running? && PatchFile in s.fs {
      var s1 :=
        if !win32 then s
        else if IsFile(s.fs, PatchFile) then WriteStep(s, PatchFile, NormalizeNewlines(s.fs[PatchFile].data))
        else s.(outcome := Raised);
      if win32 && IsFile(s.fs, PatchFile) { WriteStepConfined(s, PatchFile, NormalizeNewlines(s.fs[PatchFile].data)); }
      ConfinedWiden(s.fs, s1.fs, {PatchFile}, {RepoParent, PatchFile});
      GitStepConfined(g, s1, RepoDir, ApplyArgs(workDir), false);
      ConfinedNarrow(s1.fs, GitStep(g, s1, RepoDir, ApplyArgs(workDir), false).fs, RepoParent, RepoDir);
      ConfinedTrans(s.fs, s1.fs, GitStep(g, s1, RepoDir, ApplyArgs(workDir), false).fs, {RepoParent, PatchFile}, {RepoParent});
      assert {RepoParent, PatchFile} + {RepoParent} == {RepoParent, PatchFile};
    }
  }

  /** The files the `--update` flow may change. */
  function UpdateRoots(): set<Path> {
    {RepoParent, PatchFile, LuaLocal, PluginDirLocal}
  }

  /** `--update` changes nothing but `external/`, the patch file (on Windows),
      `lua/claudecode` and `plugin/`. */
  lemma UpdateConfined(g: GitOracle, s: State, win32: bool, workDir: Path)
    ensures ConfinedTo(s.fs, Update(g, s, win32, workDir).fs, UpdateRoots())
  {
    LocalItemFacts();
    var s1 := SparseCheckout(g, s);
    SparseCheckoutConfined(g, s);
    var (s2, ok) := ApplyPatch(g, s1, win32, workDir);
    ApplyPatchConfined(g, s1, win32, workDir);
    ConfinedTrans(s.fs, s1.fs, s2.fs, {RepoParent}, {RepoParent, PatchFile});
    assert {RepoParent} + {RepoParent, PatchFile} <= UpdateRoots();
    ConfinedWiden(s.fs, s2.fs, {RepoParent} + {RepoParent, PatchFile}, UpdateRoots());
    var c := CopyRepoToLocal(s2);
    assert Canonical(PluginLocal);
    CopyItemsConfined(s2, LuaInRepo, LuaLocal, PluginInRepo, PluginLocal, PluginDirLocal);
    CleanupConfined(c);
    ConfinedTrans(s2.fs, c.fs, Cleanup(c).fs, {LuaLocal, PluginDirLocal}, {RepoParent});
    ConfinedTrans(s.fs, s2.fs, Cleanup(c).fs, UpdateRoots(), {LuaLocal, PluginDirLocal} + {RepoParent});
    assert UpdateRoots() + ({LuaLocal, PluginDirLocal} + {RepoParent}) == UpdateRoots();
  }

  /** After a conflict the flow stops with exit status 1, leaving the clone
      exactly as `git apply` left it for manual resolution; after a clean
      apply, the live files are the patched clone's and the clone is gone. */
  lemma UpdateOutcome(g: GitOracle, s: State, win32: bool, workDir: Path)
    ensures var s1 := SparseCheckout(g, s);
            var (s2, ok) := ApplyPatch(g, s1, win32, workDir);
            var r := Update(g, s, win32, workDir);
            && (s1.outcome.Running? && s2.outcome.Running? && !ok ==> r == s2.(outcome := Exited(1)))
            && (s1.outcome.Running? && s2.outcome.Running? && ok &&
                IsDir(s2.fs, LuaInRepo) && IsFile(s2.fs, PluginInRepo) && !IsDir(s2.fs, PluginLocal) &&
                NoOrphans(s2.fs, LuaLocal) && r.outcome.Running? ==>
                  && SubtreeMirrors(s2.fs, r.fs, LuaInRepo, LuaLocal)
                  && PluginLocal in r.fs && r.fs[PluginLocal] == s2.fs[PluginInRepo]
                  && RepoDir !in r.fs)
  {
    var s1 := SparseCheckout(g, s);
    var (s2, ok) := ApplyPatch(g, s1, win32, workDir);
    if s1.outcome.Running? && s2.outcome.Running? && ok &&
       IsDir(s2.fs, LuaInRepo) && IsFile(s2.fs, PluginInRepo) && !IsDir(s2.fs, PluginLocal) && NoOrphans(s2.fs, LuaLocal) {
      var c := CopyRepoToLocal(s2);
      var r := Cleanup(c);
      if r.outcome.Running? {
        CopyRepoToLocalInstalls(s2);
        OutsideFacts(); LocalItemFacts();
        CleanupConfined(c);
        MirrorSurvives(s2.fs, c.fs, r.fs, LuaInRepo, LuaLocal, RepoParent);
        DisjointNoCommon(RepoParent, PluginDirLocal, PluginLocal);
        CleanupRemovesClone(c);
      }
    }
  }

  /** `--repatch` wins over `--update`; with neither flag the script exits
      with status 1 and changes nothing. */
  lemma RunMainModes(g: GitOracle, s: State, repatch: bool, update: bool, win32: bool, workDir: Path)
    ensures repatch ==> RunMain(g, s, repatch, update, win32, workDir) == GenerateRepatch(g, s)
    ensures !repatch && update ==> RunMain(g, s, repatch, update, win32, workDir) == Update(g, s, win32, workDir)
    ensures !repatch && !update ==>
              var r := RunMain(g, s, repatch, update, win32, workDir);
              r.fs == s.fs && r.trace == s.trace && (s.outcome.Running? ==> r.outcome == Exited(1))
  {
  }

  /** Whatever the flags, the script changes nothing outside `external/`,
      the patch file, `lua/claudecode` and `plugin/`. */
  lemma RunMainConfined(g: GitOracle, s: State, repatch: bool, update: bool, win32: bool, workDir: Path)
    ensures ConfinedTo(s.fs, RunMain(g, s, repatch, update, win32, workDir).fs, UpdateRoots())
  {
    if repatch {
      GenerateRepatchConfined(g, s);
      ConfinedWiden(s.fs, GenerateRepatch(g, s).fs, {RepoParent, PatchFile}, UpdateRoots());
    } else if update {
      UpdateConfined(g, s, win32, workDir);
    } else {
      ConfinedRefl(s.fs, UpdateRoots());
    }
  }
}
