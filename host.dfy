/** The process the scripts run in: the filesystem, the git oracle, the ordered
    record of operations issued, and how the process is ending. Each operation
    is a pure step on `State` (identity once the process has stopped) and a
    method of `Machine` that performs it in place. */
module Host {
  import opened Fs

  /** `Running` until `sys.exit(code)` / `exit(code)` (`Exited`) or an uncaught
      exception such as `CalledProcessError` or `FileNotFoundError` (`Raised`). */
  datatype Outcome = Running | Exited(code: int) | Raised

  /** The operations with an effect, in the order issued. */
  datatype Event =
    | GitCall(cwd: Path, args: seq<string>)
    | Makedirs(path: Path)
    | Rmtree(path: Path)
    | Copytree(src: Path, dst: Path)
    | Copy2(src: Path, dst: Path)
    | WriteText(path: Path, data: string)
    | Unlink(path: Path)
    | Rmdir(path: Path)

  /** What one git invocation returns: exit status, captured stdout, and the
      filesystem as git leaves it (only its working directory is taken from it). */
  datatype Reply = Reply(status: int, stdout: string, tree: FileSystem)

  /** Git as an uninterpreted, deterministic oracle. */
  type GitOracle = (Path, seq<string>, FileSystem) -> Reply

  datatype State = State(fs: FileSystem, trace: seq<Event>, outcome: Outcome)

  /** Python's `str.isspace` for one character. */
  predicate IsSpace(c: char) {
    || c == ' ' || ('\t' <= c <= '\r') || ('\U{1c}' <= c <= '\U{1f}')
    || c == '\U{85}' || c == '\U{a0}' || c == '\U{1680}' || ('\U{2000}' <= c <= '\U{200a}')
    || c == '\U{2028}' || c == '\U{2029}' || c == '\U{202f}' || c == '\U{205f}' || c == '\U{3000}'
  }

  /** `not s.strip()`: the text is empty or only whitespace. */
  predicate IsBlank(s: string) {
    forall i :: 0 <= i < |s| ==> IsSpace(s[i])
  }

  /** `git status` and `git diff` only read the working tree. */
  predicate ReadOnlyGit(args: seq<string>) {
    |args| > 0 && (args[0] == "status" || args[0] == "diff")
  }

  const StatusArgs: seq<string> := ["status", "--porcelain"]

  /** `is_worktree_dirty`: `git status --porcelain` printed something. */
  predicate Dirty(g: GitOracle, fs: FileSystem, path: Path) {
    !IsBlank(g(path, StatusArgs, fs).stdout)
  }

  /** The text of a regular file, if `p` is one. */
  predicate IsFile(fs: FileSystem, p: Path) {
    p in fs && fs[p].File?
  }

  predicate IsDir(fs: FileSystem, p: Path) {
    p in fs && fs[p] == Dir
  }

  /** A git invocation in `cwd`; with `check` a non-zero status raises. */
  function GitStep(g: GitOracle, s: State, cwd: Path, args: seq<string>, check: bool): State {
    if !s.outcome.Running? then s
    else
      var r := g(cwd, args, s.fs);
      State(if ReadOnlyGit(args) then s.fs else Overlay(s.fs, cwd, r.tree),
            s.trace + [GitCall(cwd, args)],
            if check && r.status != 0 then Raised else Running)
  }

  function ExitStep(s: State, code: int): State {
    if !s.outcome.Running? then s else s.(outcome := Exited(code))
  }

  /** `os.makedirs(p, exist_ok=existOk)`. */
  function MakedirsStep(s: State, p: Path, existOk: bool): State {
    if !s.outcome.Running? then s
    else
      var t := s.trace + [Makedirs(p)];
      if BlockedByFile(s.fs, p) || (!existOk && p in s.fs) then State(s.fs, t, Raised)
      else State(MakeDirs(s.fs, p), t, Running)
  }

  /** `shutil.rmtree(p)`: only a present directory can be removed. */
  function RmtreeStep(s: State, p: Path): State {
    if !s.outcome.Running? then s
    else
      var t := s.trace + [Rmtree(p)];
      if IsDir(s.fs, p) then State(RemoveTree(s.fs, p), t, Running) else State(s.fs, t, Raised)
  }

  /** `shutil.copytree(src, dst)`: `src` must be a directory and `dst` absent. */
  function CopytreeStep(s: State, src: Path, dst: Path): State {
    if !s.outcome.Running? then s
    else
      var t := s.trace + [Copytree(src, dst)];
      if !IsDir(s.fs, src) || dst in s.fs || BlockedByFile(s.fs, dst) then State(s.fs, t, Raised)
      else State(CopyTree(s.fs, src, dst), t, Running)
  }

  /** Where `shutil.copy2(src, dst)` writes: into `dst` when it is a directory. */
  function Copy2Target(fs: FileSystem, src: Path, dst: Path): Path {
    if IsDir(fs, dst) then Join(dst, Basename(src)) else dst
  }

  /** `shutil.copy2(src, dst)`: `src` must be a regular file. */
  function Copy2Step(s: State, src: Path, dst: Path): State {
    if !s.outcome.Running? then s
    else
      var t := s.trace + [Copy2(src, dst)];
      var target := Copy2Target(s.fs, src, dst);
      if !IsFile(s.fs, src) || IsDir(s.fs, target) then State(s.fs, t, Raised)
      else State(s.fs[target := s.fs[src]], t, Running)
  }

  /** Opening `p` for writing and writing `content` (open/write_text/write_bytes). */
  function WriteStep(s: State, p: Path, content: string): State {
    if !s.outcome.Running? then s
    else
      var t := s.trace + [WriteText(p, content)];
      if IsDir(s.fs, p) then State(s.fs, t, Raised)
      else State(s.fs[p := File(content)], t, Running)
  }

  /** `os.remove(p)`: only a regular file can be removed. */
  function UnlinkStep(s: State, p: Path): State {
    if !s.outcome.Running? then s
    else
      var t := s.trace + [Unlink(p)];
      if IsFile(s.fs, p) then State(s.fs - {p}, t, Running) else State(s.fs, t, Raised)
  }

  /** `if os.path.exists(p): os.remove(p)` in a `finally` clause: it runs whether
      or not an exception is propagating, and an exception it raises replaces
      the one in flight. */
  function FinallyUnlinkStep(s: State, p: Path): State {
    if p !in s.fs then s
    else
      var u := UnlinkStep(s.(outcome := Running), p);
      if u.outcome.Raised? then u else u.(outcome := s.outcome)
  }

  /** `Path.rmdir()`: only an empty directory can be removed. */
  function RmdirStep(s: State, p: Path): State {
    if !s.outcome.Running? then s
    else
      var t := s.trace + [Rmdir(p)];
      if IsEmptyDir(s.fs, p) then State(s.fs - {p}, t, Running) else State(s.fs, t, Raised)
  }

  // ---------------------------------------------------------------------------
  // Each step changes only the tree it names

  lemma GitStepConfined(g: GitOracle, s: State, cwd: Path, args: seq<string>, check: bool)
    ensures ConfinedTo(s.fs, GitStep(g, s, cwd, args, check).fs, {cwd})
  {
    if s.outcome.Running? && !ReadOnlyGit(args) { OverlayConfined(s.fs, cwd, g(cwd, args, s.fs).tree); }
  }

  lemma MakedirsStepConfined(s: State, p: Path, existOk: bool)
    ensures ConfinedTo(s.fs, MakedirsStep(s, p, existOk).fs, {p})
  {
    MakeDirsConfined(s.fs, p);
  }

  lemma RmtreeStepConfined(s: State, p: Path)
    ensures ConfinedTo(s.fs, RmtreeStep(s, p).fs, {p})
  {
    RemoveTreeConfined(s.fs, p);
  }

  lemma CopytreeStepConfined(s: State, src: Path, dst: Path)
    ensures ConfinedTo(s.fs, CopytreeStep(s, src, dst).fs, {dst})
  {
    CopyTreeConfined(s.fs, src, dst);
  }

  lemma Copy2StepConfined(s: State, src: Path, dst: Path)
    ensures ConfinedTo(s.fs, Copy2Step(s, src, dst).fs, {Copy2Target(s.fs, src, dst)})
  {
    if IsFile(s.fs, src) { UpdateConfined(s.fs, Copy2Target(s.fs, src, dst), s.fs[src]); }
  }

  lemma WriteStepConfined(s: State, p: Path, content: string)
    ensures ConfinedTo(s.fs, WriteStep(s, p, content).fs, {p})
  {
    UpdateConfined(s.fs, p, File(content));
  }

  lemma FinallyUnlinkStepConfined(s: State, p: Path)
    ensures ConfinedTo(s.fs, FinallyUnlinkStep(s, p).fs, {p})
  {
  }

  lemma RmdirStepConfined(s: State, p: Path)
    ensures ConfinedTo(s.fs, RmdirStep(s, p).fs, {p})
  {
  }

  // ---------------------------------------------------------------------------
  // Traces that follow a plan

  /** `r` comes from `s` by issuing a prefix of `events`, all of them if `r`
      is still running. */
  predicate Issued(s: State, r: State, events: seq<Event>) {
    && |s.trace| <= |r.trace| && r.trace[..|s.trace|] == s.trace
    && r.trace[|s.trace|..] <= events
    && (r.outcome.Running? ==> r.trace == s.trace + events)
  }

  lemma IssuedThen(a: State, b: State, c: State, e1: seq<Event>, e2: seq<Event>)
    requires Issued(a, b, e1)
    requires b.outcome.Running? ==> Issued(b, c, e2)
    requires !b.outcome.Running? ==> c == b
    ensures Issued(a, c, e1 + e2)
  {
    if b.outcome.Running? {
      assert c.trace[|a.trace|..] == e1 + c.trace[|b.trace|..];
    } else {
      assert c.trace[|a.trace|..] <= e1;
    }
  }

  /** One git invocation issues just itself. */
  lemma GitStepIssued(g: GitOracle, s: State, cwd: Path, args: seq<string>, check: bool)
    ensures Issued(s, GitStep(g, s, cwd, args, check), [GitCall(cwd, args)])
  {
  }

  /** `b`'s trace continues `a`'s. */
  predicate Extends(a: State, b: State) {
    |a.trace| <= |b.trace| && b.trace[..|a.trace|] == a.trace
  }

  lemma ExtendsTrans(a: State, b: State, c: State)
    requires Extends(a, b) && Extends(b, c)
    ensures Extends(a, c)
  {
    assert c.trace[..|a.trace|] == c.trace[..|b.trace|][..|a.trace|];
  }

  /** `b`'s trace continues `a`'s without invoking git. */
  predicate Quiet(a: State, b: State) {
    && Extends(a, b)
    && forall i :: |a.trace| <= i < |b.trace| ==> !b.trace[i].GitCall?
  }

  /** One event other than a git call keeps a trace quiet. */
  lemma QuietStep(a: State, b: State, e: Event)
    requires b.trace == a.trace + [e] && !e.GitCall?
    ensures Quiet(a, b)
  {
    assert b.trace[..|a.trace|] == a.trace;
  }

  lemma QuietTrans(a: State, b: State, c: State)
    requires Quiet(a, b) && Quiet(b, c)
    ensures Quiet(a, c)
  {
    ExtendsTrans(a, b, c);
    forall i | |a.trace| <= i < |b.trace| ensures c.trace[i] == b.trace[i] {
      assert c.trace[i] == c.trace[..|b.trace|][i];
    }
  }

  /** The process state, updated in place by the scripts' operations. */
  class Machine {
    var fs: FileSystem
    var trace: seq<Event>
    var outcome: Outcome
    const git: GitOracle
    const win32: bool

    function St(): State
      reads this
    {
      State(fs, trace, outcome)
    }

    constructor (fs0: FileSystem, git: GitOracle, win32: bool)
      ensures St() == State(fs0, [], Running)
      ensures this.git == git && this.win32 == win32
    {
      fs, trace, outcome := fs0, [], Running;
      this.git, this.win32 := git, win32;
    }

    method Git(cwd: Path, args: seq<string>, check: bool) returns (r: Reply)
      modifies this
      ensures St() == GitStep(git, old(St()), cwd, args, check)
      ensures r == git(cwd, args, old(fs))
    {
      r := git(cwd, args, fs);
      if !outcome.Running? { return; }
      if !ReadOnlyGit(args) {
        fs := Overlay(fs, cwd, r.tree);
      }
      trace := trace + [GitCall(cwd, args)];
      if check && r.status != 0 {
        outcome := Raised;
      }
    }

    method Exit(code: int)
      modifies this
      ensures St() == ExitStep(old(St()), code)
    {
      if outcome.Running? {
        outcome := Exited(code);
      }
    }

    method Makedirs(p: Path, existOk: bool)
      modifies this
      ensures St() == MakedirsStep(old(St()), p, existOk)
    {
      if !outcome.Running? { return; }
      trace := trace + [Event.Makedirs(p)];
      if BlockedByFile(fs, p) || (!existOk && p in fs) {
        outcome := Raised;
      } else {
        fs := MakeDirs(fs, p);
      }
    }

    method Rmtree(p: Path)
      modifies this
      ensures St() == RmtreeStep(old(St()), p)
    {
      if !outcome.Running? { return; }
      trace := trace + [Event.Rmtree(p)];
      if IsDir(fs, p) {
        fs := RemoveTree(fs, p);
      } else {
        outcome := Raised;
      }
    }

    method Copytree(src: Path, dst: Path)
      modifies this
      ensures St() == CopytreeStep(old(St()), src, dst)
    {
      if !outcome.Running? { return; }
      trace := trace + [Event.Copytree(src, dst)];
      if !IsDir(fs, src) || dst in fs || BlockedByFile(fs, dst) {
        outcome := Raised;
      } else {
        fs := CopyTree(fs, src, dst);
      }
    }

    method Copy2(src: Path, dst: Path)
      modifies this
      ensures St() == Copy2Step(old(St()), src, dst)
    {
      if !outcome.Running? { return; }
      trace := trace + [Event.Copy2(src, dst)];
      var target := Copy2Target(fs, src, dst);
      if !IsFile(fs, src) || IsDir(fs, target) {
        outcome := Raised;
      } else {
        fs := fs[target := fs[src]];
      }
    }

    method Write(p: Path, content: string)
      modifies this
      ensures St() == WriteStep(old(St()), p, content)
    {
      if !outcome.Running? { return; }
      trace := trace + [WriteText(p, content)];
      if IsDir(fs, p) {
        outcome := Raised;
      } else {
        fs := fs[p := File(content)];
      }
    }

    method Unlink(p: Path)
      modifies this
      ensures St() == UnlinkStep(old(St()), p)
    {
      if !outcome.Running? { return; }
      trace := trace + [Event.Unlink(p)];
      if IsFile(fs, p) {
        fs := fs - {p};
      } else {
        outcome := Raised;
      }
    }

    method FinallyUnlink(p: Path)
      modifies this
      ensures St() == FinallyUnlinkStep(old(St()), p)
    {
      if p !in fs { return; }
      var pending := outcome;
      outcome := Running;
      Unlink(p);
      if !outcome.Raised? {
        outcome := pending;
      }
    }

    method Rmdir(p: Path)
      modifies this
      ensures St() == RmdirStep(old(St()), p)
    {
      if !outcome.Running? { return; }
      trace := trace + [Event.Rmdir(p)];
      if IsEmptyDir(fs, p) {
        fs := fs - {p};
      } else {
        outcome := Raised;
      }
    }
  }
}
