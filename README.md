# dotconfig-nvim setup scripts, modelled in Dafny

The repository keeps a Neovim configuration. Two Python scripts maintain it:

- `setup.py` bootstraps lazy.nvim (`apply`), packs local edits of the vendored
  claudecode.nvim plugin into a patch (`repack`, `merge claudecode`) and dispatches
  its sub-commands.
- `claudecode-setup.py` keeps a patched copy of claudecode.nvim. It sparse-clones the
  upstream repository at a pinned commit, applies `claudecode.patch` with a three-way
  merge, copies the patched `lua/claudecode` tree and `plugin/claudecode.lua` into the
  configuration, and can regenerate the patch from local edits (`--update`,
  `--repatch`).

Both scripts are orchestrators around `git`, `shutil`, `os` and `pathlib`. This
project models their decision logic and the filesystem effects they promise.

## Structure

- `text.dfy`, module `Text`: the pure string operations.
  - The left-to-right, non-overlapping `"\r\n"` → `"\n"` rewrite (`str.replace` and
    its byte twin).
  - The sparse-checkout file text `"\n".join(sparse) + "\n"` and its line structure.
  - `rstrip("/")`.
- `fs.dfy`, module `Fs`: an abstract filesystem.
  - It is a finite map from path strings to `File(data)` or `Dir` nodes.
  - It holds the tree operations (`makedirs`, `rmtree`, `copytree`), path nesting
    (`Within`, `Disjoint`, `Ancestors`, `os.path.join`) and two descriptions of a
    change:
    - *mirrors*: beneath the destination, the new tree is the old source tree;
    - *confined to roots*: outside the named trees nothing existing changes, and the
      only new entries are directories on the way to a root.
- `host.dfy`, module `Host`: the process state.
  - A `State` is the filesystem, the trace of operations issued and the outcome. The
    outcome is running, exited with a code, or raised.
  - `git` is an oracle: given the working directory, the arguments and the
    filesystem, it returns a status, stdout and a tree.
    - `status` and `diff` leave the disk alone.
    - Any other git command may change only its working directory's subtree.
  - Each primitive (`git`, `sys.exit`, `os.makedirs`, `shutil.rmtree`,
    `shutil.copytree`, `shutil.copy2`, a write, `os.remove`, `Path.rmdir`) is a pure
    step function on `State` that does nothing once the state has halted. Each step
    comes with a lemma saying which tree it may change.
  - The class `Machine` holds the same state in mutable fields. Its methods perform
    each primitive in place and are proved equal to the step functions.
- `setup.dfy`, module `Setup`: `write_patch`, `checkout_repo`, `repack` with its
  loop, `merge_claudecode`, `apply_patch` with its Windows retry, `apply`, and the
  `main`/`merge` dispatch.
- `claudecode.dfy`, module `ClaudeSetup`: `sparse_checkout_repo`, `apply_patch`, the
  two copy helpers, `cleanup`, `generate_repatch` and `main`.

Every workflow has the same three parts:

- a specification function on `State`, where early exits compose because a halted
  state is left alone;
- a `...On` method on a `Machine` whose `ensures` ties the new object state to that
  function;
- lemmas about the function:
  - the order of operations issued (a prefix of a fixed plan, all of it when nothing
    failed);
  - which part of the disk may change;
  - what the copied trees contain;
  - error and early-exit cases.

## Model

| member | source | states |
|---|---|---|
| Text.ReplacePairLength | setup.py:271 | rewriting `"\r\n"` to `"\n"` shortens the text by exactly the number of non-overlapping matches |
| Text.ReplacePairKeepsSecond | setup.py:271 | the rewrite keeps every `'\n'` and removes exactly one `'\r'` per match |
| Text.ReplacePairUnchanged | setup.py:271 | the rewrite leaves the text unchanged if and only if it contains no `"\r\n"` |
| Text.NormalizeNotIdempotent | claudecode-setup.py:68 | `"\r\r\n"` becomes `"\r\n"`, so one pass can leave a CRLF behind and a second pass changes the text again |
| Setup.PatchContent | setup.py:268-273 | `write_patch` content: unchanged off Windows and for text without `'\r'`; newlines all kept; length and `'\r'` count drop by the match count; unchanged exactly when off Windows or no CRLF occurs |
| Text.SparseFileText | setup.py:339 | the sparse-checkout text always ends with a newline |
| Text.SparseFileTextLines | setup.py:339 | for a non-empty list, the text is each entry followed by `"\n"`, in order |
| Text.SparseFileRoundTrip | setup.py:339 | splitting the sparse-checkout text at newlines gives back the entries when they contain no newline |
| Text.RStripSlash | setup.py:162 | `rstrip("/")` returns a prefix with no trailing `/`, and everything it removed is `/` |
| Text.RStripSlashIdempotent | setup.py:162 | stripping twice is stripping once |
| Fs.MakeDirs | setup.py:324 | `makedirs` creates the path and its missing ancestors as directories and keeps every existing entry |
| Fs.RemoveTree | setup.py:233 | `rmtree` removes exactly the entries at or beneath the root and keeps the rest |
| Fs.CopyTreeMirrors | setup.py:176 | `copytree` into an absent destination: beneath it the source tree, missing ancestors become directories, nothing else changes |
| Fs.ReplaceTreeMirrors | setup.py:171-176 | removing the destination and then copying leaves the destination tree equal to the source tree |
| Host.Machine.Git | setup.py:325 | a git call appends its event; only a non-read-only command changes the disk, and only beneath its working directory; `check=True` with a non-zero status raises |
| Host.Machine.Exit | setup.py:322 | `exit(code)` stops with that code and changes nothing else |
| Host.Machine.Makedirs | setup.py:324 | `os.makedirs` raises on a file in the way, or on an existing path without `exist_ok` |
| Host.Machine.Rmtree | claudecode-setup.py:45 | `shutil.rmtree` removes a directory tree and raises on anything else |
| Host.Machine.Copytree | setup.py:176 | `shutil.copytree` needs a directory source and an absent destination |
| Host.Machine.Copy2 | claudecode-setup.py:101 | `shutil.copy2` copies a regular file, into the directory when the destination is one |
| Host.Machine.Write | setup.py:272-273 | writing a file stores the text or raises when the path is a directory |
| Host.Machine.FinallyUnlink | setup.py:298-300 | the `finally` removal runs whether or not an exception is in flight, and its own exception replaces the pending one |
| Host.Machine.Rmdir | claudecode-setup.py:157 | `Path.rmdir` removes only an empty directory |
| Setup.CheckoutRepoOn | setup.py:317-351 | the in-place `checkout_repo` ends in the state the specification function gives |
| Setup.CheckoutDirtyGuard | setup.py:319-322 | an existing dirty worktree exits 1 right after `git status`, with the disk unchanged and no further command |
| Setup.CheckoutOpenIssued | setup.py:319-329 | a new path gets `makedirs`, `git init`, `git remote add origin https://github.com/<repo>`, in that order; an existing one gets only `git status` |
| Setup.CheckoutSparseIssued | setup.py:331-339 | the sparse file is written only for a non-empty list, after `core.sparseCheckout true` and creating `.git/info` |
| Setup.CheckoutFetchIssued | setup.py:341-351 | shallow: `fetch --depth 1 origin ref`, then `checkout FETCH_HEAD`; otherwise `fetch origin`, then `checkout ref` |
| Setup.CheckoutFollowsPlan | setup.py:317-351 | the whole checkout issues a prefix of open, sparse and fetch steps in that order, all of them unless a step fails; it exits only through the dirty guard and only with 1 |
| Setup.CheckoutConfined | setup.py:317-351 | `checkout_repo` changes nothing outside the repository path |
| Setup.RemovePathOn | setup.py:228-234 | `rmdir` on an absent path is a no-op; a present tree is removed |
| Setup.RepackEntryOn | setup.py:160-177 | one loop iteration in place equals the entry step of the specification |
| Setup.RepackLoopOn | setup.py:160-177 | the loop, with its invariant, equals the recursive loop specification over the entries so far |
| Setup.RepackOn | setup.py:138-196 | the in-place `repack` ends in the state the specification function gives |
| Setup.RepackLoopSnoc | setup.py:160-177 | the loop over `entries + [x]` is the loop over the entries followed by one iteration for `x` |
| Setup.RepackLoopSplit | setup.py:160-177 | the loop over a list is the loop over its first part followed by the loop over the rest |
| Setup.RepackLoopHalted | setup.py:160-177 | once a copy has raised, no further entry is processed |
| Setup.RepackMissingLocal | setup.py:152-154 | a missing local directory exits 1 with no git call and nothing changed |
| Setup.RepackSkipsMissing | setup.py:167-169 | an entry whose local source is missing is skipped and the remaining entries are processed exactly as without it |
| Setup.RepackEntryConfined | setup.py:171-176 | an iteration changes nothing outside its repository destination |
| Setup.RepackLoopConfined | setup.py:160-177 | the loop changes nothing outside the destinations of the sparse entries |
| Setup.RepackEntryMirrors | setup.py:171-176 | after an iteration with a present local directory, the repository subtree equals the local subtree |
| Setup.RepackLoopKeepsLocal | setup.py:160-177 | with separate canonical roots and relative entries, and no other condition, the loop never changes the local configuration tree |
| Setup.RepackLoopMirrors | setup.py:160-177 | after the whole loop, each entry's repository subtree equals its local subtree, later iterations notwithstanding |
| Setup.RepackFinishOutcome | setup.py:179-196 | a blank diff ends the command after `git diff` with nothing written; otherwise `git diff`, the normalised patch write and `git checkout .`, in order; a failing diff raises |
| Setup.MergeClaudecodeOn | setup.py:105-135 | the in-place `merge_claudecode` ends in the state the specification function gives |
| Setup.MergeClaudecodeOutcome | setup.py:117-133 | missing repository: exit 1 with no git call; dirty: exit 1 after `git status`; otherwise the patch file holds the `diff base HEAD` output verbatim, or a failing diff raises |
| Setup.ApplyPatchOn | setup.py:276-306 | the in-place `apply_patch` ends in the state the specification function gives |
| Setup.ApplyPatchPlain | setup.py:276-306 | a first apply that succeeds is the only command; on Windows, a failed apply of a patch that is not a readable file raises; without the Windows CRLF retry, a failure re-runs the apply with `check=True` and succeeds exactly when that run does |
| Setup.ApplyPatchRetry | setup.py:286-300 | on Windows, a CRLF patch is normalised into `<patch>.tmp` and applied from there; the temporary file is removed afterwards even on failure, and a failing apply still raises |
| Setup.ApplyOn | setup.py:73-86 | the in-place `apply` ends in the state the `Apply` specification gives: the data-directory loop, then the full checkout of lazy.nvim at its tag |
| Setup.EnsureDataDirsSnoc | setup.py:78-82 | the directory-creating loop over `paths + [x]` is the loop over the paths followed by one step for `x` |
| Setup.EnsureDataDirsMakes | setup.py:78-82 | the loop never raises an exit and never changes an entry already present; when it returns, every listed path is a directory; a listed path that is a file makes it raise |
| Setup.ApplyFollowsPlan | setup.py:73-86 | after the data directories, `apply` issues the checkout plan of a full clone at the tag; a failure among the directories stops it there |
| Setup.Dispatch | setup.py:40-63 | `-h`/`--help` stops with 0; no argument, an unknown command or a bad `merge` part stops with 1; each of `nuke`, `apply`, `repack` runs exactly its own command and `merge claudecode` the merge; nothing else stops |
| Setup.DispatchIgnoresExtraArguments | setup.py:89-102 | only the command and the `merge` part are read from the arguments |
| Setup.RunCommandOn | setup.py:40-63 | running a command in place ends in the state the dispatch specification gives |
| ClaudeSetup.SparseTextIsSparseFile | claudecode-setup.py:51-53 | the fixed sparse file `"lua/\nplugin/\n"` is the sparse text of `["lua/", "plugin/"]` and reads back as those two entries |
| ClaudeSetup.SparseCheckoutOn | claudecode-setup.py:41-57 | the in-place `sparse_checkout_repo` ends in the state the specification function gives |
| ClaudeSetup.SparseCheckoutFollowsPlan | claudecode-setup.py:41-57 | an existing clone is always removed, with no dirty check, before `init`; then `remote add`, sparse mode, the sparse file, a depth-1 fetch of the pinned commit and its checkout, all in order |
| ClaudeSetup.CloneResetEmpty | claudecode-setup.py:43-47 | `git init` runs on a new, empty clone directory |
| ClaudeSetup.SparseCheckoutConfined | claudecode-setup.py:41-57 | `sparse_checkout_repo` changes nothing outside `external/` |
| ClaudeSetup.ApplyPatchOn | claudecode-setup.py:60-81 | the in-place `apply_patch` returns the boolean and ends in the state the specification function gives |
| ClaudeSetup.ApplyPatchOutcome | claudecode-setup.py:60-81 | a missing patch returns true with no git call; otherwise one unchecked `git apply --3way` runs, after the patch itself is rewritten CRLF→LF on Windows, and the result is true exactly when git's status is 0; an unreadable patch raises |
| ClaudeSetup.ApplyPatchConfined | claudecode-setup.py:60-81 | `apply_patch` changes nothing but `external/` and the patch file |
| ClaudeSetup.CopyItemsOn | claudecode-setup.py:84-104 | the in-place copy of the directory item, then the file item, ends in the state the specification function gives |
| ClaudeSetup.CopyLocalToRepoOn | claudecode-setup.py:84-104 | `copy_local_to_repo` in place is the copy of the live items into the clone |
| ClaudeSetup.CopyRepoToLocalOn | claudecode-setup.py:127-147 | `copy_repo_to_local` in place is the copy of the clone's items into the live configuration |
| ClaudeSetup.CopyDirItemMirrors | claudecode-setup.py:91-94 | a present source directory replaces the destination wholesale: beneath it, the new tree equals the source tree |
| ClaudeSetup.CopyFileItemCopies | claudecode-setup.py:99-101 | a present plugin file lands at its destination after its parent directories are created; the copy fails exactly when a file blocks the parent |
| ClaudeSetup.CopyItemsSkipsMissing | claudecode-setup.py:90-104 | a missing source only skips its own item and the other item is still copied; with both missing nothing happens |
| ClaudeSetup.CopyItemsSync | claudecode-setup.py:84-104 | with both sources present, the directory tree is mirrored and the file copied, and neither copy disturbs the other |
| ClaudeSetup.CopyItemsConfined | claudecode-setup.py:84-104 | a copy helper changes nothing outside the directory destination and the plugin's parent directory |
| ClaudeSetup.CopyLocalToRepoInstalls | claudecode-setup.py:84-104 | when the live directory and file exist, the clone's `plugin/claudecode.lua` is not a directory and nothing lies beneath an absent clone `lua/claudecode`: after `copy_local_to_repo`, the clone's `lua/claudecode` is the live tree and its `plugin/claudecode.lua` the live file |
| ClaudeSetup.CopyLocalToRepoConfined | claudecode-setup.py:84-104 | `copy_local_to_repo` changes nothing outside `external/` |
| ClaudeSetup.CopyRepoToLocalInstalls | claudecode-setup.py:127-147 | when the clone's directory and file exist, the live `plugin/claudecode.lua` is not a directory and nothing lies beneath an absent live `lua/claudecode`: after `copy_repo_to_local`, the live `lua/claudecode` is the clone's tree and `plugin/claudecode.lua` the clone's file |
| ClaudeSetup.CleanupOn | claudecode-setup.py:150-158 | the in-place `cleanup` ends in the state the specification function gives |
| ClaudeSetup.CleanupEffect | claudecode-setup.py:150-158 | clean-up only removes: the whole clone, and `external/` exactly when nothing else is in it; everything outside `external/` stays; it fails exactly when the clone or `external/` is not a directory |
| ClaudeSetup.CleanupConfined | claudecode-setup.py:150-158 | `cleanup` changes nothing outside `external/` |
| ClaudeSetup.CleanupIdempotent | claudecode-setup.py:150-158 | cleaning up twice is cleaning up once |
| ClaudeSetup.GenerateRepatchOn | claudecode-setup.py:107-124 | the in-place `generate_repatch` ends in the state the specification function gives |
| ClaudeSetup.GenerateRepatchOutcome | claudecode-setup.py:107-124 | without a clone the first event creates `external/`, with one it is the diff; on success the patch holds exactly the clone's `diff <commit> HEAD` output and the clone is gone |
| ClaudeSetup.RepatchBootstrapOrder | claudecode-setup.py:110-116 | without a clone: a prefix of the clone plan, then only file copies into the clone, then `add -A` and the baseline commit, in that order |
| ClaudeSetup.RepatchFinishOrder | claudecode-setup.py:119-124 | from the clone: the diff first; a failing diff raises with nothing changed; otherwise the patch write with the diff's output, then clean-up with no further git call |
| ClaudeSetup.GenerateRepatchOrder | claudecode-setup.py:107-124 | an existing clone is used as it is, with no bootstrap; from the clone used, the diff, the patch write and the clean-up follow in that order |
| ClaudeSetup.CopyItemsQuiet | claudecode-setup.py:84-104 | the copy helpers never invoke git |
| ClaudeSetup.GenerateRepatchConfined | claudecode-setup.py:107-124 | `--repatch` changes nothing but `external/` and the patch file |
| ClaudeSetup.UpdateOn | claudecode-setup.py:177-185 | the in-place `--update` flow ends in the state the specification function gives |
| ClaudeSetup.UpdateOutcome | claudecode-setup.py:177-185 | a failed apply exits 1 with no copy and no clean-up, leaving the clone as git left it; after a clean apply the live files are the patched clone's and the clone is gone |
| ClaudeSetup.UpdateConfined | claudecode-setup.py:177-185 | `--update` changes nothing but `external/`, the patch file, `lua/claudecode` and `plugin/` |
| ClaudeSetup.RunMainOn | claudecode-setup.py:161-187 | `main` in place ends in the state the mode-selection specification gives |
| ClaudeSetup.RunMainModes | claudecode-setup.py:174-187 | `--repatch` wins over `--update`; with neither flag the script exits 1 and changes nothing |
| ClaudeSetup.RunMainConfined | claudecode-setup.py:161-187 | whatever the flags, nothing outside `external/`, the patch file, `lua/claudecode` and `plugin/` changes |

## Left out

- Git's own behaviour (diff contents, three-way merge, fetch, sparse checkout) is an
  oracle. A command other than `status`/`diff` may change only the tree beneath its
  working directory.
- `get_git_binary` and the `PATH` lookup are left out; the model always finds git.
- Setup.CheckoutDirtyGuard, Setup.RepackFinishOutcome: "the disk is unchanged"
  relies on the oracle treating `status` and `diff` as read-only. A real
  `git status --porcelain` may refresh `.git/index`; that write is not modelled.
- `get_std_config_path`, `get_std_data_path` and `read_info` are environment and JSON
  input. Their results become parameters: `PartInfo`, `LazyInfo`, and the working
  directory that `Path.absolute()` resolves against.
- `usage` and every printed message are left out. `nuke` only prints, so it is the
  identity.
- The `rmdir` fallback chain (`rm -rf`, PowerShell, setup.py:235-255) is left out:
  a present tree is removed and an absent one is a no-op.
- `argparse` is left out: the two flags are booleans, and its own `--help` and
  unknown-option exits are not modelled.
- Python's text-mode newline translation is left out: a file holds exactly the string
  written, and git's stdout is exactly the oracle's string. On Windows,
  `merge_claudecode`'s `open(..., "w")` (setup.py:132) and `write_text`
  (claudecode-setup.py:121) would write `"\n"` as `"\r\n"`.
- Setup.ApplyPatchRetry: in real Python the CRLF retry branch (setup.py:289-298)
  never runs. `open(patch_path, "r")` at setup.py:287 reads in universal-newline
  mode, so the content it sees never holds `"\r\n"`. The model reaches the branch
  whenever the stored patch text holds CRLF.
- Setup.PatchContent: in real Python the Windows rewrite never changes the patch
  `repack` writes. `text=True` at setup.py:183 already turns git's `"\r\n"` (and a
  lone `"\r"`) into `"\n"`; `run_git` at claudecode-setup.py:38 does the same. The
  model lets the oracle's stdout hold CRLF, so the rewrite can act there.
- ClaudeSetup.ApplyPatchOutcome: its CRLF rewrite is reachable in real Python, since
  `read_bytes` (claudecode-setup.py:67) sees the `"\r\n"` that `write_text` produced
  on Windows.
- `read_bytes`/`write_bytes` in claudecode-setup.py are modelled on characters, not
  bytes.
- Path resolution (`os.path.abspath`, `Path.absolute`, `..`, symlinks, case
  insensitivity) is left out; paths are compared as strings.
- Writing a file does not check that its parent directory exists.
- A raising `shutil` operation leaves the disk unchanged; partial copies are not
  modelled.
- The exception type and message are not modelled: every uncaught exception is one
  `Raised` outcome.
- File metadata kept by `copy2`, permissions, concurrency and the time between the
  dirty check and the later commands are left out.
- Setup.RepackLoopMirrors: holds only under `WellPlaced`. That requires canonical,
  disjoint repository and local roots and relative sparse entries whose destinations
  are pairwise disjoint. Overlapping sparse entries are not covered. It is stated
  only for entry `k` whose local copy is a directory (`IsDir` of its local source)
  and with nothing beneath an absent repository destination (`NoOrphans`).
- Setup.RepackEntryMirrors: requires that nothing lies beneath an absent destination,
  which a real directory tree guarantees.
- ClaudeSetup.CopyItemsSync, ClaudeSetup.CopyLocalToRepoInstalls, ClaudeSetup.CopyRepoToLocalInstalls: require both sources to be present with the right kind
  and the file destination not to be a directory. They also require nothing beneath an
  absent tree destination.
- ClaudeSetup.UpdateOutcome: the install half holds under the same conditions, taken
  on the state `git apply` leaves.
- ClaudeSetup.CleanupEffect: requires that nothing lies beneath an absent clone
  directory.
