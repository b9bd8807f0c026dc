/**
 * Squash merge of a task branch into its base over a commit graph
 * (crates/git/src/lib.rs `merge_changes`, `perform_squash_merge`,
 * `get_branch_status`, and crates/git/src/cli.rs `merge_squash_commit`). Commits
 * are numbered in order of creation; a merge of a commit with its own
 * descendant gives the descendant's tree.
 */
module SquashMerge {
  import opened Wrappers
  import WorktreeList

  type CommitId = nat
  type TreeId = nat

  datatype Commit = Commit(parents: seq<CommitId>, tree: TreeId, message: string)

  type Graph = seq<Commit>

  predicate WellFormed(g: Graph) {
    forall i, k | 0 <= i < |g| && 0 <= k < |g[i].parents| :: g[i].parents[k] < i
  }

  predicate Reaches(g: Graph, from: CommitId, to: CommitId)
    requires WellFormed(g) && from < |g|
    decreases from
  {
    from == to || exists k | 0 <= k < |g[from].parents| :: Reaches(g, g[from].parents[k], to)
  }

  function Ancestors(g: Graph, c: CommitId): set<CommitId>
    requires WellFormed(g) && c < |g|
  {
    set x | 0 <= x <= c && Reaches(g, c, x)
  }

  type Worktree = WorktreeList.Worktree

  datatype Repo = Repo(commits: Graph, refs: map<string, CommitId>, worktrees: seq<Worktree>, staged: set<string>)

  predicate Valid(r: Repo) {
    WellFormed(r.commits) && forall b | b in r.refs :: r.refs[b] < |r.commits|
  }

  datatype GitError =
    | BranchNotFound
    | BranchesDiverged(behind: nat)
    | WorktreeDirty
    | MergeFailed
    | NothingToCommit
    | CommitFailed
    | RefUpdateFailed

  /** What git answers: whether the merge, the commit and each ref update go through, and the tree of a true merge. */
  datatype Git = Git(merges: bool, mergedTree: TreeId, commits: bool, baseRef: bool, taskRef: bool)

  // ----- specification -----

  /** `get_branch_status`: commits only on the branch, and only on its base. */
  function AheadBehind(r: Repo, branch: string, base: string): Result<(nat, nat), GitError>
    requires Valid(r)
  {
    if branch !in r.refs || base !in r.refs then Err(BranchNotFound)
    else
      var a, b := Ancestors(r.commits, r.refs[branch]), Ancestors(r.commits, r.refs[base]);
      Ok((|a - b|, |b - a|))
  }

  /** `find_checkout_path_for_branch` */
  function FindCheckout(worktrees: seq<Worktree>, branch: string): Option<string> {
    if worktrees == [] then None
    else if worktrees[0].branch == Some(branch) then Some(worktrees[0].path)
    else FindCheckout(worktrees[1..], branch)
  }

  lemma {:induction false} FindCheckoutFinds(worktrees: seq<Worktree>, branch: string)
    ensures FindCheckout(worktrees, branch).None? <==> forall w | w in worktrees :: w.branch != Some(branch)
  {
    if worktrees != [] {
      FindCheckoutFinds(worktrees[1..], branch);
      assert worktrees == [worktrees[0]] + worktrees[1..];
    }
  }

  function MergeTree(r: Repo, base: CommitId, task: CommitId, git: Git): TreeId
    requires Valid(r) && base < |r.commits| && task < |r.commits|
  {
    if Reaches(r.commits, task, base) then r.commits[task].tree else git.mergedTree
  }

  /** `git checkout; git merge --squash --no-commit; git commit` in the base checkout, then `git update-ref`. */
  function MergeByCli(r: Repo, path: string, task: string, base: string, message: string, git: Git): (Result<CommitId, GitError>, Repo)
    requires Valid(r) && task in r.refs && base in r.refs
  {
    var tree := MergeTree(r, r.refs[base], r.refs[task], git);
    var id := |r.commits|;
    if path in r.staged then (Err(WorktreeDirty), r)
    else if !git.merges then (Err(MergeFailed), r)
    else if tree == r.commits[r.refs[base]].tree then (Err(NothingToCommit), r)
    else if !git.commits then (Err(CommitFailed), r.(staged := r.staged + {path}))
    else
      var committed := r.(commits := r.commits + [Commit([r.refs[base]], tree, message)], refs := r.refs[base := id]);
      if !git.taskRef then (Err(RefUpdateFailed), committed)
      else (Ok(id), committed.(refs := committed.refs[task := id]))
  }

  /** The in-memory merge, the squash commit with the base tip as sole parent, then the two ref updates. */
  function MergeInMemory(r: Repo, task: string, base: string, message: string, git: Git): (Result<CommitId, GitError>, Repo)
    requires Valid(r) && task in r.refs && base in r.refs
  {
    var tree := MergeTree(r, r.refs[base], r.refs[task], git);
    var id := |r.commits|;
    if !git.merges then (Err(MergeFailed), r)
    else if !git.commits then (Err(CommitFailed), r)
    else
      var committed := r.(commits := r.commits + [Commit([r.refs[base]], tree, message)]);
      if !git.baseRef then (Err(RefUpdateFailed), committed)
      else if !git.taskRef then (Err(RefUpdateFailed), committed.(refs := r.refs[base := id]))
      else (Ok(id), committed.(refs := r.refs[base := id][task := id]))
  }

  function Merge(r: Repo, task: string, base: string, message: string, git: Git): (Result<CommitId, GitError>, Repo)
    requires Valid(r)
  {
    match AheadBehind(r, task, base)
    case Err(e) => (Err(e), r)
    case Ok((_, behind)) =>
      if behind > 0 then (Err(BranchesDiverged(behind)), r)
      else
        match FindCheckout(r.worktrees, base)
        case Some(path) => MergeByCli(r, path, task, base, message, git)
        case None => MergeInMemory(r, task, base, message, git)
  }

  // ----- the service -----

  class GitService {
    var commits: Graph
    var refs: map<string, CommitId>
    var worktrees: seq<Worktree>
    var staged: set<string>

    ghost function State(): Repo
      reads this
    {
      Repo(commits, refs, worktrees, staged)
    }

    method GetBranchStatus(branch: string, base: string) returns (r: Result<(nat, nat), GitError>)
      requires Valid(State())
      ensures r == AheadBehind(State(), branch, base)
      ensures r.Ok? <==> branch in refs && base in refs
      ensures r.Ok? ==> (r.value.0 == 0 <==> Reaches(commits, refs[base], refs[branch]))
                        && (r.value.1 == 0 <==> Reaches(commits, refs[branch], refs[base]))
    {
      if branch !in refs || base !in refs {
        return Err(BranchNotFound);
      }
      NotBehindIff(State(), branch, base);
      NotBehindIff(State(), base, branch);
      var a, b := Ancestors(commits, refs[branch]), Ancestors(commits, refs[base]);
      return Ok((|a - b|, |b - a|));
    }

    method FindCheckoutPathForBranch(branch: string) returns (r: Option<string>)
      ensures r == FindCheckout(worktrees, branch)
      ensures r.None? <==> forall w | w in worktrees :: w.branch != Some(branch)
      ensures r.Some? ==> exists i: nat :: IsCheckout(State(), branch, i) && worktrees[i].path == r.value
    {
      FirstIsFound(State(), branch);
      FindCheckoutFinds(worktrees, branch);
      for i := 0 to |worktrees|
        invariant FindCheckout(worktrees, branch) == FindCheckout(worktrees[i..], branch)
      {
        if worktrees[i].branch == Some(branch) {
          return Some(worktrees[i].path);
        }
      }
      return None;
    }

    method CreateCommit(parent: CommitId, tree: TreeId, message: string) returns (id: CommitId)
      modifies this`commits
      ensures id == |old(commits)| && commits == old(commits) + [Commit([parent], tree, message)]
    {
      id := |commits|;
      commits := commits + [Commit([parent], tree, message)];
    }

    method PerformSquashMerge(task: CommitId, base: string, message: string, git: Git) returns (r: Result<CommitId, GitError>)
      requires Valid(State()) && base in refs && task < |commits|
      modifies this`commits, this`refs
      ensures var before := old(State());
              var tree := MergeTree(before, before.refs[base], task, git);
              var after := before.(commits := before.commits + [Commit([before.refs[base]], tree, message)]);
              (r, State()) == if !git.merges then (Err(MergeFailed), before)
                              else if !git.commits then (Err(CommitFailed), before)
                              else if !git.baseRef then (Err(RefUpdateFailed), after)
                              else (Ok(|before.commits|), after.(refs := before.refs[base := |before.commits|]))
    {
      if !git.merges {
        return Err(MergeFailed);
      }
      var tree := if Reaches(commits, task, refs[base]) then commits[task].tree else git.mergedTree;
      if !git.commits {
        return Err(CommitFailed);
      }
      var id := CreateCommit(refs[base], tree, message);
      if !git.baseRef {
        return Err(RefUpdateFailed);
      }
      refs := refs[base := id];
      return Ok(id);
    }

    method MergeSquashCommit(path: string, task: CommitId, base: string, message: string, git: Git) returns (r: Result<CommitId, GitError>)
      requires Valid(State()) && base in refs && task < |commits|
      modifies this`commits, this`refs, this`staged
      ensures var before := old(State());
              var tree := MergeTree(before, before.refs[base], task, git);
              (r, State()) == if !git.merges then (Err(MergeFailed), before)
                              else if tree == before.commits[before.refs[base]].tree then (Err(NothingToCommit), before)
                              else if !git.commits then (Err(CommitFailed), before.(staged := before.staged + {path}))
                              else (Ok(|before.commits|),
                                    before.(commits := before.commits + [Commit([before.refs[base]], tree, message)],
                                            refs := before.refs[base := |before.commits|]))
    {
      if !git.merges {
        return Err(MergeFailed);
      }
      var tree := if Reaches(commits, task, refs[base]) then commits[task].tree else git.mergedTree;
      if tree == commits[refs[base]].tree {
        return Err(NothingToCommit);
      }
      if !git.commits {
        staged := staged + {path};
        return Err(CommitFailed);
      }
      var id := CreateCommit(refs[base], tree, message);
      refs := refs[base := id];
      return Ok(id);
    }

    method MergeChanges(task: string, base: string, message: string, git: Git) returns (r: Result<CommitId, GitError>)
      requires Valid(State())
      modifies this
      ensures (r, State()) == Merge(old(State()), task, base, message, git)
    {
      var status := GetBranchStatus(task, base);
      if status.Err? {
        return Err(status.error);
      }
      if status.value.1 > 0 {
        return Err(BranchesDiverged(status.value.1));
      }
      var checkout := FindCheckoutPathForBranch(base);
      if checkout.Some? {
        if checkout.value in staged {
          return Err(WorktreeDirty);
        }
        r := MergeSquashCommit(checkout.value, refs[task], base, message, git);
      } else {
        r := PerformSquashMerge(refs[task], base, message, git);
      }
      if r.Ok? {
        if !git.taskRef {
          return Err(RefUpdateFailed);
        }
        refs := refs[task := r.value];
      }
    }
  }

  // ----- the graph -----

  lemma {:induction false} ReachesBack(g: Graph, from: CommitId, to: CommitId)
    requires WellFormed(g) && from < |g| && Reaches(g, from, to)
    ensures to <= from
    decreases from
  {
    if from != to {
      var k :| 0 <= k < |g[from].parents| && Reaches(g, g[from].parents[k], to);
      ReachesBack(g, g[from].parents[k], to);
    }
  }

  lemma {:induction false} ReachesTransitive(g: Graph, a: CommitId, b: CommitId, c: CommitId)
    requires WellFormed(g) && a < |g| && b < |g| && Reaches(g, a, b) && Reaches(g, b, c)
    ensures Reaches(g, a, c)
    decreases a
  {
    if a != b {
      var k :| 0 <= k < |g[a].parents| && Reaches(g, g[a].parents[k], b);
      ReachesTransitive(g, g[a].parents[k], b, c);
    }
  }

  /** Adding a commit changes nothing below it. */
  lemma {:induction false} ReachesAppend(g: Graph, c: Commit, from: CommitId, to: CommitId)
    requires WellFormed(g) && WellFormed(g + [c]) && from < |g|
    ensures Reaches(g + [c], from, to) <==> Reaches(g, from, to)
    decreases from
  {
    assert (g + [c])[from] == g[from];
    forall k | 0 <= k < |g[from].parents|
      ensures Reaches(g + [c], g[from].parents[k], to) <==> Reaches(g, g[from].parents[k], to)
    {
      ReachesAppend(g, c, g[from].parents[k], to);
    }
  }

  lemma AncestorsAppend(g: Graph, c: Commit, from: CommitId)
    requires WellFormed(g) && WellFormed(g + [c]) && from < |g|
    ensures Ancestors(g + [c], from) == Ancestors(g, from)
  {
    forall x: nat ensures Reaches(g + [c], from, x) <==> Reaches(g, from, x) {
      ReachesAppend(g, c, from, x);
    }
  }

  lemma AncestorsOfReachable(g: Graph, a: CommitId, b: CommitId)
    requires WellFormed(g) && a < |g| && b < |g|
    ensures Reaches(g, a, b) <==> Ancestors(g, b) <= Ancestors(g, a)
  {
    assert b in Ancestors(g, b);
    if Reaches(g, a, b) {
      forall x | x in Ancestors(g, b) ensures x in Ancestors(g, a) {
        ReachesTransitive(g, a, b, x);
        ReachesBack(g, a, x);
      }
    }
  }

  /** A squash commit on top of p adds itself to p's history and nothing else. */
  lemma AncestorsOfSquash(g: Graph, p: CommitId, tree: TreeId, message: string)
    requires WellFormed(g) && p < |g|
    ensures var g' := g + [Commit([p], tree, message)];
            WellFormed(g') && Ancestors(g', |g|) == Ancestors(g, p) + {|g|}
  {
    var g' := g + [Commit([p], tree, message)];
    assert forall i | 0 <= i < |g| :: g'[i] == g[i];
    assert g'[|g|].parents == [p];
    forall x: nat ensures Reaches(g', |g|, x) <==> x == |g| || Reaches(g, p, x) {
      ReachesAppend(g, Commit([p], tree, message), p, x);
      if Reaches(g, p, x) { assert Reaches(g', g'[|g|].parents[0], x); }
    }
    forall x: nat | Reaches(g, p, x) ensures x <= p { ReachesBack(g, p, x); }
  }

  /** The guard: the base is behind by nothing exactly when the task branch contains its tip. */
  lemma NotBehindIff(r: Repo, task: string, base: string)
    requires Valid(r) && task in r.refs && base in r.refs
    ensures AheadBehind(r, task, base).value.1 == 0 <==> Reaches(r.commits, r.refs[task], r.refs[base])
  {
    var a, b := Ancestors(r.commits, r.refs[task]), Ancestors(r.commits, r.refs[base]);
    AncestorsOfReachable(r.commits, r.refs[task], r.refs[base]);
    assert b - a == {} <==> b <= a by {
      if x :| x in b && x !in a { assert x in b - a; }
    }
  }

  lemma MergeOutcome(r: Repo, task: string, base: string, message: string, git: Git)
    requires Valid(r) && Merge(r, task, base, message, git).0.Ok?
    ensures task in r.refs && base in r.refs && Reaches(r.commits, r.refs[task], r.refs[base])
    ensures var id := |r.commits|;
            Merge(r, task, base, message, git) ==
            (Ok(id), r.(commits := r.commits + [Commit([r.refs[base]], r.commits[r.refs[task]].tree, message)],
                        refs := r.refs[base := id][task := id]))
  {
    NotBehindIff(r, task, base);
  }

  /** What a failed merge can leave behind: nothing, staged changes, a loose commit, or a base that has moved. */
  lemma FailureOutcome(r: Repo, task: string, base: string, message: string, git: Git)
    requires Valid(r) && Merge(r, task, base, message, git).0.Err?
    ensures var (res, r') := Merge(r, task, base, message, git);
            || (r'.refs == r.refs && r'.commits == r.commits)
            || (task in r.refs && base in r.refs
                && r'.commits == r.commits + [Commit([r.refs[base]], MergeTree(r, r.refs[base], r.refs[task], git), message)]
                && (r'.refs == r.refs || (res == Err(RefUpdateFailed) && r'.refs == r.refs[base := |r.commits|])))
  {
  }

  // ----- main results -----

  /**
   * When a merge succeeds, on either path, it has made one commit whose sole
   * parent is the old base tip and whose tree is the old task tip's; both
   * branches name it, no other ref has moved, neither is ahead or behind, and
   * the base's history has grown by that commit alone.
   */
  lemma MergeSucceeds(r: Repo, task: string, base: string, message: string, git: Git)
    requires Valid(r) && Merge(r, task, base, message, git).0.Ok?
    ensures var (res, r') := Merge(r, task, base, message, git);
            && task in r.refs && base in r.refs
            && res.value == |r.commits|
            && r'.commits == r.commits + [Commit([r.refs[base]], r.commits[r.refs[task]].tree, message)]
            && r'.refs == r.refs[base := res.value][task := res.value]
            && r'.worktrees == r.worktrees && r'.staged == r.staged
            && Valid(r')
            && AheadBehind(r', task, base) == Ok((0, 0))
            && Ancestors(r'.commits, res.value) == Ancestors(r.commits, r.refs[base]) + {res.value}
  {
    MergeOutcome(r, task, base, message, git);
    var (res, r') := Merge(r, task, base, message, git);
    AncestorsOfSquash(r.commits, r.refs[base], r.commits[r.refs[task]].tree, message);
    var a := Ancestors(r'.commits, res.value);
    assert a - a == {};
  }

  /** The task branch keeps its old tip in its history only if it had no commit of its own. */
  lemma TaskHistoryIsReplaced(r: Repo, task: string, base: string, message: string, git: Git)
    requires Valid(r) && Merge(r, task, base, message, git).0.Ok?
    ensures var (res, r') := Merge(r, task, base, message, git);
            Valid(r') && (Reaches(r'.commits, r'.refs[task], r.refs[task]) <==> r.refs[task] == r.refs[base])
  {
    var (res, r') := Merge(r, task, base, message, git);
    MergeSucceeds(r, task, base, message, git);
    NotBehindIff(r, task, base);
    assert r.refs[base] in Ancestors(r.commits, r.refs[base]);
    if Reaches(r'.commits, res.value, r.refs[task]) {
      assert r.refs[task] in Ancestors(r'.commits, res.value);
      ReachesBack(r.commits, r.refs[base], r.refs[task]);
      ReachesBack(r.commits, r.refs[task], r.refs[base]);
    }
  }

  /**
   * The two paths are one transition: they differ only where git has nothing to
   * commit, where staged changes block the checkout, or where a step fails.
   */
  lemma PathsAgree(r: Repo, path: string, task: string, base: string, message: string, git: Git)
    requires Valid(r) && task in r.refs && base in r.refs && path !in r.staged
    requires git.merges && git.commits && git.baseRef
    requires AheadBehind(r, task, base).value.1 == 0
    ensures MergeByCli(r, path, task, base, message, git) == MergeInMemory(r, task, base, message, git)
            <==> r.commits[r.refs[task]].tree != r.commits[r.refs[base]].tree
  {
    NotBehindIff(r, task, base);
  }

  /** A failed merge moves no ref, except that the base may already have the squash commit when the last update fails. */
  lemma MergeFails(r: Repo, task: string, base: string, message: string, git: Git)
    requires Valid(r) && Merge(r, task, base, message, git).0.Err?
    ensures var (res, r') := Merge(r, task, base, message, git);
            && Valid(r')
            && (r'.refs == r.refs
                || (res == Err(RefUpdateFailed) && base in r.refs && r'.refs == r.refs[base := |r.commits|]
                    && Ancestors(r'.commits, |r.commits|) == Ancestors(r.commits, r.refs[base]) + {|r.commits|}))
            && r.commits <= r'.commits
  {
    FailureOutcome(r, task, base, message, git);
    if task in r.refs && base in r.refs {
      AncestorsOfSquash(r.commits, r.refs[base], MergeTree(r, r.refs[base], r.refs[task], git), message);
    }
  }

  // ----- when a merge succeeds, and what each failure means -----

  /** Worktree i is the first that has the branch checked out. */
  predicate IsCheckout(r: Repo, branch: string, i: nat) {
    && i < |r.worktrees| && r.worktrees[i].branch == Some(branch)
    && forall j | 0 <= j < i :: r.worktrees[j].branch != Some(branch)
  }

  predicate NotCheckedOut(r: Repo, branch: string) {
    forall w | w in r.worktrees :: w.branch != Some(branch)
  }

  /** The checkout that is found is that of the first worktree with the branch. */
  lemma {:induction false} CheckoutIsFirst(worktrees: seq<Worktree>, branch: string, i: nat)
    requires i < |worktrees| && worktrees[i].branch == Some(branch)
    requires forall j | 0 <= j < i :: worktrees[j].branch != Some(branch)
    ensures FindCheckout(worktrees, branch) == Some(worktrees[i].path)
  {
    if i > 0 {
      forall j | 0 <= j < i - 1 ensures worktrees[1..][j].branch != Some(branch) { assert worktrees[1..][j] == worktrees[j + 1]; }
      CheckoutIsFirst(worktrees[1..], branch, i - 1);
    }
  }

  lemma FirstIsFound(r: Repo, branch: string)
    ensures var found := FindCheckout(r.worktrees, branch);
            found.Some? ==> exists i: nat :: IsCheckout(r, branch, i) && r.worktrees[i].path == found.value
  {
    FindCheckoutFinds(r.worktrees, branch);
    if FindCheckout(r.worktrees, branch).Some? {
      var i := FirstCheckout(r.worktrees, branch);
      CheckoutIsFirst(r.worktrees, branch, i);
      assert IsCheckout(r, branch, i);
    }
  }

  lemma {:induction false} FirstCheckout(worktrees: seq<Worktree>, branch: string) returns (i: nat)
    requires exists w | w in worktrees :: w.branch == Some(branch)
    ensures i < |worktrees| && worktrees[i].branch == Some(branch)
    ensures forall j | 0 <= j < i :: worktrees[j].branch != Some(branch)
  {
    i := 0;
    if worktrees[0].branch != Some(branch) {
      assert worktrees == [worktrees[0]] + worktrees[1..];
      var k := FirstCheckout(worktrees[1..], branch);
      i := k + 1;
      assert forall j | 1 <= j < i :: worktrees[j] == worktrees[1..][j - 1];
    }
  }

  /** Both branches are there, and the task's contains the base's tip. */
  predicate UpToDate(r: Repo, task: string, base: string)
    requires Valid(r)
  {
    task in r.refs && base in r.refs && Reaches(r.commits, r.refs[task], r.refs[base])
  }

  predicate SameTree(r: Repo, task: string, base: string)
    requires Valid(r) && task in r.refs && base in r.refs
  {
    r.commits[r.refs[task]].tree == r.commits[r.refs[base]].tree
  }

  /** Before anything is merged: which branches are refused. */
  lemma GuardIff(r: Repo, task: string, base: string, message: string, git: Git)
    requires Valid(r)
    ensures var (res, r') := Merge(r, task, base, message, git);
            && (res == Err(BranchNotFound) <==> task !in r.refs || base !in r.refs)
            && (res.Err? && res.error.BranchesDiverged? <==>
                  task in r.refs && base in r.refs && !Reaches(r.commits, r.refs[task], r.refs[base]))
            && (res.Err? && res.error.BranchesDiverged? ==>
                  res.error.behind == |Ancestors(r.commits, r.refs[base]) - Ancestors(r.commits, r.refs[task])|)
            && (!UpToDate(r, task, base) ==> res.Err? && r' == r)
  {
    if task in r.refs && base in r.refs { NotBehindIff(r, task, base); }
  }

  /** With the base checked out nowhere: the answer, by what git says. */
  lemma LooseMergeIff(r: Repo, task: string, base: string, message: string, git: Git)
    requires Valid(r) && UpToDate(r, task, base) && NotCheckedOut(r, base)
    ensures var (res, r') := Merge(r, task, base, message, git);
            var id := |r.commits|;
            var commits := r.commits + [Commit([r.refs[base]], r.commits[r.refs[task]].tree, message)];
            && (res.Ok? <==> git.merges && git.commits && git.baseRef && git.taskRef)
            && (res == Err(MergeFailed) <==> !git.merges)
            && (res == Err(CommitFailed) <==> git.merges && !git.commits)
            && (res == Err(RefUpdateFailed) <==> git.merges && git.commits && !(git.baseRef && git.taskRef))
            && (res == Err(MergeFailed) || res == Err(CommitFailed) ==> r' == r)
            && (res == Err(RefUpdateFailed) ==> r' == r.(commits := commits, refs := if git.baseRef then r.refs[base := id] else r.refs))
  {
    NotBehindIff(r, task, base);
    FindCheckoutFinds(r.worktrees, base);
  }

  /** With the base checked out at worktree i: staged changes and equal trees refuse it too. */
  lemma CheckoutMergeIff(r: Repo, task: string, base: string, message: string, git: Git, i: nat)
    requires Valid(r) && UpToDate(r, task, base) && IsCheckout(r, base, i)
    ensures var (res, r') := Merge(r, task, base, message, git);
            var (id, path, same) := (|r.commits|, r.worktrees[i].path, SameTree(r, task, base));
            var commits := r.commits + [Commit([r.refs[base]], r.commits[r.refs[task]].tree, message)];
            && (res.Ok? <==> path !in r.staged && git.merges && !same && git.commits && git.taskRef)
            && (res == Err(WorktreeDirty) <==> path in r.staged)
            && (res == Err(MergeFailed) <==> path !in r.staged && !git.merges)
            && (res == Err(NothingToCommit) <==> path !in r.staged && git.merges && same)
            && (res == Err(CommitFailed) <==> path !in r.staged && git.merges && !same && !git.commits)
            && (res == Err(RefUpdateFailed) <==> path !in r.staged && git.merges && !same && git.commits && !git.taskRef)
            && (res == Err(WorktreeDirty) || res == Err(MergeFailed) || res == Err(NothingToCommit) ==> r' == r)
            && (res == Err(CommitFailed) ==> r' == r.(staged := r.staged + {path}))
            && (res == Err(RefUpdateFailed) ==> r' == r.(commits := commits, refs := r.refs[base := id]))
  {
    NotBehindIff(r, task, base);
    CheckoutIsFirst(r.worktrees, base, i);
  }

  /** Exactly when a merge succeeds. */
  lemma MergeOkIff(r: Repo, task: string, base: string, message: string, git: Git)
    requires Valid(r)
    ensures Merge(r, task, base, message, git).0.Ok? <==>
              && UpToDate(r, task, base) && git.merges && git.commits && git.taskRef
              && ((NotCheckedOut(r, base) && git.baseRef)
                  || exists i: nat :: IsCheckout(r, base, i) && r.worktrees[i].path !in r.staged && !SameTree(r, task, base))
  {
    GuardIff(r, task, base, message, git);
    if UpToDate(r, task, base) {
      if NotCheckedOut(r, base) {
        LooseMergeIff(r, task, base, message, git);
        forall i: nat ensures !IsCheckout(r, base, i) {
          assert i < |r.worktrees| ==> r.worktrees[i] in r.worktrees;
        }
      } else {
        var i := FirstCheckout(r.worktrees, base);
        CheckoutMergeIff(r, task, base, message, git, i);
        assert IsCheckout(r, base, i) && r.worktrees[i] in r.worktrees;
        assert forall k: nat | IsCheckout(r, base, k) :: k == i;
      }
    }
  }

  // ----- runs -----

  datatype Op =
    | CommitOn(branch: string, tree: TreeId, message: string)
    | Branch(name: string, from: string)
    | MergeOp(task: string, base: string, message: string, git: Git)

  /** A new branch takes a name not in use. */
  function Apply(r: Repo, op: Op): Repo
    requires Valid(r)
  {
    match op
    case CommitOn(b, tree, message) =>
      if b in r.refs
      then r.(commits := r.commits + [Commit([r.refs[b]], tree, message)], refs := r.refs[b := |r.commits|])
      else r
    case Branch(name, from) => if from in r.refs && name !in r.refs then r.(refs := r.refs[name := r.refs[from]]) else r
    case MergeOp(task, base, message, git) => Merge(r, task, base, message, git).1
  }

  /** A branch keeps its history: everything its old tip reached, its new tip reaches. */
  ghost predicate Keeps(r: Repo, r': Repo, b: string)
    requires Valid(r) && Valid(r')
  {
    b in r.refs ==> b in r'.refs && r.commits <= r'.commits
                    && Ancestors(r.commits, r.refs[b]) <= Ancestors(r'.commits, r'.refs[b])
  }

  lemma AppendKeeps(r: Repo, r': Repo, c: Commit, b: string)
    requires Valid(r) && Valid(r') && r'.commits == r.commits + [c] && b in r.refs && b in r'.refs
    requires r'.refs[b] == r.refs[b] || Ancestors(r'.commits, r'.refs[b]) == Ancestors(r.commits, r.refs[b]) + {|r.commits|}
    ensures Keeps(r, r', b)
  {
    AncestorsAppend(r.commits, c, r.refs[b]);
  }

  lemma MergeKeeps(r: Repo, task: string, base: string, message: string, git: Git, b: string)
    requires Valid(r) && task != b
    ensures var r' := Merge(r, task, base, message, git).1; Valid(r') && Keeps(r, r', b)
  {
    var (res, r') := Merge(r, task, base, message, git);
    if res.Ok? {
      MergeSucceeds(r, task, base, message, git);
      if b in r.refs { AppendKeeps(r, r', r'.commits[|r.commits|], b); }
    } else {
      MergeFails(r, task, base, message, git);
      FailureOutcome(r, task, base, message, git);
      if b in r.refs && r'.commits != r.commits { AppendKeeps(r, r', r'.commits[|r.commits|], b); }
    }
  }

  lemma CommitKeeps(r: Repo, branch: string, tree: TreeId, message: string, b: string)
    requires Valid(r) && branch in r.refs
    ensures var r' := Apply(r, CommitOn(branch, tree, message)); Valid(r') && Keeps(r, r', b)
  {
    var r' := Apply(r, CommitOn(branch, tree, message));
    AncestorsOfSquash(r.commits, r.refs[branch], tree, message);
    if b in r.refs { AppendKeeps(r, r', Commit([r.refs[branch]], tree, message), b); }
  }

  lemma OpKeeps(r: Repo, op: Op, b: string)
    requires Valid(r) && (op.MergeOp? ==> op.task != b)
    ensures Valid(Apply(r, op)) && Keeps(r, Apply(r, op), b)
  {
    match op
    case Branch(_, _) =>
    case CommitOn(branch, tree, message) =>
      if branch in r.refs { CommitKeeps(r, branch, tree, message, b); }
    case MergeOp(task, base, message, git) => MergeKeeps(r, task, base, message, git, b);
  }

  ghost predicate Run(r: Repo, ops: seq<Op>, end: Repo)
    requires Valid(r)
    decreases |ops|
  {
    if ops == [] then r == end
    else Valid(Apply(r, ops[0])) && Run(Apply(r, ops[0]), ops[1..], end)
  }

  /** Over any run of commits, branches and merges, a branch that is never merged away keeps every tip it had reachable. */
  lemma {:induction false} BaseHistoryIsKept(r: Repo, ops: seq<Op>, end: Repo, b: string)
    requires Valid(r) && Run(r, ops, end) && b in r.refs
    requires forall i | 0 <= i < |ops| && ops[i].MergeOp? :: ops[i].task != b
    ensures Valid(end) && b in end.refs && r.commits <= end.commits && Reaches(end.commits, end.refs[b], r.refs[b])
    decreases |ops|
  {
    if ops != [] {
      var r' := Apply(r, ops[0]);
      OpKeeps(r, ops[0], b);
      BaseHistoryIsKept(r', ops[1..], end, b);
      assert Reaches(r'.commits, r'.refs[b], r.refs[b]) by {
        assert r.refs[b] in Ancestors(r.commits, r.refs[b]);
      }
      ReachesGrows(r', ops[1..], end, r'.refs[b], r.refs[b]);
      ReachesTransitive(end.commits, end.refs[b], r'.refs[b], r.refs[b]);
    }
  }

  lemma {:induction false} ReachesGrows(r: Repo, ops: seq<Op>, end: Repo, from: CommitId, to: CommitId)
    requires Valid(r) && Run(r, ops, end) && from < |r.commits| && Reaches(r.commits, from, to)
    ensures Valid(end) && r.commits <= end.commits && Reaches(end.commits, from, to)
    decreases |ops|
  {
    if ops != [] {
      var r' := Apply(r, ops[0]);
      if |r'.commits| > |r.commits| {
        assert r'.commits == r.commits + [r'.commits[|r.commits|]];
        ReachesAppend(r.commits, r'.commits[|r.commits|], from, to);
      }
      ReachesGrows(r', ops[1..], end, from, to);
    }
  }
}
