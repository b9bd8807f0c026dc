/**
 * What happens when an execution ends (crates/local-deployment/src/container.rs
 * `spawn_exit_monitor`), with `should_finalize` from
 * crates/services/src/services/container.rs.
 */
module ExitMonitor {
  import opened Wrappers

  datatype RunReason = SetupScript | CleanupScript | ArchiveScript | CodingAgent | DevServer

  datatype Status = Running | Completed | Failed | Killed

  /** How the process ended: an exit code, or an error while waiting for it. */
  datatype ExitResult = Exited(code: Option<int>) | WaitFailed

  /** A queued message, by its identity. */
  type Message = nat

  /** The execution as the database has it after the end was recorded. */
  datatype Context = Context(status: Status, reason: RunReason, hasNext: bool)

  /** What the services answer, as far as they are asked. */
  datatype World = World(
    exit: ExitResult,
    context: Option<Context>,
    commit: Result<bool, ()>,         // did try_commit_changes commit anything
    hasCommits: Result<bool, ()>,     // did the agent commit anything itself
    nextStarts: bool,                 // does try_start_next_action go through
    queued: Option<Message>,          // what take_queued finds
    followUpStarts: bool,
    agentRunning: Result<bool, ()>)

  datatype Effect = TryCommit | StartNext | FinalizeTask | TakeQueued(found: Option<Message>) | StartFollowUp(message: Message) | MarkUnseen

  function ExitCode(exit: ExitResult): Option<int> {
    match exit
    case Exited(Some(code)) => Some(code)
    case Exited(None) => Some(-1)
    case WaitFailed => None
  }

  function ShouldFinalize(c: Context): bool {
    if c.reason.DevServer? then false
    else if c.reason.SetupScript? && !c.hasNext then false
    else if c.status.Failed? || c.status.Killed? then true
    else !c.hasNext
  }

  function Count(log: seq<Effect>, e: Effect): nat {
    multiset(log)[e]
  }

  // ----- what the monitor should do, by outcome -----

  predicate Succeeded(w: World)
    requires w.context.Some?
  {
    w.context.value.status.Completed? && ExitCode(w.exit) == Some(0)
  }

  predicate CleanedUp(w: World)
    requires w.context.Some?
  {
    w.context.value.reason.CleanupScript? && !w.context.value.status.Running?
  }

  /** A failed commit counts as changes; a failed look at the history does not. */
  predicate ChangesMade(w: World) {
    (w.commit.Err? || w.commit.value) || (w.hasCommits.Ok? && w.hasCommits.value)
  }

  /** The agent succeeded without changing anything, so the next action is skipped. */
  predicate SkipsNext(w: World)
    requires w.context.Some?
  {
    Succeeded(w) && w.context.value.reason.CodingAgent? && !ChangesMade(w)
  }

  predicate RunsNext(w: World) {
    w.context.Some? && (Succeeded(w) || CleanedUp(w)) && !SkipsNext(w)
  }

  /** Without a next action the attempt to start it does nothing. */
  predicate HandedOn(w: World) {
    RunsNext(w) && w.context.value.hasNext && w.nextStarts
  }

  /** The queue is taken at the end of the chain, or when a parallel setup script leaves no agent running. */
  predicate TakesAtEnd(w: World, shouldFinalize: bool) {
    w.context.Some? && shouldFinalize && !SkipsNext(w)
  }

  predicate TakesAfterSetup(w: World, shouldFinalize: bool) {
    w.context.Some? && w.context.value.reason.SetupScript? && !shouldFinalize && w.agentRunning.Ok? && !w.agentRunning.value
  }

  predicate QueueRuns(w: World)
    requires w.context.Some?
  {
    !w.context.value.status.Failed? && !w.context.value.status.Killed?
  }

  /** A queued message becomes a running follow-up. */
  predicate FollowsUp(w: World, shouldFinalize: bool) {
    && w.queued.Some? && w.followUpStarts
    && ((TakesAtEnd(w, shouldFinalize) && QueueRuns(w)) || TakesAfterSetup(w, shouldFinalize))
  }

  predicate Finalizes(w: World, shouldFinalize: bool) {
    w.context.Some? && (SkipsNext(w) || (shouldFinalize && !FollowsUp(w, shouldFinalize)))
  }

  // ----- the log of effects, part by part -----

  function CommitPart(w: World): seq<Effect>
    requires w.context.Some?
  {
    if !Succeeded(w) && !CleanedUp(w) then [] else [TryCommit, if SkipsNext(w) then FinalizeTask else StartNext]
  }

  function EndPart(w: World, shouldFinalize: bool): seq<Effect> {
    if !TakesAtEnd(w, shouldFinalize) then []
    else
      [TakeQueued(w.queued)]
      + (if w.queued.Some? && QueueRuns(w) then [StartFollowUp(w.queued.value)] else [])
      + (if FollowsUp(w, shouldFinalize) then [] else [FinalizeTask])
      + (if w.context.value.reason.CodingAgent? && !w.context.value.hasNext && !FollowsUp(w, shouldFinalize) then [MarkUnseen] else [])
  }

  function SetupPart(w: World, shouldFinalize: bool): seq<Effect> {
    if !TakesAfterSetup(w, shouldFinalize) then []
    else [TakeQueued(w.queued)] + (if w.queued.Some? then [StartFollowUp(w.queued.value)] else [])
  }

  function Log(w: World, shouldFinalize: bool): seq<Effect> {
    if w.context.None? then [] else CommitPart(w) + EndPart(w, shouldFinalize) + SetupPart(w, shouldFinalize)
  }

  // ----- the monitor -----

  /** Lines 568-610: commit, then go on to the next action or finalize at once. */
  method CommitAndGoOn(w: World) returns (log: seq<Effect>, alreadyFinalized: bool)
    requires w.context.Some?
    ensures log == CommitPart(w) && alreadyFinalized == SkipsNext(w)
  {
    var ctx := w.context.value;
    log, alreadyFinalized := [], false;
    var success := ctx.status.Completed? && ExitCode(w.exit) == Some(0);
    var cleanupDone := ctx.reason.CleanupScript? && !ctx.status.Running?;
    if success || cleanupDone {
      log := [TryCommit];
      var changesCommitted := if w.commit.Ok? then w.commit.value else true;
      var shouldStartNext := true;
      if ctx.reason.CodingAgent? {
        shouldStartNext := changesCommitted || (w.hasCommits.Ok? && w.hasCommits.value);
      }
      if shouldStartNext {
        log := log + [StartNext];
      } else {
        log := log + [FinalizeTask];
        alreadyFinalized := true;
      }
    }
  }

  /** Lines 612-694: the end of a chain. */
  method EndChain(w: World) returns (log: seq<Effect>)
    requires w.context.Some? && !SkipsNext(w)
    ensures log == EndPart(w, true)
  {
    var ctx := w.context.value;
    var startedFollowUp := false;
    var shouldExecuteQueued := !ctx.status.Failed? && !ctx.status.Killed?;
    log := [TakeQueued(w.queued)];
    if w.queued.Some? {
      if shouldExecuteQueued {
        log := log + [StartFollowUp(w.queued.value)];
        if !w.followUpStarts {
          log := log + [FinalizeTask];
        } else {
          startedFollowUp := true;
        }
      } else {
        log := log + [FinalizeTask];
      }
    } else {
      log := log + [FinalizeTask];
    }
    if ctx.reason.CodingAgent? && !ctx.hasNext && !startedFollowUp {
      log := log + [MarkUnseen];
    }
  }

  /** The monitor's body once the exit is recorded, for any `should_finalize`. */
  method HandleExit(w: World, shouldFinalize: bool) returns (log: seq<Effect>)
    ensures log == Log(w, shouldFinalize)
  {
    if w.context.None? {
      return [];
    }
    var ctx := w.context.value;
    var alreadyFinalized: bool;
    log, alreadyFinalized := CommitAndGoOn(w);

    if !alreadyFinalized && shouldFinalize {
      var end := EndChain(w);
      log := log + end;
    }

    if ctx.reason.SetupScript? && !shouldFinalize {
      var hasRunningAgent := if w.agentRunning.Ok? then w.agentRunning.value else true;
      if !hasRunningAgent {
        log := log + [TakeQueued(w.queued)];
        if w.queued.Some? {
          log := log + [StartFollowUp(w.queued.value)];
        }
      }
    }
  }

  // ----- main results -----

  function One(b: bool): nat {
    if b then 1 else 0
  }

  lemma CountCommit(w: World, e: Effect)
    requires w.context.Some?
    ensures Count(CommitPart(w), e) == One((Succeeded(w) || CleanedUp(w)) && e == TryCommit)
                                       + One(SkipsNext(w) && e == FinalizeTask) + One(RunsNext(w) && e == StartNext)
  {
  }

  lemma CountEnd(w: World, shouldFinalize: bool, e: Effect)
    ensures var takes, follows := TakesAtEnd(w, shouldFinalize), FollowsUp(w, shouldFinalize);
            Count(EndPart(w, shouldFinalize), e) ==
              One(takes && e == TakeQueued(w.queued))
              + One(takes && w.queued.Some? && QueueRuns(w) && e == StartFollowUp(w.queued.value))
              + One(takes && !follows && e == FinalizeTask)
              + One(takes && w.context.value.reason.CodingAgent? && !w.context.value.hasNext && !follows && e == MarkUnseen)
  {
  }

  lemma CountSetup(w: World, shouldFinalize: bool, e: Effect)
    ensures var takes := TakesAfterSetup(w, shouldFinalize);
            Count(SetupPart(w, shouldFinalize), e) ==
              One(takes && e == TakeQueued(w.queued)) + One(takes && w.queued.Some? && e == StartFollowUp(w.queued.value))
  {
  }

  lemma CountParts(w: World, shouldFinalize: bool, e: Effect)
    requires w.context.Some?
    ensures Count(Log(w, shouldFinalize), e)
            == Count(CommitPart(w), e) + Count(EndPart(w, shouldFinalize), e) + Count(SetupPart(w, shouldFinalize), e)
    ensures TakesAtEnd(w, shouldFinalize) ==> !TakesAfterSetup(w, shouldFinalize)
  {
    CountCommit(w, e);
    CountEnd(w, shouldFinalize, e);
    CountSetup(w, shouldFinalize, e);
  }

  /**
   * On every path, for any `should_finalize`: the task is finalized exactly once
   * or not at all, and never in a run that started a follow-up.
   */
  lemma FinalizedOnce(w: World, shouldFinalize: bool)
    ensures Count(Log(w, shouldFinalize), FinalizeTask) == One(Finalizes(w, shouldFinalize))
    ensures !(Finalizes(w, shouldFinalize) && FollowsUp(w, shouldFinalize))
    ensures Count(Log(w, shouldFinalize), StartNext) == One(RunsNext(w))
  {
    if w.context.Some? {
      FinalizedIf(w, shouldFinalize);
      NextStartedOnce(w, shouldFinalize);
    }
  }

  lemma FinalizedIf(w: World, shouldFinalize: bool)
    requires w.context.Some?
    ensures Count(Log(w, shouldFinalize), FinalizeTask) == One(Finalizes(w, shouldFinalize))
  {
    CountParts(w, shouldFinalize, FinalizeTask);
    CountCommit(w, FinalizeTask);
    CountEnd(w, shouldFinalize, FinalizeTask);
    CountSetup(w, shouldFinalize, FinalizeTask);
  }

  lemma NextStartedOnce(w: World, shouldFinalize: bool)
    requires w.context.Some?
    ensures Count(Log(w, shouldFinalize), StartNext) == One(RunsNext(w))
  {
    CountParts(w, shouldFinalize, StartNext);
    CountCommit(w, StartNext);
    CountEnd(w, shouldFinalize, StartNext);
    CountSetup(w, shouldFinalize, StartNext);
  }

  /** The queue is taken at most once, and what is taken is what was there. */
  lemma QueueTakenOnce(w: World, shouldFinalize: bool, q: Option<Message>)
    ensures Count(Log(w, shouldFinalize), TakeQueued(q))
            == One(q == w.queued && (TakesAtEnd(w, shouldFinalize) || TakesAfterSetup(w, shouldFinalize)))
  {
    if w.context.Some? {
      CountParts(w, shouldFinalize, TakeQueued(q));
      CountCommit(w, TakeQueued(q));
      CountEnd(w, shouldFinalize, TakeQueued(q));
      CountSetup(w, shouldFinalize, TakeQueued(q));
    }
  }

  /** Only a message taken from the queue is started, at most once, and not after a failure or a kill at the end of a chain. */
  lemma OnlyQueuedIsStarted(w: World, shouldFinalize: bool, m: Message)
    ensures Count(Log(w, shouldFinalize), StartFollowUp(m))
            == One(w.queued == Some(m) && ((TakesAtEnd(w, shouldFinalize) && QueueRuns(w)) || TakesAfterSetup(w, shouldFinalize)))
    ensures FollowsUp(w, shouldFinalize) ==> Count(Log(w, shouldFinalize), MarkUnseen) == 0
  {
    if w.context.Some? {
      CountParts(w, shouldFinalize, StartFollowUp(m));
      CountCommit(w, StartFollowUp(m));
      CountEnd(w, shouldFinalize, StartFollowUp(m));
      CountSetup(w, shouldFinalize, StartFollowUp(m));
      NotMarkedAfterFollowUp(w, shouldFinalize);
    }
  }

  lemma NotMarkedAfterFollowUp(w: World, shouldFinalize: bool)
    requires w.context.Some?
    ensures FollowsUp(w, shouldFinalize) ==> Count(Log(w, shouldFinalize), MarkUnseen) == 0
  {
    CountParts(w, shouldFinalize, MarkUnseen);
    CountCommit(w, MarkUnseen);
    CountEnd(w, shouldFinalize, MarkUnseen);
    CountSetup(w, shouldFinalize, MarkUnseen);
  }

  /**
   * With the `should_finalize` of the service: an agent that has ended is
   * finalized, followed up, or handed on to its next action, unless it ended as
   * completed with a next action, and either without exit code 0, or with changes
   * after which the next action did not start.
   */
  lemma AgentsAreNotDropped(w: World)
    requires w.context.Some? && w.context.value.reason.CodingAgent? && !w.context.value.status.Running?
    ensures var c := w.context.value;
            var f := ShouldFinalize(c);
            Finalizes(w, f) || FollowsUp(w, f) || HandedOn(w)
            <==> !(c.status.Completed? && c.hasNext && (ExitCode(w.exit) != Some(0) || (ChangesMade(w) && !w.nextStarts)))
  {
  }

  /**
   * With the `should_finalize` of the service: a queued message stays in the
   * queue exactly when the execution cannot be loaded, is a dev server, is an
   * agent that changed nothing, ends without failure before the end of its chain,
   * or is a setup script that ends while an agent runs or may be running.
   */
  lemma QueueIsLeft(w: World)
    ensures var f := w.context.Some? && ShouldFinalize(w.context.value);
            !TakesAtEnd(w, f) && !TakesAfterSetup(w, f) <==>
              w.context.None? ||
              var c := w.context.value;
              || c.reason.DevServer?
              || SkipsNext(w)
              || (c.reason.SetupScript? && !f && (w.agentRunning.Err? || w.agentRunning.value))
              || (!c.reason.SetupScript? && c.hasNext && !c.status.Failed? && !c.status.Killed?)
  {
  }

  // ----- each effect, by what the execution and the services say -----

  /** The agent completed with exit code 0, and neither committed anything itself nor left anything to commit. */
  predicate NothingDone(w: World) {
    && w.context.Some? && w.context.value.reason == CodingAgent && w.context.value.status == Completed && w.exit == Exited(Some(0))
    && w.commit == Ok(false) && w.hasCommits != Ok(true)
  }

  predicate EndedBadly(w: World) {
    w.context.Some? && (w.context.value.status == Failed || w.context.value.status == Killed)
  }

  /** A completed run with exit code 0, or a cleanup script however it ended, is committed. */
  predicate Commits(w: World) {
    w.context.Some? &&
    ((w.context.value.status == Completed && w.exit == Exited(Some(0)))
     || (w.context.value.reason == CleanupScript && w.context.value.status != Running))
  }

  /** A setup script that does not end the chain and leaves no agent running. */
  predicate FreesQueue(w: World, shouldFinalize: bool) {
    w.context.Some? && w.context.value.reason == SetupScript && !shouldFinalize && w.agentRunning == Ok(false)
  }

  lemma TermsAgree(w: World)
    requires w.context.Some?
    ensures SkipsNext(w) <==> NothingDone(w)
    ensures QueueRuns(w) <==> !EndedBadly(w)
    ensures Succeeded(w) || CleanedUp(w) <==> Commits(w)
  {
  }

  lemma QueueTermsAgree(w: World, shouldFinalize: bool)
    ensures TakesAtEnd(w, shouldFinalize) <==> w.context.Some? && shouldFinalize && !NothingDone(w)
    ensures TakesAfterSetup(w, shouldFinalize) <==> FreesQueue(w, shouldFinalize)
  {
    if w.context.Some? { TermsAgree(w); }
  }

  /** The commit is tried exactly for those, once; then the next action is tried, unless the agent did nothing. */
  lemma CommitIff(w: World, shouldFinalize: bool)
    ensures Count(Log(w, shouldFinalize), TryCommit) == One(Commits(w))
    ensures Count(Log(w, shouldFinalize), StartNext) == One(Commits(w) && !NothingDone(w))
  {
    if w.context.Some? {
      TermsAgree(w);
      CountParts(w, shouldFinalize, TryCommit);
      CountCommit(w, TryCommit);
      CountEnd(w, shouldFinalize, TryCommit);
      CountSetup(w, shouldFinalize, TryCommit);
      NextStartedOnce(w, shouldFinalize);
    }
  }

  /** The task is finalized exactly if the agent did nothing, or at the end of the chain without a follow-up that starts. */
  lemma FinalizeIff(w: World, shouldFinalize: bool)
    ensures Count(Log(w, shouldFinalize), FinalizeTask) ==
              One(NothingDone(w) || (w.context.Some? && shouldFinalize && !(w.queued.Some? && w.followUpStarts && !EndedBadly(w))))
  {
    if w.context.Some? {
      TermsAgree(w);
      FinalizedIf(w, shouldFinalize);
    }
  }

  /** A queued message is started exactly at the end of a chain that did not end badly, or when a setup script frees the queue. */
  lemma FollowUpIff(w: World, shouldFinalize: bool, m: Message)
    ensures Count(Log(w, shouldFinalize), StartFollowUp(m)) ==
              One(w.queued == Some(m) &&
                  ((w.context.Some? && shouldFinalize && !NothingDone(w) && !EndedBadly(w)) || FreesQueue(w, shouldFinalize)))
  {
    QueueTermsAgree(w, shouldFinalize);
    OnlyQueuedIsStarted(w, shouldFinalize, m);
    if w.context.Some? { TermsAgree(w); }
  }

  /** And it is taken in the same places, and also after a run that ended badly. */
  lemma TakenIff(w: World, shouldFinalize: bool, q: Option<Message>)
    ensures Count(Log(w, shouldFinalize), TakeQueued(q)) ==
              One(q == w.queued && ((w.context.Some? && shouldFinalize && !NothingDone(w)) || FreesQueue(w, shouldFinalize)))
  {
    QueueTermsAgree(w, shouldFinalize);
    QueueTakenOnce(w, shouldFinalize, q);
  }

  /** The turn is marked unseen exactly for an agent at the end of its chain that had something to show and has no follow-up. */
  lemma UnseenIff(w: World, shouldFinalize: bool)
    ensures Count(Log(w, shouldFinalize), MarkUnseen) ==
              One(w.context.Some? && shouldFinalize && !NothingDone(w) && w.context.value.reason == CodingAgent
                  && !w.context.value.hasNext && !(w.queued.Some? && w.followUpStarts && !EndedBadly(w)))
  {
    if w.context.Some? {
      TermsAgree(w);
      CountParts(w, shouldFinalize, MarkUnseen);
      CountCommit(w, MarkUnseen);
      CountEnd(w, shouldFinalize, MarkUnseen);
      CountSetup(w, shouldFinalize, MarkUnseen);
    }
  }

  /** A run that failed or was killed at the end of its chain is finalized and nothing is started, whatever is queued. */
  lemma BadEndIsFinal(w: World, shouldFinalize: bool, m: Message)
    requires EndedBadly(w) && shouldFinalize
    ensures Count(Log(w, shouldFinalize), StartFollowUp(m)) == 0
    ensures Count(Log(w, shouldFinalize), FinalizeTask) == 1
  {
    FollowUpIff(w, shouldFinalize, m);
    FinalizeIff(w, shouldFinalize);
  }

  /** `should_finalize`, case by case. */
  lemma ShouldFinalizeIff(c: Context)
    ensures ShouldFinalize(c) <==>
              && c.reason != DevServer && (c.reason == SetupScript ==> c.hasNext)
              && (c.status == Failed || c.status == Killed || !c.hasNext)
  {
  }

  // ----- the order of effects -----

  /** The commit comes first, a follow-up only after its message was taken, and the unseen mark last. */
  lemma OrderOfEffects(w: World, shouldFinalize: bool, i: nat)
    requires i < |Log(w, shouldFinalize)|
    ensures var log := Log(w, shouldFinalize);
            && (log[i] == TryCommit <==> i == 0 && Commits(w))
            && (log[i].StartFollowUp? ==> i > 0 && log[i - 1] == TakeQueued(Some(log[i].message)))
            && (log[i] == StartNext ==> i == 1)
            && (log[i] == MarkUnseen ==> i == |log| - 1)
  {
    TermsAgree(w);
  }
}
