/** Upgrading the agent of one node: stage, activate, verify, publish the manifest, commit,
    and roll back on the way out of any failure. Remote calls are named, and an oracle says
    of each whether it was answered, and if not whether it took effect all the same. */
module NodeUpgrade {

  /** The durable transaction marker of a node: none, pending, or committed. */
  datatype Marker = Clean | Pending | Committed

  /** The files a transaction touches, and the copies it keeps while pending. */
  datatype Machine = Machine(binary: string, manifest: string, marker: Marker,
                             savedBinary: string, savedManifest: string)

  /** A takod status answer: the version, and the checks made on the rest of it. */
  datatype Status = Status(version: string, compatible: bool, identity: bool, downgrade: bool,
                           protocol: bool, upgradeCapability: bool, handoffCapability: bool)

  /** `ok`: answered as a success. Otherwise `applied` says it took effect anyway, and
      `partial` that it stopped half way. */
  datatype Reply = Reply(ok: bool, applied: bool, partial: bool, status: Status)

  datatype Call =
    | Connect | Probe | Detect | Begin | Activate | WaitNew | VerifyServices | WaitWorkerSocket
    | WriteManifest | RetainForCommit | CommitScript | CommitProbe
    | RetainForRollback | RollbackFirst | RollbackSecond | ReleaseLock | RestoreManifest | WaitPrevious
    | AcquireCoordinator | RefreshCoordinator | Recheck | Preflight | PreflightRecheck

  type Oracle = Call -> Reply

  datatype Outcome = Upgraded | RolledBack | Failed | Blocked

  datatype Stage = Canary | Workers | ControllerLast | Legacy

  // ---------------------------------------------------------------- remote scripts

  /** The rollback script: it restores a pending transaction, refuses a committed one and
      has nothing to do otherwise. */
  function RolledBackMachine(m: Machine): Machine {
    if m.marker == Pending then m.(binary := m.savedBinary, manifest := m.savedManifest, marker := Clean) else m
  }

  /** Staging first recovers an interrupted transaction, then saves and replaces the binary. */
  function Staged(m: Machine, target: string): Machine {
    var s := RolledBackMachine(m);
    Machine(target, s.manifest, Pending, s.binary, s.manifest)
  }

  function RunRollbackScript(m: Machine, r: Reply): (Machine, bool) {
    if r.ok then (RolledBackMachine(m), m.marker != Committed)
    else if r.applied then (RolledBackMachine(m), false)
    else if r.partial && m.marker == Pending then (m.(binary := m.savedBinary, manifest := m.savedManifest), false)
    else (m, false)
  }

  /** Rollback holds the node lock, tries its script twice and releases the lock. */
  function RollbackTransaction(m: Machine, o: Oracle): (Machine, bool) {
    if !o(RetainForRollback).ok then (m, false)
    else
      var (m1, ok1) := RunRollbackScript(m, o(RollbackFirst));
      var (m2, ok2) := if ok1 then (m1, true) else RunRollbackScript(m1, o(RollbackSecond));
      (m2, ok2 && o(ReleaseLock).ok)
  }

  function CommitTransaction(m: Machine, o: Oracle): (Machine, bool) {
    if !o(RetainForCommit).ok then (m, false)
    else
      var r := o(CommitScript);
      var m1 := if m.marker == Pending && (r.ok || r.applied) then m.(marker := Committed) else m;
      if r.ok && m.marker == Pending then (m1, true)
      else (m1, o(CommitProbe).ok && m1.marker == Committed)
  }

  function PublishManifest(m: Machine, version: string, r: Reply): (Machine, bool) {
    (if r.ok || r.applied then m.(manifest := version) else m, r.ok)
  }

  // ---------------------------------------------------------------- one node

  /** The status gate before anything is changed. */
  predicate MayBegin(enrolled: bool, o: Oracle) {
    && o(Connect).ok && o(Detect).ok
    && (if o(Probe).ok
        then o(Probe).status.compatible && (enrolled ==> o(Probe).status.identity) && !o(Probe).status.downgrade
        else !enrolled)
  }

  predicate KnownPrevious(o: Oracle) {
    o(Probe).ok && o(Probe).status.version != "" && o(Probe).status.version != "unavailable"
  }

  /** The observations that must all succeed before the new manifest is written. */
  predicate Verifies(enrolled: bool, stage: Stage, target: string, o: Oracle) {
    && o(Activate).ok
    && o(WaitNew).ok && o(WaitNew).status.version == target
    && o(WaitNew).status.protocol && o(WaitNew).status.upgradeCapability
    && (enrolled ==> o(WaitNew).status.handoffCapability)
    && o(VerifyServices).ok
    && (stage == ControllerLast ==>
          o(WaitWorkerSocket).ok && o(WaitWorkerSocket).status.version == target && o(WaitWorkerSocket).status.identity)
  }

  /** The rollback of one node: the transaction, then the manifest read at the start, then
      a wait for the version that was running. The manifest is written even when the
      transaction could not be rolled back. */
  function RollbackNode(m: Machine, manifest: string, o: Oracle): (Machine, Outcome) {
    var (m1, ok1) := RollbackTransaction(m, o);
    var (m2, ok2) := PublishManifest(m1, manifest, o(RestoreManifest));
    if ok1 && ok2 && (KnownPrevious(o) ==> o(WaitPrevious).ok) then (m2, RolledBack) else (m2, Failed)
  }

  function AfterStaging(m: Machine, manifest: string, enrolled: bool, stage: Stage, target: string, o: Oracle): (Machine, Outcome) {
    if !Verifies(enrolled, stage, target, o) then RollbackNode(m, manifest, o)
    else
      var (m1, ok1) := PublishManifest(m, target, o(WriteManifest));
      if !ok1 then RollbackNode(m1, manifest, o)
      else
        var (m2, ok2) := CommitTransaction(m1, o);
        if !ok2 then RollbackNode(m2, manifest, o) else (m2, Upgraded)
  }

  function StageNode(m: Machine, target: string, r: Reply): Machine {
    if r.ok || r.applied then Staged(m, target)
    else if r.partial then RolledBackMachine(m)
    else m
  }

  function UpgradeNode(m: Machine, enrolled: bool, stage: Stage, target: string, o: Oracle): (Machine, Outcome) {
    if !MayBegin(enrolled, o) then (m, Failed)
    else
      var m1 := StageNode(m, target, o(Begin));
      if !o(Begin).ok then (m1, Failed)
      else AfterStaging(m1, m.manifest, enrolled, stage, target, o)
  }

  // ---------------------------------------------------------------- results, over the oracle alone

  predicate Answers(o: Oracle, calls: set<Call>) {
    forall c :: c in calls ==> o(c).ok
  }

  /** The node may be touched: it is set up, an enrolled node answered as itself, and no
      answer was incompatible or would be downgraded. */
  predicate Begins(enrolled: bool, o: Oracle) {
    var s := o(Probe).status;
    && Answers(o, {Connect, Detect})
    && (enrolled ==> o(Probe).ok && s.identity)
    && (o(Probe).ok ==> s.compatible && !s.downgrade)
  }

  /** The new agent runs, at the target and complete, with its services verified and, on the
      controller, its worker socket at the target and under its own identity. */
  predicate Attests(enrolled: bool, stage: Stage, target: string, o: Oracle) {
    var s, worker := o(WaitNew).status, o(WaitWorkerSocket).status;
    && Answers(o, {Activate, WaitNew, VerifyServices})
    && s.version == target && s.protocol && s.upgradeCapability && (s.handoffCapability || !enrolled)
    && (stage == ControllerLast ==> o(WaitWorkerSocket).ok && worker.version == target && worker.identity)
  }

  /** The new agent was observed, its manifest written and its commit confirmed. */
  predicate Succeeds(enrolled: bool, stage: Stage, target: string, o: Oracle) {
    && Attests(enrolled, stage, target, o) && Answers(o, {WriteManifest, RetainForCommit})
    && (o(CommitScript).ok || (o(CommitScript).applied && o(CommitProbe).ok))
  }

  /** The commit took effect, but neither its answer nor the probe after it arrived. */
  predicate SilentCommit(enrolled: bool, stage: Stage, target: string, o: Oracle) {
    && Attests(enrolled, stage, target, o) && Answers(o, {WriteManifest, RetainForCommit})
    && !o(CommitScript).ok && o(CommitScript).applied && !o(CommitProbe).ok
  }

  /** Something in the rollback itself did not succeed; the version that answered at the
      start, if any, is waited for. */
  predicate RollbackTrouble(o: Oracle) {
    || !Answers(o, {RetainForRollback, ReleaseLock, RestoreManifest})
    || (!o(RollbackFirst).ok && !o(RollbackSecond).ok)
    || (o(Probe).ok && o(Probe).status.version !in {"", "unavailable"} && !o(WaitPrevious).ok)
  }

  /** The binary that an interrupted transaction would restore, or the one that runs. */
  function BinaryBefore(m: Machine): string {
    if m.marker == Pending then m.savedBinary else m.binary
  }

  function ManifestBefore(m: Machine): string {
    if m.marker == Pending then m.savedManifest else m.manifest
  }

  lemma BeginsIsGate(enrolled: bool, o: Oracle)
    ensures Begins(enrolled, o) <==> MayBegin(enrolled, o)
  {
  }

  lemma AttestsIsVerified(enrolled: bool, stage: Stage, target: string, o: Oracle)
    ensures Attests(enrolled, stage, target, o) <==> Verifies(enrolled, stage, target, o)
  {
  }

  lemma RollbackEnds(m: Machine, manifest: string, o: Oracle)
    requires m.marker != Clean
    ensures var (m', outcome) := RollbackNode(m, manifest, o);
            && (outcome == RolledBack || outcome == Failed)
            && (outcome == RolledBack ==>
                  m.marker != Committed && !RollbackTrouble(o)
                  && m'.binary == BinaryBefore(m) && m'.manifest == manifest && m'.marker == Clean)
            && (outcome == Failed <==> RollbackTrouble(o) || m.marker == Committed)
  {
  }

  /** Before staging succeeds nothing is reported but failure. A node that may not be touched
      is not, and a staging that failed has staged unseen, only recovered an interrupted
      upgrade, or done nothing. */
  lemma NotStagedIsFailed(m: Machine, enrolled: bool, stage: Stage, target: string, o: Oracle)
    ensures var (m', outcome) := UpgradeNode(m, enrolled, stage, target, o);
            && (!Begins(enrolled, o) ==> outcome == Failed && m' == m)
            && (Begins(enrolled, o) && !o(Begin).ok ==>
                  && outcome == Failed
                  && m' == if o(Begin).applied then Machine(target, ManifestBefore(m), Pending, BinaryBefore(m), ManifestBefore(m))
                           else if o(Begin).partial && m.marker == Pending
                           then m.(binary := m.savedBinary, manifest := m.savedManifest, marker := Clean)
                           else m)
  {
    BeginsIsGate(enrolled, o);
  }

  /** Every way out of an upgrade whose staging succeeded: upgraded means the new binary,
      the new manifest and a commit; rolled back means the binary and the manifest from
      before and no transaction left; failed is reported exactly when the rollback itself met
      trouble or the commit had silently gone through. */
  lemma EveryExitIsClean(m: Machine, enrolled: bool, stage: Stage, target: string, o: Oracle)
    requires Begins(enrolled, o) && o(Begin).ok
    ensures var (m', outcome) := UpgradeNode(m, enrolled, stage, target, o);
            && outcome != Blocked
            && (outcome == Upgraded <==> Succeeds(enrolled, stage, target, o))
            && (outcome == Upgraded ==> m'.binary == target && m'.manifest == target && m'.marker == Committed)
            && (outcome == RolledBack ==>
                  m'.binary == BinaryBefore(m) && m'.manifest == m.manifest && m'.marker == Clean)
            && (outcome == Failed <==>
                  !Succeeds(enrolled, stage, target, o) && (RollbackTrouble(o) || SilentCommit(enrolled, stage, target, o)))
  {
    BeginsIsGate(enrolled, o);
    AttestsIsVerified(enrolled, stage, target, o);
    var s := Staged(m, target);
    RollbackEnds(s, m.manifest, o);
    if Verifies(enrolled, stage, target, o) {
      var (w, okW) := PublishManifest(s, target, o(WriteManifest));
      RollbackEnds(w, m.manifest, o);
      if okW { CommitEnds(w, m.manifest, o); }
    }
  }

  /** The whole upgrade, staging included. */
  lemma UpgradedExactly(m: Machine, enrolled: bool, stage: Stage, target: string, o: Oracle)
    ensures var (m', outcome) := UpgradeNode(m, enrolled, stage, target, o);
            && outcome != Blocked
            && (outcome == Upgraded <==> Begins(enrolled, o) && o(Begin).ok && Succeeds(enrolled, stage, target, o))
  {
    NotStagedIsFailed(m, enrolled, stage, target, o);
    if Begins(enrolled, o) && o(Begin).ok { EveryExitIsClean(m, enrolled, stage, target, o); }
  }

  /** From the point where the new manifest is written. */
  lemma CommitEnds(w: Machine, manifest: string, o: Oracle)
    requires w.marker == Pending
    ensures var (c, ok) := CommitTransaction(w, o);
            var (m', outcome) := if ok then (c, Upgraded) else RollbackNode(c, manifest, o);
            var confirmed := o(RetainForCommit).ok && (o(CommitScript).ok || (o(CommitScript).applied && o(CommitProbe).ok));
            var silent := o(RetainForCommit).ok && !o(CommitScript).ok && o(CommitScript).applied && !o(CommitProbe).ok;
            && (ok <==> confirmed) && outcome != Blocked
            && (outcome == Upgraded ==> ok && m' == w.(marker := Committed))
            && (outcome == RolledBack ==> m'.binary == w.savedBinary && m'.manifest == manifest && m'.marker == Clean)
            && (outcome == Failed <==> !confirmed && (RollbackTrouble(o) || silent))
  {
    RollbackEnds(CommitTransaction(w, o).0, manifest, o);
  }

  /** Whether "rolled back" leaves the manifest that belongs to the restored binary: it does
      unless an interrupted upgrade was pending with a different manifest, because the
      manifest is read before staging recovers that upgrade. */
  lemma RolledBackManifestBelongs(m: Machine, enrolled: bool, stage: Stage, target: string, o: Oracle)
    requires UpgradeNode(m, enrolled, stage, target, o).1 == RolledBack
    ensures UpgradeNode(m, enrolled, stage, target, o).0.manifest == ManifestBefore(m)
        <==> !(m.marker == Pending && m.savedManifest != m.manifest)
  {
    NotStagedIsFailed(m, enrolled, stage, target, o);
    EveryExitIsClean(m, enrolled, stage, target, o);
  }

  predicate TookEffect(r: Reply) {
    r.ok || r.applied
  }

  /** One of the two attempts of the rollback script got as far as `how` says. */
  predicate RollbackRan(o: Oracle, how: Reply -> bool) {
    o(RetainForRollback).ok && (how(o(RollbackFirst)) || how(o(RollbackSecond)))
  }

  /** What a failed upgrade leaves, call by call: a commit that went through keeps the new
      binary; otherwise the binary is back if the script got half way and the marker is gone
      if it got to its end. The manifest is that of the last write that took effect, or the
      one a rollback restored. */
  lemma FailedLeavesExactly(m: Machine, enrolled: bool, stage: Stage, target: string, o: Oracle)
    requires Begins(enrolled, o) && o(Begin).ok && UpgradeNode(m, enrolled, stage, target, o).1 == Failed
    ensures var m' := UpgradeNode(m, enrolled, stage, target, o).0;
            var restored := RollbackRan(o, (r: Reply) => r.ok || r.applied || r.partial);
            if SilentCommit(enrolled, stage, target, o)
            then m'.binary == target && m'.marker == Committed
                 && m'.manifest == (if TookEffect(o(RestoreManifest)) then m.manifest else target)
            else m'.binary == (if restored then BinaryBefore(m) else target)
                 && m'.marker == (if RollbackRan(o, TookEffect) then Clean else Pending)
                 && m'.manifest == (if TookEffect(o(RestoreManifest)) then m.manifest
                                    else if restored then ManifestBefore(m)
                                    else if Attests(enrolled, stage, target, o) && TookEffect(o(WriteManifest)) then target
                                    else ManifestBefore(m))
  {
    FailedRollsBack(m, enrolled, stage, target, o);
    RollbackLeaves(BeforeRollback(m, enrolled, stage, target, o), m.manifest, o);
  }

  /** The machine that a failed upgrade tries to roll back. */
  function BeforeRollback(m: Machine, enrolled: bool, stage: Stage, target: string, o: Oracle): Machine {
    var written := Attests(enrolled, stage, target, o) && TookEffect(o(WriteManifest));
    Machine(target, if written then target else ManifestBefore(m),
            if SilentCommit(enrolled, stage, target, o) then Committed else Pending, BinaryBefore(m), ManifestBefore(m))
  }

  lemma FailedRollsBack(m: Machine, enrolled: bool, stage: Stage, target: string, o: Oracle)
    requires Begins(enrolled, o) && o(Begin).ok && UpgradeNode(m, enrolled, stage, target, o).1 == Failed
    ensures UpgradeNode(m, enrolled, stage, target, o).0
         == RollbackNode(BeforeRollback(m, enrolled, stage, target, o), m.manifest, o).0
  {
    BeginsIsGate(enrolled, o);
    AttestsIsVerified(enrolled, stage, target, o);
  }

  lemma RollbackLeaves(m: Machine, manifest: string, o: Oracle)
    requires m.marker != Clean
    ensures var m' := RollbackNode(m, manifest, o).0;
            var restored := m.marker == Pending && RollbackRan(o, (r: Reply) => r.ok || r.applied || r.partial);
            && m'.binary == (if restored then m.savedBinary else m.binary)
            && m'.marker == (if m.marker == Pending && RollbackRan(o, TookEffect) then Clean else m.marker)
            && m'.manifest == (if TookEffect(o(RestoreManifest)) then manifest else if restored then m.savedManifest else m.manifest)
  {
  }

  /** The exception is reachable: a run died after writing the new manifest, the agent does
      not answer, and the next run stages, fails to activate and rolls back. */
  lemma StaleManifestSurvivesRollback()
    ensures exists m: Machine, o: Oracle ::
              var (m', outcome) := UpgradeNode(m, false, Legacy, "v2", o);
              outcome == RolledBack && m'.binary == "v1" && m'.manifest == "v2"
  {
    var m := Machine("v2", "v2", Pending, "v1", "v1");
    var quiet := Status("", true, true, false, true, true, true);
    var o: Oracle := c => Reply(c != Probe && c != Activate, false, false, quiet);
    var (m', outcome) := UpgradeNode(m, false, Legacy, "v2", o);
    assert outcome == RolledBack && m'.binary == "v1" && m'.manifest == "v2";
  }

  /** A silent commit ends as failed with the new binary committed beside the old manifest:
      the restoring manifest write is not skipped when the transaction refuses to roll back. */
  lemma SilentCommitRevertsManifest(m: Machine, enrolled: bool, stage: Stage, target: string, o: Oracle)
    requires Begins(enrolled, o) && o(Begin).ok && SilentCommit(enrolled, stage, target, o)
    requires o(RestoreManifest).ok
    ensures var (m', outcome) := UpgradeNode(m, enrolled, stage, target, o);
            outcome == Failed && m'.binary == target && m'.marker == Committed && m'.manifest == m.manifest
  {
    EveryExitIsClean(m, enrolled, stage, target, o);
    FailedLeavesExactly(m, enrolled, stage, target, o);
  }

  /** Everything answers but the commit, which takes effect, and the probe after it. */
  ghost predicate QuietCommit(o: Oracle, target: string) {
    && (forall c :: c != CommitScript && c != CommitProbe ==> o(c).ok)
    && !o(CommitScript).ok && o(CommitScript).applied && !o(CommitProbe).ok
    && (forall c :: o(c).status == Status(target, true, true, false, true, true, true))
  }

  lemma QuietAnswers(o: Oracle, target: string, calls: set<Call>)
    requires QuietCommit(o, target) && CommitScript !in calls && CommitProbe !in calls
    ensures Answers(o, calls)
  {
  }

  lemma QuietCommitIsSilent(o: Oracle, target: string)
    requires QuietCommit(o, target)
    ensures Begins(true, o) && SilentCommit(true, Canary, target, o)
  {
    QuietAnswers(o, target, {Connect, Detect});
    QuietAnswers(o, target, {Activate, WaitNew, VerifyServices});
    QuietAnswers(o, target, {WriteManifest, RetainForCommit});
  }

  lemma QuietCommitRollsBack(o: Oracle, target: string)
    requires QuietCommit(o, target)
    ensures !RollbackTrouble(o)
  {
    QuietAnswers(o, target, {RetainForRollback, ReleaseLock, RestoreManifest});
  }

  lemma SilentCommitHappens()
    ensures exists m: Machine, o: Oracle ::
              var (m', outcome) := UpgradeNode(m, true, Canary, "v2", o);
              outcome == Failed && !RollbackTrouble(o) && m'.binary == "v2" && m'.marker == Committed && m'.manifest == "v1"
  {
    var status := Status("v2", true, true, false, true, true, true);
    var o: Oracle := c => Reply(c != CommitScript && c != CommitProbe, c == CommitScript, false, status);
    QuietCommitIsSilent(o, "v2");
    QuietCommitRollsBack(o, "v2");
    SilentCommitRevertsManifest(Machine("v1", "v1", Clean, "", ""), true, Canary, "v2", o);
  }
}
