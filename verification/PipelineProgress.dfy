/** Why the pipeline comes to rest, and what has become of the files then. */
module PipelineProgress {
  import opened Wrappers
  import opened Pipeline
  import opened PipelineSafety
  import opened PipelineRuns

  /** The steps that move files on, as opposed to those that look for files or wait. */
  predicate Moving(a: Action) {
    !a.Poll? || a.p.Submit?
  }

  /** The steps within one acquisition. */
  predicate Internal(a: Action) {
    !(a.Poll? && (a.p.Accept? || a.p.Free?))
  }

  /** A download may only fail for a file that is due a single reap message. */
  predicate Harmless(s: State, a: Action)
    requires Enabled(s, a)
  {
    a == Download(Fetch(false)) ==> Wants(s.files[s.download.file]) == 1
  }

  function WorkerWeight(w: Worker): nat {
    match w case Idle => 0 case Working(_) => 6 case Sending(_) => 5
  }

  /** An upper bound on the steps that are still to be made with the files on their way. */
  function Measure(s: State): nat {
    (if s.poll.Submitting? then 19 else 0) + 18 * |s.downloadQueue|
    + (match s.download
       case DownloadIdle => 0
       case Fetching(_) => 17
       case Reporting(_) => 5
       case Loaded(_) => 16
       case CheckingSave(_) => 8)
    + 7 * |s.parseQueue| + WorkerWeight(s.parse) + 7 * |s.saveQueue| + WorkerWeight(s.save) + 4 * |s.reapQueue|
    + (match s.reap case ReapIdle => 0 case Received(_) => 3 case Finalising(_) => 2 case Uncounting(_) => 1)
  }

  lemma MeasureDrops(s: State, a: Action)
    requires Enabled(s, a) && Moving(a)
    ensures Measure(Step(s, a)) < Measure(s)
  {
    match a
    case Poll(p) =>
    case Download(d) => DownloadDrops(s, d);
    case Parse(w) => ParseDrops(s, w);
    case Save(w) => SaveDrops(s, w);
    case Reap(r) => ReapDrops(s, r);
  }

  lemma DownloadDrops(s: State, d: DownloadAction)
    requires DownloadCan(s, d)
    ensures Measure(DownloadStep(s, d)) < Measure(s)
  {
  }

  lemma ParseDrops(s: State, w: WorkerAction)
    requires ParseCan(s, w)
    ensures Measure(ParseStep(s, w)) < Measure(s)
  {
  }

  lemma SaveDrops(s: State, w: WorkerAction)
    requires SaveCan(s, w)
    ensures Measure(SaveStep(s, w)) < Measure(s)
  {
  }

  lemma ReapDrops(s: State, r: ReapAction)
    requires ReapCan(s, r)
    ensures Measure(ReapStep(s, r)) < Measure(s)
  {
  }

  /** What the poll task has still to do, and the work with the files that it has yet to find. */
  function PollWork(s: State): nat {
    match s.poll
    case Looking(i, retries) => 20 * Remaining(s, i) + RetriesLeft(retries) + 2
    case Submitting(i, retries) => 20 * Remaining(s, i + 1) + RetriesLeft(retries) + 2
    case Draining => 1
    case _ => 0
  }

  function Remaining(s: State, i: nat): nat {
    if i <= |s.files| then |s.files| - i else 0
  }

  function RetriesLeft(retries: nat): nat {
    if retries <= MAX_RETRIES then MAX_RETRIES + 1 - retries else 0
  }

  /** An upper bound on the steps within an acquisition that still change anything. */
  function WorkLeft(s: State): nat {
    Measure(s) + PollWork(s)
  }

  /** Each step within an acquisition takes some of the work off, unless it changes nothing: then the poll task has
      waited for a file, or for pending files. */
  lemma WorkDrops(s: State, a: Action)
    requires PollInv(s) && Enabled(s, a) && Internal(a)
    ensures Step(s, a) == s || WorkLeft(Step(s, a)) < WorkLeft(s)
    ensures Step(s, a) == s ==> a.Poll? && (a.p.Miss? || a.p.ReadPending?)
  {
    hide DownloadStep;
    hide ParseStep;
    hide SaveStep;
    hide ReapStep;
    if Moving(a) { MeasureDrops(s, a); }
    if a.Poll? {
      hide Measure;
      PollWorkDrops(s, a.p);
    } else {
      PollWaits(s, a);
      hide Measure;
    }
  }

  lemma PollWaits(s: State, a: Action)
    requires Enabled(s, a) && !a.Poll?
    ensures PollWork(Step(s, a)) == PollWork(s)
  {
    hide PollStep;
  }

  lemma PollWorkDrops(s: State, p: PollAction)
    requires PollInv(s) && PollCan(s, p) && !p.Accept? && !p.Free?
    ensures var after := PollStep(s, p);
            if p.Miss? || p.ReadPending? then after == s || WorkLeft(after) < WorkLeft(s)
            else WorkLeft(after) < WorkLeft(s)
  {
  }

  /** No pending file has lost a reap message to a failed download. */
  ghost predicate NothingLost(s: State) {
    forall f :: 0 <= f < |s.files| && s.files[f].stage.Counted? ==> Lost(s.files[f]) == 0
  }

  /** A step that is possible as long as a file is on its way. */
  function NextAction(s: State): Option<Action> {
    if s.reap.Received? then Some(Reap(Count))
    else if s.reap.Finalising? then Some(Reap(Finalise))
    else if s.reap.Uncounting? then Some(Reap(Uncount))
    else if s.reapQueue != [] then Some(Reap(Collect))
    else if s.parse.Working? then Some(Parse(Work(true)))
    else if s.parse.Sending? then Some(Parse(Send))
    else if s.parseQueue != [] then Some(Parse(Receive))
    else if s.save.Working? then Some(Save(Work(true)))
    else if s.save.Sending? then Some(Save(Send))
    else if s.saveQueue != [] then Some(Save(Receive))
    else if s.download.Fetching? then Some(Download(Fetch(true)))
    else if s.download.Reporting? then Some(Download(Report))
    else if s.download.Loaded? then Some(Download(DispatchParse))
    else if s.download.CheckingSave? then Some(Download(DispatchSave))
    else if s.downloadQueue != [] then Some(Download(Take))
    else if s.poll.Submitting? then Some(Poll(Submit))
    else None
  }

  /** The blocking queues never block each other for good: from the reaper backwards, some task can move. */
  lemma NextIsEnabled(s: State)
    requires Inv(s) && NextAction(s).Some?
    ensures var a := NextAction(s).value; Enabled(s, a) && Moving(a) && Harmless(s, a)
  {
    if s.reap.Received? { ReceivedIsCounted(s, s.reap.file); }
  }

  lemma ReceivedIsCounted(s: State, f: nat)
    requires Inv(s) && f < |s.files| && s.reap == Received(f)
    ensures s.files[f].refCount > 0
  {
    assert FileInv(ViewOf(s, f));
  }

  lemma {:induction false} CountedExists(files: seq<File>) returns (f: nat)
    requires CountedFiles(files) > 0
    ensures f < |files| && files[f].stage.Counted?
  {
    if files[|files| - 1].stage.Counted? {
      f := |files| - 1;
    } else {
      f := CountedExists(files[..|files| - 1]);
    }
  }

  /** As long as a file is pending, and none has lost a message, a file can be moved on. */
  lemma Progress(s: State)
    requires Inv(s) && NothingLost(s) && s.pending > 0
    ensures NextAction(s).Some?
  {
    var f := CountedExists(s.files);
    assert FileInv(ViewOf(s, f));
  }

  lemma NothingLostKept(s: State, a: Action)
    requires Inv(s) && NothingLost(s) && Enabled(s, a) && Internal(a) && Harmless(s, a)
    ensures NothingLost(Step(s, a))
  {
    FilesKept(s, a);
    hide Step;
    hide InBounds;
    hide PollInv;
    forall f | 0 <= f < |Step(s, a).files| && Step(s, a).files[f].stage.Counted?
      ensures Lost(Step(s, a).files[f]) == 0
    {
      StepOnFile(s, a, f);
      if s.files[f].stage.Waiting? { FoundIsUntouched(s, f); }
    }
  }

  // ----- what steps do to a file -----

  /** The file is the same one, later: what was freed stays freed, what was deleted or failed stays so. */
  predicate Later(file: File, after: File) {
    && after.save == file.save && after.parse == file.parse
    && (file.data.Freed? ==> after.data.Freed?)
    && (file.saveFailed ==> after.saveFailed) && (file.deleted ==> after.deleted)
    && (file.downloadFailed ==> after.downloadFailed)
    && (file.stage.Final? ==> after.stage.Final?)
    && (after.remove ==> file.remove) && (file.remove && !after.remove ==> after.saveFailed)
  }

  /** A file loses a message only when its download fails, and goes on to be counted only when it is found. */
  lemma StepOnFile(s: State, a: Action, f: nat)
    requires Inv(s) && Enabled(s, a) && f < |s.files| && (a.Poll? ==> !a.p.Accept? && !a.p.Free?)
    ensures Later(s.files[f], Step(s, a).files[f])
    ensures Lost(Step(s, a).files[f]) != Lost(s.files[f]) ==>
              a == Download(Fetch(false)) && s.download.file == f && Wants(s.files[f]) == 2
    ensures Step(s, a).files[f].stage.Counted? && !(a == Poll(Find)) ==> s.files[f].stage.Counted?
    ensures s.files[f].stage.Counted? && s.files[f].refCount > 0 ==> Step(s, a).files[f].stage.Counted?
  {
    hide InBounds;
    hide FileInv;
    hide ViewOf;
    hide Later;
    hide Lost;
    hide PollStep;
    hide DownloadStep;
    hide ParseStep;
    hide SaveStep;
    hide ReapStep;
    assert FileInv(ViewOf(s, f));
    match a
    case Poll(p) => PollOnFile(s, p, f);
    case Download(d) => DownloadOnFile(s, d, f);
    case Parse(w) => ParseOnFile(s, w, f);
    case Save(w) => SaveOnFile(s, w, f);
    case Reap(r) => ReapOnFile(s, r, f);
  }

  lemma FetchOnFile(s: State, ok: bool, f: nat)
    requires DownloadCan(s, Fetch(ok)) && f < |s.files|
    requires s.download.file == f ==> s.files[f].data.Absent?
    ensures var after := DownloadStep(s, Fetch(ok)).files[f];
            && Later(s.files[f], after)
            && (Lost(after) != Lost(s.files[f]) ==> !ok && s.download.file == f && Wants(s.files[f]) == 2)
  {
  }

  lemma ParseOnFile(s: State, w: WorkerAction, f: nat)
    requires ParseCan(s, w) && f < |s.files|
    ensures Later(s.files[f], ParseStep(s, w).files[f])
    ensures Lost(ParseStep(s, w).files[f]) == Lost(s.files[f])
  {
  }

  lemma SaveOnFile(s: State, w: WorkerAction, f: nat)
    requires SaveCan(s, w) && f < |s.files|
    ensures Later(s.files[f], SaveStep(s, w).files[f])
    ensures Lost(SaveStep(s, w).files[f]) == Lost(s.files[f])
  {
    SaveChanges(s, w);
    hide SaveStep;
  }

  lemma SaveChanges(s: State, w: WorkerAction)
    requires SaveCan(s, w)
    ensures SaveStep(s, w).files ==
            if !w.Work? then s.files
            else
              var file := s.files[s.save.file];
              s.files[s.save.file := if w.ok then file.(saved := true) else file.(saveFailed := true, remove := false)]
  {
  }

  lemma FetchingIsEarly(s: State, f: nat)
    requires f < |s.files| && FileInv(ViewOf(s, f)) && s.download == Fetching(f)
    ensures s.files[f].data.Absent?
  {
    hide Outstanding;
  }

  /** Nothing of what `Later` keeps has happened yet to a file that is found. */
  lemma FoundIsUntouched(s: State, f: nat)
    requires f < |s.files| && FileInv(ViewOf(s, f)) && s.files[f].stage.Waiting?
    ensures !s.files[f].deleted && !s.files[f].downloadFailed
  {
    hide Outstanding;
  }

  lemma UncountedHasNone(s: State, f: nat)
    requires f < |s.files| && FileInv(ViewOf(s, f)) && s.reap == Uncounting(f)
    ensures s.files[f].refCount == 0
  {
    hide Outstanding;
  }

  lemma PollOnFile(s: State, p: PollAction, f: nat)
    requires PollInv(s) && PollCan(s, p) && f < |s.files| && !p.Accept? && !p.Free? && FileInv(ViewOf(s, f))
    ensures Later(s.files[f], PollStep(s, p).files[f])
    ensures Lost(PollStep(s, p).files[f]) == Lost(s.files[f])
    ensures !p.Find? ==> PollStep(s, p).files[f] == s.files[f]
    ensures s.files[f].stage.Counted? ==> PollStep(s, p).files[f].stage.Counted?
  {
    hide FileInv;
    hide ViewOf;
    if s.files[f].stage.Waiting? { FoundIsUntouched(s, f); }
  }

  lemma DownloadOnFile(s: State, d: DownloadAction, f: nat)
    requires DownloadCan(s, d) && f < |s.files| && FileInv(ViewOf(s, f))
    ensures Later(s.files[f], DownloadStep(s, d).files[f])
    ensures Lost(DownloadStep(s, d).files[f]) != Lost(s.files[f]) ==>
              d == Fetch(false) && s.download.file == f && Wants(s.files[f]) == 2
  {
    hide FileInv;
    hide ViewOf;
    if d.Fetch? {
      if s.download.file == f { FetchingIsEarly(s, f); }
      FetchOnFile(s, d.ok, f);
    }
  }

  lemma ReapOnFile(s: State, r: ReapAction, f: nat)
    requires ReapCan(s, r) && f < |s.files| && FileInv(ViewOf(s, f))
    ensures Later(s.files[f], ReapStep(s, r).files[f])
    ensures Lost(ReapStep(s, r).files[f]) == Lost(s.files[f])
    ensures ReapStep(s, r).files[f].stage.Counted? ==> s.files[f].stage.Counted?
    ensures s.files[f].stage.Counted? && s.files[f].refCount > 0 ==> ReapStep(s, r).files[f].stage.Counted?
  {
    hide FileInv;
    hide ViewOf;
    if s.reap == Uncounting(f) { UncountedHasNone(s, f); }
  }

  // ----- schedules -----

  /** How many steps of a run change anything. */
  ghost function Changes(s: State, steps: seq<Action>): nat
    decreases |steps|
  {
    if steps == [] || !Enabled(s, steps[0]) then 0
    else
      var next := Step(s, steps[0]);
      Flag(next != s) + Changes(next, steps[1..])
  }

  ghost predicate HarmlessRun(s: State, steps: seq<Action>)
    decreases |steps|
  {
    steps != [] ==>
      Enabled(s, steps[0]) && Harmless(s, steps[0]) && HarmlessRun(Step(s, steps[0]), steps[1..])
  }

  /** In every run within an acquisition, all tasks taken together, no more steps change anything than there was work
      at the start. */
  lemma {:induction false} WorkBoundsRuns(s: State, steps: seq<Action>, t: State)
    requires Inv(s) && Run(s, steps, t) && SingleAcquisition(steps)
    ensures Inv(t) && |t.files| == |s.files| && (t.poll.PollIdle? ==> s.poll.PollIdle?)
    ensures Changes(s, steps) + WorkLeft(t) <= WorkLeft(s)
    ensures NothingLost(s) && HarmlessRun(s, steps) ==> NothingLost(t)
    decreases |steps|
  {
    hide WorkLeft;
    hide NothingLost;
    hide InBounds;
    hide FileInv;
    if steps != [] {
      var a := steps[0];
      assert a in steps;
      assert forall b :: b in steps[1..] ==> b in steps;
      StepKeeps(s, a);
      FilesKept(s, a);
      WorkDrops(s, a);
      NotIdle(s, a);
      if NothingLost(s) && Harmless(s, a) { NothingLostKept(s, a); }
      hide Step;
      hide Enabled;
      WorkBoundsRuns(Step(s, a), steps[1..], t);
    }
  }

  lemma NotIdle(s: State, a: Action)
    requires Enabled(s, a) && Internal(a)
    ensures Step(s, a).poll.PollIdle? ==> s.poll.PollIdle?
  {
  }

  /** A step within an acquisition that changes something: a file is moved on, or the poll task goes on. */
  function NextStep(s: State): Option<Action> {
    if NextAction(s).Some? then NextAction(s)
    else
      match s.poll
      case Looking(i, retries) =>
        Some(if i < |s.files| && retries <= MAX_RETRIES then Poll(Find) else Poll(GiveUp))
      case Draining => Some(Poll(ReadPending))
      case _ => None
  }

  /** Until the file array is freed there always is such a step, as long as no message has been lost. */
  lemma NextStepIsPossible(s: State)
    requires Inv(s) && NothingLost(s) && !s.poll.Freeing? && !s.poll.PollIdle?
    ensures NextStep(s).Some?
    ensures var a := NextStep(s).value; Enabled(s, a) && Internal(a) && Harmless(s, a) && Step(s, a) != s
  {
    hide FileInv;
    if NextAction(s).Some? {
      NextIsEnabled(s);
      MeasureDrops(s, NextAction(s).value);
      hide Step;
      hide Enabled;
    } else {
      PendingNotNegative(s);
      if s.pending > 0 { Progress(s); }
    }
  }

  /** Nothing can happen any more but waiting, downloads of files that are both saved and parsed succeeding. */
  ghost predicate AtRest(s: State) {
    forall a :: Enabled(s, a) && Internal(a) && Harmless(s, a) ==> Step(s, a) == s
  }

  /** However the tasks are scheduled, an acquisition comes to rest: at most 20 steps for each file and 5 more change
      anything. If no download of a file that is both saved and parsed has failed by then, no file is pending and the
      file array is about to be freed; before that, no file is pending whenever none can be moved on. */
  lemma EverySchedule(acq: Acquisition, steps: seq<Action>, t: State)
    requires Run(Step(START, Poll(Accept(acq))), steps, t) && SingleAcquisition(steps)
    ensures var s0 := Step(START, Poll(Accept(acq)));
            && Changes(s0, steps) <= 20 * (acq.nDataFiles + 1) + 5
            && (HarmlessRun(s0, steps) && AtRest(t) ==> t.poll.Freeing? && t.pending == 0)
            && (HarmlessRun(s0, steps) && (forall a :: Enabled(t, a) && Moving(a) ==> !Harmless(t, a)) ==>
                  t.pending == 0)
  {
    var s0 := Step(START, Poll(Accept(acq)));
    Accepted(acq);
    WorkBoundsRuns(s0, steps, t);
    if HarmlessRun(s0, steps) {
      if AtRest(t) && !t.poll.Freeing? { NextStepIsPossible(t); }
      PendingNotNegative(t);
      if t.pending > 0 {
        Progress(t);
        NextIsEnabled(t);
      }
      if t.poll.Freeing? { NonePending(t); }
    }
    hide Enabled;
    hide Step;
    hide Inv;
    hide NothingLost;
  }

  lemma NonePending(s: State)
    requires Inv(s) && s.poll.Freeing?
    ensures s.pending == 0
  {
  }

  /** Where an acquisition starts. */
  lemma Accepted(acq: Acquisition)
    ensures var s0 := Step(START, Poll(Accept(acq)));
            && Inv(s0) && NothingLost(s0) && s0.poll == Looking(0, 0) && |s0.files| == acq.nDataFiles + 1
            && (forall f :: 0 <= f < |s0.files| ==> s0.files[f] == NewFile(acq, f == 0))
            && WorkLeft(s0) == 20 * (acq.nDataFiles + 1) + 5
  {
    StartHolds();
    StepKeeps(START, Poll(Accept(acq)));
    hide Inv;
  }

  lemma PendingNotNegative(s: State)
    requires Inv(s)
    ensures s.pending >= 0
  {
  }

  /** If no message has been lost, the acquisition can be brought to its end. */
  lemma {:induction false} FreeingReached(s: State) returns (steps: seq<Action>, t: State)
    requires Inv(s) && NothingLost(s) && !s.poll.PollIdle?
    ensures Run(s, steps, t) && SingleAcquisition(steps) && HarmlessRun(s, steps)
    ensures t.poll.Freeing? && t.pending == 0
    decreases WorkLeft(s)
  {
    hide InBounds;
    hide FileInv;
    hide NothingLost;
    hide WorkLeft;
    if s.poll.Freeing? {
      return [], s;
    }
    NextStepIsPossible(s);
    var a := NextStep(s).value;
    StepKeeps(s, a);
    WorkDrops(s, a);
    NothingLostKept(s, a);
    NotIdle(s, a);
    hide Step;
    hide NextStep;
    hide Enabled;
    var rest;
    rest, t := FreeingReached(Step(s, a));
    steps := [a] + rest;
    assert steps[1..] == rest;
  }

  // ----- a lost message is lost for good -----

  /** A pending file that was due two messages and will send one. */
  predicate Stuck(s: State, f: nat) {
    f < |s.files| && s.files[f].stage.Counted? && Lost(s.files[f]) == 1
  }

  lemma StuckKept(s: State, a: Action, f: nat)
    requires Inv(s) && Enabled(s, a) && Stuck(s, f)
    ensures a != Poll(Free) && Stuck(Step(s, a), f)
  {
    StuckIsPending(s, f);
    StuckHasCount(s, f);
    if !(a.Poll? && (a.p.Accept? || a.p.Free?)) {
      hide Inv;
      hide Step;
      StepOnFile(s, a, f);
    }
  }

  lemma StuckHasCount(s: State, f: nat)
    requires Inv(s) && Stuck(s, f)
    ensures s.files[f].refCount > 0
  {
    assert FileInv(ViewOf(s, f));
  }

  /** Once a download has failed for a file that is both saved and parsed, the file stays pending in every run, and
      the poll task never gets to free the file array. */
  lemma {:induction false} StuckForever(s: State, steps: seq<Action>, t: State, f: nat)
    requires Inv(s) && Stuck(s, f) && Run(s, steps, t)
    ensures Stuck(t, f) && t.pending > 0 && !t.poll.Freeing?
    decreases |steps|
  {
    hide Inv;
    StuckIsPending(s, f);
    if steps != [] {
      StuckKept(s, steps[0], f);
      StepKeeps(s, steps[0]);
      StuckForever(Step(s, steps[0]), steps[1..], t, f);
    }
  }

  lemma StuckIsPending(s: State, f: nat)
    requires Inv(s) && Stuck(s, f)
    ensures s.pending > 0 && !s.poll.Freeing?
  {
    SomeCounted(s.files, f);
  }

  lemma Drained(s: State) returns (steps: seq<Action>, t: State)
    requires Inv(s) && NothingLost(s)
    ensures Run(s, steps, t) && t.pending == 0
  {
    if s.poll.PollIdle? {
      assert CountedFiles(s.files) == 0;
      return [], s;
    }
    steps, t := FreeingReached(s);
  }

  ghost predicate CanDrain(s: State) {
    exists steps, t :: Run(s, steps, t) && t.pending == 0
  }

  /** From any state where everything holds, some run finalises all pending files exactly if no message is lost. */
  lemma DrainsIff(s: State)
    requires Inv(s)
    ensures CanDrain(s) <==> NothingLost(s)
  {
    if NothingLost(s) {
      var steps, t := Drained(s);
    } else {
      var f :| 0 <= f < |s.files| && s.files[f].stage.Counted? && Lost(s.files[f]) != 0;
      forall steps, t | Run(s, steps, t) ensures t.pending > 0 {
        StuckForever(s, steps, t, f);
      }
    }
  }

  /** Whether the acquisition can still be brought to its end. */
  ghost predicate CanFinish(s: State) {
    exists steps, t :: Run(s, steps, t) && SingleAcquisition(steps) && t.poll.Freeing?
  }

  /** Within an acquisition the end can be reached exactly if no message has been lost. */
  lemma FinishesIff(s: State)
    requires Inv(s) && !s.poll.PollIdle?
    ensures CanFinish(s) <==> NothingLost(s)
  {
    if NothingLost(s) {
      var steps, t := FreeingReached(s);
    } else {
      var f :| 0 <= f < |s.files| && s.files[f].stage.Counted? && Lost(s.files[f]) != 0;
      forall steps, t | Run(s, steps, t) ensures !t.poll.Freeing? {
        StuckForever(s, steps, t, f);
      }
    }
  }

  /** Whether the end can be reached from wherever the acquisition has got to. */
  ghost predicate AlwaysFinishes(acq: Acquisition) {
    forall steps, t :: Run(Step(START, Poll(Accept(acq))), steps, t) && SingleAcquisition(steps) ==> CanFinish(t)
  }

  /** An acquisition can get stuck exactly if it has files that are both saved and parsed. */
  lemma AlwaysFinishesIff(acq: Acquisition)
    ensures AlwaysFinishes(acq) <==> !(acq.saveFiles && acq.parseFiles && acq.nDataFiles > 0)
  {
    var s0 := Step(START, Poll(Accept(acq)));
    Accepted(acq);
    if acq.saveFiles && acq.parseFiles && acq.nDataFiles > 0 {
      var first, s1 := SubmitTwo(acq);
      var second, t := FailSecond(acq, s1);
      RunConcat(s0, first, s1, second, t);
      assert SingleAcquisition(first + second);
      WorkBoundsRuns(s0, first + second, t);
      assert !NothingLost(t);
      FinishesIff(t);
    } else {
      forall steps, t | Run(s0, steps, t) && SingleAcquisition(steps) ensures CanFinish(t) {
        WorkBoundsRuns(s0, steps, t);
        PlanInRuns(s0, steps, t);
        assert NothingLost(t);
        FinishesIff(t);
      }
    }
  }

  lemma {:induction false} PlanInRuns(s: State, steps: seq<Action>, t: State)
    requires Run(s, steps, t) && SingleAcquisition(steps)
    ensures SamePlan(s.files, t.files)
    decreases |steps|
  {
    if steps != [] {
      var a := steps[0];
      assert a in steps;
      assert forall b :: b in steps[1..] ==> b in steps;
      PlanKept(s, a);
      hide Step;
      hide Enabled;
      PlanInRuns(Step(s, a), steps[1..], t);
    }
  }

  /** The master file and the first data file have been found. */
  predicate Submitted(s: State) {
    && |s.files| > 1 && s.files[0].save && !s.files[0].parse && s.files[1].save && s.files[1].parse
    && s.files[1].stage.Counted?
    && s.poll == Looking(2, 0) && s.download.DownloadIdle?
    && s.parse.Idle? && s.save.Idle? && s.reap.ReapIdle?
    && s.downloadQueue == [0, 1] && s.parseQueue == [] && s.saveQueue == [] && s.reapQueue == []
  }

  lemma SubmitTwo(acq: Acquisition) returns (steps: seq<Action>, s: State)
    requires acq.saveFiles && acq.parseFiles && acq.nDataFiles > 0
    ensures Run(Step(START, Poll(Accept(acq))), steps, s) && SingleAcquisition(steps) && Submitted(s)
  {
    var s0 := Step(START, Poll(Accept(acq)));
    assert s0.files[0] == NewFile(acq, true) && s0.files[1] == NewFile(acq, false);
    steps, s := [], s0;
    RunOn(s0, steps, s, Poll(Find));
    steps, s := steps + [Poll(Find)], Step(s, Poll(Find));
    RunOn(s0, steps, s, Poll(Submit));
    steps, s := steps + [Poll(Submit)], Step(s, Poll(Submit));
    RunOn(s0, steps, s, Poll(Find));
    steps, s := steps + [Poll(Find)], Step(s, Poll(Find));
    RunOn(s0, steps, s, Poll(Submit));
    steps, s := steps + [Poll(Submit)], Step(s, Poll(Submit));
  }

  /** The master file has been downloaded; the download of the data file fails. */
  lemma FailSecond(acq: Acquisition, s0: State) returns (steps: seq<Action>, s: State)
    requires Submitted(s0)
    ensures Run(s0, steps, s) && SingleAcquisition(steps) && Stuck(s, 1)
  {
    steps, s := [], s0;
    RunOn(s0, steps, s, Download(Take));
    steps, s := steps + [Download(Take)], Step(s, Download(Take));
    RunOn(s0, steps, s, Download(Fetch(true)));
    steps, s := steps + [Download(Fetch(true))], Step(s, Download(Fetch(true)));
    RunOn(s0, steps, s, Download(DispatchParse));
    steps, s := steps + [Download(DispatchParse)], Step(s, Download(DispatchParse));
    RunOn(s0, steps, s, Download(DispatchSave));
    steps, s := steps + [Download(DispatchSave)], Step(s, Download(DispatchSave));
    RunOn(s0, steps, s, Download(Take));
    steps, s := steps + [Download(Take)], Step(s, Download(Take));
    RunOn(s0, steps, s, Download(Fetch(false)));
    steps, s := steps + [Download(Fetch(false))], Step(s, Download(Fetch(false)));
  }
}
