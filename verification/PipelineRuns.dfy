/** Whole runs of the pipeline: when the file array may be freed, what happens to the files, and why work ends. */
module PipelineRuns {
  import opened Wrappers
  import opened Pipeline
  import opened PipelineSafety

  /** `t` is reached from `s` by these steps. */
  ghost predicate Run(s: State, steps: seq<Action>, t: State)
    decreases |steps|
  {
    if steps == [] then s == t
    else Enabled(s, steps[0]) && Run(Step(s, steps[0]), steps[1..], t)
  }

  lemma {:induction false} RunConcat(s: State, steps: seq<Action>, t: State, more: seq<Action>, u: State)
    requires Run(s, steps, t) && Run(t, more, u)
    ensures Run(s, steps + more, u)
    decreases |steps|
  {
    hide Step;
    hide Enabled;
    if steps == [] {
      assert steps + more == more;
    } else {
      RunConcat(Step(s, steps[0]), steps[1..], t, more, u);
      assert (steps + more)[1..] == steps[1..] + more;
    }
  }

  // ----- freeing the file array -----

  /** Every file that is parsed is also saved. */
  predicate Tame(files: seq<File>) {
    forall f :: 0 <= f < |files| ==> files[f].save || !files[f].parse
  }

  /** The acquisitions whose data files are, if parsed, also saved. */
  predicate Disciplined(acq: Acquisition) {
    acq.saveFiles || !acq.parseFiles || acq.nDataFiles == 0
  }

  lemma PlanKept(s: State, a: Action)
    requires Enabled(s, a) && (a.Poll? ==> !a.p.Accept? && !a.p.Free?)
    ensures SamePlan(s.files, Step(s, a).files)
  {
    hide PollStep;
    hide DownloadStep;
    hide SaveStep;
    hide ReapStep;
    match a
    case Poll(p) => PollPlan(s, p);
    case Download(d) => DownloadPlan(s, d);
    case Parse(_) =>
    case Save(w) => SavePlan(s, w);
    case Reap(r) => ReapPlan(s, r);
  }

  lemma PollPlan(s: State, p: PollAction)
    requires PollCan(s, p) && !p.Accept? && !p.Free?
    ensures SamePlan(s.files, PollStep(s, p).files)
  {
  }

  lemma DownloadPlan(s: State, d: DownloadAction)
    requires DownloadCan(s, d)
    ensures SamePlan(s.files, DownloadStep(s, d).files)
  {
  }

  lemma SavePlan(s: State, w: WorkerAction)
    requires SaveCan(s, w)
    ensures SamePlan(s.files, SaveStep(s, w).files)
  {
  }

  lemma ReapPlan(s: State, r: ReapAction)
    requires ReapCan(s, r)
    ensures SamePlan(s.files, ReapStep(s, r).files)
  {
  }

  predicate SamePlan(files: seq<File>, after: seq<File>) {
    && |after| == |files|
    && forall f :: 0 <= f < |files| ==> after[f].save == files[f].save && after[f].parse == files[f].parse
  }

  lemma NoFileCounted(s: State, f: nat)
    requires Inv(s) && s.pending == 0 && f < |s.files|
    ensures Outstanding(ViewOf(s, f)) == 0 && !Early(ViewOf(s, f)) && !ViewOf(s, f).reap.Finalising?
            && !ViewOf(s, f).reap.Uncounting?
  {
    if s.files[f].stage.Counted? { SomeCounted(s.files, f); }
    assert FileInv(ViewOf(s, f));
  }

  /** With no file pending, the only task that may still hold a file is the download task, about to look at whether
      a file that it has handed to the parser is to be saved, which it is not. */
  lemma NonePendingHolds(s: State)
    requires Inv(s) && s.pending == 0 && !s.poll.Submitting?
    ensures Quiet(s.(download := DownloadIdle))
    ensures s.download.DownloadIdle? ||
            (s.download.CheckingSave? && s.files[s.download.file].parse && !s.files[s.download.file].save)
  {
    hide Inv;
    QueueEmpty(s, s.downloadQueue);
    QueueEmpty(s, s.parseQueue);
    QueueEmpty(s, s.saveQueue);
    QueueEmpty(s, s.reapQueue);
    TasksIdle(s);
  }

  lemma QueueEmpty(s: State, q: seq<nat>)
    requires Inv(s) && s.pending == 0
    requires q == s.downloadQueue || q == s.parseQueue || q == s.saveQueue || q == s.reapQueue
    ensures q == []
  {
    if q != [] {
      assert q[0] < |s.files|;
      assert multiset(q)[q[0]] > 0;
      NoFileCounted(s, q[0]);
    }
  }

  lemma TasksIdle(s: State)
    requires Inv(s) && s.pending == 0
    ensures s.parse.Idle? && s.save.Idle? && s.reap.ReapIdle?
    ensures s.download.DownloadIdle? ||
            (s.download.CheckingSave? && s.files[s.download.file].parse && !s.files[s.download.file].save)
  {
    if !s.parse.Idle? { NoFileCounted(s, s.parse.file); }
    if !s.save.Idle? { NoFileCounted(s, s.save.file); }
    if !s.reap.ReapIdle? { NoFileCounted(s, s.reap.file); }
    if !s.download.DownloadIdle? {
      NoFileCounted(s, s.download.file);
      assert FileInv(ViewOf(s, s.download.file));
    }
  }

  /** In every run of disciplined acquisitions everything holds, and when the file array is freed no task and no
      queue holds a file. */
  lemma {:induction false} DisciplinedRuns(s: State, steps: seq<Action>, t: State)
    requires Inv(s) && Tame(s.files) && Run(s, steps, t)
    requires forall a :: a in steps && a.Poll? && a.p.Accept? ==> Disciplined(a.p.acq)
    ensures Inv(t) && Tame(t.files)
    ensures t.poll.Freeing? ==> Quiet(t)
    decreases |steps|
  {
    hide Inv;
    if s.poll.Freeing? { TameFreeing(s); }
    if steps != [] {
      var a := steps[0];
      StepKeeps(s, a);
      TameKept(s, a);
      DisciplinedRuns(Step(s, a), steps[1..], t);
    }
  }

  lemma TameFreeing(s: State)
    requires Inv(s) && Tame(s.files) && s.poll.Freeing?
    ensures Quiet(s)
  {
    NonePendingHolds(s);
  }

  lemma TameKept(s: State, a: Action)
    requires Tame(s.files) && Enabled(s, a)
    requires a.Poll? && a.p.Accept? ==> Disciplined(a.p.acq)
    ensures Tame(Step(s, a).files)
  {
    if !(a.Poll? && (a.p.Accept? || a.p.Free?)) {
      hide Enabled;
      hide Step;
      PlanKept(s, a);
    }
  }

  lemma StartHolds()
    ensures Inv(START) && Tame(START.files)
  {
  }

  // ----- the run in which the array is freed too early -----

  lemma RunOne(s: State, a: Action)
    requires Enabled(s, a)
    ensures Run(s, [a], Step(s, a))
  {
    assert Run(Step(s, a), [], Step(s, a));
  }

  /** One more step at the end of a run. */
  lemma RunOn(s: State, steps: seq<Action>, t: State, a: Action)
    requires Run(s, steps, t) && Enabled(t, a)
    ensures Run(s, steps + [a], Step(t, a))
  {
    RunOne(t, a);
    RunConcat(s, steps, t, [a], Step(t, a));
  }

  /** The first data file has been found, downloaded and handed to the parser. */
  predicate Handed(acq: Acquisition, s: State) {
    && |s.files| == acq.nDataFiles + 1 > 1 && s.pending == 1
    && s.files[1].refCount == 1
    && s.poll == Looking(2, 0) && s.download == CheckingSave(1)
    && s.parse.Idle? && s.save.Idle? && s.reap.ReapIdle?
    && s.downloadQueue == [] && s.parseQueue == [1] && s.saveQueue == [] && s.reapQueue == []
  }

  lemma HandOver(acq: Acquisition) returns (steps: seq<Action>, s: State)
    requires !Disciplined(acq)
    ensures Run(Step(START, Poll(Accept(acq))), steps, s) && Handed(acq, s)
    ensures forall a :: a in steps ==> !(a.Poll? && (a.p.Accept? || a.p.Free?))
  {
    var s0 := Step(START, Poll(Accept(acq)));
    assert s0.files[0] == NewFile(acq, true) && s0.files[1] == NewFile(acq, false);
    steps, s := [], s0;
    RunOn(s0, steps, s, Poll(Find));
    steps, s := steps + [Poll(Find)], Step(s, Poll(Find));
    RunOn(s0, steps, s, Poll(Find));
    steps, s := steps + [Poll(Find)], Step(s, Poll(Find));
    RunOn(s0, steps, s, Poll(Submit));
    steps, s := steps + [Poll(Submit)], Step(s, Poll(Submit));
    RunOn(s0, steps, s, Download(Take));
    steps, s := steps + [Download(Take)], Step(s, Download(Take));
    RunOn(s0, steps, s, Download(Fetch(true)));
    steps, s := steps + [Download(Fetch(true))], Step(s, Download(Fetch(true)));
    RunOn(s0, steps, s, Download(DispatchParse));
    steps, s := steps + [Download(DispatchParse)], Step(s, Download(DispatchParse));
  }

  /** The file has been parsed and reaped, while the download task has not moved. */
  predicate ReapedEarly(acq: Acquisition, s: State) {
    && |s.files| == acq.nDataFiles + 1 > 1 && s.pending == 0
    && s.poll == Looking(2, 0) && s.download == CheckingSave(1)
  }

  lemma ParseAndReap(acq: Acquisition, s0: State) returns (steps: seq<Action>, s: State)
    requires Handed(acq, s0)
    ensures Run(s0, steps, s) && ReapedEarly(acq, s)
    ensures forall a :: a in steps ==> !a.Poll?
  {
    steps, s := [], s0;
    RunOn(s0, steps, s, Parse(Receive));
    steps, s := steps + [Parse(Receive)], Step(s, Parse(Receive));
    RunOn(s0, steps, s, Parse(Work(true)));
    steps, s := steps + [Parse(Work(true))], Step(s, Parse(Work(true)));
    RunOn(s0, steps, s, Parse(Send));
    steps, s := steps + [Parse(Send)], Step(s, Parse(Send));
    RunOn(s0, steps, s, Reap(Collect));
    steps, s := steps + [Reap(Collect)], Step(s, Reap(Collect));
    RunOn(s0, steps, s, Reap(Count));
    steps, s := steps + [Reap(Count)], Step(s, Reap(Count));
    RunOn(s0, steps, s, Reap(Finalise));
    steps, s := steps + [Reap(Finalise)], Step(s, Reap(Finalise));
    RunOn(s0, steps, s, Reap(Uncount));
    steps, s := steps + [Reap(Uncount)], Step(s, Reap(Uncount));
  }

  /** The poll task is told to stop; it gives up on any further files and sees that none is pending. */
  lemma StopPolling(acq: Acquisition, s0: State) returns (steps: seq<Action>, s: State)
    requires ReapedEarly(acq, s0)
    ensures Run(s0, steps, s) && s.poll.Freeing? && s.download == CheckingSave(1)
    ensures forall a :: a in steps ==> !(a.Poll? && (a.p.Accept? || a.p.Free?))
  {
    steps, s := [], s0;
    if 2 < |s0.files| {
      RunOn(s0, steps, s, Poll(Miss(true)));
      steps, s := steps + [Poll(Miss(true))], Step(s, Poll(Miss(true)));
      RunOn(s0, steps, s, Poll(Miss(true)));
      steps, s := steps + [Poll(Miss(true))], Step(s, Poll(Miss(true)));
      RunOn(s0, steps, s, Poll(Miss(true)));
      steps, s := steps + [Poll(Miss(true))], Step(s, Poll(Miss(true)));
    }
    RunOn(s0, steps, s, Poll(GiveUp));
    steps, s := steps + [Poll(GiveUp)], Step(s, Poll(GiveUp));
    RunOn(s0, steps, s, Poll(ReadPending));
    steps, s := steps + [Poll(ReadPending)], Step(s, Poll(ReadPending));
  }

  /** Whether every run of this acquisition frees the file array only when no task and no queue holds a file. */
  ghost predicate FreedInTime(acq: Acquisition) {
    forall steps, t :: Run(Step(START, Poll(Accept(acq))), steps, t) && SingleAcquisition(steps) && t.poll.Freeing? ==>
      Quiet(t)
  }

  predicate SingleAcquisition(steps: seq<Action>) {
    forall a :: a in steps ==> !(a.Poll? && (a.p.Accept? || a.p.Free?))
  }

  /** The file array outlives all uses of it exactly for the disciplined acquisitions. Otherwise the download task
      can still be about to read the save flag of a file that has already been parsed and reaped. */
  lemma FreedInTimeIff(acq: Acquisition)
    ensures FreedInTime(acq) <==> Disciplined(acq)
  {
    var s0 := Step(START, Poll(Accept(acq)));
    StartHolds();
    if Disciplined(acq) {
      StepKeeps(START, Poll(Accept(acq)));
      TameKept(START, Poll(Accept(acq)));
      forall steps, t | Run(s0, steps, t) && SingleAcquisition(steps) && t.poll.Freeing? ensures Quiet(t) {
        DisciplinedRuns(s0, steps, t);
      }
    } else {
      var first, s1 := HandOver(acq);
      var second, s2 := ParseAndReap(acq, s1);
      var third, s3 := StopPolling(acq, s2);
      RunConcat(s0, first, s1, second, s2);
      RunConcat(s0, first + second, s2, third, s3);
      assert SingleAcquisition(first + second + third);
    }
  }
}
