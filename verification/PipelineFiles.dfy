/** What becomes of the files in the runs of the pipeline. */
module PipelineFiles {
  import opened Wrappers
  import opened Pipeline
  import opened PipelineSafety
  import opened PipelineRuns
  import opened PipelineProgress

  lemma {:induction false} LaterInRuns(s: State, steps: seq<Action>, t: State, f: nat)
    requires Inv(s) && Run(s, steps, t) && SingleAcquisition(steps) && f < |s.files|
    ensures f < |t.files| && Later(s.files[f], t.files[f])
    decreases |steps|
  {
    hide Inv;
    if steps != [] {
      var a := steps[0];
      assert a in steps;
      assert forall b :: b in steps[1..] ==> b in steps;
      StepKeeps(s, a);
      StepOnFile(s, a, f);
      FilesKept(s, a);
      hide Step;
      hide Enabled;
      LaterInRuns(Step(s, a), steps[1..], t, f);
    }
  }

  /** In every run of one acquisition: a stage at work on a file finds its data in memory, data is freed for good, and
      a file that could not be saved is never deleted from the detector. Once finalised, a file has been deleted
      exactly if that was asked for and saving it has not failed; and a file that was to be saved has been deleted
      without having been saved exactly if deleting was asked for and its download had failed. */
  lemma FilesInRuns(s: State, steps: seq<Action>, t: State, f: nat)
    requires Inv(s) && Run(s, steps, t) && SingleAcquisition(steps) && f < |s.files|
    ensures f < |t.files| && Later(s.files[f], t.files[f])
    ensures t.parse == Working(f) || t.save == Working(f) ==> t.files[f].data.Held?
    ensures t.files[f].saveFailed ==> !t.files[f].deleted
    ensures t.files[f].deleted && t.files[f].save ==> t.files[f].saved || t.files[f].downloadFailed
    ensures t.files[f].refCount == (if t.files[f].stage.Waiting? then Wants(t.files[f])
                                    else Outstanding(ViewOf(t, f))
                                         + (if t.files[f].stage.Counted? then Lost(t.files[f]) else 0))
    ensures t.files[f].stage.Final? ==> (t.files[f].deleted <==> s.files[f].remove && !t.files[f].saveFailed)
    ensures t.files[f].stage.Final? && t.files[f].save ==>
              (t.files[f].deleted && !t.files[f].saved <==> s.files[f].remove && t.files[f].downloadFailed)
    ensures t.files[f].stage.Final? && t.files[f].save ==>
              && (t.files[f].saved || t.files[f].saveFailed <==> !t.files[f].downloadFailed)
              && !(t.files[f].saved && t.files[f].saveFailed)
    ensures t.pending == CountedFiles(t.files)
  {
    LaterInRuns(s, steps, t, f);
    WorkBoundsRuns(s, steps, t);
    assert FileInv(ViewOf(t, f));
    if Outstanding(ViewOf(t, f)) == 0 && Wants(t.files[f]) > 0 { NothingOwed(ViewOf(t, f)); }
    hide Run;
    hide InBounds;
  }

  /** In every run of one acquisition: a file that has been finalised has been freed, unless there was nothing to free
      since its download failed or no stage wanted it; a file before that holds its data exactly from its download
      on. When the file array is freed, no file holds any data. */
  lemma DataInRuns(s: State, steps: seq<Action>, t: State, f: nat)
    requires Inv(s) && Run(s, steps, t) && SingleAcquisition(steps) && f < |s.files|
    ensures f < |t.files|
    ensures t.files[f].stage.Final? ==>
              if Wants(t.files[f]) > 0 && !t.files[f].downloadFailed then t.files[f].data.Freed?
              else t.files[f].data.Absent?
    ensures t.files[f].stage.Waiting? ==> t.files[f].data.Absent?
    ensures t.files[f].stage.Counted? && t.reap != Uncounting(f) ==>
              (t.files[f].data.Held? <==> !Early(ViewOf(t, f)) && !t.files[f].downloadFailed)
              && !t.files[f].data.Freed?
    ensures t.poll.Freeing? ==> !t.files[f].data.Held?
  {
    WorkBoundsRuns(s, steps, t);
    assert FileInv(ViewOf(t, f));
    if t.files[f].stage.Final? && Wants(t.files[f]) > 0 { FinalIsLate(ViewOf(t, f)); }
    if t.poll.Freeing? && t.files[f].stage.Counted? { SomeCounted(t.files, f); }
    hide Run;
    hide InBounds;
    hide Outstanding;
    hide Early;
  }

  lemma FinalIsLate(v: View)
    requires FileInv(v) && v.file.stage.Final? && Wants(v.file) > 0
    ensures !Early(v)
  {
    NothingOwed(v);
  }

  /** The file was to be saved, and is gone from the detector without having been saved. */
  predicate RemovedUnsaved(file: File) {
    file.stage.Final? && file.save && file.deleted && !file.saved
  }

  ghost predicate CanRemoveUnsaved(acq: Acquisition) {
    exists steps, t, f: nat ::
      Run(Step(START, Poll(Accept(acq))), steps, t) && SingleAcquisition(steps) && f < |t.files|
      && RemovedUnsaved(t.files[f])
  }

  /** That can happen in exactly the acquisitions that save and remove files: a failed download does not keep a file
      from being removed. */
  lemma CanRemoveUnsavedIff(acq: Acquisition)
    ensures CanRemoveUnsaved(acq) <==> acq.saveFiles && acq.removeFiles
  {
    var s0 := Step(START, Poll(Accept(acq)));
    Accepted(acq);
    if acq.saveFiles && acq.removeFiles {
      var first, s1 := FailFirst(acq);
      var second, t := ReapFailed(s1);
      RunConcat(s0, first, s1, second, t);
      assert SingleAcquisition(first + second);
      assert RemovedUnsaved(t.files[0]);
    } else if CanRemoveUnsaved(acq) {
      var steps, t, f: nat :|
        Run(s0, steps, t) && SingleAcquisition(steps) && f < |t.files| && RemovedUnsaved(t.files[f]);
      WorkBoundsRuns(s0, steps, t);
      FilesInRuns(s0, steps, t, f);
      assert false;
    }
  }

  /** The download of the master file has failed. */
  predicate Failed(s: State) {
    && |s.files| > 0 && s.files[0].save && s.files[0].remove && !s.files[0].saved && s.files[0].refCount == 1
    && s.reap.ReapIdle? && s.reapQueue == [0]
  }

  lemma FailFirst(acq: Acquisition) returns (steps: seq<Action>, s: State)
    requires acq.saveFiles && acq.removeFiles
    ensures Run(Step(START, Poll(Accept(acq))), steps, s) && SingleAcquisition(steps) && Failed(s)
  {
    var s0 := Step(START, Poll(Accept(acq)));
    assert s0.files[0] == NewFile(acq, true);
    steps, s := [], s0;
    RunOn(s0, steps, s, Poll(Find));
    steps, s := steps + [Poll(Find)], Step(s, Poll(Find));
    RunOn(s0, steps, s, Poll(Submit));
    steps, s := steps + [Poll(Submit)], Step(s, Poll(Submit));
    RunOn(s0, steps, s, Download(Take));
    steps, s := steps + [Download(Take)], Step(s, Download(Take));
    RunOn(s0, steps, s, Download(Fetch(false)));
    steps, s := steps + [Download(Fetch(false))], Step(s, Download(Fetch(false)));
    RunOn(s0, steps, s, Download(Report));
    steps, s := steps + [Download(Report)], Step(s, Download(Report));
  }

  lemma ReapFailed(s0: State) returns (steps: seq<Action>, s: State)
    requires Failed(s0)
    ensures Run(s0, steps, s) && SingleAcquisition(steps)
    ensures |s.files| > 0 && RemovedUnsaved(s.files[0])
  {
    steps, s := [], s0;
    RunOn(s0, steps, s, Reap(Collect));
    steps, s := steps + [Reap(Collect)], Step(s, Reap(Collect));
    RunOn(s0, steps, s, Reap(Count));
    steps, s := steps + [Reap(Count)], Step(s, Reap(Count));
    RunOn(s0, steps, s, Reap(Finalise));
    steps, s := steps + [Reap(Finalise)], Step(s, Reap(Finalise));
    RunOn(s0, steps, s, Reap(Uncount));
    steps, s := steps + [Reap(Uncount)], Step(s, Reap(Uncount));
  }
}
