/** What a run says about the acquisition it belongs to: when the poll task stops looking, in which order the files are
    handled, and what the records of a file mean. */
module PipelineHistory {
  import opened Wrappers
  import opened Pipeline
  import opened PipelineSafety
  import opened PipelineRuns
  import opened PipelineProgress

  // ----- the poll task looks for files until it is told to stop -----

  /** How often the poll task has looked in vain for a file while it was told to stop. */
  function Stops(steps: seq<Action>): nat {
    if steps == [] then 0 else Flag(steps[0] == Poll(Miss(true))) + Stops(steps[1..])
  }

  predicate AllFound(s: State) {
    forall f :: 0 <= f < |s.files| ==> !s.files[f].stage.Waiting?
  }

  /** The files before the one that is looked for have been found; looking has ended with the last file, or with the
      third time it was in vain. */
  predicate Polled(s: State, stops: nat) {
    match s.poll
    case PollIdle => false
    case Looking(i, retries) =>
      && retries == stops <= 3 && i <= |s.files| && (stops == 3 ==> i < |s.files|)
      && (forall f :: 0 <= f < i ==> !s.files[f].stage.Waiting?)
      && (forall f :: i <= f < |s.files| ==> s.files[f].stage.Waiting?)
    case Submitting(i, retries) =>
      && retries == stops <= 2 && i < |s.files|
      && (forall f :: 0 <= f <= i ==> !s.files[f].stage.Waiting?)
      && (forall f :: i < f < |s.files| ==> s.files[f].stage.Waiting?)
    case Draining => stops <= 3 && (AllFound(s) <==> stops < 3)
    case Freeing => stops <= 3 && (AllFound(s) <==> stops < 3)
  }

  lemma PolledKept(s: State, a: Action, stops: nat)
    requires Inv(s) && Polled(s, stops) && Enabled(s, a) && Internal(a)
    ensures Polled(Step(s, a), stops + Flag(a == Poll(Miss(true))))
  {
    FilesKept(s, a);
    if a.Poll? {
      hide FileInv;
      PollPolled(s, a.p, stops);
    } else {
      WaitingSame(s, a);
      hide Inv;
      hide Step;
      hide Enabled;
    }
  }

  lemma PollPolled(s: State, p: PollAction, stops: nat)
    requires Polled(s, stops) && PollCan(s, p) && !p.Accept? && !p.Free?
    ensures Polled(PollStep(s, p), stops + Flag(p == Miss(true)))
  {
    if p.GiveUp? && s.poll.i < |s.files| { assert s.files[s.poll.i].stage.Waiting?; }
  }

  /** Only the poll task ends the waiting of a file. */
  lemma WaitingSame(s: State, a: Action)
    requires Inv(s) && Enabled(s, a) && !a.Poll?
    ensures |Step(s, a).files| == |s.files|
    ensures forall f :: 0 <= f < |s.files| ==> (Step(s, a).files[f].stage.Waiting? <==> s.files[f].stage.Waiting?)
  {
    hide InBounds;
    hide FileInv;
    if a.Reap? && a.r.Uncount? { UncountingIsCounted(s, s.reap.file); }
  }

  lemma {:induction false} PolledInRuns(s: State, steps: seq<Action>, t: State, stops: nat)
    requires Inv(s) && Polled(s, stops) && Run(s, steps, t) && SingleAcquisition(steps)
    ensures Polled(t, stops + Stops(steps))
    decreases |steps|
  {
    hide Inv;
    hide Polled;
    if steps != [] {
      var a := steps[0];
      assert a in steps;
      assert forall b :: b in steps[1..] ==> b in steps;
      StepKeeps(s, a);
      PolledKept(s, a, stops);
      hide Step;
      hide Enabled;
      PolledInRuns(Step(s, a), steps[1..], t, stops + Flag(a == Poll(Miss(true))));
    }
  }

  /** In every run of an acquisition: once the poll task no longer looks for files, it has found all of them, or it has
      been told to stop in three looks in vain, and not both. It can go on looking as long as it has not. */
  lemma PollingEnds(acq: Acquisition, steps: seq<Action>, t: State)
    requires Run(Step(START, Poll(Accept(acq))), steps, t) && SingleAcquisition(steps)
    ensures Stops(steps) <= 3
    ensures t.poll.Draining? || t.poll.Freeing? ==> (AllFound(t) <==> Stops(steps) < 3)
    ensures t.poll.Looking? && !AllFound(t) && Stops(steps) < 3 ==>
              Enabled(t, Poll(Find)) && Enabled(t, Poll(Miss(false))) && !Enabled(t, Poll(GiveUp))
    ensures t.poll.Looking? && Stops(steps) == 3 ==>
              !AllFound(t) && Enabled(t, Poll(GiveUp)) && !Enabled(t, Poll(Find))
    ensures !t.poll.PollIdle?
  {
    var s0 := Step(START, Poll(Accept(acq)));
    Accepted(acq);
    assert Polled(s0, 0);
    PolledInRuns(s0, steps, t, 0);
    PolledMeans(t, Stops(steps));
    hide Inv;
    hide Run;
    hide Step;
    hide Polled;
  }

  lemma PolledMeans(t: State, stops: nat)
    requires Polled(t, stops)
    ensures stops <= 3 && !t.poll.PollIdle?
    ensures t.poll.Draining? || t.poll.Freeing? ==> (AllFound(t) <==> stops < 3)
    ensures t.poll.Looking? && !AllFound(t) && stops < 3 ==>
              Enabled(t, Poll(Find)) && Enabled(t, Poll(Miss(false))) && !Enabled(t, Poll(GiveUp))
    ensures t.poll.Looking? && stops == 3 ==> !AllFound(t) && Enabled(t, Poll(GiveUp)) && !Enabled(t, Poll(Find))
  {
    if t.poll.Looking? && t.poll.i < |t.files| { assert t.files[t.poll.i].stage.Waiting?; }
  }

  /** Looking in vain without being told to stop changes nothing at all. */
  lemma WaitingChangesNothing(s: State)
    requires Enabled(s, Poll(Miss(false)))
    ensures Step(s, Poll(Miss(false))) == s
  {
  }

  /** Some run of the acquisition that has been told to stop this often is past looking for files without having found
      all of them. */
  ghost predicate CanEndWithout(acq: Acquisition, stops: nat) {
    exists steps, t ::
      && Run(Step(START, Poll(Accept(acq))), steps, t) && SingleAcquisition(steps) && Stops(steps) == stops
      && t.poll.Freeing? && !AllFound(t)
  }

  /** The acquisition can end without all files exactly with the third stop. */
  lemma CanEndWithoutIff(acq: Acquisition, stops: nat)
    ensures CanEndWithout(acq, stops) <==> stops == 3
  {
    var s0 := Step(START, Poll(Accept(acq)));
    if stops == 3 {
      var steps, t := StopAtOnce(acq);
      PollingEnds(acq, steps, t);
    } else if CanEndWithout(acq, stops) {
      var steps, t :|
        && Run(s0, steps, t) && SingleAcquisition(steps) && Stops(steps) == stops && t.poll.Freeing? && !AllFound(t);
      PollingEnds(acq, steps, t);
    }
  }

  lemma {:induction false} StopsConcat(steps: seq<Action>, a: Action)
    ensures Stops(steps + [a]) == Stops(steps) + Flag(a == Poll(Miss(true)))
  {
    if steps == [] {
      assert steps + [a] == [a] && [a][1..] == [];
      assert Stops([]) == 0;
    } else {
      assert (steps + [a])[1..] == steps[1..] + [a];
      StopsConcat(steps[1..], a);
    }
  }

  /** Three looks in vain, and the poll task gives up with nothing found and nothing pending. */
  lemma StopAtOnce(acq: Acquisition) returns (steps: seq<Action>, s: State)
    ensures Run(Step(START, Poll(Accept(acq))), steps, s) && SingleAcquisition(steps) && Stops(steps) == 3
    ensures s.poll.Freeing?
  {
    var s0 := Step(START, Poll(Accept(acq)));
    steps, s := [], s0;
    RunOn(s0, steps, s, Poll(Miss(true)));
    StopsConcat(steps, Poll(Miss(true)));
    steps, s := steps + [Poll(Miss(true))], Step(s, Poll(Miss(true)));
    RunOn(s0, steps, s, Poll(Miss(true)));
    StopsConcat(steps, Poll(Miss(true)));
    steps, s := steps + [Poll(Miss(true))], Step(s, Poll(Miss(true)));
    RunOn(s0, steps, s, Poll(Miss(true)));
    StopsConcat(steps, Poll(Miss(true)));
    steps, s := steps + [Poll(Miss(true))], Step(s, Poll(Miss(true)));
    RunOn(s0, steps, s, Poll(GiveUp));
    StopsConcat(steps, Poll(GiveUp));
    steps, s := steps + [Poll(GiveUp)], Step(s, Poll(GiveUp));
    RunOn(s0, steps, s, Poll(ReadPending));
    StopsConcat(steps, Poll(ReadPending));
    steps, s := steps + [Poll(ReadPending)], Step(s, Poll(ReadPending));
  }

  /** When the file array is freed, a disciplined acquisition leaves the pipeline as it was before the first one. */
  lemma BackToStart(acq: Acquisition, steps: seq<Action>, t: State)
    requires Disciplined(acq) && Run(Step(START, Poll(Accept(acq))), steps, t) && SingleAcquisition(steps)
    requires t.poll.Freeing?
    ensures Enabled(t, Poll(Free)) && Step(t, Poll(Free)) == START
  {
    StartHolds();
    StepKeeps(START, Poll(Accept(acq)));
    TameKept(START, Poll(Accept(acq)));
    DisciplinedRuns(Step(START, Poll(Accept(acq))), steps, t);
    NonePending(t);
  }

  // ----- the stages handle files in order -----

  datatype Task = Downloading | Parsing | Saving

  /** The step with which a task receives a file. */
  function Receipt(task: Task): Action {
    match task
    case Downloading => Download(Take)
    case Parsing => Parse(Receive)
    case Saving => Save(Receive)
  }

  /** The file that it receives. */
  function Next(s: State, task: Task): nat
    requires Enabled(s, Receipt(task))
  {
    match task
    case Downloading => s.downloadQueue[0]
    case Parsing => s.parseQueue[0]
    case Saving => s.saveQueue[0]
  }

  /** The files that a task has received in a run. */
  ghost function Handled(s: State, steps: seq<Action>, task: Task): seq<nat>
    decreases |steps|
  {
    if steps == [] || !Enabled(s, steps[0]) then []
    else (if steps[0] == Receipt(task) then [Next(s, task)] else []) + Handled(Step(s, steps[0]), steps[1..], task)
  }

  predicate Ascending(q: seq<nat>) {
    forall i, j :: 0 <= i < j < |q| ==> q[i] < q[j]
  }

  /** The file at which the download task is, if it has yet to hand it on to this task. */
  function InHand(s: State, task: Task): seq<nat> {
    match s.download
    case Fetching(f) => if task.Downloading? then [] else [f]
    case Loaded(f) => if task.Downloading? then [] else [f]
    case CheckingSave(f) => if task.Saving? then [f] else []
    case _ => []
  }

  function Queue(s: State, task: Task): seq<nat> {
    match task case Downloading => [] case Parsing => s.parseQueue case Saving => s.saveQueue
  }

  function ToDownload(s: State): seq<nat> {
    s.downloadQueue + (if s.poll.Submitting? then [s.poll.i] else [])
  }

  /** The files that may still reach a task and have been counted. */
  function Ahead(s: State, task: Task): seq<nat> {
    Queue(s, task) + InHand(s, task) + ToDownload(s)
  }

  /** The first file that has not been looked at yet. */
  function Frontier(s: State): nat {
    match s.poll
    case Looking(i, _) => i
    case Submitting(i, _) => i + 1
    case _ => |s.files|
  }

  /** In order, after `last` and before `end`. */
  predicate Between(q: seq<nat>, last: int, end: int) {
    Ascending(q) && last < end && forall i :: 0 <= i < |q| ==> last < q[i] < end
  }

  lemma Without(a: seq<nat>, b: seq<nat>, c: seq<nat>, last: int, end: int)
    requires Between(a + b + c, last, end)
    ensures Between(a + c, last, end)
  {
    var q, r := a + b + c, a + c;
    forall i | 0 <= i < |r| ensures last < r[i] < end {
      assert r[i] == q[if i < |a| then i else i + |b|];
    }
    forall i, j | 0 <= i < j < |r| ensures r[i] < r[j] {
      assert r[i] == q[if i < |a| then i else i + |b|] && r[j] == q[if j < |a| then j else j + |b|];
    }
  }

  lemma Rest(q: seq<nat>, last: int, end: int)
    requires q != [] && Between(q, last, end)
    ensures last < q[0] && Between(q[1..], q[0], end)
  {
  }

  lemma More(q: seq<nat>, last: int, end: nat)
    requires Between(q, last, end)
    ensures Between(q + [end], last, end + 1)
  {
  }

  /** Everything ahead of the task comes in order, and after `last`. */
  predicate InOrder(s: State, task: Task, last: int) {
    Between(Ahead(s, task), last, Frontier(s))
  }

  /** Only the poll task lets files join those ahead, at the end; and a file leaves them from the front when it is
      received, or from between when it is not wanted or its download has failed. */
  lemma OrderKept(s: State, a: Action, task: Task, last: int)
    requires PollInv(s) && InOrder(s, task, last) && Enabled(s, a) && Internal(a)
    ensures a == Receipt(task) ==> last < Next(s, task) && InOrder(Step(s, a), task, Next(s, task))
    ensures a != Receipt(task) ==> InOrder(Step(s, a), task, last)
  {
    hide Between;
    match a
    case Poll(p) => PollOrder(s, p, task, last);
    case Download(Take) => TakeOrder(s, task, last);
    case Download(d) => DispatchOrder(s, d, task, last);
    case Parse(w) => WorkerOrder(s, a, task, last);
    case Save(w) => WorkerOrder(s, a, task, last);
    case Reap(r) =>
      assert Ahead(ReapStep(s, r), task) == Ahead(s, task) && Frontier(ReapStep(s, r)) == Frontier(s);
  }

  lemma PollOrder(s: State, p: PollAction, task: Task, last: int)
    requires PollInv(s) && InOrder(s, task, last) && PollCan(s, p) && !p.Accept? && !p.Free?
    ensures InOrder(PollStep(s, p), task, last)
  {
    hide Between;
    hide Ahead;
    if p.Find? {
      FindAhead(s, p, task);
      More(Ahead(s, task), last, s.poll.i);
      Wider(Ahead(s, task), last, s.poll.i, s.poll.i + 1);
    } else {
      OtherPollAhead(s, p, task);
      Wider(Ahead(s, task), last, Frontier(s), Frontier(PollStep(s, p)));
    }
    hide PollStep;
  }

  lemma FindAhead(s: State, p: PollAction, task: Task)
    requires PollCan(s, p) && p.Find?
    ensures var next := PollStep(s, p);
            && Frontier(next) == s.poll.i + 1
            && (Ahead(next, task) == Ahead(s, task) || Ahead(next, task) == Ahead(s, task) + [s.poll.i])
  {
    var next := PollStep(s, p);
    assert InHand(next, task) == InHand(s, task) && Queue(next, task) == Queue(s, task);
    hide InHand;
    hide Queue;
    assert s.downloadQueue + [] == s.downloadQueue;
  }

  lemma OtherPollAhead(s: State, p: PollAction, task: Task)
    requires PollInv(s) && PollCan(s, p) && !p.Accept? && !p.Free? && !p.Find?
    ensures var next := PollStep(s, p); Frontier(s) <= Frontier(next) && Ahead(next, task) == Ahead(s, task)
  {
    var next := PollStep(s, p);
    assert InHand(next, task) == InHand(s, task) && Queue(next, task) == Queue(s, task);
    hide InHand;
    hide Queue;
    assert s.downloadQueue + [] == s.downloadQueue;
    if p.Submit? { assert next.downloadQueue + [] == next.downloadQueue; }
  }

  lemma Wider(q: seq<nat>, last: int, end: int, newEnd: int)
    requires Between(q, last, end) && end <= newEnd
    ensures Between(q, last, newEnd)
  {
  }

  lemma TakeOrder(s: State, task: Task, last: int)
    requires InOrder(s, task, last) && DownloadCan(s, Take)
    ensures task.Downloading? ==>
              last < s.downloadQueue[0] && InOrder(DownloadStep(s, Take), task, s.downloadQueue[0])
    ensures !task.Downloading? ==> InOrder(DownloadStep(s, Take), task, last)
  {
    var next := DownloadStep(s, Take);
    if task.Downloading? {
      Rest(Ahead(s, task), last, Frontier(s));
      assert Ahead(next, task) == Ahead(s, task)[1..];
    } else if task.Parsing? || task.Saving? {
      assert [s.downloadQueue[0]] + next.downloadQueue == s.downloadQueue;
      assert Ahead(next, task) == Ahead(s, task);
    }
  }

  lemma DispatchOrder(s: State, d: DownloadAction, task: Task, last: int)
    requires InOrder(s, task, last) && DownloadCan(s, d) && !d.Take?
    ensures InOrder(DownloadStep(s, d), task, last)
  {
    hide Between;
    hide DownloadStep;
    hide Ahead;
    if d.Fetch? {
      FetchAhead(s, d.ok, task);
    } else if d.Report? {
      ReportAhead(s, d, task);
    } else if d.DispatchParse? {
      DispatchParseAhead(s, d, task);
    } else {
      DispatchSaveAhead(s, d, task);
    }
    AheadIs(s, task);
    Without(Queue(s, task), InHand(s, task), ToDownload(s), last, Frontier(s));
  }

  lemma AheadIs(s: State, task: Task)
    ensures Ahead(s, task) == Queue(s, task) + InHand(s, task) + ToDownload(s)
  {
  }

  /** The file in the hand of the download task stays ahead, or leaves from between. */
  predicate Passes(s: State, next: State, task: Task) {
    && Frontier(next) == Frontier(s)
    && (Ahead(next, task) == Ahead(s, task) || Ahead(next, task) == Queue(s, task) + ToDownload(s))
  }

  lemma FetchAhead(s: State, ok: bool, task: Task)
    requires DownloadCan(s, Fetch(ok))
    ensures Passes(s, DownloadStep(s, Fetch(ok)), task)
  {
  }

  lemma ReportAhead(s: State, d: DownloadAction, task: Task)
    requires DownloadCan(s, d) && d.Report?
    ensures Passes(s, DownloadStep(s, d), task)
  {
  }

  lemma DispatchParseAhead(s: State, d: DownloadAction, task: Task)
    requires DownloadCan(s, d) && d.DispatchParse?
    ensures Passes(s, DownloadStep(s, d), task)
  {
  }

  lemma DispatchSaveAhead(s: State, d: DownloadAction, task: Task)
    requires DownloadCan(s, d) && d.DispatchSave?
    ensures Passes(s, DownloadStep(s, d), task)
  {
  }

  lemma WorkerOrder(s: State, a: Action, task: Task, last: int)
    requires (a.Parse? || a.Save?) && InOrder(s, task, last) && Enabled(s, a)
    ensures a == Receipt(task) ==> last < Next(s, task) && InOrder(Step(s, a), task, Next(s, task))
    ensures a != Receipt(task) ==> InOrder(Step(s, a), task, last)
  {
    hide Between;
    if a.Parse? {
      ParseAhead(s, a.w, task);
    } else {
      SaveAhead(s, a.w, task);
    }
    if a == Receipt(task) { Rest(Ahead(s, task), last, Frontier(s)); }
    hide Ahead;
  }

  /** Steps of the workers move neither what is to be downloaded nor what the download task has. */
  lemma SameHand(s: State, next: State, task: Task)
    requires next.download == s.download && next.downloadQueue == s.downloadQueue && next.poll == s.poll
    requires |next.files| == |s.files|
    ensures InHand(next, task) == InHand(s, task) && ToDownload(next) == ToDownload(s) && Frontier(next) == Frontier(s)
  {
  }

  /** The first of those ahead is the first of the queue. */
  lemma QueueShrinks(queue: seq<nat>, hand: seq<nat>, rest: seq<nat>)
    requires queue != []
    ensures var ahead := queue + hand + rest;
            ahead != [] && ahead[0] == queue[0] && queue[1..] + hand + rest == ahead[1..]
  {
  }

  lemma ParseAhead(s: State, w: WorkerAction, task: Task)
    requires ParseCan(s, w)
    ensures var next, ahead := ParseStep(s, w), Ahead(s, task);
            && Frontier(next) == Frontier(s)
            && if Parse(w) == Receipt(task) then
                 ahead != [] && ahead[0] == s.parseQueue[0] && Ahead(next, task) == ahead[1..]
               else
                 Ahead(next, task) == ahead
  {
    hide InHand;
    hide ToDownload;
    hide Frontier;
    SameHand(s, ParseStep(s, w), task);
    if Parse(w) == Receipt(task) { QueueShrinks(s.parseQueue, InHand(s, task), ToDownload(s)); }
  }

  lemma SaveAhead(s: State, w: WorkerAction, task: Task)
    requires SaveCan(s, w)
    ensures var next, ahead := SaveStep(s, w), Ahead(s, task);
            && Frontier(next) == Frontier(s)
            && if Save(w) == Receipt(task) then
                 ahead != [] && ahead[0] == s.saveQueue[0] && Ahead(next, task) == ahead[1..]
               else
                 Ahead(next, task) == ahead
  {
    hide InHand;
    hide ToDownload;
    hide Frontier;
    SameHand(s, SaveStep(s, w), task);
    if Save(w) == Receipt(task) { QueueShrinks(s.saveQueue, InHand(s, task), ToDownload(s)); }
  }

  lemma {:induction false} OrderInRuns(s: State, steps: seq<Action>, t: State, task: Task, last: int)
    requires Inv(s) && InOrder(s, task, last) && Run(s, steps, t) && SingleAcquisition(steps)
    ensures var q := Handled(s, steps, task); Ascending(q) && forall i :: 0 <= i < |q| ==> last < q[i]
    decreases |steps|
  {
    hide InOrder;
    hide InBounds;
    hide FileInv;
    hide Next;
    if steps != [] {
      var a := steps[0];
      assert a in steps;
      assert forall b :: b in steps[1..] ==> b in steps;
      StepKeeps(s, a);
      OrderKept(s, a, task, last);
      hide Step;
      hide Enabled;
      OrderInRuns(Step(s, a), steps[1..], t, task, if a == Receipt(task) then Next(s, task) else last);
    }
  }

  /** In every run of an acquisition the files are downloaded in the order of the file array, parsed in that order and
      saved in that order, each of them once at most. */
  lemma FilesInOrder(acq: Acquisition, steps: seq<Action>, t: State, task: Task)
    requires Run(Step(START, Poll(Accept(acq))), steps, t) && SingleAcquisition(steps)
    ensures Ascending(Handled(Step(START, Poll(Accept(acq))), steps, task))
  {
    var s0 := Step(START, Poll(Accept(acq)));
    Accepted(acq);
    assert Ahead(s0, task) == [];
    OrderInRuns(s0, steps, t, task, -1);
  }

  // ----- the queues are first in, first out -----

  datatype Line = ToDownloader | ToParser | ToSaver | ToReaper

  function Waiting(s: State, line: Line): seq<nat> {
    match line
    case ToDownloader => s.downloadQueue
    case ToParser => s.parseQueue
    case ToSaver => s.saveQueue
    case ToReaper => s.reapQueue
  }

  /** The file that a step sends to a queue, if it sends one. */
  function Put(s: State, a: Action, line: Line): seq<nat>
    requires Enabled(s, a)
  {
    match line
    case ToDownloader => if a == Poll(Submit) then [s.poll.i] else []
    case ToParser => if a == Download(DispatchParse) && s.files[s.download.file].parse then [s.download.file] else []
    case ToSaver => if a == Download(DispatchSave) && s.files[s.download.file].save then [s.download.file] else []
    case ToReaper =>
      if a == Download(Report) then [s.download.file]
      else if a == Parse(Send) then [s.parse.file]
      else if a == Save(Send) then [s.save.file]
      else []
  }

  /** The file that a step takes from a queue: the one its task is at from then on. */
  function Got(s: State, a: Action, line: Line): seq<nat>
    requires Enabled(s, a)
  {
    var next := Step(s, a);
    match line
    case ToDownloader => if a == Download(Take) && next.download.Fetching? then [next.download.file] else []
    case ToParser => if a == Parse(Receive) && next.parse.Working? then [next.parse.file] else []
    case ToSaver => if a == Save(Receive) && next.save.Working? then [next.save.file] else []
    case ToReaper => if a == Reap(Collect) && next.reap.Received? then [next.reap.file] else []
  }

  ghost function AllPut(s: State, steps: seq<Action>, line: Line): seq<nat>
    decreases |steps|
  {
    if steps == [] || !Enabled(s, steps[0]) then []
    else Put(s, steps[0], line) + AllPut(Step(s, steps[0]), steps[1..], line)
  }

  ghost function AllGot(s: State, steps: seq<Action>, line: Line): seq<nat>
    decreases |steps|
  {
    if steps == [] || !Enabled(s, steps[0]) then []
    else Got(s, steps[0], line) + AllGot(Step(s, steps[0]), steps[1..], line)
  }

  lemma LineStep(s: State, a: Action, line: Line)
    requires Enabled(s, a) && Internal(a)
    ensures Waiting(s, line) + Put(s, a, line) == Got(s, a, line) + Waiting(Step(s, a), line)
  {
    match a
    case Poll(p) => assert PollStep(s, p).downloadQueue == s.downloadQueue + Put(s, a, ToDownloader);
    case Download(d) => DownloadLine(s, d, line);
    case Parse(w) => ParseLine(s, w, line);
    case Save(w) => SaveLine(s, w, line);
    case Reap(r) => ReapLine(s, r, line);
  }

  lemma DownloadLine(s: State, d: DownloadAction, line: Line)
    requires DownloadCan(s, d)
    ensures var a := Download(d);
            Waiting(s, line) + Put(s, a, line) == Got(s, a, line) + Waiting(DownloadStep(s, d), line)
  {
    if d.Take? {
      TakeLine(s, d, line);
    } else {
      HandOnLine(s, d, line);
    }
  }

  lemma TakeLine(s: State, d: DownloadAction, line: Line)
    requires DownloadCan(s, d) && d.Take?
    ensures var a := Download(d);
            Waiting(s, line) + Put(s, a, line) == Got(s, a, line) + Waiting(DownloadStep(s, d), line)
  {
    var q := s.downloadQueue;
    assert q == [q[0]] + q[1..];
  }

  lemma HandOnLine(s: State, d: DownloadAction, line: Line)
    requires DownloadCan(s, d) && !d.Take?
    ensures var a := Download(d);
            && Got(s, a, line) == [] && Waiting(DownloadStep(s, d), line) == Waiting(s, line) + Put(s, a, line)
            && Waiting(s, line) + Put(s, a, line) == Got(s, a, line) + Waiting(DownloadStep(s, d), line)
  {
  }

  lemma ParseLine(s: State, w: WorkerAction, line: Line)
    requires ParseCan(s, w)
    ensures var a := Parse(w);
            Waiting(s, line) + Put(s, a, line) == Got(s, a, line) + Waiting(ParseStep(s, w), line)
  {
  }

  lemma SaveLine(s: State, w: WorkerAction, line: Line)
    requires SaveCan(s, w)
    ensures var a := Save(w);
            Waiting(s, line) + Put(s, a, line) == Got(s, a, line) + Waiting(SaveStep(s, w), line)
  {
  }

  lemma ReapLine(s: State, r: ReapAction, line: Line)
    requires ReapCan(s, r)
    ensures var a := Reap(r);
            Waiting(s, line) + Put(s, a, line) == Got(s, a, line) + Waiting(ReapStep(s, r), line)
  {
  }

  /** In every run, what has been taken from a queue and what is still in it is what was in it and what has been sent to
      it, in the same order. */
  lemma {:induction false} FirstInFirstOut(s: State, steps: seq<Action>, t: State, line: Line)
    requires Run(s, steps, t) && SingleAcquisition(steps)
    ensures Waiting(s, line) + AllPut(s, steps, line) == AllGot(s, steps, line) + Waiting(t, line)
    decreases |steps|
  {
    hide Waiting;
    hide Put;
    hide Got;
    if steps == [] {
      assert Waiting(s, line) + [] == [] + Waiting(s, line);
    } else {
      var a := steps[0];
      assert a in steps;
      assert forall b :: b in steps[1..] ==> b in steps;
      LineStep(s, a, line);
      hide Step;
      hide Enabled;
      FirstInFirstOut(Step(s, a), steps[1..], t, line);
      LineJoins(Waiting(s, line), Put(s, a, line), AllPut(Step(s, a), steps[1..], line),
                Got(s, a, line), Waiting(Step(s, a), line), AllGot(Step(s, a), steps[1..], line), Waiting(t, line));
    }
  }

  lemma LineJoins(before: seq<nat>, put: seq<nat>, puts: seq<nat>, got: seq<nat>, between: seq<nat>, gots: seq<nat>,
                  after: seq<nat>)
    requires before + put == got + between && between + puts == gots + after
    ensures before + (put + puts) == got + gots + after
  {
    assert before + (put + puts) == (before + put) + puts == got + (between + puts) == got + (gots + after);
  }

  // ----- what the records say -----

  /** The step has been made with this file. */
  ghost predicate Happens(s: State, steps: seq<Action>, a: Action, f: nat)
    decreases |steps|
  {
    steps != [] && Enabled(s, steps[0]) &&
    ((steps[0] == a && At(s, a, f)) || Happens(Step(s, steps[0]), steps[1..], a, f))
  }

  predicate At(s: State, a: Action, f: nat) {
    match a
    case Download(_) => !s.download.DownloadIdle? && s.download.file == f
    case Save(_) => !s.save.Idle? && s.save.file == f
    case _ => false
  }

  const FAILED_DOWNLOAD := Download(Fetch(false))
  const WRITTEN := Save(Work(true))
  const FAILED_SAVE := Save(Work(false))

  lemma RecordsKept(s: State, a: Action, f: nat)
    requires Enabled(s, a) && Internal(a) && f < |s.files|
    ensures var file, after := s.files[f], Step(s, a).files[f];
            && (after.downloadFailed <==> file.downloadFailed || (a == FAILED_DOWNLOAD && At(s, a, f)))
            && (after.saved <==> file.saved || (a == WRITTEN && At(s, a, f)))
            && (after.saveFailed <==> file.saveFailed || (a == FAILED_SAVE && At(s, a, f)))
  {
    match a
    case Poll(p) => PollRecords(s, p, f);
    case Download(d) => DownloadRecords(s, d, f);
    case Parse(_) =>
    case Save(w) => SaveRecords(s, w, f);
    case Reap(r) => ReapRecords(s, r, f);
  }

  predicate SameRecords(file: File, after: File) {
    after.downloadFailed == file.downloadFailed && after.saved == file.saved && after.saveFailed == file.saveFailed
  }

  lemma PollRecords(s: State, p: PollAction, f: nat)
    requires PollCan(s, p) && !p.Accept? && !p.Free? && f < |s.files|
    ensures SameRecords(s.files[f], PollStep(s, p).files[f])
  {
  }

  lemma DownloadRecords(s: State, d: DownloadAction, f: nat)
    requires DownloadCan(s, d) && f < |s.files|
    ensures var file, after := s.files[f], DownloadStep(s, d).files[f];
            && after.saved == file.saved && after.saveFailed == file.saveFailed
            && (after.downloadFailed <==> file.downloadFailed || (d == Fetch(false) && s.download.file == f))
  {
    if d.Fetch? { FetchChanges(s, d.ok); }
    hide DownloadStep;
  }

  lemma FetchChanges(s: State, ok: bool)
    requires DownloadCan(s, Fetch(ok))
    ensures var i := s.download.file;
            var file := s.files[i];
            DownloadStep(s, Fetch(ok)).files ==
            s.files[i := if ok then file.(data := Held) else file.(downloadFailed := true)]
  {
  }

  lemma SaveRecords(s: State, w: WorkerAction, f: nat)
    requires SaveCan(s, w) && f < |s.files|
    ensures var file, after := s.files[f], SaveStep(s, w).files[f];
            && after.downloadFailed == file.downloadFailed
            && (after.saved <==> file.saved || (w == Work(true) && s.save.file == f))
            && (after.saveFailed <==> file.saveFailed || (w == Work(false) && s.save.file == f))
  {
    SaveChanges(s, w);
    hide SaveStep;
  }

  lemma ReapRecords(s: State, r: ReapAction, f: nat)
    requires ReapCan(s, r) && f < |s.files|
    ensures SameRecords(s.files[f], ReapStep(s, r).files[f])
  {
  }

  /** A file is recorded as saved if it has been written, and as failed if its download or its saving has failed, and
      for no other reason. */
  lemma {:induction false} RecordsInRuns(s: State, steps: seq<Action>, t: State, f: nat)
    requires Run(s, steps, t) && SingleAcquisition(steps) && f < |s.files|
    ensures f < |t.files|
    ensures t.files[f].downloadFailed <==> s.files[f].downloadFailed || Happens(s, steps, FAILED_DOWNLOAD, f)
    ensures t.files[f].saved <==> s.files[f].saved || Happens(s, steps, WRITTEN, f)
    ensures t.files[f].saveFailed <==> s.files[f].saveFailed || Happens(s, steps, FAILED_SAVE, f)
    decreases |steps|
  {
    if steps != [] {
      var a := steps[0];
      assert a in steps;
      assert forall b :: b in steps[1..] ==> b in steps;
      RecordsKept(s, a, f);
      FilesKept(s, a);
      hide Step;
      hide Enabled;
      RecordsInRuns(Step(s, a), steps[1..], t, f);
    }
  }
}
