/** The file pipeline of eigerDetector.cpp: five tasks joined by bounded blocking queues. One task makes a step at a
    time. */
module Pipeline {
  import opened Wrappers

  const MAX_RETRIES: nat := 2
  const CAPACITY: nat := 2        // of the download, parse and save queues
  const REAP_CAPACITY: nat := 4

  datatype Acquisition = Acquisition(nDataFiles: nat, saveFiles: bool, parseFiles: bool, removeFiles: bool)

  datatype Data = Absent | Held | Freed

  /** Where a file is on its way: not yet submitted, counted as pending, or finalised. */
  datatype Stage = Waiting | Counted | Final

  /** `saved`, `saveFailed`, `downloadFailed`, `deleted` and `stage` record what has happened to the file. */
  datatype File = File(save: bool, parse: bool, remove: bool, refCount: nat, data: Data,
                       stage: Stage, saved: bool, saveFailed: bool, downloadFailed: bool, deleted: bool)

  /** pollTask; a task that handles a file carries its index in the file array. */
  datatype PollState =
    | PollIdle
    | Looking(i: nat, retries: nat)    // waiting for file i to appear
    | Submitting(i: nat, retries: nat) // file i is counted; sending it to the download queue
    | Draining                         // waiting for pending files
    | Freeing                          // no file is pending

  datatype DownloadState =
    | DownloadIdle
    | Fetching(file: nat)
    | Reporting(file: nat)      // the download failed; sending to the reap queue
    | Loaded(file: nat)         // about to look at file->parse
    | CheckingSave(file: nat)   // about to look at file->save

  datatype Worker = Idle | Working(file: nat) | Sending(file: nat)

  datatype ReapState =
    | ReapIdle
    | Received(file: nat)
    | Finalising(file: nat)     // the count has dropped to zero
    | Uncounting(file: nat)     // only the pending counter is left to update

  datatype State = State(files: seq<File>, pending: int,
                         poll: PollState, download: DownloadState, parse: Worker, save: Worker, reap: ReapState,
                         downloadQueue: seq<nat>, parseQueue: seq<nat>, saveQueue: seq<nat>, reapQueue: seq<nat>)

  const START := State([], 0, PollIdle, DownloadIdle, Idle, Idle, ReapIdle, [], [], [], [])

  // One step of one task. Whether a file exists, a download or a write succeeds, and whether the poll task is told
  // to stop are choices of the environment.

  datatype PollAction =
    | Accept(acq: Acquisition)  // a new acquisition
    | Find                      // the file exists: count it, unless it is wanted by no stage
    | Miss(stop: bool)
    | Submit
    | GiveUp                    // no file left to look for, or too many retries
    | ReadPending
    | Free

  datatype DownloadAction = Take | Fetch(ok: bool) | Report | DispatchParse | DispatchSave

  datatype WorkerAction = Receive | Work(ok: bool) | Send

  datatype ReapAction = Collect | Count | Finalise | Uncount

  datatype Action = Poll(p: PollAction) | Download(d: DownloadAction) | Parse(w: WorkerAction) | Save(w: WorkerAction)
                  | Reap(r: ReapAction)

  // ----- the steps -----

  function NewFile(acq: Acquisition, isMaster: bool): File {
    var parse := !isMaster && acq.parseFiles;
    File(acq.saveFiles, parse, acq.removeFiles, Flag(acq.saveFiles) + Flag(parse), Absent,
         Waiting, false, false, false, false)
  }

  function Flag(b: bool): nat { if b then 1 else 0 }

  function NewFiles(acq: Acquisition): (files: seq<File>)
    ensures |files| == acq.nDataFiles + 1
    ensures forall i :: 0 <= i < |files| ==> files[i] == NewFile(acq, i == 0)
  {
    seq(acq.nDataFiles + 1, i => NewFile(acq, i == 0))
  }

  function With(s: State, f: nat, file: File): State
    requires f < |s.files|
  {
    s.(files := s.files[f := file])
  }

  predicate SameStages(files: seq<File>, after: seq<File>) {
    |after| == |files| && forall f :: 0 <= f < |files| ==> after[f].stage == files[f].stage
  }

  predicate PollCan(s: State, p: PollAction) {
    match p
    case Accept(_) => s.poll.PollIdle?
    case Find => s.poll.Looking? && s.poll.i < |s.files| && s.poll.retries <= MAX_RETRIES
    case Miss(_) => s.poll.Looking? && s.poll.i < |s.files| && s.poll.retries <= MAX_RETRIES
    case Submit => s.poll.Submitting? && |s.downloadQueue| < CAPACITY
    case GiveUp => s.poll.Looking? && !(s.poll.i < |s.files| && s.poll.retries <= MAX_RETRIES)
    case ReadPending => s.poll.Draining?
    case Free => s.poll.Freeing?
  }

  function PollStep(s: State, p: PollAction): (r: State)
    requires PollCan(s, p)
    ensures !p.Accept? && !p.Free? ==> |r.files| == |s.files|
  {
    match p
    case Accept(acq) => s.(files := NewFiles(acq), pending := 0, poll := Looking(0, 0))
    case Find =>
      var i := s.poll.i;
      var file := s.files[i];
      if file.save || file.parse then
        With(s, i, file.(stage := Counted)).(pending := s.pending + 1, poll := Submitting(i, s.poll.retries))
      else
        With(s, i, file.(stage := Final, deleted := file.remove)).(poll := Looking(i + 1, s.poll.retries))
    case Miss(stop) => s.(poll := Looking(s.poll.i, s.poll.retries + Flag(stop)))
    case Submit =>
      s.(downloadQueue := s.downloadQueue + [s.poll.i], poll := Looking(s.poll.i + 1, s.poll.retries))
    case GiveUp => s.(poll := Draining)
    case ReadPending => if s.pending != 0 then s else s.(poll := Freeing)
    case Free => s.(files := [], poll := PollIdle)
  }

  predicate DownloadCan(s: State, d: DownloadAction) {
    match d
    case Take => s.download.DownloadIdle? && s.downloadQueue != []
    case Fetch(_) => s.download.Fetching? && s.download.file < |s.files|
    case Report => s.download.Reporting? && |s.reapQueue| < REAP_CAPACITY
    case DispatchParse =>
      s.download.Loaded? && s.download.file < |s.files| &&
      (s.files[s.download.file].parse ==> |s.parseQueue| < CAPACITY)
    case DispatchSave =>
      s.download.CheckingSave? && s.download.file < |s.files| &&
      (s.files[s.download.file].save ==> |s.saveQueue| < CAPACITY)
  }

  function DownloadStep(s: State, d: DownloadAction): (r: State)
    requires DownloadCan(s, d)
    ensures !d.Fetch? ==> r.files == s.files
    ensures SameStages(s.files, r.files) && r.poll == s.poll && r.pending == s.pending
  {
    match d
    case Take => s.(download := Fetching(s.downloadQueue[0]), downloadQueue := s.downloadQueue[1..])
    case Fetch(ok) =>
      var f := s.download.file;
      if ok then With(s, f, s.files[f].(data := Held)).(download := Loaded(f))
      else With(s, f, s.files[f].(downloadFailed := true)).(download := Reporting(f))
    case Report => s.(reapQueue := s.reapQueue + [s.download.file], download := DownloadIdle)
    case DispatchParse =>
      var f := s.download.file;
      if s.files[f].parse then s.(parseQueue := s.parseQueue + [f], download := CheckingSave(f))
      else s.(download := CheckingSave(f))
    case DispatchSave =>
      var f := s.download.file;
      if s.files[f].save then s.(saveQueue := s.saveQueue + [f], download := DownloadIdle)
      else s.(download := DownloadIdle)
  }

  predicate ParseCan(s: State, w: WorkerAction) {
    match w
    case Receive => s.parse.Idle? && s.parseQueue != []
    case Work(_) => s.parse.Working?
    case Send => s.parse.Sending? && |s.reapQueue| < REAP_CAPACITY
  }

  /** The outcome of parsing changes nothing here. */
  function ParseStep(s: State, w: WorkerAction): (r: State)
    requires ParseCan(s, w)
    ensures r.files == s.files && r.poll == s.poll && r.pending == s.pending
  {
    match w
    case Receive => s.(parse := Working(s.parseQueue[0]), parseQueue := s.parseQueue[1..])
    case Work(_) => s.(parse := Sending(s.parse.file))
    case Send => s.(reapQueue := s.reapQueue + [s.parse.file], parse := Idle)
  }

  predicate SaveCan(s: State, w: WorkerAction) {
    match w
    case Receive => s.save.Idle? && s.saveQueue != []
    case Work(_) => s.save.Working? && s.save.file < |s.files|
    case Send => s.save.Sending? && |s.reapQueue| < REAP_CAPACITY
  }

  function SaveStep(s: State, w: WorkerAction): (r: State)
    requires SaveCan(s, w)
    ensures SameStages(s.files, r.files) && r.poll == s.poll && r.pending == s.pending
  {
    match w
    case Receive => s.(save := Working(s.saveQueue[0]), saveQueue := s.saveQueue[1..])
    case Work(ok) =>
      var f := s.save.file;
      var file := s.files[f];
      With(s, f, if ok then file.(saved := true) else file.(saveFailed := true, remove := false)).(save := Sending(f))
    case Send => s.(reapQueue := s.reapQueue + [s.save.file], save := Idle)
  }

  predicate ReapCan(s: State, r: ReapAction) {
    match r
    case Collect => s.reap.ReapIdle? && s.reapQueue != []
    case Count => s.reap.Received? && s.reap.file < |s.files| && s.files[s.reap.file].refCount > 0
    case Finalise => s.reap.Finalising? && s.reap.file < |s.files|
    case Uncount => s.reap.Uncounting? && s.reap.file < |s.files|
  }

  function ReapStep(s: State, r: ReapAction): (next: State)
    requires ReapCan(s, r)
    ensures |next.files| == |s.files| && next.poll == s.poll
    ensures !r.Uncount? ==> SameStages(s.files, next.files) && next.pending == s.pending
  {
    match r
    case Collect => s.(reap := Received(s.reapQueue[0]), reapQueue := s.reapQueue[1..])
    case Count =>
      var f := s.reap.file;
      var left := s.files[f].refCount - 1;
      With(s, f, s.files[f].(refCount := left)).(reap := if left == 0 then Finalising(f) else ReapIdle)
    case Finalise =>
      var f := s.reap.file;
      var file := s.files[f];
      With(s, f, file.(deleted := file.deleted || file.remove, data := if file.data.Held? then Freed else file.data))
      .(reap := Uncounting(f))
    case Uncount =>
      With(s, s.reap.file, s.files[s.reap.file].(stage := Final)).(pending := s.pending - 1, reap := ReapIdle)
  }

  predicate Enabled(s: State, a: Action) {
    match a
    case Poll(p) => PollCan(s, p)
    case Download(d) => DownloadCan(s, d)
    case Parse(w) => ParseCan(s, w)
    case Save(w) => SaveCan(s, w)
    case Reap(r) => ReapCan(s, r)
  }

  function Step(s: State, a: Action): (r: State)
    requires Enabled(s, a)
    ensures (a.Poll? ==> !a.p.Accept? && !a.p.Free?) ==> |r.files| == |s.files|
  {
    match a
    case Poll(p) => PollStep(s, p)
    case Download(d) => DownloadStep(s, d)
    case Parse(w) => ParseStep(s, w)
    case Save(w) => SaveStep(s, w)
    case Reap(r) => ReapStep(s, r)
  }

  // ----- the pipeline as one file sees it -----

  /** A file, with the tasks that are at it and how often each queue holds it. */
  datatype View = View(file: File, submitting: bool,
                       download: DownloadState, parse: Worker, save: Worker, reap: ReapState,
                       toDownload: nat, toParse: nat, toSave: nat, toReap: nat)

  function ViewOf(s: State, f: nat): View
    requires f < |s.files|
  {
    View(s.files[f],
         s.poll.Submitting? && s.poll.i == f,
         if s.download.DownloadIdle? || s.download.file != f then DownloadIdle else s.download,
         if s.parse.Idle? || s.parse.file != f then Idle else s.parse,
         if s.save.Idle? || s.save.file != f then Idle else s.save,
         if s.reap.ReapIdle? || s.reap.file != f then ReapIdle else s.reap,
         multiset(s.downloadQueue)[f], multiset(s.parseQueue)[f], multiset(s.saveQueue)[f], multiset(s.reapQueue)[f])
  }

  /** How many reap messages a file is due in all. */
  function Wants(file: File): nat {
    Flag(file.save) + Flag(file.parse)
  }

  /** The parse and save stages a file still has before it, and its messages to the reaper. */
  function Outstanding(v: View): nat {
    var wants := Wants(v.file);
    (if v.submitting then wants else 0)
    + (if wants == 0 then 0 else if wants == 1 then v.toDownload else v.toDownload + v.toDownload)
    + (match v.download
       case DownloadIdle => 0
       case Fetching(_) => wants
       case Reporting(_) => 1
       case Loaded(_) => wants
       case CheckingSave(_) => Flag(v.file.save))
    + v.toParse + Flag(!v.parse.Idle?) + v.toSave + Flag(!v.save.Idle?) + v.toReap + Flag(v.reap.Received?)
  }

  /** A failed download sends one message to the reaper, also for a file that is due two. */
  function Lost(file: File): nat {
    if file.downloadFailed && Wants(file) == 2 then 1 else 0
  }

  /** Not yet downloaded. */
  predicate Early(v: View) {
    v.submitting || v.toDownload > 0 || v.download.Fetching?
  }

  /** A stage that reads the downloaded data is still before the file, or at work on it. */
  predicate DataNeeded(v: View) {
    || v.download.Loaded? || (v.download.CheckingSave? && v.file.save)
    || v.toParse > 0 || v.parse.Working? || v.toSave > 0 || v.save.Working?
  }

  /** The save stage has not dealt with the file yet. */
  predicate SaveDue(v: View) {
    Early(v) || v.download.Loaded? || v.download.CheckingSave? || v.toSave > 0 || v.save.Working?
  }

  /** How many tasks and queues hold the file before it has been saved. */
  function Unsaved(v: View): nat {
    Flag(v.submitting) + v.toDownload
    + Flag(v.download.Fetching? || v.download.Loaded? || v.download.CheckingSave?)
    + v.toSave + Flag(v.save.Working?)
  }

  /** A file is fetched once and saved once: it is in one place at most until then, and in none once either has
      been tried to the end. */
  predicate OnItsWay(v: View) {
    var file := v.file;
    && Unsaved(v) <= 1
    && (file.stage.Waiting? || file.saved || file.saveFailed || file.downloadFailed ==> Unsaved(v) == 0)
    && (file.saved || file.saveFailed ==> !file.downloadFailed) && !(file.saved && file.saveFailed)
  }

  /** What must be in memory: nothing before the download or if that has failed, then the data, until it is freed. */
  function DataDue(v: View): Data {
    var file := v.file;
    if Wants(file) == 0 || file.stage.Waiting? || Early(v) || file.downloadFailed then Absent
    else if file.stage.Final? || v.reap.Uncounting? then Freed
    else Held
  }

  /** The reference count is what the reaper has yet to be told, and it says when a file is finalised. */
  predicate CountHolds(v: View) {
    var file := v.file;
    && (match file.stage
        case Waiting => Outstanding(v) == 0 && file.refCount == Wants(file) && v.download.DownloadIdle?
                        && !file.saved && !file.saveFailed && !file.downloadFailed && !file.deleted
        case Counted => Wants(file) > 0 && file.refCount == Outstanding(v) + Lost(file)
        case Final => Outstanding(v) == 0 && file.refCount == 0)
    && file.refCount <= Wants(file)
    && (Early(v) || !v.download.DownloadIdle? ==> Wants(file) > 0)
    && (v.reap.Finalising? || v.reap.Uncounting? <==> file.stage.Counted? && file.refCount == 0)
  }

  /** The data is in memory when it must be. */
  predicate DataHolds(v: View) {
    && (Early(v) ==> !v.file.downloadFailed)
    && v.file.data == DataDue(v)
    && (DataNeeded(v) ==> v.file.data.Held?)
    && (v.download.CheckingSave? && !v.file.save ==> v.file.parse)
  }

  /** A file is deleted last, if that was asked for and saving it has not failed. */
  predicate DeletionHolds(v: View) {
    var file := v.file;
    && (file.deleted ==> file.refCount == 0 && !file.saveFailed && (file.stage.Final? || v.reap.Uncounting?))
    && (file.saveFailed ==> !file.remove)
    && (file.save && !file.stage.Waiting? && !file.downloadFailed ==> SaveDue(v) || file.saved || file.saveFailed)
    && (file.deleted && file.save ==> file.saved || file.downloadFailed)
    && (file.stage.Final? || v.reap.Uncounting? ==> file.deleted == file.remove)
  }

  /** What holds of every file in every reachable state. */
  predicate FileInv(v: View) {
    CountHolds(v) && OnItsWay(v) && DataHolds(v) && DeletionHolds(v)
  }

  function CountedFiles(files: seq<File>): nat {
    if files == [] then 0 else CountedFiles(files[..|files| - 1]) + Flag(files[|files| - 1].stage.Counted?)
  }

  predicate Within(queue: seq<nat>, capacity: nat, n: nat) {
    |queue| <= capacity && forall k :: 0 <= k < |queue| ==> queue[k] < n
  }

  /** Every index that a task or queue holds is one of the file array. */
  predicate InBounds(s: State) {
    var n := |s.files|;
    && Within(s.downloadQueue, CAPACITY, n) && Within(s.parseQueue, CAPACITY, n)
    && Within(s.saveQueue, CAPACITY, n) && Within(s.reapQueue, REAP_CAPACITY, n)
    && (s.download.DownloadIdle? || s.download.file < n)
    && (s.parse.Idle? || s.parse.file < n) && (s.save.Idle? || s.save.file < n)
    && (s.reap.ReapIdle? || s.reap.file < n)
  }

  ghost predicate PollInv(s: State) {
    match s.poll
    case PollIdle => s.files == []
    case Looking(i, _) => i <= |s.files| && forall f :: i <= f < |s.files| ==> s.files[f].stage.Waiting?
    case Submitting(i, _) =>
      i < |s.files| && s.files[i].stage.Counted? && forall f :: i < f < |s.files| ==> s.files[f].stage.Waiting?
    case Draining => true
    case Freeing => s.pending == 0
  }

  ghost predicate Inv(s: State) {
    && InBounds(s) && PollInv(s)
    && s.pending == CountedFiles(s.files)
    && forall f :: 0 <= f < |s.files| ==> FileInv(ViewOf(s, f))
  }

  /** No task and no queue holds a file. */
  predicate Quiet(s: State) {
    && s.download.DownloadIdle? && s.parse.Idle? && s.save.Idle? && s.reap.ReapIdle?
    && s.downloadQueue == [] && s.parseQueue == [] && s.saveQueue == [] && s.reapQueue == []
  }
}
