/** What every step of the pipeline keeps, and what follows for all runs. */
module PipelineSafety {
  import opened Wrappers
  import opened Pipeline

  lemma Pop(q: seq<nat>)
    requires q != []
    ensures multiset(q) == multiset{q[0]} + multiset(q[1..])
  {
    assert q == [q[0]] + q[1..];
  }

  lemma {:induction false} CountedUpdate(files: seq<File>, f: nat, file: File)
    requires f < |files|
    ensures CountedFiles(files[f := file]) + Flag(files[f].stage.Counted?) ==
            CountedFiles(files) + Flag(file.stage.Counted?)
  {
    var n := |files| - 1;
    var after := files[f := file];
    if f == n {
      assert after[..n] == files[..n];
    } else {
      assert after[..n] == files[..n][f := file];
      CountedUpdate(files[..n], f, file);
    }
  }

  lemma {:induction false} NoneCounted(files: seq<File>)
    requires forall f :: 0 <= f < |files| ==> !files[f].stage.Counted?
    ensures CountedFiles(files) == 0
  {
    if files != [] { NoneCounted(files[..|files| - 1]); }
  }

  lemma {:induction false} SomeCounted(files: seq<File>, f: nat)
    requires f < |files| && files[f].stage.Counted?
    ensures CountedFiles(files) > 0
  {
    if f < |files| - 1 { SomeCounted(files[..|files| - 1], f); }
  }

  // ----- one step, seen from the file it is about -----

  predicate PollMoves(v: View, p: PollAction) {
    match p
    case Find => v.file.stage.Waiting? && !v.submitting
    case Submit => v.submitting
    case _ => false
  }

  function PollMove(v: View, p: PollAction): View
    requires PollMoves(v, p)
  {
    match p
    case Find =>
      if v.file.save || v.file.parse then v.(file := v.file.(stage := Counted), submitting := true)
      else v.(file := v.file.(stage := Final, deleted := v.file.remove))
    case Submit => v.(submitting := false, toDownload := v.toDownload + 1)
  }

  lemma PollMoveOwes(v: View, p: PollAction)
    requires PollMoves(v, p)
    ensures Outstanding(PollMove(v, p)) == Outstanding(v) + if p.Find? then Wants(v.file) else 0
  {
  }

  lemma PollMoveKeeps(v: View, p: PollAction)
    requires FileInv(v) && PollMoves(v, p)
    ensures FileInv(PollMove(v, p))
  {
    hide CountHolds;
    hide OnItsWay;
    hide DataHolds;
    hide DeletionHolds;
    PollMoveCount(v, p);
    PollMoveWay(v, p);
    PollMoveData(v, p);
    PollMoveDeletion(v, p);
  }

  lemma PollMoveCount(v: View, p: PollAction)
    requires CountHolds(v) && PollMoves(v, p)
    ensures CountHolds(PollMove(v, p))
  {
    hide Outstanding;
    PollMoveOwes(v, p);
  }

  lemma PollMoveWay(v: View, p: PollAction)
    requires CountHolds(v) && OnItsWay(v) && PollMoves(v, p)
    ensures OnItsWay(PollMove(v, p))
  {
    hide Outstanding;
  }

  lemma PollMoveData(v: View, p: PollAction)
    requires CountHolds(v) && OnItsWay(v) && DataHolds(v) && PollMoves(v, p)
    ensures DataHolds(PollMove(v, p))
  {
    hide Outstanding;
  }

  lemma PollMoveDeletion(v: View, p: PollAction)
    requires CountHolds(v) && DeletionHolds(v) && PollMoves(v, p)
    ensures DeletionHolds(PollMove(v, p))
  {
    hide Outstanding;
  }

  /** A file that is owed nothing is before no stage any more. */
  lemma NothingOwed(v: View)
    requires Outstanding(v) == 0 && Wants(v.file) > 0
    ensures !Early(v) && !DataNeeded(v) && (v.file.save ==> !SaveDue(v))
  {
  }

  predicate PollMovesFile(s: State, p: PollAction, f: nat) {
    (p.Find? || p.Submit?) && (s.poll.Looking? || s.poll.Submitting?) && s.poll.i == f
  }

  lemma PollSeen(s: State, p: PollAction, f: nat)
    requires PollInv(s) && PollCan(s, p) && !p.Accept? && !p.Free? && f < |s.files|
    ensures PollMovesFile(s, p, f) ==>
              PollMoves(ViewOf(s, f), p) && ViewOf(PollStep(s, p), f) == PollMove(ViewOf(s, f), p)
    ensures !PollMovesFile(s, p, f) ==> ViewOf(PollStep(s, p), f) == ViewOf(s, f)
  {
    if p.Find? {
      FindSeen(s, f);
    }
  }

  lemma FindSeen(s: State, f: nat)
    requires PollInv(s) && PollCan(s, Find) && f < |s.files|
    ensures s.poll.i == f ==>
              PollMoves(ViewOf(s, f), Find) && ViewOf(PollStep(s, Find), f) == PollMove(ViewOf(s, f), Find)
    ensures s.poll.i != f ==> ViewOf(PollStep(s, Find), f) == ViewOf(s, f)
  {
    var next := PollStep(s, Find);
    assert f != s.poll.i ==> next.files[f] == s.files[f];
    if f == s.poll.i {
      assert s.files[f].stage.Waiting?;
      FoundView(s, f);
    }
  }

  lemma FoundView(s: State, f: nat)
    requires PollCan(s, Find) && f == s.poll.i && s.files[f].stage.Waiting?
    ensures PollMoves(ViewOf(s, f), Find) && ViewOf(PollStep(s, Find), f) == PollMove(ViewOf(s, f), Find)
  {
  }

  predicate DownloadMoves(v: View, d: DownloadAction) {
    match d
    case Take => v.download.DownloadIdle? && v.toDownload > 0
    case Fetch(_) => v.download.Fetching?
    case Report => v.download.Reporting?
    case DispatchParse => v.download.Loaded?
    case DispatchSave => v.download.CheckingSave?
  }

  function DownloadMove(v: View, d: DownloadAction, f: nat): View
    requires DownloadMoves(v, d)
  {
    match d
    case Take => v.(download := Fetching(f), toDownload := v.toDownload - 1)
    case Fetch(ok) =>
      if ok then v.(file := v.file.(data := Held), download := Loaded(f))
      else v.(file := v.file.(downloadFailed := true), download := Reporting(f))
    case Report => v.(download := DownloadIdle, toReap := v.toReap + 1)
    case DispatchParse => v.(download := CheckingSave(f), toParse := v.toParse + Flag(v.file.parse))
    case DispatchSave => v.(download := DownloadIdle, toSave := v.toSave + Flag(v.file.save))
  }

  lemma DownloadMoveOwes(v: View, d: DownloadAction, f: nat)
    requires DownloadMoves(v, d)
    ensures var after := DownloadMove(v, d, f);
            Outstanding(after) == Outstanding(v) + if d == Fetch(false) then 1 - Wants(v.file) else 0
  {
    if d.DispatchParse? || d.DispatchSave? { DispatchOwes(v, d, f); }
  }

  lemma DispatchOwes(v: View, d: DownloadAction, f: nat)
    requires (d.DispatchParse? || d.DispatchSave?) && DownloadMoves(v, d)
    ensures Outstanding(DownloadMove(v, d, f)) == Outstanding(v)
  {
  }

  lemma DownloadMoveKeeps(v: View, d: DownloadAction, f: nat)
    requires FileInv(v) && DownloadMoves(v, d)
    ensures FileInv(DownloadMove(v, d, f))
  {
    hide FileInv;
    hide Outstanding;
    match d
    case Take => TakeKeeps(v, f);
    case Fetch(ok) => FetchKeeps(v, ok, f);
    case Report => ReportKeeps(v, f);
    case _ => DispatchKeeps(v, d, f);
  }

  lemma TakeKeeps(v: View, f: nat)
    requires FileInv(v) && DownloadMoves(v, Take)
    ensures FileInv(DownloadMove(v, Take, f))
  {
    hide Outstanding;
    DownloadMoveOwes(v, Take, f);
  }

  lemma FetchKeeps(v: View, ok: bool, f: nat)
    requires FileInv(v) && DownloadMoves(v, Fetch(ok))
    ensures FileInv(DownloadMove(v, Fetch(ok), f))
  {
    hide CountHolds;
    hide OnItsWay;
    hide DataHolds;
    hide DeletionHolds;
    FetchCount(v, ok, f);
    FetchWay(v, ok, f);
    FetchData(v, ok, f);
    FetchDeletion(v, ok, f);
  }

  lemma FetchCount(v: View, ok: bool, f: nat)
    requires CountHolds(v) && DataHolds(v) && DownloadMoves(v, Fetch(ok))
    ensures CountHolds(DownloadMove(v, Fetch(ok), f))
  {
    hide Outstanding;
    DownloadMoveOwes(v, Fetch(ok), f);
    FetchingOwes(v);
  }

  lemma FetchWay(v: View, ok: bool, f: nat)
    requires OnItsWay(v) && DownloadMoves(v, Fetch(ok))
    ensures OnItsWay(DownloadMove(v, Fetch(ok), f))
  {
  }

  lemma FetchData(v: View, ok: bool, f: nat)
    requires CountHolds(v) && OnItsWay(v) && DataHolds(v) && DownloadMoves(v, Fetch(ok))
    ensures DataHolds(DownloadMove(v, Fetch(ok), f))
  {
    hide Outstanding;
    FetchingOwes(v);
  }

  lemma FetchDeletion(v: View, ok: bool, f: nat)
    requires CountHolds(v) && OnItsWay(v) && DeletionHolds(v) && DownloadMoves(v, Fetch(ok))
    ensures DeletionHolds(DownloadMove(v, Fetch(ok), f))
  {
    hide Outstanding;
    FetchingOwes(v);
  }

  lemma FetchingOwes(v: View)
    requires v.download.Fetching?
    ensures Outstanding(v) >= Wants(v.file)
  {
  }

  lemma ReportKeeps(v: View, f: nat)
    requires FileInv(v) && DownloadMoves(v, Report)
    ensures FileInv(DownloadMove(v, Report, f))
  {
    hide Outstanding;
    DownloadMoveOwes(v, Report, f);
  }

  lemma DispatchKeeps(v: View, d: DownloadAction, f: nat)
    requires (d.DispatchParse? || d.DispatchSave?) && FileInv(v) && DownloadMoves(v, d)
    ensures FileInv(DownloadMove(v, d, f))
  {
    hide Outstanding;
    DispatchOwes(v, d, f);
  }

  lemma DownloadSeen(s: State, d: DownloadAction, f: nat)
    requires DownloadCan(s, d) && f < |s.files|
    ensures (if d.Take? then s.downloadQueue[0] else s.download.file) == f ==>
              && DownloadMoves(ViewOf(s, f), d)
              && ViewOf(DownloadStep(s, d), f) == DownloadMove(ViewOf(s, f), d, f)
    ensures (if d.Take? then s.downloadQueue[0] else s.download.file) != f ==>
              ViewOf(DownloadStep(s, d), f) == ViewOf(s, f)
  {
    hide ViewOf;
    hide DownloadStep;
    hide DownloadMove;
    if d.Take? {
      TakeSeen(s, f);
    } else if d.DispatchParse? || d.DispatchSave? {
      DispatchSeen(s, d, f);
    } else if d.Report? {
      ReportSeen(s, f);
    } else {
      FetchSeen(s, d.ok, f);
    }
  }

  lemma TakeSeen(s: State, f: nat)
    requires DownloadCan(s, Take) && f < |s.files|
    ensures s.downloadQueue[0] == f ==>
              && DownloadMoves(ViewOf(s, f), Take)
              && ViewOf(DownloadStep(s, Take), f) == DownloadMove(ViewOf(s, f), Take, f)
    ensures s.downloadQueue[0] != f ==> ViewOf(DownloadStep(s, Take), f) == ViewOf(s, f)
  {
    Pop(s.downloadQueue);
  }

  lemma FetchSeen(s: State, ok: bool, f: nat)
    requires DownloadCan(s, Fetch(ok)) && f < |s.files|
    ensures s.download.file == f ==>
              && DownloadMoves(ViewOf(s, f), Fetch(ok))
              && ViewOf(DownloadStep(s, Fetch(ok)), f) == DownloadMove(ViewOf(s, f), Fetch(ok), f)
    ensures s.download.file != f ==> ViewOf(DownloadStep(s, Fetch(ok)), f) == ViewOf(s, f)
  {
  }

  lemma ReportSeen(s: State, f: nat)
    requires DownloadCan(s, Report) && f < |s.files|
    ensures s.download.file == f ==>
              && DownloadMoves(ViewOf(s, f), Report)
              && ViewOf(DownloadStep(s, Report), f) == DownloadMove(ViewOf(s, f), Report, f)
    ensures s.download.file != f ==> ViewOf(DownloadStep(s, Report), f) == ViewOf(s, f)
  {
  }

  lemma DispatchSeen(s: State, d: DownloadAction, f: nat)
    requires (d.DispatchParse? || d.DispatchSave?) && DownloadCan(s, d) && f < |s.files|
    ensures s.download.file == f ==>
              && DownloadMoves(ViewOf(s, f), d)
              && ViewOf(DownloadStep(s, d), f) == DownloadMove(ViewOf(s, f), d, f)
    ensures s.download.file != f ==> ViewOf(DownloadStep(s, d), f) == ViewOf(s, f)
  {
  }

  predicate WorkerMoves(worker: Worker, queued: nat, w: WorkerAction) {
    match w
    case Receive => worker.Idle? && queued > 0
    case Work(_) => worker.Working?
    case Send => worker.Sending?
  }

  function ParseMove(v: View, w: WorkerAction, f: nat): View
    requires WorkerMoves(v.parse, v.toParse, w)
  {
    match w
    case Receive => v.(parse := Working(f), toParse := v.toParse - 1)
    case Work(_) => v.(parse := Sending(f))
    case Send => v.(parse := Idle, toReap := v.toReap + 1)
  }

  lemma ParseMoveOwes(v: View, w: WorkerAction, f: nat)
    requires WorkerMoves(v.parse, v.toParse, w)
    ensures Outstanding(ParseMove(v, w, f)) == Outstanding(v)
  {
  }

  lemma ParseMoveKeeps(v: View, w: WorkerAction, f: nat)
    requires FileInv(v) && WorkerMoves(v.parse, v.toParse, w)
    ensures FileInv(ParseMove(v, w, f))
  {
    hide Outstanding;
    ParseMoveOwes(v, w, f);
  }

  lemma ParseSeen(s: State, w: WorkerAction, f: nat)
    requires ParseCan(s, w) && f < |s.files|
    ensures (if w.Receive? then s.parseQueue[0] else s.parse.file) == f ==>
              && WorkerMoves(ViewOf(s, f).parse, ViewOf(s, f).toParse, w)
              && ViewOf(ParseStep(s, w), f) == ParseMove(ViewOf(s, f), w, f)
    ensures (if w.Receive? then s.parseQueue[0] else s.parse.file) != f ==>
              ViewOf(ParseStep(s, w), f) == ViewOf(s, f)
  {
    if w.Receive? { Pop(s.parseQueue); }
  }

  function SaveMove(v: View, w: WorkerAction, f: nat): View
    requires WorkerMoves(v.save, v.toSave, w)
  {
    match w
    case Receive => v.(save := Working(f), toSave := v.toSave - 1)
    case Work(ok) =>
      var file := if ok then v.file.(saved := true) else v.file.(saveFailed := true, remove := false);
      v.(file := file, save := Sending(f))
    case Send => v.(save := Idle, toReap := v.toReap + 1)
  }

  lemma SaveMoveOwes(v: View, w: WorkerAction, f: nat)
    requires WorkerMoves(v.save, v.toSave, w)
    ensures Outstanding(SaveMove(v, w, f)) == Outstanding(v) > 0
  {
  }

  lemma SaveMoveKeeps(v: View, w: WorkerAction, f: nat)
    requires FileInv(v) && WorkerMoves(v.save, v.toSave, w)
    ensures FileInv(SaveMove(v, w, f))
  {
    hide CountHolds;
    hide OnItsWay;
    hide DataHolds;
    hide DeletionHolds;
    SaveMoveCount(v, w, f);
    SaveMoveWay(v, w, f);
    SaveMoveData(v, w, f);
    SaveMoveDeletion(v, w, f);
  }

  lemma SaveMoveCount(v: View, w: WorkerAction, f: nat)
    requires CountHolds(v) && WorkerMoves(v.save, v.toSave, w)
    ensures CountHolds(SaveMove(v, w, f))
  {
    hide Outstanding;
    SaveMoveOwes(v, w, f);
  }

  lemma SaveMoveWay(v: View, w: WorkerAction, f: nat)
    requires CountHolds(v) && OnItsWay(v) && WorkerMoves(v.save, v.toSave, w)
    ensures OnItsWay(SaveMove(v, w, f))
  {
    hide Outstanding;
    SaveMoveOwes(v, w, f);
  }

  lemma SaveMoveData(v: View, w: WorkerAction, f: nat)
    requires CountHolds(v) && OnItsWay(v) && DataHolds(v) && WorkerMoves(v.save, v.toSave, w)
    ensures DataHolds(SaveMove(v, w, f))
  {
    hide Outstanding;
    SaveMoveOwes(v, w, f);
  }

  lemma SaveMoveDeletion(v: View, w: WorkerAction, f: nat)
    requires CountHolds(v) && OnItsWay(v) && DeletionHolds(v) && WorkerMoves(v.save, v.toSave, w)
    ensures DeletionHolds(SaveMove(v, w, f))
  {
    hide Outstanding;
    SaveMoveOwes(v, w, f);
  }

  lemma SaveSeen(s: State, w: WorkerAction, f: nat)
    requires SaveCan(s, w) && f < |s.files|
    ensures (if w.Receive? then s.saveQueue[0] else s.save.file) == f ==>
              && WorkerMoves(ViewOf(s, f).save, ViewOf(s, f).toSave, w)
              && ViewOf(SaveStep(s, w), f) == SaveMove(ViewOf(s, f), w, f)
    ensures (if w.Receive? then s.saveQueue[0] else s.save.file) != f ==>
              ViewOf(SaveStep(s, w), f) == ViewOf(s, f)
  {
    if w.Receive? {
      SaveReceiveSeen(s, f);
    } else if w.Work? {
      SaveWorkSeen(s, w.ok, f);
    }
  }

  lemma SaveReceiveSeen(s: State, f: nat)
    requires SaveCan(s, Receive) && f < |s.files|
    ensures s.saveQueue[0] == f ==>
              && WorkerMoves(ViewOf(s, f).save, ViewOf(s, f).toSave, Receive)
              && ViewOf(SaveStep(s, Receive), f) == SaveMove(ViewOf(s, f), Receive, f)
    ensures s.saveQueue[0] != f ==> ViewOf(SaveStep(s, Receive), f) == ViewOf(s, f)
  {
    Pop(s.saveQueue);
  }

  lemma SaveWorkSeen(s: State, ok: bool, f: nat)
    requires SaveCan(s, Work(ok)) && f < |s.files|
    ensures s.save.file == f ==>
              && WorkerMoves(ViewOf(s, f).save, ViewOf(s, f).toSave, Work(ok))
              && ViewOf(SaveStep(s, Work(ok)), f) == SaveMove(ViewOf(s, f), Work(ok), f)
    ensures s.save.file != f ==> ViewOf(SaveStep(s, Work(ok)), f) == ViewOf(s, f)
  {
  }

  predicate ReapMoves(v: View, r: ReapAction) {
    match r
    case Collect => v.reap.ReapIdle? && v.toReap > 0
    case Count => v.reap.Received? && v.file.refCount > 0
    case Finalise => v.reap.Finalising?
    case Uncount => v.reap.Uncounting?
  }

  function ReapMove(v: View, r: ReapAction, f: nat): View
    requires ReapMoves(v, r)
  {
    match r
    case Collect => v.(reap := Received(f), toReap := v.toReap - 1)
    case Count =>
      v.(file := v.file.(refCount := v.file.refCount - 1),
         reap := if v.file.refCount == 1 then Finalising(f) else ReapIdle)
    case Finalise =>
      v.(file := v.file.(deleted := v.file.deleted || v.file.remove,
                         data := if v.file.data.Held? then Freed else v.file.data),
         reap := Uncounting(f))
    case Uncount => v.(file := v.file.(stage := Final), reap := ReapIdle)
  }

  lemma ReapMoveOwes(v: View, r: ReapAction, f: nat)
    requires ReapMoves(v, r)
    ensures Outstanding(ReapMove(v, r, f)) == Outstanding(v) - if r.Count? then 1 else 0
  {
    if r.Finalise? || r.Uncount? { FinaliseOwes(v, r, f); }
  }

  lemma FinaliseOwes(v: View, r: ReapAction, f: nat)
    requires ReapMoves(v, r) && (r.Finalise? || r.Uncount?)
    ensures Outstanding(ReapMove(v, r, f)) == Outstanding(v)
  {
  }

  lemma ReapMoveKeeps(v: View, r: ReapAction, f: nat)
    requires FileInv(v) && ReapMoves(v, r)
    ensures FileInv(ReapMove(v, r, f))
  {
    hide Outstanding;
    ReapMoveOwes(v, r, f);
    if r.Finalise? { NothingOwed(v); }
  }

  lemma ReapSeen(s: State, r: ReapAction, f: nat)
    requires ReapCan(s, r) && f < |s.files|
    ensures (if r.Collect? then s.reapQueue[0] else s.reap.file) == f ==>
              && ReapMoves(ViewOf(s, f), r)
              && ViewOf(ReapStep(s, r), f) == ReapMove(ViewOf(s, f), r, f)
    ensures (if r.Collect? then s.reapQueue[0] else s.reap.file) != f ==>
              ViewOf(ReapStep(s, r), f) == ViewOf(s, f)
  {
    if r.Collect? { CollectSeen(s, f); }
  }

  lemma CollectSeen(s: State, f: nat)
    requires ReapCan(s, Collect) && f < |s.files|
    ensures s.reapQueue[0] == f ==>
              ReapMoves(ViewOf(s, f), Collect) && ViewOf(ReapStep(s, Collect), f) == ReapMove(ViewOf(s, f), Collect, f)
    ensures s.reapQueue[0] != f ==> ViewOf(ReapStep(s, Collect), f) == ViewOf(s, f)
  {
    Pop(s.reapQueue);
  }

  // ----- the invariant -----

  lemma FileKept(s: State, a: Action, f: nat)
    requires Inv(s) && Enabled(s, a) && f < |s.files|
    requires a.Poll? ==> !a.p.Accept? && !a.p.Free?
    ensures FileInv(ViewOf(Step(s, a), f))
  {
    hide FileInv;
    hide ViewOf;
    var v := ViewOf(s, f);
    assert FileInv(v);
    match a
    case Poll(p) =>
      PollSeen(s, p, f);
      if PollMovesFile(s, p, f) { PollMoveKeeps(v, p); }
    case Download(d) =>
      DownloadSeen(s, d, f);
      if DownloadMoves(v, d) { DownloadMoveKeeps(v, d, f); }
    case Parse(w) =>
      ParseSeen(s, w, f);
      if WorkerMoves(v.parse, v.toParse, w) { ParseMoveKeeps(v, w, f); }
    case Save(w) =>
      SaveSeen(s, w, f);
      if WorkerMoves(v.save, v.toSave, w) { SaveMoveKeeps(v, w, f); }
    case Reap(r) =>
      ReapSeen(s, r, f);
      if ReapMoves(v, r) { ReapMoveKeeps(v, r, f); }
  }

  lemma BoundsKept(s: State, a: Action)
    requires InBounds(s) && PollInv(s) && Enabled(s, a)
    requires a.Poll? ==> !a.p.Accept? && !a.p.Free?
    ensures InBounds(Step(s, a))
  {
    match a
    case Poll(p) => PollBounds(s, p);
    case Download(d) => DownloadBounds(s, d);
    case Parse(w) => ParseBounds(s, w);
    case Save(w) => SaveBounds(s, w);
    case Reap(r) => ReapBounds(s, r);
  }

  lemma PollBounds(s: State, p: PollAction)
    requires InBounds(s) && PollInv(s) && PollCan(s, p) && !p.Accept? && !p.Free?
    ensures InBounds(PollStep(s, p))
  {
  }

  lemma DownloadBounds(s: State, d: DownloadAction)
    requires InBounds(s) && DownloadCan(s, d)
    ensures InBounds(DownloadStep(s, d))
  {
  }

  lemma ParseBounds(s: State, w: WorkerAction)
    requires InBounds(s) && ParseCan(s, w)
    ensures InBounds(ParseStep(s, w))
  {
  }

  lemma SaveBounds(s: State, w: WorkerAction)
    requires InBounds(s) && SaveCan(s, w)
    ensures InBounds(SaveStep(s, w))
  {
  }

  lemma ReapBounds(s: State, r: ReapAction)
    requires InBounds(s) && ReapCan(s, r)
    ensures InBounds(ReapStep(s, r))
  {
  }

  lemma CountKept(s: State, a: Action)
    requires Inv(s) && Enabled(s, a)
    requires a.Poll? ==> !a.p.Accept? && !a.p.Free?
    ensures Step(s, a).pending == CountedFiles(Step(s, a).files)
  {
    hide FileInv;
    match a
    case Poll(p) =>
      if p.Find? {
        var file := s.files[s.poll.i];
        CountedUpdate(s.files, s.poll.i, Step(s, a).files[s.poll.i]);
      }
    case Download(d) =>
      if d.Fetch? { CountedUpdate(s.files, s.download.file, Step(s, a).files[s.download.file]); }
    case Parse(_) =>
    case Save(w) =>
      if w.Work? { CountedUpdate(s.files, s.save.file, Step(s, a).files[s.save.file]); }
    case Reap(r) =>
      if !r.Collect? {
        CountedUpdate(s.files, s.reap.file, Step(s, a).files[s.reap.file]);
        UncountingIsCounted(s, s.reap.file);
      }
  }

  lemma UncountingIsCounted(s: State, f: nat)
    requires Inv(s) && f < |s.files|
    ensures s.reap == Uncounting(f) ==> s.files[f].stage.Counted?
  {
    assert FileInv(ViewOf(s, f));
  }

  /** Only finding a file ends its waiting. */
  lemma WaitingKept(s: State, a: Action, f: nat)
    requires Enabled(s, a) && f < |s.files| && s.files[f].stage.Waiting?
    requires a.Poll? ==> !a.p.Accept? && !a.p.Free? && !(a.p.Find? && s.poll.i == f)
    requires a.Reap? && a.r.Uncount? ==> s.files[s.reap.file].stage.Counted?
    ensures Step(s, a).files[f].stage.Waiting?
  {
    if a.Poll? {
      assert PollStep(s, a.p).files[f].stage.Waiting?;
    } else if a.Reap? && a.r.Uncount? {
      assert ReapStep(s, a.r).files[f].stage.Waiting?;
    }
  }

  /** A file that is being submitted stays counted. */
  lemma SubmittingKept(s: State, a: Action)
    requires Inv(s) && Enabled(s, a) && s.poll.Submitting? && !a.Poll?
    ensures Step(s, a).files[s.poll.i].stage.Counted?
  {
    hide InBounds;
    assert FileInv(ViewOf(s, s.poll.i));
  }

  lemma PollKept(s: State, a: Action)
    requires Inv(s) && Enabled(s, a)
    requires a.Poll? ==> !a.p.Accept? && !a.p.Free?
    ensures PollInv(Step(s, a))
  {
    hide FileInv;
    forall f | 0 <= f < |s.files| && s.files[f].stage.Waiting? && !(a.Poll? && a.p.Find? && s.poll.i == f)
      ensures Step(s, a).files[f].stage.Waiting?
    {
      if a.Reap? && a.r.Uncount? { UncountingIsCounted(s, s.reap.file); }
      WaitingKept(s, a, f);
    }
    if s.poll.Submitting? && !a.Poll? { SubmittingKept(s, a); }
    if s.poll.Freeing? { PendingKept(s, a); }
    FilesKept(s, a);
  }

  lemma FilesKept(s: State, a: Action)
    requires Enabled(s, a)
    requires a.Poll? ==> !a.p.Accept? && !a.p.Free?
    ensures |Step(s, a).files| == |s.files|
    ensures !a.Poll? ==> Step(s, a).poll == s.poll
  {
  }

  /** Once no file is pending, none will be: only finding a file counts it. */
  lemma PendingKept(s: State, a: Action)
    requires Inv(s) && Enabled(s, a) && s.pending == 0
    requires a.Poll? ==> !a.p.Accept? && !a.p.Find?
    ensures Step(s, a).pending == 0
  {
    if a.Reap? && a.r.Uncount? {
      UncountingIsCounted(s, s.reap.file);
      SomeCounted(s.files, s.reap.file);
    }
  }

  /** The queues have room for two files each, and the one to the reaper for four. */
  lemma QueuesHold(s: State)
    requires Inv(s)
    ensures |s.downloadQueue| <= 2 && |s.parseQueue| <= 2 && |s.saveQueue| <= 2 && |s.reapQueue| <= 4
  {
  }

  ghost predicate PollMovable(s: State) {
    exists p :: PollCan(s, p)
  }

  ghost predicate DownloadMovable(s: State) {
    exists d :: DownloadCan(s, d)
  }

  ghost predicate ParseMovable(s: State) {
    exists w :: ParseCan(s, w)
  }

  ghost predicate SaveMovable(s: State) {
    exists w :: SaveCan(s, w)
  }

  ghost predicate ReapMovable(s: State) {
    exists r :: ReapCan(s, r)
  }

  /** A task waits only to receive from a queue that is empty, or to send to one that is full, whatever the other tasks
      are at. */
  lemma WaitsForQueues(s: State)
    requires Inv(s)
    ensures PollMovable(s) <==> !(s.poll.Submitting? && |s.downloadQueue| == 2)
    ensures DownloadMovable(s) <==>
              match s.download
              case DownloadIdle => s.downloadQueue != []
              case Fetching(_) => true
              case Reporting(_) => |s.reapQueue| < 4
              case Loaded(f) => s.files[f].parse ==> |s.parseQueue| < 2
              case CheckingSave(f) => s.files[f].save ==> |s.saveQueue| < 2
    ensures ParseMovable(s) <==>
              match s.parse case Idle => s.parseQueue != [] case Working(_) => true case Sending(_) => |s.reapQueue| < 4
    ensures SaveMovable(s) <==>
              match s.save case Idle => s.saveQueue != [] case Working(_) => true case Sending(_) => |s.reapQueue| < 4
    ensures ReapMovable(s) <==> !(s.reap.ReapIdle? && s.reapQueue == [])
  {
    PollWaits(s);
    DownloadWaits(s);
    WorkersWait(s);
    ReapWaits(s);
    hide Inv;
  }

  lemma PollWaits(s: State)
    requires Inv(s)
    ensures PollMovable(s) <==> !(s.poll.Submitting? && |s.downloadQueue| == 2)
  {
    hide FileInv;
    var acq := Acquisition(0, false, false, false);
    assert s.poll.PollIdle? ==> PollCan(s, Accept(acq));
    assert s.poll.Looking? ==> PollCan(s, Find) || PollCan(s, GiveUp);
    assert s.poll.Draining? ==> PollCan(s, ReadPending);
    assert s.poll.Freeing? ==> PollCan(s, Free);
    assert s.poll.Submitting? && |s.downloadQueue| < 2 ==> PollCan(s, Submit);
  }

  lemma DownloadWaits(s: State)
    requires Inv(s)
    ensures DownloadMovable(s) <==>
              match s.download
              case DownloadIdle => s.downloadQueue != []
              case Fetching(_) => true
              case Reporting(_) => |s.reapQueue| < 4
              case Loaded(f) => s.files[f].parse ==> |s.parseQueue| < 2
              case CheckingSave(f) => s.files[f].save ==> |s.saveQueue| < 2
  {
    hide FileInv;
    hide PollInv;
    assert s.download.Fetching? ==> DownloadCan(s, Fetch(true));
    assert DownloadMovable(s) <==>
           || DownloadCan(s, Take) || s.download.Fetching? || DownloadCan(s, Report)
           || DownloadCan(s, DispatchParse) || DownloadCan(s, DispatchSave);
  }

  lemma WorkersWait(s: State)
    requires Inv(s)
    ensures ParseMovable(s) <==>
              match s.parse case Idle => s.parseQueue != [] case Working(_) => true case Sending(_) => |s.reapQueue| < 4
    ensures SaveMovable(s) <==>
              match s.save case Idle => s.saveQueue != [] case Working(_) => true case Sending(_) => |s.reapQueue| < 4
  {
    hide FileInv;
    hide PollInv;
    assert s.parse.Working? ==> ParseCan(s, Work(true));
    assert s.save.Working? ==> SaveCan(s, Work(true));
    assert ParseMovable(s) <==> ParseCan(s, Receive) || s.parse.Working? || ParseCan(s, Send);
    assert SaveMovable(s) <==> SaveCan(s, Receive) || s.save.Working? || SaveCan(s, Send);
  }

  lemma ReapWaits(s: State)
    requires Inv(s)
    ensures ReapMovable(s) <==> !(s.reap.ReapIdle? && s.reapQueue == [])
  {
    if s.reap.Received? { ReceivedHasCount(s, s.reap.file); }
    hide FileInv;
    hide PollInv;
    assert ReapMovable(s) <==>
           ReapCan(s, Collect) || ReapCan(s, Count) || ReapCan(s, Finalise) || ReapCan(s, Uncount);
  }

  lemma ReceivedHasCount(s: State, f: nat)
    requires Inv(s) && f < |s.files| && s.reap == Received(f)
    ensures s.files[f].refCount > 0
  {
    assert FileInv(ViewOf(s, f));
  }

  /** What the environment does is not foreseen: a file appears or not, and each download and each write may fail. */
  lemma ChoicesAreFree(s: State, ok: bool, acq: Acquisition)
    requires Inv(s)
    ensures s.poll.PollIdle? ==> Enabled(s, Poll(Accept(acq)))
    ensures s.poll.Looking? && s.poll.i < |s.files| && s.poll.retries <= 2 ==>
              Enabled(s, Poll(Find)) && Enabled(s, Poll(Miss(ok)))
    ensures s.download.Fetching? ==> Enabled(s, Download(Fetch(ok)))
    ensures s.parse.Working? ==> Enabled(s, Parse(Work(ok)))
    ensures s.save.Working? ==> Enabled(s, Save(Work(ok)))
  {
    hide FileInv;
    hide PollInv;
  }

  // ----- acquisitions -----

  lemma NothingWithin(queue: seq<nat>, capacity: nat, n: nat)
    requires Within(queue, capacity, n)
    ensures n == 0 ==> queue == []
  {
    if queue != [] {
      var first := queue[0];
      assert first < n;
    }
  }

  lemma IdleIsQuiet(s: State)
    requires Inv(s) && s.poll.PollIdle?
    ensures Quiet(s)
  {
    NothingWithin(s.downloadQueue, CAPACITY, |s.files|);
    NothingWithin(s.parseQueue, CAPACITY, |s.files|);
    NothingWithin(s.saveQueue, CAPACITY, |s.files|);
    NothingWithin(s.reapQueue, REAP_CAPACITY, |s.files|);
  }

  /** A file that nothing has happened to yet. */
  predicate Untouched(file: File) {
    && file.stage.Waiting? && file.refCount == Wants(file) && file.data.Absent?
    && !file.saved && !file.saveFailed && !file.downloadFailed && !file.deleted
  }

  lemma UntouchedHolds(v: View)
    requires Untouched(v.file)
    requires !v.submitting && v.download.DownloadIdle? && v.parse.Idle? && v.save.Idle? && v.reap.ReapIdle?
    requires v.toDownload == v.toParse == v.toSave == v.toReap == 0
    ensures FileInv(v)
  {
  }

  /** An acquisition starts from where everything holds: no task and no queue holds a file. */
  lemma AcceptKeeps(s: State, acq: Acquisition)
    requires Inv(s) && s.poll.PollIdle?
    ensures Inv(PollStep(s, Accept(acq)))
  {
    hide FileInv;
    hide ViewOf;
    hide NewFile;
    hide Untouched;
    var next := PollStep(s, Accept(acq));
    IdleIsQuiet(s);
    forall f | 0 <= f < |next.files|
      ensures next.files[f].stage.Waiting? && FileInv(ViewOf(next, f))
    {
      NewFileUntouched(acq, f == 0);
      QuietView(next, f);
      UntouchedHolds(ViewOf(next, f));
    }
    NoneCounted(next.files);
  }

  lemma NewFileUntouched(acq: Acquisition, isMaster: bool)
    ensures Untouched(NewFile(acq, isMaster)) && NewFile(acq, isMaster).stage.Waiting?
  {
  }

  lemma QuietView(s: State, f: nat)
    requires Quiet(s) && f < |s.files| && !s.poll.Submitting?
    ensures var v := ViewOf(s, f);
            && v.file == s.files[f] && !v.submitting && v.download.DownloadIdle? && v.parse.Idle? && v.save.Idle?
            && v.reap.ReapIdle?
            && v.toDownload == v.toParse == v.toSave == v.toReap == 0
  {
  }

  /** Every step keeps the invariant, provided that the file array is only freed when no task holds a file. */
  lemma StepKeeps(s: State, a: Action)
    requires Inv(s) && Enabled(s, a)
    requires a == Poll(Free) ==> Quiet(s)
    ensures Inv(Step(s, a))
  {
    if a.Poll? && a.p.Accept? {
      AcceptKeeps(s, a.p.acq);
    } else if a.Poll? && a.p.Free? {
    } else {
      BoundsKept(s, a);
      PollKept(s, a);
      CountKept(s, a);
      FilesKept(s, a);
      forall f | 0 <= f < |s.files| ensures FileInv(ViewOf(Step(s, a), f)) { FileKept(s, a, f); }
    }
  }
}
