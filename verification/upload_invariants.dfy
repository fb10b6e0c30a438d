/** What the upload queue keeps true across events: the bound on the
    active count (for every event), the shape of the task list and queue
    (for every event), the order of the queue (for every event), that no
    file waits while a slot is free (for every event), and the
    agreement between the slot counter and the rows that hold a slot (for
    events a transport that reports each upload's end exactly once can
    produce). */
module UploadInvariants {
  import opened Options
  import opened Subsequences
  import opened UploadQueue

  // ---------------------------------------------------------------------
  // The active count never exceeds the limit

  lemma {:induction false} SubmitAllWithinLimit(s: Uploads, files: seq<string>)
    requires s.active <= s.limit
    ensures SubmitAll(s, files).active <= s.limit
    decreases |files|
  {
    if |files| > 0 {
      SubmitAllWithinLimit(SubmitFile(s, files[0]), files[1..]);
    }
  }

  /** Every event keeps `activeUploads <= maxConcurrentFiles`: the counter
      is raised only under `activeUploads < maxConcurrentFiles`. */
  lemma ActiveBoundPreserved(s: Uploads, e: Event)
    requires s.active <= s.limit
    ensures Step(s, e).active <= s.limit
  {
    if e.Submit? && e.hasDataset {
      SubmitAllWithinLimit(s, e.files);
    }
  }

  /** Over any trace of events, from any state within the limit. */
  lemma {:induction false} ActiveNeverExceedsLimit(s: Uploads, events: seq<Event>)
    requires s.active <= s.limit
    ensures Run(s, events).active <= s.limit
    decreases |events|
  {
    if |events| > 0 {
      ActiveBoundPreserved(s, events[0]);
      ActiveNeverExceedsLimit(Step(s, events[0]), events[1..]);
    }
  }

  // ---------------------------------------------------------------------
  // Shape of the task list and the queue

  /** Row keys are unique, queued names are unique, and no queued name has
      a row. */
  ghost predicate WellFormed(s: Uploads)
  {
    && PathsDistinct(s.tasks)
    && Distinct(s.queue)
    && (forall x :: x in s.queue ==> !HasTask(s.tasks, x))
  }

  lemma HasTaskCons(t: Task, tasks: seq<Task>, y: string)
    ensures HasTask([t] + tasks, y) <==> t.filePath == y || HasTask(tasks, y)
  {
    var ts := [t] + tasks;
    if HasTask(tasks, y) {
      var j :| 0 <= j < |tasks| && tasks[j].filePath == y;
      assert ts[j + 1].filePath == y;
    }
    if HasTask(ts, y) && t.filePath != y {
      var j :| 0 <= j < |ts| && ts[j].filePath == y;
      assert tasks[j - 1].filePath == y;
    }
    assert ts[0] == t;
  }

  lemma RemoveTasksHasOnly(tasks: seq<Task>, name: string, y: string)
    ensures HasTask(RemoveTasks(tasks, name), y) ==> HasTask(tasks, y)
  {
    var r := RemoveTasks(tasks, name);
    if HasTask(r, y) {
      var i :| 0 <= i < |r| && r[i].filePath == y;
      assert r[i] in tasks;
      var j :| 0 <= j < |tasks| && tasks[j] == r[i];
    }
  }

  lemma UpdatePreservesPaths(tasks: seq<Task>, i: int, t: Task)
    requires 0 <= i < |tasks| && t.filePath == tasks[i].filePath
    ensures PathsDistinct(tasks) ==> PathsDistinct(tasks[i := t])
    ensures forall y :: HasTask(tasks[i := t], y) <==> HasTask(tasks, y)
  {
    var u := tasks[i := t];
    forall y
      ensures HasTask(u, y) <==> HasTask(tasks, y)
    {
      if HasTask(tasks, y) {
        var j :| 0 <= j < |tasks| && tasks[j].filePath == y;
        assert u[j].filePath == y;
      }
      if HasTask(u, y) {
        var j :| 0 <= j < |u| && u[j].filePath == y;
        assert tasks[j].filePath == y;
      }
    }
  }

  lemma StartUploadWellFormed(s: Uploads, name: string)
    requires PathsDistinct(s.tasks) && Distinct(s.queue)
    requires forall x :: x in s.queue ==> !HasTask(s.tasks, x)
    requires !HasTask(s.tasks, name)
    ensures WellFormed(StartUpload(s, name))
  {
    var r := StartUpload(s, name);
    forall x | x in r.queue
      ensures !HasTask(r.tasks, x)
    {
      HasTaskCons(InitialTask(name), s.tasks, x);
    }
    forall i, j | 0 <= i < j < |r.tasks|
      ensures r.tasks[i].filePath != r.tasks[j].filePath
    {
      if i == 0 {
        assert r.tasks[j] == s.tasks[j - 1];
      } else {
        assert r.tasks[i] == s.tasks[i - 1] && r.tasks[j] == s.tasks[j - 1];
      }
    }
  }

  lemma ProcessNextWellFormed(s: Uploads)
    requires WellFormed(s)
    ensures WellFormed(ProcessNextQueuedUpload(s))
  {
    if |s.queue| > 0 && s.active < s.limit {
      var tail := s.queue[1..];
      assert forall k :: 0 <= k < |tail| ==> tail[k] == s.queue[k + 1];
      StartUploadWellFormed(s.(queue := tail, active := s.active + 1), s.queue[0]);
    }
  }

  lemma OnUploadCompleteWellFormed(s: Uploads)
    requires WellFormed(s)
    ensures WellFormed(OnUploadComplete(s))
  {
    ProcessNextWellFormed(s.(active := s.active - 1));
  }

  /** After `cancelExistingUpload` no row, queue entry or subscription of
      that name is left; a slot is released exactly when a row of that name
      held one, and a merely queued name releases nothing. */
  lemma CancelClearsName(s: Uploads, name: string)
    requires WellFormed(s)
    ensures var r := CancelExistingUpload(s, name);
      && WellFormed(r)
      && !HasTask(r.tasks, name)
      && name !in r.queue
      && name !in r.subscriptions
      && (HasActiveTask(s.tasks, name) ==> r.active + |r.queue| == s.active + |s.queue| - 1)
      && (!HasActiveTask(s.tasks, name) ==> r.active == s.active)
  {
    var wasActive := HasActiveTask(s.tasks, name);
    var s1 := s.(subscriptions := s.subscriptions - {name}, tasks := RemoveTasks(s.tasks, name));
    forall x | x in s1.queue
      ensures !HasTask(s1.tasks, x)
    {
      RemoveTasksHasOnly(s.tasks, name, x);
    }
    assert WellFormed(s1);
    var s2 := if wasActive then OnUploadComplete(s1) else s1;
    if wasActive {
      OnUploadCompleteWellFormed(s1);
      assert HasTask(s.tasks, name);
      assert name !in s.queue;
      if s2.active == s1.active {
        HasTaskCons(InitialTask(s1.queue[0]), s1.tasks, name);
      }
      assert name !in s2.queue;
    }
    assert !HasTask(s2.tasks, name);
    var r := s2.(queue := RemoveAll(s2.queue, name));
    assert r == CancelExistingUpload(s, name);
  }

  lemma AdmitWellFormed(c: Uploads, name: string)
    requires WellFormed(c) && !HasTask(c.tasks, name) && name !in c.queue
    ensures WellFormed(Admit(c, name))
  {
    if c.active < c.limit {
      StartUploadWellFormed(c.(active := c.active + 1), name);
    }
  }

  lemma SubmitFileWellFormed(s: Uploads, name: string)
    requires WellFormed(s)
    ensures WellFormed(SubmitFile(s, name))
  {
    CancelClearsName(s, name);
    AdmitWellFormed(CancelExistingUpload(s, name), name);
  }

  lemma {:induction false} SubmitAllWellFormed(s: Uploads, files: seq<string>)
    requires WellFormed(s)
    ensures WellFormed(SubmitAll(s, files))
    decreases |files|
  {
    if |files| > 0 {
      SubmitFileWellFormed(s, files[0]);
      SubmitAllWellFormed(SubmitFile(s, files[0]), files[1..]);
    }
  }

  lemma UpdateWellFormed(s: Uploads, i: int, t: Task)
    requires WellFormed(s) && 0 <= i < |s.tasks| && t.filePath == s.tasks[i].filePath
    ensures WellFormed(s.(tasks := s.tasks[i := t]))
  {
    UpdatePreservesPaths(s.tasks, i, t);
  }

  lemma OnProgressWellFormed(s: Uploads, name: string, p: Progress)
    requires WellFormed(s)
    ensures WellFormed(OnProgress(s, name, p))
  {
    var i := FindTask(s.tasks, name);
    if i != -1 {
      var merged := Merge(s.tasks[i], p);
      UpdateWellFormed(s, i, merged);
      var s1 := s.(tasks := s.tasks[i := merged]);
      if FinishesWithTime(p) {
        OnUploadCompleteWellFormed(s1.(uploadTimes := s1.uploadTimes[LastSegment(name) := p.totalTime.value],
                                       changeNotices := s1.changeNotices + 1,
                                       subscriptions := s1.subscriptions - {merged.filePath}));
      }
    }
  }

  lemma OnErrorWellFormed(s: Uploads, name: string)
    requires WellFormed(s)
    ensures WellFormed(OnError(s, name))
  {
    var i := FindTask(s.tasks, name);
    if i == -1 {
      OnUploadCompleteWellFormed(s);
    } else {
      var aborted := s.tasks[i].(percentage := 100, status := Aborted);
      UpdateWellFormed(s, i, aborted);
      OnUploadCompleteWellFormed(s.(tasks := s.tasks[i := aborted], subscriptions := s.subscriptions - {name}));
    }
  }

  lemma OnCompleteWellFormed(s: Uploads, name: string)
    requires WellFormed(s)
    ensures WellFormed(OnComplete(s, name))
  {
    var i := FindTask(s.tasks, name);
    if i != -1 && s.tasks[i].status != Finished {
      var finished := s.tasks[i].(status := Finished);
      UpdateWellFormed(s, i, finished);
      OnUploadCompleteWellFormed(s.(tasks := s.tasks[i := finished],
                                    changeNotices := s.changeNotices + 1,
                                    subscriptions := s.subscriptions - {name}));
    }
  }

  lemma OnAbortClickedWellFormed(s: Uploads, task: Task)
    requires WellFormed(s)
    ensures WellFormed(OnAbortClicked(s, task))
  {
    var s1 := s.(subscriptions := s.subscriptions - {task.filePath});
    if IsActive(task.status) {
      OnUploadCompleteWellFormed(s1);
    }
    var s2 := if IsActive(task.status) then OnUploadComplete(s1) else s1;
    var s3 := s2.(abortRequests := s2.abortRequests + [AbortRequest(task.filePath, task.uploadId, task.physicalAddress)]);
    forall x | x in s3.queue
      ensures !HasTask(RemoveTasks(s3.tasks, task.filePath), x)
    {
      RemoveTasksHasOnly(s3.tasks, task.filePath, x);
    }
  }

  lemma OnHideFiredWellFormed(s: Uploads, key: string)
    requires WellFormed(s)
    ensures WellFormed(OnHideFired(s, key))
  {
    forall x | x in s.queue
      ensures !HasTask(RemoveTasks(s.tasks, key), x)
    {
      RemoveTasksHasOnly(s.tasks, key, x);
    }
  }

  /** Every event keeps row keys unique, queued names unique and the queue
      disjoint from the rows. */
  lemma WellFormedPreserved(s: Uploads, e: Event)
    requires WellFormed(s)
    ensures WellFormed(Step(s, e))
  {
    match e
    case Submit(hasDataset, files) => if hasDataset { SubmitAllWellFormed(s, files); }
    case Next(name, p) => OnProgressWellFormed(s, name, p);
    case Error(name) => OnErrorWellFormed(s, name);
    case Complete(name) => OnCompleteWellFormed(s, name);
    case AbortClicked(task) => OnAbortClickedWellFormed(s, task);
    case HideFired(key) => OnHideFiredWellFormed(s, key);
  }

  // ---------------------------------------------------------------------
  // The queue is first-in first-out

  /** The names an event appends to the queue, in order, at most. */
  function Submitted(e: Event): seq<string>
  {
    if e.Submit? && e.hasDataset then e.files else []
  }

  lemma SubmitFileQueueOrder(s: Uploads, name: string)
    ensures Subseq(SubmitFile(s, name).queue, s.queue + [name])
  {
    var c := CancelExistingUpload(s, name);
    if c.active < c.limit {
      SubseqExtend(c.queue, s.queue, name);
    } else {
      SubseqSnoc(c.queue, s.queue, name);
    }
  }

  lemma {:induction false} SubmitAllQueueOrder(s: Uploads, files: seq<string>)
    ensures Subseq(SubmitAll(s, files).queue, s.queue + files)
    decreases |files|
  {
    if |files| == 0 {
      SubseqRefl(s.queue);
      assert s.queue + files == s.queue;
    } else {
      var s' := SubmitFile(s, files[0]);
      SubmitAllQueueOrder(s', files[1..]);
      SubmitFileQueueOrder(s, files[0]);
      ChainQueueOrder(SubmitAll(s', files[1..]).queue, s'.queue, s.queue, files);
    }
  }

  lemma ChainQueueOrder(q: seq<string>, mid: seq<string>, before: seq<string>, files: seq<string>)
    requires |files| > 0
    requires Subseq(mid, before + [files[0]])
    requires Subseq(q, mid + files[1..])
    ensures Subseq(q, before + files)
  {
    SubseqAppend(mid, before + [files[0]], files[1..]);
    assert before + [files[0]] + files[1..] == before + files;
    SubseqTrans(q, mid + files[1..], before + files);
  }

  /** No event reorders the queue: the queue afterwards is the queue before
      followed by the newly submitted names, with some entries deleted.
      Together with `OnUploadComplete`, which only ever starts the head,
      queued files start in submission order. */
  lemma QueueOrderPreserved(s: Uploads, e: Event)
    ensures Subseq(Step(s, e).queue, s.queue + Submitted(e))
  {
    assert s.queue + [] == s.queue;
    match e
    case Submit(hasDataset, files) =>
      if hasDataset { SubmitAllQueueOrder(s, files); } else { SubseqRefl(s.queue); }
    case Next(name, p) =>
    case Error(name) =>
    case Complete(name) =>
    case AbortClicked(task) =>
    case HideFired(key) =>
  }

  // ---------------------------------------------------------------------
  // No file waits while a slot is free

  /** Whenever a file waits, every slot is taken. Admission starts a file at
      once only under a free slot, so under this invariant a newly
      submitted file never starts ahead of one that is already waiting. */
  predicate NoneWaitsForFreeSlot(s: Uploads)
  {
    |s.queue| > 0 ==> s.active >= s.limit
  }

  lemma ReleaseKeepsNoneWaiting(s: Uploads)
    requires NoneWaitsForFreeSlot(s)
    ensures NoneWaitsForFreeSlot(OnUploadComplete(s))
  {
  }

  lemma CancelKeepsNoneWaiting(s: Uploads, name: string)
    requires NoneWaitsForFreeSlot(s)
    ensures NoneWaitsForFreeSlot(CancelExistingUpload(s, name))
  {
  }

  lemma SubmitFileKeepsNoneWaiting(s: Uploads, name: string)
    requires NoneWaitsForFreeSlot(s)
    ensures NoneWaitsForFreeSlot(SubmitFile(s, name))
  {
  }

  lemma {:induction false} SubmitAllKeepsNoneWaiting(s: Uploads, files: seq<string>)
    requires NoneWaitsForFreeSlot(s)
    ensures NoneWaitsForFreeSlot(SubmitAll(s, files))
    decreases |files|
  {
    if |files| > 0 {
      SubmitFileKeepsNoneWaiting(s, files[0]);
      SubmitAllKeepsNoneWaiting(SubmitFile(s, files[0]), files[1..]);
    }
  }

  lemma OnProgressKeepsNoneWaiting(s: Uploads, name: string, p: Progress)
    requires NoneWaitsForFreeSlot(s)
    ensures NoneWaitsForFreeSlot(OnProgress(s, name, p))
  {
  }

  lemma OnErrorKeepsNoneWaiting(s: Uploads, name: string)
    requires NoneWaitsForFreeSlot(s)
    ensures NoneWaitsForFreeSlot(OnError(s, name))
  {
  }

  lemma OnCompleteKeepsNoneWaiting(s: Uploads, name: string)
    requires NoneWaitsForFreeSlot(s)
    ensures NoneWaitsForFreeSlot(OnComplete(s, name))
  {
  }

  lemma OnAbortClickedKeepsNoneWaiting(s: Uploads, task: Task)
    requires NoneWaitsForFreeSlot(s)
    ensures NoneWaitsForFreeSlot(OnAbortClicked(s, task))
  {
  }

  /** Every event keeps the invariant, whatever the transport reports and
      whenever the hide timer fires. */
  lemma NoneWaitingPreserved(s: Uploads, e: Event)
    requires NoneWaitsForFreeSlot(s)
    ensures NoneWaitsForFreeSlot(Step(s, e))
  {
    match e
    case Submit(hasDataset, files) =>
      if hasDataset { SubmitAllKeepsNoneWaiting(s, files); }
    case Next(name, p) => OnProgressKeepsNoneWaiting(s, name, p);
    case Error(name) => OnErrorKeepsNoneWaiting(s, name);
    case Complete(name) => OnCompleteKeepsNoneWaiting(s, name);
    case AbortClicked(task) => OnAbortClickedKeepsNoneWaiting(s, task);
    case HideFired(key) =>
  }

  /** Over any trace of events. */
  lemma {:induction false} NoneWaitingOverRun(s: Uploads, events: seq<Event>)
    requires NoneWaitsForFreeSlot(s)
    ensures NoneWaitsForFreeSlot(Run(s, events))
    decreases |events|
  {
    if |events| > 0 {
      NoneWaitingPreserved(s, events[0]);
      NoneWaitingOverRun(Step(s, events[0]), events[1..]);
    }
  }

  /** The consequence for a new file: while any file waits, a submitted
      file is not started but appended behind every waiting one, even when
      its own cancellation gives a slot back (that slot goes to the queue
      head). For a name that held no slot, nothing else changes apart from
      its old rows and queue entries. */
  lemma NewFileQueuesBehindWaiting(s: Uploads, name: string)
    requires NoneWaitsForFreeSlot(s)
    ensures var c := CancelExistingUpload(s, name); var r := SubmitFile(s, name);
      |s.queue| > 0 ==> r.active == c.active && r.tasks == c.tasks && r.queue == c.queue + [name]
    ensures var r := SubmitFile(s, name);
      |s.queue| > 0 && !HasActiveTask(s.tasks, name) ==>
        && r.active == s.active
        && r.tasks == RemoveTasks(s.tasks, name)
        && r.queue == RemoveAll(s.queue, name) + [name]
  {
  }

  // ---------------------------------------------------------------------
  // The slot counter agrees with the rows that hold a slot

  /** 1 if the row holds a slot. */
  function Held(t: Task): nat
  {
    if IsActive(t.status) then 1 else 0
  }

  /** The number of rows in `initializing` or `uploading`. */
  function ActiveTaskCount(tasks: seq<Task>): nat
    decreases |tasks|
  {
    if |tasks| == 0 then 0 else Held(tasks[0]) + ActiveTaskCount(tasks[1..])
  }

  predicate SlotsMatch(s: Uploads)
  {
    s.active == ActiveTaskCount(s.tasks)
  }

  lemma CountCons(t: Task, tasks: seq<Task>)
    ensures ActiveTaskCount([t] + tasks) == Held(t) + ActiveTaskCount(tasks)
  {
    assert ([t] + tasks)[1..] == tasks;
  }

  lemma {:induction false} CountRemoveTasks(tasks: seq<Task>, name: string)
    requires PathsDistinct(tasks)
    ensures ActiveTaskCount(RemoveTasks(tasks, name))
         == ActiveTaskCount(tasks) - (if HasActiveTask(tasks, name) then 1 else 0)
    decreases |tasks|
  {
    if |tasks| > 0 {
      var rest := tasks[1..];
      assert forall j :: 0 <= j < |rest| ==> rest[j] == tasks[j + 1];
      assert PathsDistinct(rest);
      CountRemoveTasks(rest, name);
      assert HasActiveTask(rest, name) ==> HasActiveTask(tasks, name) by {
        if HasActiveTask(rest, name) {
          var j :| 0 <= j < |rest| && rest[j].filePath == name && IsActive(rest[j].status);
          assert tasks[j + 1] == rest[j];
        }
      }
      if tasks[0].filePath == name {
        assert !HasTask(rest, name);
        assert HasActiveTask(tasks, name) <==> IsActive(tasks[0].status);
      } else {
        assert HasActiveTask(tasks, name) ==> HasActiveTask(rest, name) by {
          if HasActiveTask(tasks, name) {
            var j :| 0 <= j < |tasks| && tasks[j].filePath == name && IsActive(tasks[j].status);
            assert rest[j - 1] == tasks[j];
          }
        }
        CountCons(tasks[0], RemoveTasks(rest, name));
      }
    }
  }

  lemma {:induction false} CountUpdate(tasks: seq<Task>, i: int, t: Task)
    requires 0 <= i < |tasks|
    ensures ActiveTaskCount(tasks[i := t]) == ActiveTaskCount(tasks) - Held(tasks[i]) + Held(t)
    decreases i
  {
    if i == 0 {
      assert tasks[i := t][1..] == tasks[1..];
    } else {
      CountUpdate(tasks[1..], i - 1, t);
      assert tasks[i := t][1..] == tasks[1..][i - 1 := t];
    }
  }

  /** With unique keys, the row `findIndex` finds decides the `some`
      check of a cancel. */
  lemma FoundTaskDecides(tasks: seq<Task>, name: string)
    requires PathsDistinct(tasks) && HasTask(tasks, name)
    ensures HasActiveTask(tasks, name) <==> IsActive(tasks[FindTask(tasks, name)].status)
  {
    var i := FindTask(tasks, name);
    if HasActiveTask(tasks, name) {
      var j :| 0 <= j < |tasks| && tasks[j].filePath == name && IsActive(tasks[j].status);
      assert i == j;
    }
  }

  lemma ListedTaskDecides(tasks: seq<Task>, task: Task)
    requires PathsDistinct(tasks) && task in tasks
    ensures HasActiveTask(tasks, task.filePath) <==> IsActive(task.status)
  {
    var i :| 0 <= i < |tasks| && tasks[i] == task;
    if HasActiveTask(tasks, task.filePath) {
      var j :| 0 <= j < |tasks| && tasks[j].filePath == task.filePath && IsActive(tasks[j].status);
      assert i == j;
    }
  }

  /** A state with exactly one slot too many is put right by one release. */
  lemma ReleaseRestoresMatch(s: Uploads)
    requires s.active == ActiveTaskCount(s.tasks) + 1
    ensures SlotsMatch(OnUploadComplete(s))
  {
    var r := OnUploadComplete(s);
    if r.active == s.active {
      CountCons(InitialTask(s.queue[0]), s.tasks);
    }
  }

  lemma CancelKeepsMatch(s: Uploads, name: string)
    requires WellFormed(s) && SlotsMatch(s)
    ensures SlotsMatch(CancelExistingUpload(s, name))
  {
    var s1 := s.(subscriptions := s.subscriptions - {name}, tasks := RemoveTasks(s.tasks, name));
    CountRemoveTasks(s.tasks, name);
    if HasActiveTask(s.tasks, name) {
      ReleaseRestoresMatch(s1);
    }
  }

  lemma SubmitFileKeepsMatch(s: Uploads, name: string)
    requires WellFormed(s) && SlotsMatch(s)
    ensures SlotsMatch(SubmitFile(s, name))
  {
    CancelKeepsMatch(s, name);
    var c := CancelExistingUpload(s, name);
    if c.active < c.limit {
      CountCons(InitialTask(name), c.tasks);
    }
  }

  lemma {:induction false} SubmitAllKeepsMatch(s: Uploads, files: seq<string>)
    requires WellFormed(s) && SlotsMatch(s)
    ensures SlotsMatch(SubmitAll(s, files))
    decreases |files|
  {
    if |files| > 0 {
      SubmitFileKeepsMatch(s, files[0]);
      SubmitFileWellFormed(s, files[0]);
      SubmitAllKeepsMatch(SubmitFile(s, files[0]), files[1..]);
    }
  }

  /** A progress payload that keeps the row active or finishes it with a
      total time, the two shapes the `next` handler accounts for. */
  predicate WellBehavedProgress(p: Progress)
  {
    p.status.None? || IsActive(p.status.value) || FinishesWithTime(p)
  }

  /** The events a transport produces when it reports each upload's end
      exactly once (by one finishing payload, one error, or one
      completion) and a hide timer that fires only for a row that is no
      longer active. */
  ghost predicate WellBehaved(s: Uploads, e: Event)
  {
    match e
    case Submit(_, _) => true
    case Next(name, p) => !HasTask(s.tasks, name) || (HasActiveTask(s.tasks, name) && WellBehavedProgress(p))
    case Error(name) => HasActiveTask(s.tasks, name)
    case Complete(name) => !HasTask(s.tasks, name) || s.tasks[FindTask(s.tasks, name)].status != Aborted
    case AbortClicked(task) => task in s.tasks
    case HideFired(key) => !HasActiveTask(s.tasks, key)
  }

  lemma OnProgressKeepsMatch(s: Uploads, name: string, p: Progress)
    requires WellFormed(s) && SlotsMatch(s) && WellBehaved(s, Next(name, p))
    ensures SlotsMatch(OnProgress(s, name, p))
  {
    var i := FindTask(s.tasks, name);
    if i != -1 {
      FoundTaskDecides(s.tasks, name);
      var merged := Merge(s.tasks[i], p);
      CountUpdate(s.tasks, i, merged);
      var s1 := s.(tasks := s.tasks[i := merged]);
      if FinishesWithTime(p) {
        ReleaseRestoresMatch(s1.(uploadTimes := s1.uploadTimes[LastSegment(name) := p.totalTime.value],
                                 changeNotices := s1.changeNotices + 1,
                                 subscriptions := s1.subscriptions - {merged.filePath}));
      }
    }
  }

  lemma OnErrorKeepsMatch(s: Uploads, name: string)
    requires WellFormed(s) && SlotsMatch(s) && WellBehaved(s, Error(name))
    ensures SlotsMatch(OnError(s, name))
  {
    var i := FindTask(s.tasks, name);
    FoundTaskDecides(s.tasks, name);
    var aborted := s.tasks[i].(percentage := 100, status := Aborted);
    CountUpdate(s.tasks, i, aborted);
    ReleaseRestoresMatch(s.(tasks := s.tasks[i := aborted], subscriptions := s.subscriptions - {name}));
  }

  lemma OnCompleteKeepsMatch(s: Uploads, name: string)
    requires WellFormed(s) && SlotsMatch(s) && WellBehaved(s, Complete(name))
    ensures SlotsMatch(OnComplete(s, name))
  {
    var i := FindTask(s.tasks, name);
    if i != -1 && s.tasks[i].status != Finished {
      var finished := s.tasks[i].(status := Finished);
      CountUpdate(s.tasks, i, finished);
      ReleaseRestoresMatch(s.(tasks := s.tasks[i := finished],
                              changeNotices := s.changeNotices + 1,
                              subscriptions := s.subscriptions - {name}));
    }
  }

  /** A row holding a slot still does so behind promoted rows. */
  lemma ActiveBehind(front: seq<Task>, tasks: seq<Task>, name: string)
    requires HasActiveTask(tasks, name)
    ensures HasActiveTask(front + tasks, name)
  {
    var j :| 0 <= j < |tasks| && tasks[j].filePath == name && IsActive(tasks[j].status);
    assert (front + tasks)[|front| + j] == tasks[j];
  }

  /** Dropping an active row from behind a promoted row. */
  lemma RemoveBehindPromoted(t: Task, tasks: seq<Task>, x: string)
    requires PathsDistinct([t] + tasks) && HasActiveTask(tasks, x)
    ensures ActiveTaskCount(RemoveTasks([t] + tasks, x)) == Held(t) + ActiveTaskCount(tasks) - 1
  {
    ActiveBehind([t], tasks, x);
    CountCons(t, tasks);
    CountRemoveTasks([t] + tasks, x);
  }

  /** Releasing the slot of an active row and then dropping that row keeps
      the counter in step. */
  lemma ReleaseThenRemoveMatch(s: Uploads, x: string)
    requires WellFormed(s) && SlotsMatch(s) && HasActiveTask(s.tasks, x)
    ensures var r := OnUploadComplete(s);
      ActiveTaskCount(RemoveTasks(r.tasks, x)) == r.active
  {
    var r := OnUploadComplete(s);
    if r.active == s.active {
      OnUploadCompleteWellFormed(s);
      assert HasTask(s.tasks, x);
      RemoveBehindPromoted(InitialTask(s.queue[0]), s.tasks, x);
    } else {
      CountRemoveTasks(s.tasks, x);
    }
  }

  lemma OnAbortClickedKeepsMatch(s: Uploads, task: Task)
    requires WellFormed(s) && SlotsMatch(s) && WellBehaved(s, AbortClicked(task))
    ensures SlotsMatch(OnAbortClicked(s, task))
  {
    ListedTaskDecides(s.tasks, task);
    var x := task.filePath;
    if IsActive(task.status) {
      ReleaseThenRemoveMatch(s.(subscriptions := s.subscriptions - {x}), x);
    } else {
      CountRemoveTasks(s.tasks, x);
    }
  }

  lemma OnHideFiredKeepsMatch(s: Uploads, key: string)
    requires WellFormed(s) && SlotsMatch(s) && WellBehaved(s, HideFired(key))
    ensures SlotsMatch(OnHideFired(s, key))
  {
    CountRemoveTasks(s.tasks, key);
  }

  /** For well-behaved events, `activeUploads` stays equal to the number of
      rows in `initializing` or `uploading`, and so never drops below 0. */
  lemma SlotsMatchPreserved(s: Uploads, e: Event)
    requires WellFormed(s) && SlotsMatch(s) && WellBehaved(s, e)
    ensures SlotsMatch(Step(s, e)) && Step(s, e).active >= 0
  {
    match e
    case Submit(hasDataset, files) => if hasDataset { SubmitAllKeepsMatch(s, files); }
    case Next(name, p) => OnProgressKeepsMatch(s, name, p);
    case Error(name) => OnErrorKeepsMatch(s, name);
    case Complete(name) => OnCompleteKeepsMatch(s, name);
    case AbortClicked(task) => OnAbortClickedKeepsMatch(s, task);
    case HideFired(key) => OnHideFiredKeepsMatch(s, key);
  }

  /** Every event of the trace is well-behaved in the state it meets. */
  ghost predicate WellBehavedRun(s: Uploads, events: seq<Event>)
    decreases |events|
  {
    |events| == 0 || (WellBehaved(s, events[0]) && WellBehavedRun(Step(s, events[0]), events[1..]))
  }

  /** From a fresh component, any well-behaved trace ends in a state whose
      counter matches its active rows, lies in 0..limit, has unique keys
      and a queue disjoint from the rows, and has no file waiting while a
      slot is free. */
  lemma {:induction false} WellBehavedRunInvariant(s: Uploads, events: seq<Event>)
    requires WellFormed(s) && SlotsMatch(s) && s.active <= s.limit && NoneWaitsForFreeSlot(s)
    requires WellBehavedRun(s, events)
    ensures var r := Run(s, events);
      WellFormed(r) && SlotsMatch(r) && 0 <= r.active <= r.limit && NoneWaitsForFreeSlot(r)
    decreases |events|
  {
    if |events| > 0 {
      SlotsMatchPreserved(s, events[0]);
      WellFormedPreserved(s, events[0]);
      ActiveBoundPreserved(s, events[0]);
      NoneWaitingPreserved(s, events[0]);
      WellBehavedRunInvariant(Step(s, events[0]), events[1..]);
    }
  }

  lemma InitialIsSound()
    ensures WellFormed(Initial()) && SlotsMatch(Initial()) && Initial().active <= Initial().limit
    ensures NoneWaitsForFreeSlot(Initial())
  {
  }

  /** What the read-only views report after any well-behaved trace from a
      fresh component: `activeCount` is the number of rows in progress and
      at most three, `queuedCount` matches `queuedFileNames`, the waiting
      names are distinct and have no row yet, and files wait only while all
      three slots are taken. */
  lemma ViewsAfterRun(events: seq<Event>)
    requires WellBehavedRun(Initial(), events)
    ensures var r := Run(Initial(), events);
      && ActiveCount(r) == ActiveTaskCount(r.tasks)
      && 0 <= ActiveCount(r) <= DefaultMaxConcurrentFiles
      && QueuedCount(r) == |QueuedFileNames(r)|
      && Distinct(QueuedFileNames(r))
      && (forall n :: n in QueuedFileNames(r) ==> !HasTask(r.tasks, n))
      && (QueuedCount(r) > 0 ==> ActiveCount(r) == DefaultMaxConcurrentFiles)
  {
    InitialIsSound();
    WellBehavedRunInvariant(Initial(), events);
  }

  /** A second hide timer for the same key finds nothing left to remove. */
  lemma HideIdempotent(s: Uploads, key: string)
    ensures OnHideFired(OnHideFired(s, key), key) == OnHideFired(s, key)
  {
  }
}
