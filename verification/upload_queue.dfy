/** The upload admission queue and task tracker of the dataset detail view:
    at most `limit` uploads hold a slot at a time, the overflow waits in a
    FIFO queue of file names, and the visible task list follows each
    upload's progress. Every handler is a pure function from the component
    state to the next state; the transport, the timers and the backend are
    outside the model and reach it only as events (see `Step`). */
module UploadQueue {
  import opened Options
  import opened Subsequences

  /** Default of `maxConcurrentFiles` before the setting has been read. */
  const DefaultMaxConcurrentFiles := 3

  datatype Status = Initializing | Uploading | Finished | Aborted

  /** The two non-terminal statuses; a task in one of them holds a slot. */
  predicate IsActive(st: Status)
  {
    st == Initializing || st == Uploading
  }

  /** One row of the visible task list, keyed by `filePath`. */
  datatype Task = Task(
    filePath: string,
    percentage: int,
    status: Status,
    uploadId: string,
    physicalAddress: string,
    totalTime: Option<int>)

  /** A progress payload from the transport. `None` is a property the
      payload does not carry; `Some` overrides the task's value. */
  datatype Progress = Progress(
    percentage: Option<int>,
    status: Option<Status>,
    uploadId: Option<string>,
    physicalAddress: Option<string>,
    totalTime: Option<int>)

  /** The finalize request with the abort flag set, sent on a user abort. */
  datatype AbortRequest = AbortRequest(filePath: string, uploadId: string, physicalAddress: string)

  /** The component state that the upload logic reads and writes.
      `subscriptions` is the key set of the subscription table,
      `uploadTimes` the per-file upload-time table, `changeNotices` the
      number of "user made changes" notifications emitted so far and
      `abortRequests` the abort requests sent to the backend, in order. */
  datatype Uploads = Uploads(
    active: int,
    limit: int,
    queue: seq<string>,
    tasks: seq<Task>,
    subscriptions: set<string>,
    uploadTimes: map<string, int>,
    changeNotices: nat,
    abortRequests: seq<AbortRequest>)

  /** A freshly constructed component: three slots, none held, nothing
      queued, listed, subscribed or timed. */
  function Initial(): (r: Uploads)
    ensures r.limit == 3 && r.active == 0
    ensures |r.queue| == 0 && |r.tasks| == 0 && |r.subscriptions| == 0
    ensures |r.uploadTimes| == 0 && r.changeNotices == 0 && |r.abortRequests| == 0
  {
    Uploads(0, DefaultMaxConcurrentFiles, [], [], {}, map[], 0, [])
  }

  /** The events the component reacts to, one at a time. */
  datatype Event =
    | Submit(hasDataset: bool, files: seq<string>)   // new files selected
    | Next(name: string, progress: Progress)         // transport progress
    | Error(name: string)                            // transport error
    | Complete(name: string)                         // transport completion
    | AbortClicked(task: Task)                       // user abort of a row
    | HideFired(key: string)                         // the 5 s hide timer

  // ---------------------------------------------------------------------
  // The task list

  predicate HasTask(tasks: seq<Task>, name: string)
  {
    exists i :: 0 <= i < |tasks| && tasks[i].filePath == name
  }

  /** Some task of that name holds a slot (the `some` check of a cancel). */
  predicate HasActiveTask(tasks: seq<Task>, name: string)
  {
    exists i :: 0 <= i < |tasks| && tasks[i].filePath == name && IsActive(tasks[i].status)
  }

  /** The page knows the name: it has a row or waits in the queue. */
  predicate Known(s: Uploads, name: string)
  {
    HasTask(s.tasks, name) || name in s.queue
  }

  /** `findIndex` on `filePath`: the first task of that name, or -1. */
  function FindTask(tasks: seq<Task>, name: string): (r: int)
    ensures -1 <= r < |tasks|
    ensures r == -1 <==> !HasTask(tasks, name)
    ensures r >= 0 ==> tasks[r].filePath == name
    ensures r >= 0 ==> forall j :: 0 <= j < r ==> tasks[j].filePath != name
    decreases |tasks|
  {
    if |tasks| == 0 then -1
    else if tasks[0].filePath == name then 0
    else
      var k := FindTask(tasks[1..], name);
      assert forall j :: 1 <= j < |tasks| ==> tasks[j] == tasks[1..][j - 1];
      if k == -1 then -1 else k + 1
  }

  /** `filter(t => t.filePath !== name)`. */
  function RemoveTasks(tasks: seq<Task>, name: string): (r: seq<Task>)
    ensures forall t :: t in r <==> t in tasks && t.filePath != name
    ensures !HasTask(r, name)
    ensures !HasTask(tasks, name) ==> r == tasks
    ensures PathsDistinct(tasks) ==> PathsDistinct(r)
    ensures Subseq(r, tasks)
    decreases |tasks|
  {
    if |tasks| == 0 then []
    else
      var rest := RemoveTasks(tasks[1..], name);
      var r := if tasks[0].filePath == name then rest else [tasks[0]] + rest;
      SubseqPrepend(rest, tasks[1..], tasks[0]);
      assert [tasks[0]] + tasks[1..] == tasks;
      RemoveTasksMembers(tasks, name, rest, r);
      RemoveTasksUnchanged(tasks, name, rest, r);
      RemoveTasksDistinct(tasks, name, rest, r);
      r
  }

  lemma RemoveTasksMembers(tasks: seq<Task>, name: string, rest: seq<Task>, r: seq<Task>)
    requires |tasks| > 0
    requires forall t :: t in rest <==> t in tasks[1..] && t.filePath != name
    requires r == if tasks[0].filePath == name then rest else [tasks[0]] + rest
    ensures forall t :: t in r <==> t in tasks && t.filePath != name
    ensures !HasTask(r, name)
  {
    assert tasks == [tasks[0]] + tasks[1..];
    assert forall i :: 0 <= i < |r| ==> r[i] in r;
  }

  lemma RemoveTasksUnchanged(tasks: seq<Task>, name: string, rest: seq<Task>, r: seq<Task>)
    requires |tasks| > 0
    requires !HasTask(tasks[1..], name) ==> rest == tasks[1..]
    requires r == if tasks[0].filePath == name then rest else [tasks[0]] + rest
    ensures !HasTask(tasks, name) ==> r == tasks
  {
    if !HasTask(tasks, name) {
      assert forall i :: 0 <= i < |tasks[1..]| ==> tasks[1..][i] == tasks[i + 1];
      assert tasks == [tasks[0]] + tasks[1..];
    }
  }

  lemma RemoveTasksDistinct(tasks: seq<Task>, name: string, rest: seq<Task>, r: seq<Task>)
    requires |tasks| > 0
    requires forall t :: t in rest ==> t in tasks[1..]
    requires PathsDistinct(tasks[1..]) ==> PathsDistinct(rest)
    requires r == if tasks[0].filePath == name then rest else [tasks[0]] + rest
    ensures PathsDistinct(tasks) ==> PathsDistinct(r)
  {
    if PathsDistinct(tasks) {
      assert PathsDistinct(tasks[1..]) by {
        forall i, j | 0 <= i < j < |tasks[1..]|
          ensures tasks[1..][i].filePath != tasks[1..][j].filePath
        {
          assert tasks[1..][i] == tasks[i + 1] && tasks[1..][j] == tasks[j + 1];
        }
      }
      if tasks[0].filePath != name {
        forall i, j | 0 <= i < j < |r|
          ensures r[i].filePath != r[j].filePath
        {
          if i == 0 {
            assert r[j] == rest[j - 1] && rest[j - 1] in rest;
            var k :| 0 <= k < |tasks[1..]| && tasks[1..][k] == r[j];
            assert tasks[k + 1] == r[j];
          } else {
            assert r[i] == rest[i - 1] && r[j] == rest[j - 1];
          }
        }
      }
    }
  }

  /** No two rows share a `filePath`. */
  predicate PathsDistinct(tasks: seq<Task>)
  {
    forall i, j :: 0 <= i < j < |tasks| ==> tasks[i].filePath != tasks[j].filePath
  }

  /** The placeholder row a starting upload puts at the front of the list. */
  function InitialTask(name: string): Task
  {
    Task(name, 0, Initializing, "", "", None)
  }

  /** Object spread of a progress payload over a task: the payload's
      properties win, the task keeps the others, and the percentage falls
      back to the task's previous one. */
  function Merge(t: Task, p: Progress): (r: Task)
    ensures r.filePath == t.filePath
    ensures p.percentage.Some? ==> r.percentage == p.percentage.value
    ensures p.percentage.None? ==> r.percentage == t.percentage
    ensures p.status.Some? ==> r.status == p.status.value
    ensures p.status.None? ==> r.status == t.status
    ensures p.uploadId.Some? ==> r.uploadId == p.uploadId.value
    ensures p.uploadId.None? ==> r.uploadId == t.uploadId
    ensures p.physicalAddress.Some? ==> r.physicalAddress == p.physicalAddress.value
    ensures p.physicalAddress.None? ==> r.physicalAddress == t.physicalAddress
    ensures p.totalTime.Some? ==> r.totalTime == p.totalTime
    ensures p.totalTime.None? ==> r.totalTime == t.totalTime
  {
    Task(t.filePath,
         p.percentage.GetOr(t.percentage),
         p.status.GetOr(t.status),
         p.uploadId.GetOr(t.uploadId),
         p.physicalAddress.GetOr(t.physicalAddress),
         if p.totalTime.Some? then p.totalTime else t.totalTime)
  }

  /** `progress.status === "finished" && progress.totalTime`: the status
      must be `finished`, and a missing or zero total time is falsy. */
  predicate FinishesWithTime(p: Progress): (r: bool)
    ensures p.status != Some(Finished) ==> !r
    ensures p.totalTime == None || p.totalTime == Some(0) ==> !r
    ensures p.status == Some(Finished) && p.totalTime.Some? && p.totalTime.value != 0 ==> r
  {
    p.status == Some(Finished) && p.totalTime.Some? && p.totalTime.value != 0
  }

  /** The part of a path after its last `/`; the whole path if it has none. */
  function AfterLastSlash(path: string): string
    decreases |path|
  {
    if |path| == 0 then ""
    else if path[|path| - 1] == '/' then ""
    else AfterLastSlash(path[..|path| - 1]) + [path[|path| - 1]]
  }

  /** `AfterLastSlash` is the slash-free suffix that follows the last `/`. */
  lemma {:induction false} AfterLastSlashShape(path: string)
    ensures var r := AfterLastSlash(path);
      && |r| <= |path|
      && r == path[|path| - |r|..]
      && '/' !in r
      && (|r| < |path| ==> path[|path| - |r| - 1] == '/')
    decreases |path|
  {
    if |path| > 0 && path[|path| - 1] != '/' {
      var init := path[..|path| - 1];
      AfterLastSlashShape(init);
      var rest := AfterLastSlash(init);
      assert path[|path| - |rest| - 1..] == init[|init| - |rest|..] + [path[|path| - 1]];
    }
  }

  /** `name.split("/").pop() || name`: the key of the upload-time table,
      the last path segment, or the whole name when that segment is empty. */
  function LastSegment(name: string): string
  {
    var seg := AfterLastSlash(name);
    if seg == "" then name else seg
  }

  /** The upload-time key is the whole name, or a non-empty, slash-free
      last segment that follows a `/`; a name without `/` is its own key. */
  lemma LastSegmentShape(name: string)
    ensures var r := LastSegment(name);
      && (r == name || ('/' !in r && 0 < |r| < |name| && r == name[|name| - |r|..] && name[|name| - |r| - 1] == '/'))
      && ('/' !in name ==> r == name)
  {
    AfterLastSlashShape(name);
  }

  // ---------------------------------------------------------------------
  // Admission and slot release

  /** The deferred start action of a file: drop every queue entry of that
      name and put an `initializing` row at the front of the list. The
      counter is not touched here; the caller has already taken the slot. */
  function StartUpload(s: Uploads, name: string): (r: Uploads)
    ensures r.tasks == [InitialTask(name)] + s.tasks
    ensures name !in r.queue && Subseq(r.queue, s.queue)
    ensures forall y :: y in r.queue <==> y in s.queue && y != name
    ensures name in r.subscriptions
    ensures r.active == s.active && r.limit == s.limit
  {
    s.(queue := RemoveAll(s.queue, name),
       tasks := [InitialTask(name)] + s.tasks,
       subscriptions := s.subscriptions + {name})
  }

  /** `processNextQueuedUpload`: with a free slot and a non-empty queue,
      take the head out of the queue, give it a slot and start it. */
  function ProcessNextQueuedUpload(s: Uploads): (r: Uploads)
    ensures r.limit == s.limit && Subseq(r.queue, s.queue)
    ensures |s.queue| > 0 && s.active < s.limit ==>
      && r.active == s.active + 1
      && r.tasks == [InitialTask(s.queue[0])] + s.tasks
      && r.queue == RemoveAll(s.queue[1..], s.queue[0])
    ensures !(|s.queue| > 0 && s.active < s.limit) ==> r == s
  {
    if |s.queue| > 0 && s.active < s.limit then
      SubseqTail(s.queue);
      var r := StartUpload(s.(queue := s.queue[1..], active := s.active + 1), s.queue[0]);
      SubseqTrans(r.queue, s.queue[1..], s.queue);
      r
    else
      SubseqRefl(s.queue);
      s
  }

  /** The row a release starts: the oldest waiting file when one waits and
      a slot is free after the decrement, otherwise none. */
  function Promoted(s: Uploads): seq<Task>
  {
    if |s.queue| > 0 && s.active - 1 < s.limit then [InitialTask(s.queue[0])] else []
  }

  /** Nor does a release bring in a name: a new row is the former queue
      head, and the queue only loses entries. */
  lemma ReleaseAddsNoName(s: Uploads, r: Uploads)
    requires r == ProcessNextQueuedUpload(s.(active := s.active - 1))
    ensures forall y :: Known(r, y) ==> Known(s, y)
  {
    forall y | Known(r, y)
      ensures Known(s, y)
    {
      if r.tasks == s.tasks {
        assert r == s.(active := s.active - 1);
      } else if y in r.queue {
        assert y in s.queue[1..];
      } else {
        var j :| 0 <= j < |r.tasks| && r.tasks[j].filePath == y;
        if j == 0 {
          assert y == s.queue[0];
        } else {
          assert r.tasks[j] == s.tasks[j - 1];
        }
      }
    }
  }

  /** `onUploadComplete`: give back one slot, then promote at most one
      queued file, always the oldest. */
  function OnUploadComplete(s: Uploads): (r: Uploads)
    ensures r.tasks == Promoted(s) + s.tasks
    ensures r.uploadTimes == s.uploadTimes && r.abortRequests == s.abortRequests
    ensures r.changeNotices == s.changeNotices
    ensures r.limit == s.limit && Subseq(r.queue, s.queue)
    ensures r.active == s.active || r.active == s.active - 1
    ensures r.active == s.active <==> |s.queue| > 0 && s.active - 1 < s.limit
    ensures r.active == s.active ==>
      && r.tasks == [InitialTask(s.queue[0])] + s.tasks
      && s.queue[0] !in r.queue
    ensures r.active == s.active - 1 ==> r.tasks == s.tasks && r.queue == s.queue
    ensures Distinct(s.queue) ==> r.active + |r.queue| == s.active + |s.queue| - 1
    ensures forall y :: Known(r, y) <==> Known(s, y)
  {
    var r := ProcessNextQueuedUpload(s.(active := s.active - 1));
    ReleaseKeepsKnown(s, r);
    ReleaseAddsNoName(s, r);
    r
  }

  /** A promoted name moves from the queue to a row; every other name keeps
      its row or its place in the queue. */
  lemma ReleaseKeepsKnown(s: Uploads, r: Uploads)
    requires r == ProcessNextQueuedUpload(s.(active := s.active - 1))
    ensures forall y :: Known(s, y) ==> Known(r, y)
  {
    forall y | Known(s, y)
      ensures Known(r, y)
    {
      if HasTask(s.tasks, y) {
        var j :| 0 <= j < |s.tasks| && s.tasks[j].filePath == y;
        assert r.tasks[|r.tasks| - |s.tasks| + j] == s.tasks[j];
      } else if r.tasks != s.tasks {
        if y == s.queue[0] {
          assert r.tasks[0].filePath == y;
        } else {
          assert y in s.queue[1..];
        }
      }
    }
  }

  /** `cancelExistingUpload`: forget the subscription and every row of that
      name, release a slot if one of those rows held it, then drop the
      name from the queue. */
  function CancelExistingUpload(s: Uploads, name: string): (r: Uploads)
    ensures r.limit == s.limit && name !in r.queue && Subseq(r.queue, s.queue)
    ensures forall t :: t in s.tasks && t.filePath != name ==> t in r.tasks
    ensures !HasActiveTask(s.tasks, name) ==>
      && r.active == s.active
      && r.tasks == RemoveTasks(s.tasks, name)
      && r.queue == RemoveAll(s.queue, name)
      && r.subscriptions == s.subscriptions - {name}
    ensures HasActiveTask(s.tasks, name) ==> r.active == s.active || r.active == s.active - 1
    ensures HasActiveTask(s.tasks, name) ==> r.tasks == Promoted(s) + RemoveTasks(s.tasks, name)
    ensures name !in s.queue ==> !HasTask(r.tasks, name)
    ensures HasActiveTask(s.tasks, name) && name !in s.queue && Distinct(s.queue) ==>
      r.active + |r.queue| == s.active + |s.queue| - 1
    ensures forall y :: y != name && Known(s, y) ==> Known(r, y)
  {
    var wasActive := HasActiveTask(s.tasks, name);
    var s1 := s.(subscriptions := s.subscriptions - {name}, tasks := RemoveTasks(s.tasks, name));
    var s2 := if wasActive then OnUploadComplete(s1) else s1;
    var r := s2.(queue := RemoveAll(s2.queue, name));
    CancelKeepsOthers(s, s1, name);
    ReleaseKeepsNameAway(s1, name);
    SubseqRefl(s.queue);
    SubseqTrans(r.queue, s2.queue, s.queue);
    r
  }

  /** Dropping the rows of `name` keeps every other name known. */
  lemma CancelKeepsOthers(s: Uploads, s1: Uploads, name: string)
    requires s1 == s.(subscriptions := s.subscriptions - {name}, tasks := RemoveTasks(s.tasks, name))
    ensures forall y :: y != name && Known(s, y) ==> Known(s1, y)
  {
    forall y | y != name && HasTask(s.tasks, y)
      ensures HasTask(s1.tasks, y)
    {
      var j :| 0 <= j < |s.tasks| && s.tasks[j].filePath == y;
      var k :| 0 <= k < |s1.tasks| && s1.tasks[k] == s.tasks[j];
    }
  }

  /** A release for a name that is neither listed nor queued does not bring
      the name back. */
  lemma ReleaseKeepsNameAway(s: Uploads, name: string)
    ensures !Known(s, name) ==> !Known(OnUploadComplete(s), name)
  {
  }

  /** The admission decision for one file: start it at once when a slot is
      free, otherwise append it to the tail of the queue. */
  function Admit(s: Uploads, name: string): (r: Uploads)
    requires name !in s.queue
    ensures r.limit == s.limit
    ensures s.active < s.limit ==>
      r.active == s.active + 1 && r.tasks == [InitialTask(name)] + s.tasks && r.queue == s.queue
    ensures s.active >= s.limit ==>
      r.active == s.active && r.tasks == s.tasks && r.queue == s.queue + [name]
    ensures Known(r, name)
    ensures forall y :: Known(s, y) ==> Known(r, y)
  {
    if s.active < s.limit then
      var r := StartUpload(s.(active := s.active + 1), name);
      PrependKeepsKnown(s, r, InitialTask(name));
      r
    else
      assert (s.queue + [name])[|s.queue|] == name;
      s.(queue := s.queue + [name])
  }

  /** A new row in front keeps every row, and the queue is unchanged. */
  lemma PrependKeepsKnown(s: Uploads, r: Uploads, t: Task)
    requires r.tasks == [t] + s.tasks && r.queue == s.queue
    ensures Known(r, t.filePath)
    ensures forall y :: Known(s, y) ==> Known(r, y)
  {
    assert r.tasks[0] == t;
    forall y | HasTask(s.tasks, y)
      ensures HasTask(r.tasks, y)
    {
      var j :| 0 <= j < |s.tasks| && s.tasks[j].filePath == y;
      assert r.tasks[j + 1] == s.tasks[j];
    }
  }

  /** One file of a submitted batch: cancel-then-restart for its name,
      then admission. */
  function SubmitFile(s: Uploads, name: string): (r: Uploads)
    ensures r.limit == s.limit
    ensures var c := CancelExistingUpload(s, name);
      && (c.active < c.limit ==>
            && ActiveCount(r) == ActiveCount(c) + 1
            && r.tasks == [InitialTask(name)] + c.tasks
            && QueuedFileNames(r) == QueuedFileNames(c))
      && (c.active >= c.limit ==>
            && ActiveCount(r) == ActiveCount(c)
            && r.tasks == c.tasks
            && QueuedFileNames(r) == QueuedFileNames(c) + [name]
            && QueuedCount(r) == QueuedCount(c) + 1)
    ensures Known(r, name)
    ensures forall y :: y != name && Known(s, y) ==> Known(r, y)
  {
    Admit(CancelExistingUpload(s, name), name)
  }

  /** The `forEach` over a batch, files handled in order. */
  function SubmitAll(s: Uploads, files: seq<string>): (r: Uploads)
    ensures r.limit == s.limit
    ensures forall x :: x in files ==> Known(r, x)
    ensures forall y :: y !in files && Known(s, y) ==> Known(r, y)
    decreases |files|
  {
    if |files| == 0 then s
    else
      var r := SubmitAll(SubmitFile(s, files[0]), files[1..]);
      assert forall x :: x in files ==> x == files[0] || x in files[1..];
      r
  }

  /** `onNewUploadFilesChanged`: nothing happens before the dataset id is
      known. */
  function OnNewUploadFilesChanged(s: Uploads, hasDataset: bool, files: seq<string>): (r: Uploads)
    ensures !hasDataset ==> r == s
    ensures |files| == 0 ==> r == s
    ensures hasDataset ==> forall x :: x in files ==> HasTask(r.tasks, x) || x in r.queue
    ensures forall y :: y !in files && Known(s, y) ==> Known(r, y)
    ensures r.limit == s.limit
  {
    if hasDataset then SubmitAll(s, files) else s
  }

  // ---------------------------------------------------------------------
  // Transport and user events

  /** The `next` handler: merge the payload into the row of that name; a
      finishing payload with a total time also records the time, notifies,
      forgets the subscription and releases one slot. */
  function OnProgress(s: Uploads, name: string, p: Progress): (r: Uploads)
    ensures !HasTask(s.tasks, name) ==> r == s
    ensures HasTask(s.tasks, name) && !FinishesWithTime(p) ==>
      var i := FindTask(s.tasks, name);
      && |r.tasks| == |s.tasks|
      && r.tasks[i] == Merge(s.tasks[i], p)
      && (forall j :: 0 <= j < |s.tasks| && j != i ==> r.tasks[j] == s.tasks[j])
      && r.active == s.active && r.queue == s.queue && r.uploadTimes == s.uploadTimes
      && r.changeNotices == s.changeNotices && r.subscriptions == s.subscriptions
    ensures HasTask(s.tasks, name) && FinishesWithTime(p) ==>
      var i := FindTask(s.tasks, name);
      && r.tasks == Promoted(s) + s.tasks[i := Merge(s.tasks[i], p)]
      && Merge(s.tasks[i], p) in r.tasks
      && r.uploadTimes == s.uploadTimes[LastSegment(name) := p.totalTime.value]
      && r.changeNotices == s.changeNotices + 1
      && (Distinct(s.queue) ==> r.active + |r.queue| == s.active + |s.queue| - 1)
    ensures r.abortRequests == s.abortRequests
    ensures r.limit == s.limit && r.active <= s.active && Subseq(r.queue, s.queue)
  {
    SubseqRefl(s.queue);
    var i := FindTask(s.tasks, name);
    if i == -1 then s
    else
      var merged := Merge(s.tasks[i], p);
      var s1 := s.(tasks := s.tasks[i := merged]);
      if FinishesWithTime(p) then
        var s2 := s1.(uploadTimes := s1.uploadTimes[LastSegment(name) := p.totalTime.value],
                      changeNotices := s1.changeNotices + 1,
                      subscriptions := s1.subscriptions - {merged.filePath});
        var r := OnUploadComplete(s2);
        UpdateBehind(Promoted(s), s.tasks, i, merged);
        r
      else s1
  }

  /** Replacing row `i` behind a prefix of promoted rows: the new row is
      listed, and so is every row of another name. */
  lemma UpdateBehind(front: seq<Task>, tasks: seq<Task>, i: int, x: Task)
    requires 0 <= i < |tasks|
    ensures x in front + tasks[i := x]
    ensures forall t :: t in tasks && t.filePath != tasks[i].filePath ==> t in front + tasks[i := x]
  {
    assert (front + tasks[i := x])[|front| + i] == x;
    forall t | t in tasks && t.filePath != tasks[i].filePath
      ensures t in front + tasks[i := x]
    {
      var j :| 0 <= j < |tasks| && tasks[j] == t;
      assert (front + tasks[i := x])[|front| + j] == t;
    }
  }

  /** The `error` handler: the row of that name, if any, is forced to
      100 % `aborted`; one slot is released in every case. */
  function OnError(s: Uploads, name: string): (r: Uploads)
    ensures !HasTask(s.tasks, name) ==> r.tasks == Promoted(s) + s.tasks
    ensures HasTask(s.tasks, name) ==>
      var i := FindTask(s.tasks, name);
      && r.tasks == Promoted(s) + s.tasks[i := s.tasks[i].(percentage := 100, status := Aborted)]
      && s.tasks[i].(percentage := 100, status := Aborted) in r.tasks
    ensures forall t :: t in s.tasks && t.filePath != name ==> t in r.tasks
    ensures r.uploadTimes == s.uploadTimes && r.abortRequests == s.abortRequests
    ensures r.changeNotices == s.changeNotices
    ensures Distinct(s.queue) ==> r.active + |r.queue| == s.active + |s.queue| - 1
    ensures r.limit == s.limit && r.active <= s.active && Subseq(r.queue, s.queue)
  {
    var i := FindTask(s.tasks, name);
    if i == -1 then OnUploadComplete(s)
    else
      var aborted := s.tasks[i].(percentage := 100, status := Aborted);
      var s1 := s.(tasks := s.tasks[i := aborted], subscriptions := s.subscriptions - {name});
      var r := OnUploadComplete(s1);
      UpdateBehind(Promoted(s), s.tasks, i, aborted);
      r
  }

  /** The `complete` handler: a row of that name that is not yet
      `finished` becomes `finished` and releases one slot; otherwise
      nothing happens. */
  function OnComplete(s: Uploads, name: string): (r: Uploads)
    ensures !HasTask(s.tasks, name) || s.tasks[FindTask(s.tasks, name)].status == Finished ==> r == s
    ensures HasTask(s.tasks, name) && s.tasks[FindTask(s.tasks, name)].status != Finished ==>
      && r.tasks == Promoted(s) + s.tasks[FindTask(s.tasks, name) := s.tasks[FindTask(s.tasks, name)].(status := Finished)]
      && s.tasks[FindTask(s.tasks, name)].(status := Finished) in r.tasks
      && r.changeNotices == s.changeNotices + 1
      && (Distinct(s.queue) ==> r.active + |r.queue| == s.active + |s.queue| - 1)
    ensures forall t :: t in s.tasks && t.filePath != name ==> t in r.tasks
    ensures r.uploadTimes == s.uploadTimes && r.abortRequests == s.abortRequests
    ensures r.limit == s.limit && r.active <= s.active && Subseq(r.queue, s.queue)
  {
    SubseqRefl(s.queue);
    var i := FindTask(s.tasks, name);
    if i != -1 && s.tasks[i].status != Finished then
      var finished := s.tasks[i].(status := Finished);
      var s1 := s.(tasks := s.tasks[i := finished],
                   changeNotices := s.changeNotices + 1,
                   subscriptions := s.subscriptions - {name});
      var r := OnUploadComplete(s1);
      UpdateBehind(Promoted(s), s.tasks, i, finished);
      r
    else s
  }

  /** `onClickAbortUploadProgress`: forget the subscription, release a slot
      if the clicked row was active, send the abort request and remove the
      row at once. */
  function OnAbortClicked(s: Uploads, task: Task): (r: Uploads)
    ensures !HasTask(r.tasks, task.filePath)
    ensures r.abortRequests == s.abortRequests + [AbortRequest(task.filePath, task.uploadId, task.physicalAddress)]
    ensures !IsActive(task.status) ==>
      r.active == s.active && r.queue == s.queue && r.tasks == RemoveTasks(s.tasks, task.filePath)
    ensures IsActive(task.status) && Distinct(s.queue) ==>
      r.active + |r.queue| == s.active + |s.queue| - 1
    ensures IsActive(task.status) ==> r.tasks == RemoveTasks(Promoted(s) + s.tasks, task.filePath)
    ensures forall t :: t in s.tasks && t.filePath != task.filePath ==> t in r.tasks
    ensures r.limit == s.limit && r.active <= s.active && Subseq(r.queue, s.queue)
  {
    SubseqRefl(s.queue);
    var s1 := s.(subscriptions := s.subscriptions - {task.filePath});
    var s2 := if IsActive(task.status) then OnUploadComplete(s1) else s1;
    var s3 := s2.(abortRequests := s2.abortRequests + [AbortRequest(task.filePath, task.uploadId, task.physicalAddress)]);
    s3.(tasks := RemoveTasks(s3.tasks, task.filePath))
  }

  /** The hide timer scheduled by `scheduleHide`: drop the rows with the
      captured key. Counters, queue and everything else stay as they are. */
  function OnHideFired(s: Uploads, key: string): (r: Uploads)
    ensures !HasTask(r.tasks, key)
    ensures forall t :: t in r.tasks <==> t in s.tasks && t.filePath != key
    ensures r.active == s.active && r.limit == s.limit && r.queue == s.queue
    ensures !HasTask(s.tasks, key) ==> r == s
    ensures Subseq(r.tasks, s.tasks) && Subseq(r.queue, s.queue)
  {
    SubseqRefl(s.queue);
    s.(tasks := RemoveTasks(s.tasks, key))
  }

  /** Dispatch of one event. */
  function Step(s: Uploads, e: Event): (r: Uploads)
    ensures r.limit == s.limit
  {
    match e
    case Submit(hasDataset, files) => OnNewUploadFilesChanged(s, hasDataset, files)
    case Next(name, p) => OnProgress(s, name, p)
    case Error(name) => OnError(s, name)
    case Complete(name) => OnComplete(s, name)
    case AbortClicked(task) => OnAbortClicked(s, task)
    case HideFired(key) => OnHideFired(s, key)
  }

  /** The state after a whole trace of events, first event first. */
  function Run(s: Uploads, events: seq<Event>): (r: Uploads)
    ensures r.limit == s.limit
    decreases |events|
  {
    if |events| == 0 then s else Run(Step(s, events[0]), events[1..])
  }

  // ---------------------------------------------------------------------
  // Read-only views

  /** `queuedFileNames`: the waiting names, oldest first. */
  function QueuedFileNames(s: Uploads): (r: seq<string>)
    ensures |r| == |s.queue|
    ensures forall i :: 0 <= i < |r| ==> r[i] == s.queue[i]
  {
    s.queue
  }

  /** `queuedCount`: as many as `queuedFileNames` lists. */
  function QueuedCount(s: Uploads): (r: nat)
    ensures r == |QueuedFileNames(s)|
  {
    |s.queue|
  }

  /** `activeCount`: the slot counter as it stands. */
  function ActiveCount(s: Uploads): int
  {
    s.active
  }

  /** The progress-bar style of a row. */
  datatype BarStatus = Active | Exception | Success

  /** `getUploadStatus`. */
  function GetUploadStatus(st: Status): (r: BarStatus)
    ensures r == Active <==> IsActive(st)
    ensures r == Exception <==> st == Aborted
    ensures r == Success <==> st == Finished
  {
    if st == Uploading || st == Initializing then Active
    else if st == Aborted then Exception
    else Success
  }
}
