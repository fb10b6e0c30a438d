/** Concrete event traces through the upload queue: the expected
    scenarios, and the traces that show where the as-written slot
    accounting goes wrong. */
module UploadScenarios {
  import opened Options
  import opened UploadQueue
  import opened Subsequences
  import opened UploadInvariants

  /** A finishing payload with the given total time. */
  function FinishedPayload(totalTime: int): Progress
  {
    Progress(Some(100), Some(Finished), None, None, Some(totalTime))
  }

  lemma ConcatPair<T>(x: T, y: T)
    ensures [x] + [y] == [x, y]
  {
  }

  lemma UpdateSingleton<T>(x: T, y: T)
    ensures [x][0 := y] == [y]
  {
  }

  lemma AppendNothing<T>(q: seq<T>)
    ensures [] + q == q && q + [] == q
  {
  }

  // ---------------------------------------------------------------------
  // Submitting

  /** A batch is handled head first. */
  lemma SubmitAllCons(s: Uploads, x: string, rest: seq<string>)
    ensures SubmitAll(s, [x] + rest) == SubmitAll(SubmitFile(s, x), rest)
  {
    assert ([x] + rest)[1..] == rest;
  }

  lemma SubmitAllOne(s: Uploads, x: string)
    ensures SubmitAll(s, [x]) == SubmitFile(s, x)
  {
    assert [x] == [x] + [];
    SubmitAllCons(s, x, []);
  }

  lemma SubmitAllPair(s: Uploads, x: string, y: string)
    ensures SubmitAll(s, [x, y]) == SubmitFile(SubmitFile(s, x), y)
  {
    assert [x, y] == [x] + [y];
    SubmitAllCons(s, x, [y]);
    SubmitAllOne(SubmitFile(s, x), y);
  }

  lemma SubmitAllTriple(s: Uploads, x: string, y: string, z: string)
    ensures SubmitAll(s, [x, y, z]) == SubmitFile(SubmitFile(SubmitFile(s, x), y), z)
  {
    assert [x, y, z] == [x] + [y, z];
    SubmitAllCons(s, x, [y, z]);
    SubmitAllPair(SubmitFile(s, x), y, z);
  }

  /** Submitting a name that has neither a row nor a queue entry. */
  lemma SubmitFresh(s: Uploads, name: string)
    requires !HasTask(s.tasks, name) && name !in s.queue
    ensures SubmitFile(s, name)
         == if s.active < s.limit
            then s.(active := s.active + 1, tasks := [InitialTask(name)] + s.tasks,
                    subscriptions := s.subscriptions + {name})
            else s.(queue := s.queue + [name], subscriptions := s.subscriptions - {name})
  {
    assert !HasActiveTask(s.tasks, name);
    assert CancelExistingUpload(s, name) == s.(subscriptions := s.subscriptions - {name});
    assert s.subscriptions - {name} + {name} == s.subscriptions + {name};
  }

  /** A release with a waiting file hands the slot straight to the oldest
      one. */
  lemma ReleasePromotes(s: Uploads)
    requires |s.queue| > 0 && s.active - 1 < s.limit
    ensures OnUploadComplete(s)
         == s.(queue := RemoveAll(s.queue[1..], s.queue[0]),
               tasks := [InitialTask(s.queue[0])] + s.tasks,
               subscriptions := s.subscriptions + {s.queue[0]})
  {
  }

  /** A finishing payload with a total time for a listed row. */
  lemma ProgressFinishes(s: Uploads, name: string, t: int)
    requires HasTask(s.tasks, name) && t != 0
    ensures var i := FindTask(s.tasks, name);
      var merged := Merge(s.tasks[i], FinishedPayload(t));
      OnProgress(s, name, FinishedPayload(t))
        == OnUploadComplete(s.(tasks := s.tasks[i := merged],
                               uploadTimes := s.uploadTimes[LastSegment(name) := t],
                               changeNotices := s.changeNotices + 1,
                               subscriptions := s.subscriptions - {merged.filePath}))
  {
  }

  /** One fresh file submitted on its own. */
  lemma FreshSubmit(s: Uploads, name: string)
    requires !HasTask(s.tasks, name) && name !in s.queue
    ensures var r := SubmitAll(s, [name]);
      && r.limit == s.limit && r.uploadTimes == s.uploadTimes
      && (s.active < s.limit ==>
            r.active == s.active + 1 && r.tasks == [InitialTask(name)] + s.tasks && r.queue == s.queue)
      && (s.active >= s.limit ==>
            r.active == s.active && r.tasks == s.tasks && r.queue == s.queue + [name])
  {
    SubmitAllOne(s, name);
    SubmitFresh(s, name);
  }

  /** A finishing payload with a total time for a listed row: the slot is
      released and, when a file waits, handed to the oldest one. */
  lemma FinishRelease(s: Uploads, name: string, t: int)
    requires HasTask(s.tasks, name) && t != 0
    ensures var i := FindTask(s.tasks, name);
      var merged := Merge(s.tasks[i], FinishedPayload(t));
      var r := OnProgress(s, name, FinishedPayload(t));
      && r.limit == s.limit
      && r.uploadTimes == s.uploadTimes[LastSegment(name) := t]
      && (|s.queue| > 0 && s.active - 1 < s.limit ==>
            && r.active == s.active
            && r.tasks == [InitialTask(s.queue[0])] + s.tasks[i := merged]
            && r.queue == RemoveAll(s.queue[1..], s.queue[0]))
      && (!(|s.queue| > 0 && s.active - 1 < s.limit) ==>
            r.active == s.active - 1 && r.tasks == s.tasks[i := merged] && r.queue == s.queue)
  {
    ProgressFinishes(s, name, t);
    var i := FindTask(s.tasks, name);
    var merged := Merge(s.tasks[i], FinishedPayload(t));
    var s1 := s.(tasks := s.tasks[i := merged],
                 uploadTimes := s.uploadTimes[LastSegment(name) := t],
                 changeNotices := s.changeNotices + 1,
                 subscriptions := s.subscriptions - {merged.filePath});
    if |s.queue| > 0 && s.active - 1 < s.limit {
      ReleasePromotes(s1);
    }
  }

  /** An error for a listed row forces it to 100 % `aborted` and releases
      a slot; with nothing waiting, the slot just comes back. */
  lemma ErrorRelease(s: Uploads, name: string)
    requires HasTask(s.tasks, name) && |s.queue| == 0
    ensures var i := FindTask(s.tasks, name);
      var r := OnError(s, name);
      && r.active == s.active - 1 && r.queue == []
      && r.tasks == s.tasks[i := s.tasks[i].(percentage := 100, status := Aborted)]
  {
  }

  /** The finishing payload of row `i` when a file waits: the oldest
      waiting file takes the slot at once. */
  lemma FinishPromotes(s: Uploads, i: int, name: string, t: int)
    requires 0 <= i < |s.tasks| && s.tasks[i].filePath == name && t != 0
    requires forall j :: 0 <= j < i ==> s.tasks[j].filePath != name
    requires |s.queue| > 0 && s.queue[0] !in s.queue[1..] && s.active - 1 < s.limit
    ensures var r := OnProgress(s, name, FinishedPayload(t));
      && r.active == s.active && r.limit == s.limit && r.queue == s.queue[1..]
      && r.tasks == [InitialTask(s.queue[0])] + s.tasks[i := Merge(s.tasks[i], FinishedPayload(t))]
      && r.uploadTimes == s.uploadTimes[LastSegment(name) := t]
  {
    assert FindTask(s.tasks, name) == i;
    FinishRelease(s, name, t);
  }

  /** The first fresh file into an empty component. */
  lemma FirstSubmit(s0: Uploads, a: string)
    requires s0 == Initial().(limit := s0.limit) && s0.limit >= 1
    ensures var r := SubmitFile(s0, a);
      && r.limit == s0.limit && r.active == 1 && r.uploadTimes == map[]
      && r.tasks == [InitialTask(a)] && r.queue == []
  {
    SubmitFresh(s0, a);
    AppendNothing([InitialTask(a)]);
  }

  /** Two fresh files into one free slot. */
  lemma PairOneSlot(a: string, b: string)
    requires a != b
    ensures var r := SubmitAll(Initial().(limit := 1), [a, b]);
      && r.limit == 1 && r.active == 1 && r.uploadTimes == map[]
      && r.tasks == [InitialTask(a)] && r.queue == [b]
  {
    var s0 := Initial().(limit := 1);
    FirstSubmit(s0, a);
    var sa := SubmitFile(s0, a);
    SubmitFresh(sa, b);
    AppendNothing([b]);
    SubmitAllPair(s0, a, b);
  }

  /** Three fresh files into one free slot. */
  lemma TripleOneSlot(a: string, b: string, c: string)
    requires a != b && a != c && b != c
    ensures var r := SubmitAll(Initial().(limit := 1), [a, b, c]);
      && r.limit == 1 && r.active == 1 && r.uploadTimes == map[]
      && r.tasks == [InitialTask(a)] && r.queue == [b, c]
  {
    PairOneSlot(a, b);
    var sb := SubmitAll(Initial().(limit := 1), [a, b]);
    SubmitAllPair(Initial().(limit := 1), a, b);
    JoinsQueue(sb, c);
    ConcatPair(b, c);
    SubmitAllTriple(Initial().(limit := 1), a, b, c);
  }

  /** A fresh file joins the back of the queue when every slot is taken. */
  lemma JoinsQueue(s: Uploads, c: string)
    requires s.active >= s.limit && !HasTask(s.tasks, c) && c !in s.queue
    ensures var r := SubmitFile(s, c);
      && r.limit == s.limit && r.active == s.active && r.uploadTimes == s.uploadTimes
      && r.tasks == s.tasks && r.queue == s.queue + [c]
  {
    SubmitFresh(s, c);
  }

  /** Three fresh files into two free slots. */
  lemma TripleTwoSlots(a: string, b: string, c: string)
    requires a != b && a != c && b != c
    ensures var r := SubmitAll(Initial().(limit := 2), [a, b, c]);
      && r.limit == 2 && r.active == 2 && r.uploadTimes == map[]
      && r.tasks == [InitialTask(b), InitialTask(a)] && r.queue == [c]
  {
    var s0 := Initial().(limit := 2);
    FirstSubmit(s0, a);
    var sa := SubmitFile(s0, a);
    SubmitFresh(sa, b);
    ConcatPair(InitialTask(b), InitialTask(a));
    var sb := SubmitFile(sa, b);
    assert !HasTask(sb.tasks, c);
    JoinsQueue(sb, c);
    AppendNothing([c]);
    SubmitAllTriple(s0, a, b, c);
  }

  // ---------------------------------------------------------------------
  // Expected behaviour

  /** Limit 2, files a, b, c: a and b start at once (b's row in front),
      c waits; when a finishes, c starts and the queue is empty. */
  lemma TwoSlotsThreeFiles(a: string, b: string, c: string, t: int)
    requires a != b && b != c && a != c && t != 0
    ensures var s0 := Initial().(limit := 2);
      var s1 := SubmitAll(s0, [a, b, c]);
      var s2 := OnProgress(s1, a, FinishedPayload(t));
      && s1.active == 2 && s1.queue == [c]
      && s1.tasks == [InitialTask(b), InitialTask(a)]
      && s2.active == 2 && s2.queue == []
      && |s2.tasks| == 3 && s2.tasks[0] == InitialTask(c)
      && s2.uploadTimes == map[LastSegment(a) := t]
  {
    TripleTwoSlots(a, b, c);
    TwoSlotsFinish(SubmitAll(Initial().(limit := 2), [a, b, c]), a, b, c, t);
  }

  /** `b` and `a` run, `c` waits; `a` finishing starts `c`. */
  lemma TwoSlotsFinish(s: Uploads, a: string, b: string, c: string, t: int)
    requires a != b && t != 0
    requires s.limit == 2 && s.active == 2 && s.queue == [c] && s.uploadTimes == map[]
    requires s.tasks == [InitialTask(b), InitialTask(a)]
    ensures var r := OnProgress(s, a, FinishedPayload(t));
      && r.active == 2 && r.queue == []
      && |r.tasks| == 3 && r.tasks[0] == InitialTask(c)
      && r.uploadTimes == map[LastSegment(a) := t]
  {
    assert s.tasks[1].filePath == a && s.tasks[0].filePath == b;
    assert s.queue[1..] == [];
    FinishPromotes(s, 1, a, t);
  }

  /** Limit 1, files a, b, c, then d after a finished: b starts before c,
      and c before d. */
  lemma OneSlotFifo(a: string, b: string, c: string, d: string, t: int)
    requires a != b && a != c && a != d && b != c && b != d && c != d && t != 0
    ensures var s0 := Initial().(limit := 1);
      var s1 := SubmitAll(s0, [a, b, c]);
      var s2 := OnProgress(s1, a, FinishedPayload(t));
      var s3 := SubmitAll(s2, [d]);
      var s4 := OnProgress(s3, b, FinishedPayload(t));
      && s1.queue == [b, c] && s1.tasks == [InitialTask(a)]
      && s2.queue == [c] && |s2.tasks| == 2 && s2.tasks[0] == InitialTask(b)
      && s3.queue == [c, d]
      && s4.queue == [d] && |s4.tasks| == 3 && s4.tasks[0] == InitialTask(c) && s4.active == 1
  {
    TripleOneSlot(a, b, c);
    FifoAfterFirst(SubmitAll(Initial().(limit := 1), [a, b, c]), a, b, c, d, t);
  }

  /** From `a` running with `b`, `c` waiting: `a` finishes, `d` is
      submitted, `b` finishes. */
  lemma FifoAfterFirst(s1: Uploads, a: string, b: string, c: string, d: string, t: int)
    requires a != b && a != c && a != d && b != c && b != d && c != d && t != 0
    requires s1.limit == 1 && s1.active == 1 && s1.queue == [b, c] && s1.tasks == [InitialTask(a)]
    ensures var s2 := OnProgress(s1, a, FinishedPayload(t));
      var s3 := SubmitAll(s2, [d]);
      var s4 := OnProgress(s3, b, FinishedPayload(t));
      && s2.queue == [c] && |s2.tasks| == 2 && s2.tasks[0] == InitialTask(b)
      && s3.queue == [c, d]
      && s4.queue == [d] && |s4.tasks| == 3 && s4.tasks[0] == InitialTask(c) && s4.active == 1
  {
    FifoFirst(s1, a, b, c, t);
    var s2 := OnProgress(s1, a, FinishedPayload(t));
    var done := Merge(InitialTask(a), FinishedPayload(t));
    FifoJoin(s2, done, b, c, d);
    FifoNext(SubmitAll(s2, [d]), done, b, c, d, t);
  }

  /** `a` runs, `b` and `c` wait; `a` finishing starts `b`. */
  lemma FifoFirst(s: Uploads, a: string, b: string, c: string, t: int)
    requires b != c && t != 0
    requires s.limit == 1 && s.active == 1 && s.queue == [b, c] && s.tasks == [InitialTask(a)]
    ensures var r := OnProgress(s, a, FinishedPayload(t));
      && r.limit == 1 && r.active == 1 && r.queue == [c]
      && r.tasks == [InitialTask(b), Merge(InitialTask(a), FinishedPayload(t))]
  {
    assert s.queue[1..] == [c];
    var done := Merge(InitialTask(a), FinishedPayload(t));
    assert s.tasks[0 := Merge(s.tasks[0], FinishedPayload(t))] == [done];
    FinishPromotes(s, 0, a, t);
    var r := OnProgress(s, a, FinishedPayload(t));
    assert r.tasks == [InitialTask(b)] + [done];
    ConcatPair(InitialTask(b), done);
  }

  /** `b` runs and `c` waits; `d` joins behind `c`. */
  lemma FifoJoin(s: Uploads, done: Task, b: string, c: string, d: string)
    requires b != d && c != d && done.filePath != d
    requires s.limit == 1 && s.active == 1 && s.queue == [c] && s.tasks == [InitialTask(b), done]
    ensures var r := SubmitAll(s, [d]);
      r.limit == 1 && r.active == 1 && r.queue == [c, d] && r.tasks == s.tasks
  {
    assert !HasTask(s.tasks, d);
    FreshSubmit(s, d);
  }

  /** `b` finishing starts `c`, the oldest waiting file. */
  lemma FifoNext(s: Uploads, done: Task, b: string, c: string, d: string, t: int)
    requires b != c && c != d && done.filePath != b && t != 0
    requires s.limit == 1 && s.active == 1 && s.queue == [c, d] && s.tasks == [InitialTask(b), done]
    ensures var r := OnProgress(s, b, FinishedPayload(t));
      r.queue == [d] && |r.tasks| == 3 && r.tasks[0] == InitialTask(c) && r.active == 1
  {
    assert s.queue[1..] == [d];
    FinishPromotes(s, 0, b, t);
  }

  /** Resubmitting a file whose upload is running cancels it, releases its
      slot once and restarts it: the state is as after the first submit. */
  lemma ResubmitActiveRestarts(a: string)
    ensures var s1 := SubmitAll(Initial().(limit := 1), [a]);
      && s1.active == 1 && s1.tasks == [InitialTask(a)]
      && SubmitAll(s1, [a]) == s1
  {
    var s0 := Initial().(limit := 1);
    SubmitFresh(s0, a);
    var s1 := SubmitFile(s0, a);
    SubmitAllOne(s0, a);
    assert HasActiveTask(s1.tasks, a) by { assert s1.tasks[0].filePath == a; }
    assert RemoveTasks(s1.tasks, a) == [];
    SubmitAllOne(s1, a);
  }

  /** Aborting an `initializing` row before any progress: the slot comes
      back, the abort request carries the row's handles and the row is gone
      at once. */
  lemma AbortBeforeProgress(a: string)
    ensures var s1 := SubmitAll(Initial(), [a]);
      OnAbortClicked(s1, InitialTask(a)) == Initial().(abortRequests := [AbortRequest(a, "", "")])
  {
    var s0 := Initial();
    SubmitFresh(s0, a);
    var s1 := SubmitFile(s0, a);
    SubmitAllOne(s0, a);
    assert RemoveTasks(s1.tasks, a) == [];
  }

  // ---------------------------------------------------------------------
  // Where the as-written accounting breaks

  /** A stream that errors after its finishing payload releases the slot a
      second time: from a fresh component the counter reaches -1. */
  lemma FinishedThenErrorUnderflows(a: string, t: int)
    requires t != 0
    ensures var s1 := SubmitAll(Initial(), [a]);
      var s2 := OnProgress(s1, a, FinishedPayload(t));
      var s3 := OnError(s2, a);
      && s2.active == 0
      && s3.active == -1
      && |s3.tasks| == 1 && s3.tasks[0].status == Aborted
  {
    var s0 := Initial();
    SubmitFresh(s0, a);
    var s1 := SubmitFile(s0, a);
    SubmitAllOne(s0, a);
    assert FindTask(s1.tasks, a) == 0;
    var s2 := OnProgress(s1, a, FinishedPayload(t));
    assert s2.tasks[0].filePath == a;
    assert FindTask(s2.tasks, a) == 0;
  }

  /** The same double release with a file waiting: the spurious release
      starts the waiting file, and a later submit pushes the number of
      running rows above the limit of 1. */
  lemma DoubleReleaseExceedsLimit(a: string, b: string, c: string, t: int)
    requires a != b && a != c && b != c && t != 0
    ensures var s1 := SubmitAll(Initial().(limit := 1), [a, b]);
      var s2 := OnProgress(s1, a, FinishedPayload(t));
      var s3 := OnError(s2, a);
      var s4 := SubmitAll(s3, [c]);
      && s4.active == 1
      && ActiveTaskCount(s4.tasks) == 2
      && ActiveTaskCount(s4.tasks) > s4.limit
  {
    PairOneSlot(a, b);
    DoubleReleaseAfterPair(SubmitAll(Initial().(limit := 1), [a, b]), a, b, c, t);
  }

  /** From `a` running and `b` waiting in one slot: `a` finishes, then
      errors, then `c` is submitted. */
  lemma DoubleReleaseAfterPair(s1: Uploads, a: string, b: string, c: string, t: int)
    requires a != b && a != c && b != c && t != 0
    requires s1.limit == 1 && s1.active == 1 && s1.tasks == [InitialTask(a)] && s1.queue == [b]
    ensures var s2 := OnProgress(s1, a, FinishedPayload(t));
      var s3 := OnError(s2, a);
      var s4 := SubmitAll(s3, [c]);
      && s4.limit == 1 && s4.active == 1
      && ActiveTaskCount(s4.tasks) == 2
  {
    var done := Merge(InitialTask(a), FinishedPayload(t));
    FinishOnlyRow(s1, a, b, t);
    var s2 := OnProgress(s1, a, FinishedPayload(t));
    ErrorAfterFinish(s2, done, a, b);
    SubmitOverRunning(OnError(s2, a), done.(percentage := 100, status := Aborted), b, c);
  }

  /** `a` runs and `b` waits; `a` finishing starts `b`. */
  lemma FinishOnlyRow(s: Uploads, a: string, b: string, t: int)
    requires t != 0
    requires s.limit == 1 && s.active == 1 && s.tasks == [InitialTask(a)] && s.queue == [b]
    ensures var r := OnProgress(s, a, FinishedPayload(t));
      && r.limit == 1 && r.active == 1 && r.queue == []
      && r.tasks == [InitialTask(b), Merge(InitialTask(a), FinishedPayload(t))]
  {
    assert s.queue[1..] == [];
    var done := Merge(InitialTask(a), FinishedPayload(t));
    UpdateSingleton(InitialTask(a), done);
    FinishPromotes(s, 0, a, t);
    ConcatPair(InitialTask(b), done);
  }

  /** The late error for the finished row `a` releases `b`'s slot. */
  lemma ErrorAfterFinish(s: Uploads, done: Task, a: string, b: string)
    requires a != b && done.filePath == a
    requires s.limit == 1 && s.active == 1 && s.queue == [] && s.tasks == [InitialTask(b), done]
    ensures var r := OnError(s, a);
      && r.active == 0 && r.queue == []
      && r.tasks == [InitialTask(b), done.(percentage := 100, status := Aborted)]
  {
    assert FindTask(s.tasks, a) == 1;
    ErrorRelease(s, a);
    var aborted := done.(percentage := 100, status := Aborted);
    assert s.tasks[1 := aborted] == [InitialTask(b), aborted];
  }

  /** With the counter at 0 but `b` still running, `c` is started too. */
  lemma SubmitOverRunning(s: Uploads, other: Task, b: string, c: string)
    requires b != c && other.filePath != c && !IsActive(other.status)
    requires s.limit == 1 && s.active == 0 && s.queue == [] && s.tasks == [InitialTask(b), other]
    ensures var r := SubmitAll(s, [c]);
      && r.active == 1
      && ActiveTaskCount(r.tasks) == 2
  {
    assert !HasTask(s.tasks, c);
    FreshSubmit(s, c);
    CountCons(InitialTask(c), s.tasks);
    CountPair(InitialTask(b), other);
  }

  lemma CountPair(x: Task, y: Task)
    ensures ActiveTaskCount([x, y]) == Held(x) + Held(y)
  {
    assert [x, y][1..] == [y];
    assert [y][1..] == [];
    assert ActiveTaskCount([y]) == Held(y);
  }

  /** The hide timer of a finished row fires after the same name was
      submitted again: it removes the new, running row, and a later file
      waits although nothing runs. Neither the finish nor the completion of
      the restarted upload gives its slot back; only an error does, since
      the `error` handler releases even when the row is gone. */
  lemma HideAfterRestartStrandsSlot(a: string, b: string, t: int)
    requires a != b && t != 0
    ensures var s1 := SubmitAll(Initial().(limit := 1), [a]);
      var s2 := OnComplete(s1, a);
      var s3 := SubmitAll(s2, [a]);
      var s4 := OnHideFired(s3, a);
      var s5 := SubmitAll(s4, [b]);
      && s2.active == 0 && s3.active == 1
      && s5.active == 1 && s5.tasks == [] && s5.queue == [b]
      && OnComplete(s5, a) == s5
      && OnProgress(s5, a, FinishedPayload(t)) == s5
      && OnError(s5, a).active == 1 && OnError(s5, a).queue == []
      && OnError(s5, a).tasks == [InitialTask(b)]
  {
    var s0 := Initial().(limit := 1);
    SubmitFresh(s0, a);
    var s1 := SubmitFile(s0, a);
    SubmitAllOne(s0, a);
    assert FindTask(s1.tasks, a) == 0;
    var s2 := OnComplete(s1, a);
    assert s2.active == 0 && s2.tasks == [InitialTask(a).(status := Finished)];
    assert !HasActiveTask(s2.tasks, a);
    assert RemoveTasks(s2.tasks, a) == [];
    var s3 := SubmitFile(s2, a);
    SubmitAllOne(s2, a);
    assert s3.tasks == [InitialTask(a)] && s3.active == 1;
    assert RemoveTasks(s3.tasks, a) == [];
    var s4 := OnHideFired(s3, a);
    assert s4.tasks == [];
    SubmitFresh(s4, b);
    var s5 := SubmitFile(s4, b);
    SubmitAllOne(s4, b);
  }

  /** A finishing payload without a total time marks the row `finished`
      but releases nothing, and the completion that follows sees
      `finished` and releases nothing either: neither event starts the
      waiting file. */
  lemma FinishedWithoutTimeStrandsSlot(a: string, b: string)
    requires a != b
    ensures var s1 := SubmitAll(Initial().(limit := 1), [a, b]);
      var s2 := OnProgress(s1, a, Progress(Some(100), Some(Finished), None, None, None));
      var s3 := OnComplete(s2, a);
      && s3.active == 1 && s3.queue == [b]
      && ActiveTaskCount(s3.tasks) == 0
  {
    var s0 := Initial().(limit := 1);
    SubmitFresh(s0, a);
    var sa := SubmitFile(s0, a);
    SubmitFresh(sa, b);
    var s1 := SubmitFile(sa, b);
    SubmitAllPair(s0, a, b);
    assert s1.tasks == [InitialTask(a)];
    assert FindTask(s1.tasks, a) == 0;
    var p := Progress(Some(100), Some(Finished), None, None, None);
    var s2 := OnProgress(s1, a, p);
    assert s2.tasks[0].status == Finished;
    assert FindTask(s2.tasks, a) == 0;
    CountCons(s2.tasks[0], []);
  }
}
