/** The events one file's upload puts on the progress and result queues:
    `upload_with_semaphore` and `_upload_task_async`
    (modules/async_upload_manager.py).

    The cancellation flag is read twice (on entering the semaphore and on
    starting the task); each reading is an input. Whether
    `get_request_params` succeeded and what each attempt of the retry loop
    ended in are inputs too. Progress fractions are not modelled. */
module UploadTask {
  import opened Results
  import opened Settings
  import opened Uploaders
  import opened Retry

  datatype Status = Uploading | Done | Failed

  datatype Event =
      /** `('status', fp, status)` on the progress queue. */
    | StatusEvent(file: string, status: Status)
      /** `(fp, img, thumb)` on the result queue. */
    | ResultEvent(file: string, image: string, thumb: string)

  predicate IsTerminal(e: Event) {
    e.StatusEvent? && e.status != Uploading
  }

  /** The events from creating the uploader onwards, after the first
      'Uploading': every event is about `file`, the last one and only the
      last one is terminal, and it is 'Done', right after the result, exactly
      when an uploader was built, its request prepared and some attempt
      returned. */
  function AfterStart(file: string, created: Result<Option<Uploader>, CreateError>, prepared: bool,
                      maxAttempts: int, outcomes: seq<Attempt>): (r: seq<Event>)
    requires maxAttempts <= |outcomes|
    ensures |r| > 0 && IsTerminal(r[|r| - 1])
    ensures forall i :: 0 <= i < |r| - 1 ==> !IsTerminal(r[i])
    ensures forall i :: 0 <= i < |r| ==> r[i].file == file
    ensures r[|r| - 1] == StatusEvent(file, Done) <==>
              created.Ok? && created.value.Some? && prepared && RetryLoop(maxAttempts, outcomes).outcome.Returned?
    ensures r[|r| - 1] == StatusEvent(file, Done) ==> |r| >= 2 && r[|r| - 2].ResultEvent?
  {
    if created.Err? || created.value.None? || !prepared then [StatusEvent(file, Failed)]
    else
      var run := RetryLoop(maxAttempts, outcomes);
      var attempts := seq(run.attempts, _ => StatusEvent(file, Uploading));
      match run.outcome
      case Returned(image, thumb) => attempts + [ResultEvent(file, image, thumb), StatusEvent(file, Done)]
      case _ => attempts + [StatusEvent(file, Failed)]
  }

  /** The whole trace of one file's task. */
  function TaskTrace(file: string, isFirst: bool, service: string, cfg: Dict, pixData: Dict, registry: Registry,
                     cancelledAtSlot: bool, cancelledAtStart: bool, prepared: bool,
                     maxAttempts: int, outcomes: seq<Attempt>): (t: seq<Event>)
    requires maxAttempts <= |outcomes|
    ensures cancelledAtSlot || cancelledAtStart <==> t == []
    ensures forall i :: 0 <= i < |t| ==> t[i].file == file
    ensures !(cancelledAtSlot || cancelledAtStart) ==>
              && t[0] == StatusEvent(file, Uploading) && IsTerminal(t[|t| - 1])
              && forall i :: 0 <= i < |t| - 1 ==> !IsTerminal(t[i])
  {
    if cancelledAtSlot || cancelledAtStart then []
    else
      var created := CreateUploader(service, file, isFirst, cfg, pixData, registry);
      [StatusEvent(file, Uploading)] + AfterStart(file, created, prepared, maxAttempts, outcomes)
  }

  function CountTerminal(t: seq<Event>): (n: nat)
    ensures n <= |t|
  {
    if |t| == 0 then 0 else (if IsTerminal(t[0]) then 1 else 0) + CountTerminal(t[1..])
  }

  function CountUploading(t: seq<Event>): (n: nat)
    ensures n <= |t|
  {
    if |t| == 0 then 0 else (if t[0] == StatusEvent(t[0].file, Uploading) then 1 else 0) + CountUploading(t[1..])
  }

  lemma {:induction false} CountsAppend(a: seq<Event>, b: seq<Event>)
    ensures CountTerminal(a + b) == CountTerminal(a) + CountTerminal(b)
    ensures CountUploading(a + b) == CountUploading(a) + CountUploading(b)
  {
    if |a| == 0 {
      assert a + b == b;
    } else {
      assert (a + b)[0] == a[0];
      assert (a + b)[1..] == a[1..] + b;
      CountsAppend(a[1..], b);
    }
  }

  lemma {:induction false} UploadingRun(file: string, n: nat)
    ensures CountTerminal(seq(n, _ => StatusEvent(file, Uploading))) == 0
    ensures CountUploading(seq(n, _ => StatusEvent(file, Uploading))) == n
  {
    var s := seq(n, _ => StatusEvent(file, Uploading));
    if n > 0 {
      UploadingRun(file, n - 1);
      assert s[1..] == seq(n - 1, _ => StatusEvent(file, Uploading));
    }
  }

  // ---------------------------------------------------------------------------
  // Properties

  /** A task that finds the cancellation flag set emits nothing at all. */
  lemma CancelledTaskIsSilent(file: string, isFirst: bool, service: string, cfg: Dict, pixData: Dict, registry: Registry,
                              cancelledAtSlot: bool, cancelledAtStart: bool, prepared: bool,
                              maxAttempts: int, outcomes: seq<Attempt>)
    requires maxAttempts <= |outcomes|
    requires cancelledAtSlot || cancelledAtStart
    ensures TaskTrace(file, isFirst, service, cfg, pixData, registry, cancelledAtSlot, cancelledAtStart, prepared, maxAttempts, outcomes) == []
  {
  }

  /** The closing events of a started task: 'Failed' alone, or a result
      followed by 'Done'. */
  predicate Ending(file: string, e: seq<Event>) {
    || e == [StatusEvent(file, Failed)]
    || (|e| == 2 && e[0].ResultEvent? && e[1] == StatusEvent(file, Done))
  }

  /** The events after the first 'Uploading': one 'Uploading' per attempt,
      then an ending. */
  lemma AfterStartParts(file: string, created: Result<Option<Uploader>, CreateError>, prepared: bool,
                        maxAttempts: int, outcomes: seq<Attempt>) returns (n: nat, e: seq<Event>)
    requires maxAttempts <= |outcomes|
    ensures AfterStart(file, created, prepared, maxAttempts, outcomes) == seq(n, _ => StatusEvent(file, Uploading)) + e
    ensures Ending(file, e)
  {
    if created.Err? || created.value.None? || !prepared {
      n, e := 0, [StatusEvent(file, Failed)];
      assert seq(n, _ => StatusEvent(file, Uploading)) == [];
    } else {
      var run := RetryLoop(maxAttempts, outcomes);
      n := run.attempts;
      if run.outcome.Returned? {
        e := [ResultEvent(file, run.outcome.image, run.outcome.thumb), StatusEvent(file, Done)];
      } else {
        e := [StatusEvent(file, Failed)];
      }
    }
  }

  lemma EndingCounts(file: string, e: seq<Event>)
    requires Ending(file, e)
    ensures CountTerminal(e) == 1
    ensures e[|e| - 1] == StatusEvent(file, Done) ==> |e| == 2 && e[0].ResultEvent?
    ensures e[|e| - 1] == StatusEvent(file, Failed) ==> e == [StatusEvent(file, Failed)]
  {
    if |e| == 2 {
      assert e[1..] == [e[1]];
      assert e[1..][1..] == [];
    } else {
      assert e[1..] == [];
    }
  }

  /** 'Uploading' events followed by an ending hold one terminal status,
      last, and a result only when they end 'Done'. */
  lemma EndingShape(file: string, n: nat, e: seq<Event>, t: seq<Event>)
    requires Ending(file, e)
    requires t == [StatusEvent(file, Uploading)] + seq(n, _ => StatusEvent(file, Uploading)) + e
    ensures |t| >= 2
    ensures t[0] == StatusEvent(file, Uploading)
    ensures CountTerminal(t) == 1
    ensures IsTerminal(t[|t| - 1])
    ensures t[|t| - 1] == StatusEvent(file, Done) ==> t[|t| - 2].ResultEvent?
    ensures t[|t| - 1] == StatusEvent(file, Failed) ==> forall i :: 0 <= i < |t| ==> !t[i].ResultEvent?
  {
    var ups := seq(n + 1, _ => StatusEvent(file, Uploading));
    assert t == ups + e;
    UploadingRun(file, n + 1);
    CountsAppend(ups, e);
    EndingCounts(file, e);
    assert t[|t| - 1] == e[|e| - 1];
    if e[|e| - 1] == StatusEvent(file, Failed) {
      forall i | 0 <= i < |t| ensures !t[i].ResultEvent? {
        if i < |ups| {
          assert t[i] == ups[i];
        }
      }
    }
  }

  /** A started task opens with 'Uploading', emits exactly one terminal
      status, and ends with it; 'Done' comes right after the result, and a
      failed task enqueues no result. */
  lemma StartedTaskEndsOnce(file: string, created: Result<Option<Uploader>, CreateError>, prepared: bool,
                            maxAttempts: int, outcomes: seq<Attempt>)
    requires maxAttempts <= |outcomes|
    ensures var t := [StatusEvent(file, Uploading)] + AfterStart(file, created, prepared, maxAttempts, outcomes);
            && |t| >= 2
            && t[0] == StatusEvent(file, Uploading)
            && CountTerminal(t) == 1
            && IsTerminal(t[|t| - 1])
            && (t[|t| - 1] == StatusEvent(file, Done) ==> t[|t| - 2].ResultEvent?)
            && (t[|t| - 1] == StatusEvent(file, Failed) ==> forall i :: 0 <= i < |t| ==> !t[i].ResultEvent?)
  {
    var n, e := AfterStartParts(file, created, prepared, maxAttempts, outcomes);
    var up := [StatusEvent(file, Uploading)];
    var t := up + AfterStart(file, created, prepared, maxAttempts, outcomes);
    assert t == up + seq(n, _ => StatusEvent(file, Uploading)) + e;
    EndingShape(file, n, e, t);
  }

  /** The task ends 'Done' exactly when an uploader was created, prepared
      and the retry loop returned a pair, which is then enqueued as the
      file's result. */
  lemma DoneIffReturned(file: string, created: Result<Option<Uploader>, CreateError>, prepared: bool,
                        maxAttempts: int, outcomes: seq<Attempt>)
    requires maxAttempts <= |outcomes|
    ensures var t := AfterStart(file, created, prepared, maxAttempts, outcomes);
            var ok := created.Ok? && created.value.Some? && prepared && RetryLoop(maxAttempts, outcomes).outcome.Returned?;
            && (t[|t| - 1] == StatusEvent(file, Done) <==> ok)
            && (ok ==> t[|t| - 2] == ResultEvent(file, RetryLoop(maxAttempts, outcomes).outcome.image,
                                                      RetryLoop(maxAttempts, outcomes).outcome.thumb))
  {
  }

  /** Besides the first, one 'Uploading' per attempt of the retry loop. */
  lemma UploadingPerAttempt(file: string, created: Result<Option<Uploader>, CreateError>, prepared: bool,
                            maxAttempts: int, outcomes: seq<Attempt>)
    requires maxAttempts <= |outcomes|
    ensures var t := AfterStart(file, created, prepared, maxAttempts, outcomes);
            CountUploading(t) == if created.Ok? && created.value.Some? && prepared then RetryLoop(maxAttempts, outcomes).attempts else 0
  {
    var tail := AfterStart(file, created, prepared, maxAttempts, outcomes);
    if created.Ok? && created.value.Some? && prepared {
      var run := RetryLoop(maxAttempts, outcomes);
      var attempts := seq(run.attempts, _ => StatusEvent(file, Uploading));
      UploadingRun(file, run.attempts);
      match run.outcome
      case Returned(image, thumb) =>
        CountsAppend(attempts, [ResultEvent(file, image, thumb), StatusEvent(file, Done)]);
      case _ =>
        CountsAppend(attempts, [StatusEvent(file, Failed)]);
    }
  }

  /** A service that is neither a plugin nor built in fails straight away. */
  lemma UnsupportedServiceFails(file: string, isFirst: bool, service: string, cfg: Dict, pixData: Dict, registry: Registry,
                                prepared: bool, maxAttempts: int, outcomes: seq<Attempt>)
    requires maxAttempts <= |outcomes|
    requires service !in registry.services && service !in BuiltIn
    ensures TaskTrace(file, isFirst, service, cfg, pixData, registry, false, false, prepared, maxAttempts, outcomes)
         == [StatusEvent(file, Uploading), StatusEvent(file, Failed)]
  {
    UnknownServiceYieldsNothing(service, file, isFirst, cfg, pixData, registry);
  }

  /** With `max_attempts` below one the loop returns nothing, so the task fails. */
  lemma NoAttemptsFails(file: string, created: Result<Option<Uploader>, CreateError>, prepared: bool,
                        maxAttempts: int, outcomes: seq<Attempt>)
    requires maxAttempts <= |outcomes| && maxAttempts < 1
    ensures AfterStart(file, created, prepared, maxAttempts, outcomes) == [StatusEvent(file, Failed)]
  {
    assert seq(0, _ => StatusEvent(file, Uploading)) == [];
  }
}
