/** `_run_async_uploads` and the task set-up of `_upload_files_concurrently`
    (modules/async_upload_manager.py): the concurrency ceiling, the groups
    processed before cancellation, how `asyncio.Semaphore` takes the
    ceiling, and which file of a group counts as its first. The event loop,
    the HTTP client and the semaphore's waiting are not modelled. */
module Batch {
  import opened Results
  import opened Settings
  import opened Gallery

  /** `service.split('.')[0]`: the service name up to its first '.'. */
  function ServicePrefix(service: string): (p: string)
    ensures '.' !in p
    ensures |p| <= |service| && p == service[..|p|]
    ensures |p| < |service| ==> service[|p|] == '.'
  {
    if |service| == 0 || service[0] == '.' then []
    else
      var p := [service[0]] + ServicePrefix(service[1..]);
      assert service[1..][..|p| - 1] == service[1..|p|];
      p
  }

  /** `p` is `service` up to (not including) its first '.'. */
  predicate PrefixToDot(service: string, p: string) {
    '.' !in p && |p| <= |service| && p == service[..|p|] && (|p| == |service| || service[|p|] == '.')
  }

  /** The setting the ceiling is read from: `turbo_threads` for
      "turboimagehost", `<prefix>_threads` otherwise. */
  function ThreadsKey(service: string): (r: string)
    ensures PrefixToDot(service, "turboimagehost") ==> r == "turbo_threads"
    ensures !PrefixToDot(service, "turboimagehost") ==>
              |r| >= |"_threads"| && r[|r| - |"_threads"|..] == "_threads"
              && PrefixToDot(service, r[..|r| - |"_threads"|])
  {
    var prefix := ServicePrefix(service);
    assert PrefixToDot(service, "turboimagehost") ==> prefix == "turboimagehost" by {
      if PrefixToDot(service, "turboimagehost") {
        PrefixToDotUnique(service, prefix, "turboimagehost");
      }
    }
    if prefix == "turboimagehost" then "turbo_threads"
    else
      var r := prefix + "_threads";
      assert r[..|r| - |"_threads"|] == prefix;
      r
  }

  /** A string has only one prefix up to its first '.'. */
  lemma PrefixToDotUnique(service: string, p: string, q: string)
    requires PrefixToDot(service, p) && PrefixToDot(service, q)
    ensures p == q
  {
  }

  const DefaultCeiling: int := 2

  datatype BatchError =
    | MissingService
      /** `base_cfg['service']` is not a string, so `.split` fails. */
    | ServiceNotText
      /** `group.files[0]` on a group whose file list is empty. */
    | NoFirstFile(group: nat)
      /** `asyncio.Semaphore(ceiling)` raises: `ceiling < 0` is a ValueError
          for a negative number and a TypeError for anything else that is
          not a number. */
    | BadCeiling
      /** The semaphore has no permits, so the group's first task waits for
          it for ever and the batch never gets past this group. */
    | Hangs(group: nat)

  /** The concurrency ceiling: the threads setting of the service, or 2. */
  function ConcurrencyCeiling(baseCfg: Dict): (r: Result<Value, BatchError>)
    ensures r.Ok? <==> "service" in baseCfg && baseCfg["service"].Text?
    ensures r.Ok? ==> r.value == Get(baseCfg, ThreadsKey(baseCfg["service"].s), Count(DefaultCeiling))
  {
    if "service" !in baseCfg then Err(MissingService)
    else match baseCfg["service"]
      case Text(service) => Ok(Get(baseCfg, ThreadsKey(service), Count(DefaultCeiling)))
      case _ => Err(ServiceNotText)
  }

  /** `asyncio.Semaphore(ceiling)` raises on `ceiling < 0`: a negative count,
      or a value that cannot be compared with 0 (a bool can: it is an int). */
  predicate CeilingRaises(ceiling: Value) {
    match ceiling
    case Count(n) => n < 0
    case Flag(_) => false
    case _ => true
  }

  /** A semaphore made from `ceiling` starts with no permits: 0 or False. */
  predicate CeilingBlocks(ceiling: Value) {
    ceiling == Count(0) || ceiling == Flag(false)
  }

  /** `fp == group.files[0]` for each of the files to upload; when there is
      a file to upload but the group lists none, indexing fails. */
  function FirstFlags(files: seq<string>, groupFiles: seq<string>): (r: Result<seq<bool>, BatchError>)
    ensures r.Err? <==> files != [] && groupFiles == []
    ensures r.Ok? ==> |r.value| == |files| && forall i :: 0 <= i < |files| ==> (r.value[i] <==> files[i] == groupFiles[0])
  {
    if files == [] then Ok([])
    else if groupFiles == [] then Err(NoFirstFile(0))
    else Ok(seq(|files|, i requires 0 <= i < |files| => files[i] == groupFiles[0]))
  }

  /** The number of groups processed when the flag reads `cancelSeen[i]` on
      reaching group `i`: those before the first reading that is set. */
  function ProcessedGroups(cancelSeen: seq<bool>): (n: nat)
    ensures n <= |cancelSeen|
    ensures forall i :: 0 <= i < n ==> !cancelSeen[i]
    ensures n < |cancelSeen| ==> cancelSeen[n]
  {
    if |cancelSeen| == 0 || cancelSeen[0] then 0 else 1 + ProcessedGroups(cancelSeen[1..])
  }

  /** One group to upload: its title and gallery id, the files pending, the
      files the group lists, and what its gallery calls return. */
  datatype GroupInput = GroupInput(title: string, galleryId: Value, files: seq<string>, groupFiles: seq<string>,
                                   pixReply: Option<Dict>, imxReply: Value)

  /** What the batch prepares for one group before its files upload. */
  datatype GroupPlan = GroupPlan(gallery: Outcome, firsts: seq<bool>)

  /** Why the batch stopped at a group, with what that group's gallery step
      had already done (a pixhost gallery created and registered, say). */
  datatype Stopped = Stopped(error: BatchError, gallery: Outcome)

  datatype BatchRun = BatchRun(ceiling: Value, plans: seq<GroupPlan>, stopped: Option<Stopped>)

  /** The gallery step of one group, starting from the base settings. */
  function GalleryOf(baseCfg: Dict, creds: Dict, g: GroupInput): Outcome
    requires "service" in baseCfg
  {
    CreateGallery(baseCfg, g.title, g.galleryId, creds, g.pixReply, g.imxReply).value
  }

  /** Whether group `g`, reached as the `k`-th group, stops the loop after
      its gallery step: `asyncio.Semaphore(ceiling)` raising comes first,
      then `group.files[0]` on a group listing no files while some are
      pending, then a semaphore without permits that the first pending
      file waits on for ever. */
  function StopOf(ceiling: Value, g: GroupInput, k: nat): Option<BatchError> {
    if CeilingRaises(ceiling) then Some(BadCeiling)
    else if g.files != [] && g.groupFiles == [] then Some(NoFirstFile(k))
    else if CeilingBlocks(ceiling) && g.files != [] then Some(Hangs(k))
    else None
  }

  /** The stop is the semaphore's error exactly when the ceiling makes it
      raise, the missing first file exactly when the semaphore is made and
      files are pending without any listed, and the hang exactly when the
      semaphore has no permits and the first pending file waits on it; a
      group that lists its pending files, or has none, goes ahead under a
      semaphore with permits. */
  lemma StopOfCharacterized(ceiling: Value, g: GroupInput, k: nat)
    ensures StopOf(ceiling, g, k) == Some(BadCeiling) <==> CeilingRaises(ceiling)
    ensures StopOf(ceiling, g, k) == Some(NoFirstFile(k)) <==>
              !CeilingRaises(ceiling) && g.files != [] && g.groupFiles == []
    ensures StopOf(ceiling, g, k) == Some(Hangs(k)) <==>
              CeilingBlocks(ceiling) && g.files != [] && g.groupFiles != []
    ensures StopOf(ceiling, g, k).None? <==>
              !CeilingRaises(ceiling) && (g.files == [] || (g.groupFiles != [] && !CeilingBlocks(ceiling)))
    ensures StopOf(ceiling, g, k).Some? ==>
              StopOf(ceiling, g, k).value in {BadCeiling, NoFirstFile(k), Hangs(k)}
  {
  }

  /** `plan` is what the batch prepares for group `g`, reached as the `k`-th
      group: the group does not stop the loop, its gallery step starts from
      the base settings, and its files are flagged against its first one. */
  predicate PlannedAs(baseCfg: Dict, creds: Dict, ceiling: Value, g: GroupInput, k: nat, plan: GroupPlan)
    requires "service" in baseCfg
  {
    && StopOf(ceiling, g, k) == None
    && plan.gallery == GalleryOf(baseCfg, creds, g)
    && FirstFlags(g.files, g.groupFiles) == Ok(plan.firsts)
  }

  /** The groups from `index` on, each prepared in turn with the semaphore
      made from `ceiling`, until one finds the cancellation flag set or
      stops the loop (`StopOf`). */
  function PlanGroups(baseCfg: Dict, creds: Dict, groups: seq<GroupInput>, cancelSeen: seq<bool>, index: nat, ceiling: Value)
    : (r: (seq<GroupPlan>, Option<Stopped>))
    requires "service" in baseCfg && |groups| == |cancelSeen|
    ensures |r.0| <= ProcessedGroups(cancelSeen)
    ensures r.1.None? ==> |r.0| == ProcessedGroups(cancelSeen)
    ensures CeilingRaises(ceiling) ==> |r.0| == 0
    ensures r.1.Some? ==> && |r.0| < ProcessedGroups(cancelSeen)
                          && StopOf(ceiling, groups[|r.0|], index + |r.0|) == Some(r.1.value.error)
                          && r.1.value.gallery == GalleryOf(baseCfg, creds, groups[|r.0|])
    ensures forall i :: 0 <= i < |r.0| ==> PlannedAs(baseCfg, creds, ceiling, groups[i], index + i, r.0[i])
    decreases |groups|
  {
    if |groups| == 0 || cancelSeen[0] then ([], None)
    else
      var g := groups[0];
      var gallery := GalleryOf(baseCfg, creds, g);
      match StopOf(ceiling, g, index)
      case Some(e) => ([], Some(Stopped(e, gallery)))
      case None =>
        var firsts := FirstFlags(g.files, g.groupFiles).value;
        var rest := PlanGroups(baseCfg, creds, groups[1..], cancelSeen[1..], index + 1, ceiling);
        var plans := [GroupPlan(gallery, firsts)] + rest.0;
        assert rest.1.Some? ==> groups[1..][|rest.0|] == groups[|plans|] && index + 1 + |rest.0| == index + |plans|;
        PlannedShift(baseCfg, creds, ceiling, groups, index, GroupPlan(gallery, firsts), rest.0);
        (plans, rest.1)
  }

  /** A group planned at `index` followed by groups planned from `index + 1`
      on are groups planned from `index` on. */
  lemma PlannedShift(baseCfg: Dict, creds: Dict, ceiling: Value, groups: seq<GroupInput>, index: nat,
                     first: GroupPlan, rest: seq<GroupPlan>)
    requires "service" in baseCfg && |rest| < |groups|
    requires PlannedAs(baseCfg, creds, ceiling, groups[0], index, first)
    requires forall i :: 0 <= i < |rest| ==> PlannedAs(baseCfg, creds, ceiling, groups[1..][i], index + 1 + i, rest[i])
    ensures forall i :: 0 <= i < |rest| + 1 ==> PlannedAs(baseCfg, creds, ceiling, groups[i], index + i, ([first] + rest)[i])
  {
    forall i | 1 <= i < |rest| + 1
      ensures PlannedAs(baseCfg, creds, ceiling, groups[i], index + i, ([first] + rest)[i])
    {
      assert ([first] + rest)[i] == rest[i - 1] && groups[i] == groups[1..][i - 1];
      assert PlannedAs(baseCfg, creds, ceiling, groups[1..][i - 1], index + 1 + (i - 1), rest[i - 1]);
    }
  }

  /** `_run_async_uploads(pending_by_group, base_cfg, creds)`, with
      `cancelSeen[i]` the flag as read on reaching group `i`. The whole
      batch fails before any group when the service setting is missing or
      not a string; otherwise it reads the ceiling and prepares the groups
      before the first one that finds the flag set, stopping at the first
      uncancelled group when the semaphore cannot be made from the ceiling,
      and at a group with pending files that lists none or that finds the
      semaphore without permits. */
  function RunBatch(baseCfg: Dict, creds: Dict, groups: seq<GroupInput>, cancelSeen: seq<bool>)
    : (r: Result<BatchRun, BatchError>)
    requires |groups| == |cancelSeen|
    ensures r.Err? <==> !("service" in baseCfg && baseCfg["service"].Text?)
    ensures r.Err? ==> r.error == (if "service" in baseCfg then ServiceNotText else MissingService)
    ensures r.Ok? ==> && r.value.ceiling == Get(baseCfg, ThreadsKey(baseCfg["service"].s), Count(DefaultCeiling))
                      && |r.value.plans| <= ProcessedGroups(cancelSeen)
                      && (r.value.stopped.None? <==> |r.value.plans| == ProcessedGroups(cancelSeen))
    ensures r.Ok? && CeilingRaises(r.value.ceiling) ==>
              && r.value.plans == []
              && (r.value.stopped.Some? <==> ProcessedGroups(cancelSeen) > 0)
              && (r.value.stopped.Some? ==> r.value.stopped.value.error == BadCeiling)
    ensures r.Ok? && r.value.stopped.Some? ==>
              r.value.stopped.value.error == BadCeiling || r.value.stopped.value.error == NoFirstFile(|r.value.plans|)
              || (r.value.stopped.value.error == Hangs(|r.value.plans|) && CeilingBlocks(r.value.ceiling))
    ensures r.Ok? ==> forall i :: 0 <= i < |r.value.plans| ==>
              PlannedAs(baseCfg, creds, r.value.ceiling, groups[i], i, r.value.plans[i])
    ensures r.Ok? && r.value.stopped.Some? ==>
              && StopOf(r.value.ceiling, groups[|r.value.plans|], |r.value.plans|) == Some(r.value.stopped.value.error)
              && r.value.stopped.value.gallery == GalleryOf(baseCfg, creds, groups[|r.value.plans|])
  {
    match ConcurrencyCeiling(baseCfg)
    case Err(e) => Err(e)
    case Ok(ceiling) =>
      var planned := PlanGroups(baseCfg, creds, groups, cancelSeen, 0, ceiling);
      Ok(BatchRun(ceiling, planned.0, planned.1))
  }

  // ---------------------------------------------------------------------------
  // Properties

  /** "imx.to" reads `imx_threads`. */
  lemma ThreadsKeyImx()
    ensures ThreadsKey("imx.to") == "imx_threads"
  {
    var p := "imx";
    NoDot(p);
    assert |p| != |"turboimagehost"|;
    assert "imx.to" == p + "." + "to";
    ThreadsKeyOf(p, "to");
    assert p + "_threads" == "imx_threads";
  }

  /** "pixhost.to" reads `pixhost_threads`. */
  lemma ThreadsKeyPixhost()
    ensures ThreadsKey("pixhost.to") == "pixhost_threads"
  {
    var p := "pixhost";
    NoDot(p);
    assert |p| != |"turboimagehost"|;
    assert "pixhost.to" == p + "." + "to";
    ThreadsKeyOf(p, "to");
    assert p + "_threads" == "pixhost_threads";
  }

  /** "vipr.im" reads `vipr_threads`. */
  lemma ThreadsKeyVipr()
    ensures ThreadsKey("vipr.im") == "vipr_threads"
  {
    var p := "vipr";
    NoDot(p);
    assert |p| != |"turboimagehost"|;
    assert "vipr.im" == p + "." + "im";
    ThreadsKeyOf(p, "im");
    assert p + "_threads" == "vipr_threads";
  }

  lemma NoDot(name: string)
    requires forall k :: 0 <= k < |name| ==> name[k] != '.'
    ensures '.' !in name
  {
  }

  lemma ThreadsKeyOf(prefix: string, rest: string)
    requires '.' !in prefix && prefix != "turboimagehost"
    ensures ThreadsKey(prefix + "." + rest) == prefix + "_threads"
  {
    ThreadsKeyIgnoresDomain(prefix, rest);
    ServicePrefixWhole(prefix);
  }

  /** "turboimagehost" reads `turbo_threads`. */
  lemma ThreadsKeyTurbo()
    ensures ThreadsKey("turboimagehost") == "turbo_threads"
  {
    var t := "turboimagehost";
    NoDot(t);
    ServicePrefixWhole(t);
  }

  /** The prefix ends at the first '.'. */
  lemma {:induction false} ServicePrefixBefore(prefix: string, tail: string)
    requires '.' !in prefix
    requires tail == [] || tail[0] == '.'
    ensures ServicePrefix(prefix + tail) == prefix
    decreases |prefix|
  {
    var s := prefix + tail;
    if |prefix| == 0 {
      assert s == tail;
    } else {
      assert '.' !in prefix[1..] by {
        assert forall k :: 0 <= k < |prefix[1..]| ==> prefix[1..][k] == prefix[k + 1];
      }
      ServicePrefixBefore(prefix[1..], tail);
      assert prefix == [prefix[0]] + prefix[1..];
      assert s == [prefix[0]] + (prefix[1..] + tail);
      assert s[0] == prefix[0] && s[0] != '.';
      assert s[1..] == prefix[1..] + tail;
    }
  }

  /** A name without a '.' is its own prefix. */
  lemma ServicePrefixWhole(service: string)
    requires '.' !in service
    ensures ServicePrefix(service) == service
  {
    ServicePrefixBefore(service, []);
    assert service + [] == service;
  }

  /** Only the part before the first '.' matters: "imx.to" and "imx.net"
      share their ceiling setting. */
  lemma ThreadsKeyIgnoresDomain(prefix: string, rest: string)
    requires '.' !in prefix
    ensures ThreadsKey(prefix + "." + rest) == ThreadsKey(prefix)
  {
    var tail := "." + rest;
    assert prefix + "." + rest == prefix + tail;
    ServicePrefixBefore(prefix, tail);
    ServicePrefixWhole(prefix);
  }

  /** Without a threads setting the ceiling is 2. */
  lemma CeilingDefaultsToTwo(baseCfg: Dict)
    requires "service" in baseCfg && baseCfg["service"].Text?
    requires ThreadsKey(baseCfg["service"].s) !in baseCfg
    ensures ConcurrencyCeiling(baseCfg) == Ok(Count(2))
  {
  }

  /** Every prepared group starts from a fresh copy of the base settings:
      its settings differ from them at most by its own imx gallery id, so
      nothing carries over from one group to the next. */
  lemma GroupsStartFromBase(baseCfg: Dict, creds: Dict, groups: seq<GroupInput>,
                            cancelSeen: seq<bool>, index: nat, ceiling: Value)
    requires "service" in baseCfg && |groups| == |cancelSeen|
    ensures var plans := PlanGroups(baseCfg, creds, groups, cancelSeen, index, ceiling).0;
            forall i :: 0 <= i < |plans| ==>
              || plans[i].gallery.cfg == baseCfg
              || plans[i].gallery.cfg == baseCfg["gallery_id" := groups[i].imxReply]
  {
    var plans := PlanGroups(baseCfg, creds, groups, cancelSeen, index, ceiling).0;
    forall i | 0 <= i < |plans|
      ensures || plans[i].gallery.cfg == baseCfg
              || plans[i].gallery.cfg == baseCfg["gallery_id" := groups[i].imxReply]
    {
      var g := groups[i];
      OnlyGalleryIdChanges(baseCfg, g.title, g.galleryId, creds, g.pixReply, g.imxReply);
    }
  }

  /** A vipr batch whose `vipr_threads` is the text "4" stops at its first
      uncancelled group, after that group's gallery step: `asyncio.Semaphore`
      cannot compare "4" with 0. */
  lemma TextCeilingStopsBatch(creds: Dict, groups: seq<GroupInput>, cancelSeen: seq<bool>)
    requires |groups| == |cancelSeen| && |groups| > 0 && !cancelSeen[0]
    ensures var baseCfg := map["service" := Text("vipr.im"), "vipr_threads" := Text("4")];
            RunBatch(baseCfg, creds, groups, cancelSeen)
              == Ok(BatchRun(Text("4"), [], Some(Stopped(BadCeiling, GalleryOf(baseCfg, creds, groups[0])))))
  {
    ThreadsKeyVipr();
  }

  /** A batch whose ceiling is 0 prepares its groups without pending files
      and hangs at the first uncancelled group that has pending files and
      lists them. */
  lemma ZeroCeilingHangs(baseCfg: Dict, creds: Dict, groups: seq<GroupInput>, cancelSeen: seq<bool>)
    requires "service" in baseCfg && baseCfg["service"].Text?
    requires Get(baseCfg, ThreadsKey(baseCfg["service"].s), Count(DefaultCeiling)) == Count(0)
    requires |groups| == |cancelSeen|
    requires forall i :: 0 <= i < |groups| ==> groups[i].files != [] && groups[i].groupFiles != []
    ensures var r := RunBatch(baseCfg, creds, groups, cancelSeen);
            && r.Ok? && r.value.plans == []
            && (r.value.stopped.Some? <==> ProcessedGroups(cancelSeen) > 0)
            && (r.value.stopped.Some? ==> r.value.stopped.value.error == Hangs(0))
  {
    var planned := PlanGroups(baseCfg, creds, groups, cancelSeen, 0, Count(0));
    assert RunBatch(baseCfg, creds, groups, cancelSeen) == Ok(BatchRun(Count(0), planned.0, planned.1));
    if |groups| > 0 {
      assert StopOf(Count(0), groups[0], 0) == Some(Hangs(0));
    }
  }

  /** Every file equal to the group's first listed file is treated as the
      first, duplicates included: "a.jpg" pending twice gets the cover
      setting twice. */
  lemma DuplicateFirstFiles()
    ensures FirstFlags(["a.jpg", "b.jpg", "a.jpg"], ["a.jpg", "b.jpg"]) == Ok([true, false, true])
  {
    var files := ["a.jpg", "b.jpg", "a.jpg"];
    var listed := ["a.jpg", "b.jpg"];
    var r := FirstFlags(files, listed);
    assert files[1] != listed[0] by {
      assert files[1][0] != listed[0][0];
    }
    assert r.value[0] && !r.value[1] && r.value[2];
    assert r.value == [true, false, true];
  }
}
