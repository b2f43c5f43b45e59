/**
 The task thumbnails and the screen capture of system-shell/src/main.c: ten
 slots that follow the task list, and one capture at a time that fills them.
 */
module Thumbnails {
  import opened Common
  import opened AppTokens

  const MAX_TASKS: nat := 10
  const RETRY_MAX: nat := 2
  const CAPTURE_WIDTH := 320
  const CAPTURE_HEIGHT := 170
  const FORMAT_XRGB8888: nat := 0x3432_5258
  const FORMAT_ARGB8888: nat := 0x3432_5241

  /** A task of the list; `identity` stands for its account and application id. */
  datatype Task = Task(id: nat, generation: nat, foreground: bool, identity: nat)

  /** A slot is free when its task id is zero. */
  datatype Slot = Slot(taskId: nat, runtime: nat, thumbnail: nat)

  const FREE := Slot(0, 0, 0)

  datatype Purpose = Nothing | Screenshot | Thumbnail

  datatype Entry = Began(purpose: Purpose) | Issued

  datatype State = State(tasks: seq<Task>, slots: seq<Slot>, nextThumbnail: nat, source: bool, width: int, height: int,
                         format: nat, busy: bool, purpose: Purpose, taskId: nat, runtime: nat, retries: nat,
                         buffer: bool, log: seq<Entry>)

  const INITIAL := State([], seq(MAX_TASKS, _ => FREE), 1, false, 0, 0, 0, false, Nothing, 0, 0, 0, false, [])

  // ----- slots

  /** `task_summary`: the first task with that id. */
  function Find(tasks: seq<Task>, id: nat): (r: Option<Task>)
    ensures r.Some? ==> r.value in tasks && r.value.id == id
    ensures r.None? ==> forall i :: 0 <= i < |tasks| ==> tasks[i].id != id
  {
    if tasks == [] then None
    else if tasks[0].id == id then Some(tasks[0])
    else Find(tasks[1..], id)
  }

  /** The first slot with that task id. */
  function SlotOf(slots: seq<Slot>, id: nat): (r: Option<nat>)
    ensures r.Some? ==> r.value < |slots| && slots[r.value].taskId == id &&
                        forall i :: 0 <= i < r.value ==> slots[i].taskId != id
    ensures r.None? ==> forall i :: 0 <= i < |slots| ==> slots[i].taskId != id
  {
    if slots == [] then None
    else if slots[0].taskId == id then Some(0)
    else
      assert forall i :: 0 < i < |slots| ==> slots[i] == slots[1..][i - 1];
      match SlotOf(slots[1..], id)
      case None => None
      case Some(index) => Some(index + 1)
  }

  /** `task_thumbnail` with `create`: the task's slot, or else the first free one. */
  function Claim(slots: seq<Slot>, id: nat): Option<nat> {
    if id == 0 then None
    else if SlotOf(slots, id).Some? then SlotOf(slots, id)
    else SlotOf(slots, 0)
  }

  /** A slot may stay as long as its task runs as it did; a task that does not run has generation zero. */
  predicate Keeps(slot: Slot, tasks: seq<Task>) {
    var task := Find(tasks, slot.taskId);
    task.Some? && (task.value.generation == 0 || task.value.generation == slot.runtime)
  }

  /** `reconcile_task_thumbnails` */
  function Reconciled(slots: seq<Slot>, tasks: seq<Task>): (r: seq<Slot>)
    ensures |r| == |slots|
  {
    seq(|slots|, i requires 0 <= i < |slots| =>
      if slots[i].taskId == 0 || Keeps(slots[i], tasks) then slots[i] else FREE)
  }

  // ----- capture

  predicate Supported(st: State) {
    st.source && st.width == CAPTURE_WIDTH && st.height == CAPTURE_HEIGHT &&
    (st.format == FORMAT_XRGB8888 || st.format == FORMAT_ARGB8888)
  }

  /** `issue_screenshot_capture` when it succeeds; it does if the source is supported and the buffer was allocated. */
  function Issue(st: State): State {
    st.(busy := true, buffer := true, log := st.log + [Issued])
  }

  /** What every end of a capture resets. */
  function Idle(st: State): State {
    st.(busy := false, purpose := Nothing, taskId := 0, runtime := 0, buffer := false)
  }

  function Begin(st: State, purpose: Purpose, taskId: nat, runtime: nat): State {
    st.(purpose := purpose, taskId := taskId, runtime := runtime, retries := 0, log := st.log + [Began(purpose)])
  }

  /** What the shell sees when it looks: whether the app area is visible, and which applications have a surface. */
  datatype View = View(visible: bool, bound: set<nat>)

  /** `task_capture_is_current` */
  predicate Current(st: State, view: View) {
    var task := Find(st.tasks, st.taskId);
    && task.Some? && task.value.foreground && task.value.generation == st.runtime
    && view.visible && task.value.identity in view.bound
  }

  /** The counter skips zero when it wraps. */
  function Stamp(next: nat): nat { if next == 0 then 1 else next }

  /** A completed thumbnail capture. */
  function Store(st: State, index: nat): State
    requires index < |st.slots|
  {
    var stamp := Stamp(st.nextThumbnail);
    st.(slots := st.slots[index := Slot(st.taskId, st.runtime, stamp)], nextThumbnail := (stamp + 1) % UINT64_SIZE)
  }

  /** `finish_task_thumbnail_capture` */
  function FinishThumbnail(st: State, complete: bool, view: View): State {
    var slot := Claim(st.slots, st.taskId);
    Idle(if complete && Current(st, view) && slot.Some? then Store(st, slot.value) else st)
  }

  /** The task `maybe_capture_task_thumbnail` picks. */
  function Candidate(tasks: seq<Task>, view: View): (r: Option<Task>)
    ensures r.Some? ==> r.value in tasks && r.value.foreground && r.value.generation != 0 &&
                        r.value.identity in view.bound
    ensures r.None? ==> forall i :: 0 <= i < |tasks| ==>
              !(tasks[i].foreground && tasks[i].generation != 0 && tasks[i].identity in view.bound)
  {
    if tasks == [] then None
    else if tasks[0].foreground && tasks[0].generation != 0 && tasks[0].identity in view.bound then Some(tasks[0])
    else Candidate(tasks[1..], view)
  }

  datatype Event =
    | Poll(list: Option<seq<Task>>)
    | SourceCreated
    | SourceRemoved
    | Format(format: nat)
    | Size(width: int, height: int)
    | TakeScreenshot(granted: bool)
    | TakeThumbnail(view: View, granted: bool)
    | Complete(view: View)
    | Retry(granted: bool)
    | Failed

  /** `begin_screenshot` */
  function BeginScreenshot(st: State, granted: bool): State {
    if st.busy then st
    else
      var begun := Begin(st, Screenshot, 0, 0);
      if !st.source || st.width == 0 || st.height == 0 || st.format == 0 then begun.(purpose := Nothing)
      else if !Supported(st) then begun.(purpose := Nothing)
      else if !granted then begun.(purpose := Nothing, buffer := false)
      else Issue(begun)
  }

  /** `maybe_capture_task_thumbnail` */
  function BeginThumbnail(st: State, view: View, granted: bool): State {
    var candidate := Candidate(st.tasks, view);
    if st.busy || !st.source || !view.visible || candidate.None? then st
    else
      var begun := Begin(st, Thumbnail, candidate.value.id, candidate.value.generation);
      if Supported(st) && granted then Issue(begun)
      else begun.(purpose := Nothing, taskId := 0, runtime := 0, buffer := st.buffer && !Supported(st))
  }

  /** `handle_capture_retry` */
  function RetryCapture(st: State, granted: bool): State {
    var released := st.(busy := false, buffer := false, retries := st.retries + 1);
    if released.retries > RETRY_MAX || !Supported(st) || !granted then Idle(released) else Issue(released)
  }

  function Step(st: State, event: Event): State {
    match event
    case Poll(list) =>
      if list.None? then st else st.(tasks := list.value, slots := Reconciled(st.slots, list.value))
    case SourceCreated => if st.source then st else st.(source := true, width := 0, height := 0, format := 0)
    case SourceRemoved => Idle(st).(source := false, width := 0, height := 0, format := 0)
    case Format(format) => st.(format := format)
    case Size(width, height) => st.(width := width, height := height)
    case TakeScreenshot(granted) => BeginScreenshot(st, granted)
    case TakeThumbnail(view, granted) => BeginThumbnail(st, view, granted)
    case Complete(view) => if st.purpose == Screenshot then Idle(st) else FinishThumbnail(st, st.purpose == Thumbnail, view)
    case Retry(granted) => RetryCapture(st, granted)
    case Failed => Idle(st)
  }

  predicate ValidList(tasks: seq<Task>) {
    |tasks| <= MAX_TASKS && forall i :: 0 <= i < |tasks| ==> tasks[i].id != 0
  }

  /** Lists are as the client decodes them, and the compositor answers only captures that are under way. */
  predicate Possible(st: State, event: Event) {
    && (event.Poll? && event.list.Some? ==> ValidList(event.list.value))
    && (event.Complete? || event.Retry? || event.Failed? ==> st.busy)
  }

  // ----- invariants

  ghost predicate SlotOk(slot: Slot, tasks: seq<Task>) {
    if slot.taskId == 0 then slot == FREE else Keeps(slot, tasks) && slot.thumbnail != 0
  }

  ghost predicate Distinct(slots: seq<Slot>) {
    forall i, j :: 0 <= i < j < |slots| && slots[i].taskId != 0 ==> slots[i].taskId != slots[j].taskId
  }

  ghost predicate SlotsInv(slots: seq<Slot>, tasks: seq<Task>) {
    && |slots| == MAX_TASKS && ValidList(tasks) && Distinct(slots)
    && forall i :: 0 <= i < |slots| ==> SlotOk(slots[i], tasks)
  }

  /** The requests since the last capture began. */
  function IssuedSince(log: seq<Entry>): nat {
    if log == [] || log[|log| - 1].Began? then 0 else IssuedSince(log[..|log| - 1]) + 1
  }

  ghost predicate AtMostThree(log: seq<Entry>) {
    forall n :: 0 <= n <= |log| ==> IssuedSince(log[..n]) <= RETRY_MAX + 1
  }

  ghost predicate CaptureInv(st: State) {
    && (st.busy <==> st.purpose != Nothing)
    && (st.busy <==> st.buffer)
    && (st.busy ==> st.source && st.retries <= RETRY_MAX && IssuedSince(st.log) == st.retries + 1)
    && (st.purpose == Thumbnail <==> st.taskId != 0)
    && (st.purpose == Thumbnail <==> st.runtime != 0)
    && AtMostThree(st.log)
  }

  ghost predicate Inv(st: State) {
    SlotsInv(st.slots, st.tasks) && CaptureInv(st) && st.nextThumbnail < UINT64_SIZE
  }

  lemma ReconciledKeeps(slots: seq<Slot>, before: seq<Task>, tasks: seq<Task>)
    requires SlotsInv(slots, before) && ValidList(tasks)
    ensures SlotsInv(Reconciled(slots, tasks), tasks)
  {
    hide Keeps, ValidList;
    forall i | 0 <= i < |slots|
      ensures SlotOk(Reconciled(slots, tasks)[i], tasks)
    {
      assert SlotOk(slots[i], before);
    }
  }

  lemma ClaimedSlot(slots: seq<Slot>, id: nat)
    requires id != 0 && Claim(slots, id).Some?
    ensures Claim(slots, id).value < |slots|
    ensures slots[Claim(slots, id).value].taskId == id || slots[Claim(slots, id).value].taskId == 0
    ensures forall i :: 0 <= i < |slots| && i != Claim(slots, id).value && slots[i].taskId == id ==>
              slots[Claim(slots, id).value].taskId == id
  {
  }

  lemma StoreKeeps(st: State, view: View)
    requires Inv(st) && st.purpose == Thumbnail && Current(st, view) && Claim(st.slots, st.taskId).Some?
    ensures var next := Store(st, Claim(st.slots, st.taskId).value);
            SlotsInv(next.slots, next.tasks) && next.nextThumbnail < UINT64_SIZE
  {
    hide ValidList;
    var index := Claim(st.slots, st.taskId).value;
    ClaimedSlot(st.slots, st.taskId);
    var next := Store(st, index);
    assert Keeps(next.slots[index], st.tasks);
    forall i | 0 <= i < |next.slots|
      ensures SlotOk(next.slots[i], st.tasks)
    {
      assert SlotOk(st.slots[i], st.tasks);
    }
  }

  lemma LogKeeps(log: seq<Entry>, entry: Entry)
    requires AtMostThree(log) && (entry.Issued? ==> IssuedSince(log) <= RETRY_MAX)
    ensures AtMostThree(log + [entry])
    ensures IssuedSince(log + [entry]) == if entry.Began? then 0 else IssuedSince(log) + 1
  {
    var longer := log + [entry];
    assert longer[..|log|] == log && longer[..|longer|] == longer;
    forall n | 0 <= n <= |longer|
      ensures IssuedSince(longer[..n]) <= RETRY_MAX + 1
    {
      if n <= |log| {
        assert longer[..n] == log[..n];
      } else {
        assert longer[..n] == longer && log[..|log|] == log;
      }
    }
  }

  lemma BeginKeeps(st: State, purpose: Purpose, taskId: nat, runtime: nat)
    requires CaptureInv(st)
    ensures var begun := Begin(st, purpose, taskId, runtime);
            AtMostThree(begun.log) && AtMostThree(Issue(begun).log) && IssuedSince(Issue(begun).log) == 1
  {
    hide AtMostThree, IssuedSince;
    LogKeeps(st.log, Began(purpose));
    LogKeeps(st.log + [Began(purpose)], Issued);
  }

  lemma {:induction false} CandidateInList(tasks: seq<Task>, view: View)
    requires ValidList(tasks) && Candidate(tasks, view).Some?
    ensures Candidate(tasks, view).value.id != 0
  {
  }

  lemma StepKeeps(st: State, event: Event)
    requires Inv(st) && Possible(st, event)
    ensures Inv(Step(st, event))
  {
    hide SlotsInv, AtMostThree, IssuedSince, Claim, Current, ValidList, Candidate, Reconciled;
    match event
    case Poll(list) =>
      if list.Some? {
        ReconciledKeeps(st.slots, st.tasks, list.value);
      }
    case SourceCreated =>
    case SourceRemoved =>
    case Format(_) =>
    case Size(_, _) =>
    case TakeScreenshot(_) => BeginKeeps(st, Screenshot, 0, 0);
    case TakeThumbnail(view, _) =>
      var candidate := Candidate(st.tasks, view);
      if candidate.Some? {
        SlotsList(st.slots, st.tasks);
        CandidateInList(st.tasks, view);
        BeginKeeps(st, Thumbnail, candidate.value.id, candidate.value.generation);
      }
    case Complete(view) =>
      if st.purpose == Thumbnail && Current(st, view) && Claim(st.slots, st.taskId).Some? {
        ClaimedSlot(st.slots, st.taskId);
        StoreKeeps(st, view);
      }
    case Retry(_) =>
      if st.retries < RETRY_MAX {
        LogKeeps(st.log, Issued);
      }
    case Failed =>
  }

  lemma SlotsList(slots: seq<Slot>, tasks: seq<Task>)
    requires SlotsInv(slots, tasks)
    ensures ValidList(tasks)
  {
  }

  // ----- runs

  ghost predicate ValidRun(st: State, events: seq<Event>)
    decreases |events|
  {
    events == [] || (Possible(st, events[0]) && ValidRun(Step(st, events[0]), events[1..]))
  }

  function Run(st: State, events: seq<Event>): State
    decreases |events|
  {
    if events == [] then st else Run(Step(st, events[0]), events[1..])
  }

  lemma {:induction false} RunKeeps(st: State, events: seq<Event>)
    requires Inv(st) && ValidRun(st, events)
    ensures Inv(Run(st, events))
    decreases |events|
  {
    hide Inv, Step, Possible;
    if events != [] {
      StepKeeps(st, events[0]);
      RunKeeps(Step(st, events[0]), events[1..]);
    }
  }

  lemma InitialInv()
    ensures Inv(INITIAL)
  {
  }

  /**
   In every run: occupied slots have different task ids, each of a listed task
   that runs with the slot's generation or not at all; a capture is busy exactly
   when it has a purpose, and exactly when it has a buffer; and no capture has
   issued more than three requests.
   */
  lemma RunSafe(events: seq<Event>)
    requires ValidRun(INITIAL, events)
    ensures var st := Run(INITIAL, events);
            && |st.slots| == 10 && Distinct(st.slots)
            && (forall i :: 0 <= i < |st.slots| && st.slots[i].taskId != 0 ==> Keeps(st.slots[i], st.tasks))
            && (st.busy <==> st.purpose != Nothing) && (st.busy <==> st.buffer)
            && (forall n :: 0 <= n <= |st.log| ==> IssuedSince(st.log[..n]) <= 3)
  {
    hide Run, ValidRun, Keeps, IssuedSince, ValidList;
    InitialInv();
    RunKeeps(INITIAL, events);
    var st := Run(INITIAL, events);
    forall i | 0 <= i < |st.slots| && st.slots[i].taskId != 0
      ensures Keeps(st.slots[i], st.tasks)
    {
      assert SlotOk(st.slots[i], st.tasks);
    }
  }

  // ----- a slot is always there

  function Ids(tasks: seq<Task>): (r: seq<nat>)
    ensures |r| == |tasks|
  {
    seq(|tasks|, i requires 0 <= i < |tasks| => tasks[i].id)
  }

  function SlotIds(slots: seq<Slot>): (r: seq<nat>)
    ensures |r| == |slots|
  {
    seq(|slots|, i requires 0 <= i < |slots| => slots[i].taskId)
  }

  lemma {:induction false} DistinctSize(ids: seq<nat>)
    requires forall i, j :: 0 <= i < j < |ids| ==> ids[i] != ids[j]
    ensures |ToSet(ids)| == |ids|
    decreases |ids|
  {
    if ids != [] {
      var rest := ids[..|ids| - 1];
      DistinctSize(rest);
      assert ToSet(ids) == ToSet(rest) + {ids[|ids| - 1]};
    }
  }

  lemma SubsetSize(a: set<nat>, b: set<nat>)
    requires a <= b
    ensures |a| <= |b|
    decreases |b|
  {
    if a != {} {
      var x :| x in a;
      SubsetSize(a - {x}, b - {x});
    }
  }

  /** By counting: a listed task has a slot, or a slot is free for it. */
  lemma SlotAvailable(slots: seq<Slot>, tasks: seq<Task>, id: nat)
    requires SlotsInv(slots, tasks) && Find(tasks, id).Some? && id != 0
    ensures Claim(slots, id).Some?
  {
    if SlotOf(slots, id).None? && SlotOf(slots, 0).None? {
      var used, listed := SlotIds(slots), Ids(tasks);
      DistinctSize(used);
      ToSetSize(listed);
      var i :| 0 <= i < |tasks| && tasks[i].id == id;
      assert listed[i] == id;
      forall k | k in ToSet(used)
        ensures k in ToSet(listed) - {id}
      {
        var j :| 0 <= j < |used| && used[j] == k;
        assert SlotOk(slots[j], tasks);
        var t :| 0 <= t < |tasks| && tasks[t] == Find(tasks, slots[j].taskId).value;
        assert listed[t] == k;
      }
      assert |ToSet(listed) - {id}| == |ToSet(listed)| - 1;
      SubsetSize(ToSet(used), ToSet(listed) - {id});
      assert false;
    }
  }

  /** A capture that completes while it is current always ends up in its task's slot. */
  lemma CompleteStores(st: State, view: View)
    requires Inv(st) && st.purpose == Thumbnail && Current(st, view)
    ensures var next := Step(st, Complete(view));
            SlotOf(next.slots, st.taskId).Some? &&
            var slot := next.slots[SlotOf(next.slots, st.taskId).value];
            slot.runtime == st.runtime && slot.thumbnail == Stamp(st.nextThumbnail) && slot.thumbnail != 0
  {
    SlotAvailable(st.slots, st.tasks, st.taskId);
    var index := Claim(st.slots, st.taskId).value;
    ClaimedSlot(st.slots, st.taskId);
    var next := Step(st, Complete(view));
    assert next.slots[index].taskId == st.taskId;
    StepKeeps(st, Complete(view));
    var found := SlotOf(next.slots, st.taskId).value;
    assert found == index;
  }
}
