/** How long a thumbnail lives, and when a capture starts and goes on. */
module ThumbnailTheorems {
  import opened Common
  import opened Thumbnails

  // ----- the life of a slot

  /** Task `j` is the one the list has under that id. */
  predicate FirstWith(tasks: seq<Task>, id: nat, j: nat) {
    j < |tasks| && tasks[j].id == id && forall i :: 0 <= i < j ==> tasks[i].id != id
  }

  lemma {:induction false} FindIsFirst(tasks: seq<Task>, id: nat)
    ensures forall j: nat :: FirstWith(tasks, id, j) ==> Find(tasks, id) == Some(tasks[j])
    ensures Find(tasks, id).Some? ==> exists j: nat :: FirstWith(tasks, id, j)
    decreases |tasks|
  {
    if tasks != [] && tasks[0].id != id {
      var rest := tasks[1..];
      FindIsFirst(rest, id);
      forall j: nat | FirstWith(tasks, id, j) ensures Find(tasks, id) == Some(tasks[j]) {
        assert FirstWith(rest, id, j - 1);
      }
      if Find(rest, id).Some? {
        var j: nat :| FirstWith(rest, id, j);
        assert FirstWith(tasks, id, j + 1);
      }
    } else if tasks != [] {
      assert FirstWith(tasks, id, 0);
    }
  }

  /** The list has the slot's task, not running or running as it did. */
  ghost predicate StillRuns(tasks: seq<Task>, slot: Slot) {
    exists j: nat :: FirstWith(tasks, slot.taskId, j) &&
      (tasks[j].generation == 0 || tasks[j].generation == slot.runtime)
  }

  /** The list has the captured task in front, running as it did, visible and with a surface. */
  ghost predicate StillCurrent(st: State, view: View) {
    view.visible &&
    exists j: nat :: FirstWith(st.tasks, st.taskId, j) && st.tasks[j].foreground &&
      st.tasks[j].generation == st.runtime && st.tasks[j].identity in view.bound
  }

  /** A list arrives without the slot's task, or with the task running anew. */
  ghost predicate Drops(event: Event, slot: Slot) {
    event.Poll? && event.list.Some? && !StillRuns(event.list.value, slot)
  }

  /** A newer capture of the slot's task completes. */
  ghost predicate Renews(st: State, event: Event, slot: Slot) {
    event.Complete? && st.purpose == Thumbnail && st.taskId == slot.taskId && StillCurrent(st, event.view)
  }

  lemma KeepsIsStillRuns(slot: Slot, tasks: seq<Task>)
    ensures Keeps(slot, tasks) <==> StillRuns(tasks, slot)
  {
    FindIsFirst(tasks, slot.taskId);
    hide Find;
  }

  lemma CurrentIsStillCurrent(st: State, view: View)
    ensures Current(st, view) <==> StillCurrent(st, view)
  {
    FindIsFirst(st.tasks, st.taskId);
    hide Find;
  }

  /** The slot after one event: freed by a list that drops its task, renewed by a newer capture, otherwise as it was. */
  ghost function SlotAfter(st: State, event: Event, slot: Slot): Slot {
    if Drops(event, slot) then FREE
    else if Renews(st, event, slot) then Slot(slot.taskId, st.runtime, if st.nextThumbnail == 0 then 1 else st.nextThumbnail)
    else slot
  }

  lemma SlotStep(st: State, event: Event, i: nat)
    requires Inv(st) && Possible(st, event) && i < |st.slots| && st.slots[i].taskId != 0
    ensures |Step(st, event).slots| == |st.slots| && Step(st, event).slots[i] == SlotAfter(st, event, st.slots[i])
  {
    hide Find, Keeps, Current, StillRuns, StillCurrent, Claim, Candidate, Supported, ValidList, CaptureInv;
    match event
    case Poll(list) =>
      if list.Some? {
        KeepsIsStillRuns(st.slots[i], list.value);
      }
    case Complete(view) =>
      CurrentIsStillCurrent(st, view);
      if st.purpose == Thumbnail && Current(st, view) {
        CaptureHasTask(st);
        CurrentHasTask(st, view);
        SlotAvailable(st.slots, st.tasks, st.taskId);
        ClaimedSlot(st.slots, st.taskId);
        ClaimedOwn(st.slots, st.taskId, i);
      }
    case _ =>
  }

  lemma CaptureHasTask(st: State)
    requires CaptureInv(st)
    ensures st.purpose == Thumbnail ==> st.taskId != 0
  {
  }

  lemma CurrentHasTask(st: State, view: View)
    requires Current(st, view)
    ensures Find(st.tasks, st.taskId).Some?
  {
  }

  lemma ClaimedOwn(slots: seq<Slot>, id: nat, i: nat)
    requires id != 0 && Claim(slots, id).Some? && i < |slots| && slots[i].taskId != 0 && Distinct(slots)
    ensures i == Claim(slots, id).value <==> slots[i].taskId == id
  {
    ClaimedSlot(slots, id);
  }

  /** None of the events drops or renews the slot. */
  ghost predicate Untouched(st: State, events: seq<Event>, slot: Slot)
    decreases |events|
  {
    events == [] ||
    (!Drops(events[0], slot) && !Renews(st, events[0], slot) && Untouched(Step(st, events[0]), events[1..], slot))
  }

  /** Over any run a stored slot stays as it is exactly until an event drops or renews it. */
  lemma {:induction false} SlotLifetime(st: State, events: seq<Event>, event: Event, i: nat)
    requires Inv(st) && ValidRun(st, events) && Possible(Run(st, events), event)
    requires i < |st.slots| && st.slots[i].taskId != 0 && Untouched(st, events, st.slots[i])
    ensures |Run(st, events).slots| == |st.slots| && Run(st, events).slots[i] == st.slots[i]
    ensures |Step(Run(st, events), event).slots| == |st.slots|
    ensures Step(Run(st, events), event).slots[i] == SlotAfter(Run(st, events), event, st.slots[i])
    decreases |events|
  {
    hide Inv, Possible, Step, Drops, Renews;
    if events == [] {
      SlotStep(st, event, i);
    } else {
      SlotStep(st, events[0], i);
      StepKeeps(st, events[0]);
      SlotLifetime(Step(st, events[0]), events[1..], event, i);
    }
  }

  /** A free slot is filled only by a completed, current capture, for its own task. */
  lemma FreeSlotStep(st: State, event: Event, i: nat)
    requires Inv(st) && Possible(st, event) && i < |st.slots| && st.slots[i].taskId == 0
    ensures |Step(st, event).slots| == |st.slots|
    ensures Step(st, event).slots[i].taskId != 0 ==>
              event.Complete? && st.purpose == Thumbnail && StillCurrent(st, event.view) &&
              Step(st, event).slots[i].taskId == st.taskId && Step(st, event).slots[i].runtime == st.runtime
  {
    hide Find, Keeps, Current, StillRuns, StillCurrent, Claim, Candidate, Supported, ValidList, CaptureInv;
    if event.Complete? {
      CurrentIsStillCurrent(st, event.view);
      if st.purpose == Thumbnail && Current(st, event.view) {
        CaptureHasTask(st);
        CurrentHasTask(st, event.view);
        SlotAvailable(st.slots, st.tasks, st.taskId);
        ClaimedSlot(st.slots, st.taskId);
      }
    }
  }

  // ----- the numbers of thumbnails

  /** Every number in a slot was handed out before. */
  ghost predicate Numbered(st: State) {
    forall i :: 0 <= i < |st.slots| ==> st.slots[i].thumbnail < st.nextThumbnail
  }

  lemma NumberStep(st: State, event: Event)
    requires Inv(st) && Possible(st, event) && Numbered(st) && 0 < st.nextThumbnail < UINT64_SIZE - 1
    ensures var next := Step(st, event);
            && Numbered(next) && st.nextThumbnail <= next.nextThumbnail <= st.nextThumbnail + 1
            && |next.slots| == |st.slots|
            && forall i :: 0 <= i < |st.slots| && next.slots[i] != st.slots[i] && next.slots[i].taskId != 0 ==>
                 next.slots[i].thumbnail == st.nextThumbnail
  {
    hide Find, Keeps, Current, Claim, Candidate, Supported, ValidList, CaptureInv;
    if event.Complete? && st.purpose == Thumbnail && Current(st, event.view) {
      CaptureHasTask(st);
      CurrentHasTask(st, event.view);
      SlotAvailable(st.slots, st.tasks, st.taskId);
      ClaimedSlot(st.slots, st.taskId);
    }
  }

  lemma {:induction false} NumbersGrow(st: State, events: seq<Event>)
    requires Inv(st) && ValidRun(st, events) && Numbered(st) && 0 < st.nextThumbnail < UINT64_SIZE - |events|
    ensures var end := Run(st, events);
            Inv(end) && Numbered(end) && st.nextThumbnail <= end.nextThumbnail <= st.nextThumbnail + |events|
    decreases |events|
  {
    hide Inv, Possible, Step, Numbered;
    if events != [] {
      NumberStep(st, events[0]);
      StepKeeps(st, events[0]);
      NumbersGrow(Step(st, events[0]), events[1..]);
    }
  }

  lemma {:induction false} RunSplits(st: State, events: seq<Event>, k: nat)
    requires k <= |events| && ValidRun(st, events)
    ensures ValidRun(st, events[..k]) && ValidRun(Run(st, events[..k]), events[k..])
    ensures Run(st, events) == Run(Run(st, events[..k]), events[k..])
    decreases |events|
  {
    hide Step, Possible;
    if k > 0 {
      RunSplits(Step(st, events[0]), events[1..], k - 1);
      assert events[..k][1..] == events[1..][..k - 1] && events[1..][k - 1..] == events[k..];
    } else {
      assert events[0..] == events;
    }
  }

  /** In every run, short of 2^64 events, a new thumbnail bears a higher number than any slot ever did before. */
  lemma NewNumber(events: seq<Event>, event: Event, i: nat, k: nat, j: nat)
    requires ValidRun(INITIAL, events) && Possible(Run(INITIAL, events), event) && |events| < UINT64_SIZE - 2
    requires k <= |events| && i < 10 && j < 10
    ensures var now := Run(INITIAL, events);
            var next, past := Step(now, event), Run(INITIAL, events[..k]);
            && |now.slots| == |next.slots| == |past.slots| == 10
            && (next.slots[i] != now.slots[i] && next.slots[i].taskId != 0 ==>
                  past.slots[j].thumbnail < next.slots[i].thumbnail)
  {
    InitialInv();
    RunSplits(INITIAL, events, k);
    NumbersGrow(INITIAL, events[..k]);
    NumbersGrow(Run(INITIAL, events[..k]), events[k..]);
    hide Run, ValidRun, Possible, Step, CaptureInv;
    NumberStep(Run(INITIAL, events), event);
  }

  // ----- when a capture starts and goes on

  /** The source is there, and of the one size and one of the two formats the shell can take. */
  predicate Capturable(st: State) {
    st.source && st.width == 320 && st.height == 170 && (st.format == 0x3432_5258 || st.format == 0x3432_5241)
  }

  /** A new source is capturable once both described, and exactly if size and format fit. */
  lemma SourceDescribed(st: State, width: int, height: int, format: nat)
    requires !st.source
    ensures var created := Step(st, SourceCreated);
            && !Capturable(Step(created, Size(width, height))) && !Capturable(Step(created, Format(format)))
            && (Capturable(Step(Step(created, Size(width, height)), Format(format))) <==>
                width == 320 && height == 170 && (format == 0x3432_5258 || format == 0x3432_5241))
  {
  }

  /** A second source is ignored; a removed one takes a capture with it, and nothing described can be captured until the next. */
  lemma SourceGone(st: State, width: int, height: int, format: nat)
    ensures st.source ==> Step(st, SourceCreated) == st
    ensures var gone := Step(st, SourceRemoved);
            !gone.busy && !Capturable(gone) && !Capturable(Step(Step(gone, Size(width, height)), Format(format)))
  {
  }

  /** A list that arrives becomes the task list. */
  lemma ListArrives(st: State, list: seq<Task>)
    ensures Step(st, Poll(Some(list))).tasks == list && Step(st, Poll(None)) == st
  {
  }

  /** A screenshot starts exactly if nothing is under way, the source fits and there is a buffer. */
  lemma ScreenshotStarts(st: State, granted: bool)
    requires Inv(st)
    ensures var after := Step(st, TakeScreenshot(granted));
            if st.busy then after == st
            else (after.busy <==> Capturable(st) && granted) && (after.busy <==> after.purpose == Screenshot)
  {
    hide SlotsInv, AtMostThree;
  }

  predicate InFront(task: Task, view: View) {
    task.foreground && task.generation != 0 && task.identity in view.bound
  }

  /** A thumbnail capture starts exactly if, besides, the app area is visible and some running task is in front. */
  lemma ThumbnailStarts(st: State, view: View, granted: bool)
    requires Inv(st)
    ensures var after := Step(st, TakeThumbnail(view, granted));
            if st.busy then after == st
            else && (after.busy <==> Capturable(st) && granted && view.visible && exists i: nat :: Foremost(st.tasks, view, i))
                 && (after.busy ==> after.purpose == Thumbnail)
                 && (forall i: nat :: after.busy && Foremost(st.tasks, view, i) ==>
                       after.taskId == st.tasks[i].id && after.runtime == st.tasks[i].generation)
  {
    hide SlotsInv, AtMostThree, Candidate, Foremost;
    CandidateIsForemost(st.tasks, view);
  }

  /** The first task of the list that is in front. */
  predicate Foremost(tasks: seq<Task>, view: View, i: nat) {
    i < |tasks| && InFront(tasks[i], view) && forall j :: 0 <= j < i ==> !InFront(tasks[j], view)
  }

  lemma {:induction false} CandidateIsForemost(tasks: seq<Task>, view: View)
    ensures forall i: nat :: Foremost(tasks, view, i) ==> Candidate(tasks, view) == Some(tasks[i])
    ensures Candidate(tasks, view).Some? ==> exists i: nat :: Foremost(tasks, view, i)
    decreases |tasks|
  {
    if tasks != [] && !InFront(tasks[0], view) {
      var rest := tasks[1..];
      CandidateIsForemost(rest, view);
      forall i: nat | Foremost(tasks, view, i) ensures Candidate(tasks, view) == Some(tasks[i]) {
        assert Foremost(rest, view, i - 1);
      }
      if Candidate(rest, view).Some? {
        var i: nat :| Foremost(rest, view, i);
        assert Foremost(tasks, view, i + 1);
      }
    } else if tasks != [] {
      assert Foremost(tasks, view, 0);
    }
  }

  /** A retry goes on exactly if fewer than three requests were issued, the source still fits and there is a buffer. */
  lemma RetryGoesOn(st: State, granted: bool)
    requires Inv(st) && st.busy
    ensures var after := Step(st, Retry(granted));
            && (after.busy <==> IssuedSince(st.log) < 3 && Capturable(st) && granted)
            && (after.busy ==> after.purpose == st.purpose && after.taskId == st.taskId && after.runtime == st.runtime)
  {
    hide SlotsInv, AtMostThree, IssuedSince;
  }
}
