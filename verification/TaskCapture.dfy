/** The thumbnail slots and the capture fields of `struct shell`, updated in place; each callback is a step of `Thumbnails`. */
module TaskCapture {
  import opened Common
  import opened Thumbnails

  class Capture {
    const slots: array<Slot>
    var tasks: seq<Task>
    var nextThumbnail: nat
    var source: bool
    var width: int
    var height: int
    var format: nat
    var busy: bool
    var purpose: Purpose
    var taskId: nat
    var runtime: nat
    var retries: nat
    var buffer: bool
    ghost var log: seq<Entry>

    ghost function Value(): State
      reads this, slots
    {
      State(tasks, slots[..], nextThumbnail, source, width, height, format, busy, purpose, taskId, runtime, retries,
            buffer, log)
    }

    constructor ()
      ensures Value() == INITIAL && fresh(slots)
    {
      slots := new Slot[MAX_TASKS](_ => FREE);
      tasks, nextThumbnail := [], 1;
      source, width, height, format := false, 0, 0, 0;
      busy, purpose, taskId, runtime, retries, buffer := false, Nothing, 0, 0, 0, false;
      log := [];
      new;
      assert slots[..] == seq(MAX_TASKS, _ => FREE);
    }

    /** `task_summary` */
    method TaskSummary(id: nat) returns (task: Option<Task>)
      ensures task == Find(tasks, id)
    {
      var index := 0;
      assert tasks[0..] == tasks;
      while index < |tasks|
        invariant 0 <= index <= |tasks| && Find(tasks[index..], id) == Find(tasks, id)
      {
        if tasks[index].id == id {
          return Some(tasks[index]);
        }
        assert tasks[index..][1..] == tasks[index + 1..];
        index := index + 1;
      }
      return None;
    }

    /** `task_thumbnail` with `create` */
    method ClaimSlot(id: nat) returns (slot: Option<nat>)
      ensures slot == Claim(slots[..], id)
      ensures slot.Some? ==> slot.value < slots.Length
    {
      if id == 0 {
        return None;
      }
      var free: Option<nat> := None;
      var index := 0;
      while index < slots.Length
        invariant 0 <= index <= slots.Length
        invariant forall i :: 0 <= i < index ==> slots[i].taskId != id
        invariant free.None? ==> forall i :: 0 <= i < index ==> slots[i].taskId != 0
        invariant free.Some? ==> free.value < index && slots[free.value].taskId == 0 &&
                                 forall i :: 0 <= i < free.value ==> slots[i].taskId != 0
      {
        if slots[index].taskId == id {
          FirstSlot(slots[..], id, index);
          return Some(index);
        }
        if free.None? && slots[index].taskId == 0 {
          free := Some(index);
        }
        index := index + 1;
      }
      if free.Some? {
        FirstSlot(slots[..], 0, free.value);
      }
      return free;
    }

    /** `reconcile_task_thumbnails` */
    method Reconcile()
      modifies slots
      ensures slots[..] == Reconciled(old(slots[..]), tasks)
    {
      hide Find;
      var index := 0;
      while index < slots.Length
        invariant 0 <= index <= slots.Length
        invariant forall i :: 0 <= i < index ==> slots[i] == Reconciled(old(slots[..]), tasks)[i]
        invariant forall i :: index <= i < slots.Length ==> slots[i] == old(slots[..])[i]
      {
        var task := TaskSummary(slots[index].taskId);
        if slots[index].taskId != 0 {
          if task.None? || (task.value.generation != 0 && task.value.generation != slots[index].runtime) {
            slots[index] := FREE;
          }
        }
        index := index + 1;
      }
    }

    /** The part of `poll_task_catalog` that follows a good list. */
    method PollCatalog(list: Option<seq<Task>>)
      modifies this, slots
      ensures Value() == Step(old(Value()), Poll(list))
    {
      if list.None? {
        return;
      }
      tasks := list.value;
      Reconcile();
    }

    /** `issue_screenshot_capture` */
    method IssueCapture(granted: bool) returns (issued: bool)
      modifies this`busy, this`buffer, this`log
      ensures issued <==> Supported(old(Value())) && granted
      ensures Value() == if issued then Issue(old(Value())) else old(Value()).(buffer := buffer)
      ensures !issued ==> buffer == (old(buffer) && !Supported(old(Value())))
    {
      if !source || width != CAPTURE_WIDTH || height != CAPTURE_HEIGHT ||
         (format != FORMAT_XRGB8888 && format != FORMAT_ARGB8888) {
        return false;
      }
      buffer := granted;
      if !granted {
        return false;
      }
      busy := true;
      log := log + [Issued];
      return true;
    }

    method BeginCapture(why: Purpose, task: nat, generation: nat)
      modifies this`purpose, this`taskId, this`runtime, this`retries, this`log
      ensures Value() == Begin(old(Value()), why, task, generation)
    {
      purpose, taskId, runtime, retries := why, task, generation, 0;
      log := log + [Began(why)];
    }

    method BecomeIdle()
      modifies this`busy, this`purpose, this`taskId, this`runtime, this`buffer
      ensures Value() == Idle(old(Value()))
    {
      busy, purpose, taskId, runtime, buffer := false, Nothing, 0, 0, false;
    }

    /** `task_capture_is_current` */
    method IsCurrent(view: View) returns (current: bool)
      ensures current <==> Current(Value(), view)
    {
      var task := TaskSummary(taskId);
      return task.Some? && task.value.foreground && task.value.generation == runtime && view.visible &&
             task.value.identity in view.bound;
    }

    /** `finish_task_thumbnail_capture` */
    method FinishCapture(complete: bool, view: View)
      modifies this, slots
      ensures Value() == FinishThumbnail(old(Value()), complete, view)
    {
      hide Claim, Current;
      var current := IsCurrent(view);
      if complete && current {
        var slot := ClaimSlot(taskId);
        if slot.Some? {
          var generation := nextThumbnail;
          nextThumbnail := (nextThumbnail + 1) % UINT64_SIZE;
          if generation == 0 {
            generation := nextThumbnail;
            nextThumbnail := (nextThumbnail + 1) % UINT64_SIZE;
          }
          slots[slot.value] := Slot(taskId, runtime, generation);
        }
      }
      BecomeIdle();
    }

    /** `handle_capture_complete` */
    method CaptureComplete(view: View)
      modifies this, slots
      ensures Value() == Step(old(Value()), Complete(view))
    {
      hide FinishThumbnail;
      if purpose == Thumbnail {
        FinishCapture(true, view);
      } else if purpose != Screenshot {
        FinishCapture(false, view);
      } else {
        BecomeIdle();
      }
    }

    /** `handle_capture_retry` */
    method CaptureRetry(granted: bool)
      modifies this
      ensures Value() == Step(old(Value()), Retry(granted))
    {
      busy := false;
      buffer := false;
      retries := retries + 1;
      if retries > RETRY_MAX {
        BecomeIdle();
        return;
      }
      var issued := IssueCapture(granted);
      if !issued {
        BecomeIdle();
      }
    }

    /** `begin_screenshot` */
    method StartScreenshot(granted: bool)
      modifies this
      ensures Value() == Step(old(Value()), TakeScreenshot(granted))
    {
      if busy {
        return;
      }
      BeginCapture(Screenshot, 0, 0);
      if !source || width == 0 || height == 0 || format == 0 {
        purpose := Nothing;
        return;
      }
      var issued := IssueCapture(granted);
      if !issued {
        purpose := Nothing;
      }
    }

    method FindCandidate(view: View) returns (task: Option<Task>)
      ensures task == Candidate(tasks, view)
    {
      var index := 0;
      assert tasks[0..] == tasks;
      while index < |tasks|
        invariant 0 <= index <= |tasks| && Candidate(tasks[index..], view) == Candidate(tasks, view)
      {
        var here := tasks[index];
        if here.foreground && here.generation != 0 && here.identity in view.bound {
          return Some(here);
        }
        assert tasks[index..][1..] == tasks[index + 1..];
        index := index + 1;
      }
      return None;
    }

    /** `maybe_capture_task_thumbnail` */
    method StartThumbnail(view: View, granted: bool)
      modifies this
      ensures Value() == Step(old(Value()), TakeThumbnail(view, granted))
    {
      hide Candidate;
      if busy || !source || !view.visible {
        return;
      }
      var foreground := FindCandidate(view);
      if foreground.None? {
        return;
      }
      BeginCapture(Thumbnail, foreground.value.id, foreground.value.generation);
      var issued := IssueCapture(granted);
      if !issued {
        purpose, taskId, runtime := Nothing, 0, 0;
      }
    }

    /** `handle_registry_remove` for the captured output or the capture factory */
    method RemoveSource()
      modifies this
      ensures Value() == Step(old(Value()), SourceRemoved)
    {
      source, width, height, format := false, 0, 0, 0;
      BecomeIdle();
    }
  }

  lemma FirstSlot(slots: seq<Slot>, id: nat, index: nat)
    requires index < |slots| && slots[index].taskId == id && forall i :: 0 <= i < index ==> slots[i].taskId != id
    ensures SlotOf(slots, id) == Some(index)
  {
    var found := SlotOf(slots, id);
    assert found.Some?;
  }
}
