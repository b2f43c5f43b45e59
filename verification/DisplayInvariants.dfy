/** What holds in every run of the app display: the frames it commits and the keys it hands out. */
module DisplayInvariants {
  import opened Common
  import opened DisplayModel
  import opened FramePacing
  import opened InputQueue
  import opened Pixels

  // ----- frames -----

  function Commits(frames: seq<FrameEntry>): seq<Commit> {
    if frames == [] then []
    else
      var before := Commits(frames[..|frames| - 1]);
      match frames[|frames| - 1]
      case Committed(commit) => before + [commit]
      case Released(_) => before
  }

  function Times(commits: seq<Commit>): (r: seq<nat>)
    ensures |r| == |commits|
    ensures forall i :: 0 <= i < |r| ==> r[i] == commits[i].time
  {
    seq(|commits|, i requires 0 <= i < |commits| => commits[i].time)
  }

  /** The screen contents after these commits. */
  function Shown(commits: seq<Commit>): seq<bv32> {
    if commits == [] then Blank() else commits[|commits| - 1].pixels
  }

  /** What buffer `index` was committed with, unless the compositor released it since. */
  function Held(frames: seq<FrameEntry>, index: nat): Option<seq<bv32>> {
    if frames == [] then None
    else
      match frames[|frames| - 1]
      case Committed(commit) => if commit.index == index then Some(commit.pixels) else Held(frames[..|frames| - 1], index)
      case Released(i) => if i == index then None else Held(frames[..|frames| - 1], index)
  }

  predicate HoldOk(buffer: Buffer, held: Option<seq<bv32>>) {
    (buffer.busy <==> held.Some?) && (held.Some? ==> buffer.pixels == held.value)
  }

  /** Commit `j` was converted on top of the screen before it, and its damage says where. */
  ghost predicate CommitOk(mode: Mode, commits: seq<Commit>, j: nat)
    requires ValidMode(mode) && j < |commits|
  {
    var commit := commits[j];
    var full := j == 0 || commit.rects == [];
    && IsFrame(mode, commit.frame)
    && ValidDamage(commit.rects, mode.height)
    && commit.pixels == Converted(Shown(commits[..j]), mode, commit.frame,
                                  Effective(mode, if full then [] else commit.rects))
    && commit.damage == SentDamage(mode, full, commit.rects)
  }

  ghost predicate ChainOk(mode: Mode, commits: seq<Commit>)
    requires ValidMode(mode)
  {
    forall j :: 0 <= j < |commits| ==> CommitOk(mode, commits, j)
  }

  ghost predicate FramesInv(mode: Mode, firstFrame: bool, shadow: seq<bv32>, buffers: seq<Buffer>, pacer: Pacer,
                            frames: seq<FrameEntry>)
    requires ValidMode(mode)
  {
    var commits := Commits(frames);
    && |buffers| == BUFFER_COUNT
    && (firstFrame <==> commits == [])
    && shadow == Shown(commits)
    && ChainOk(mode, commits)
    && Paced(Times(commits))
    && pacer == (if commits == [] then Pacer(0, false) else Pacer(commits[|commits| - 1].time, true))
    && forall i :: 0 <= i < |buffers| ==> HoldOk(buffers[i], Held(frames, i))
  }

  lemma CommitOkExtend(mode: Mode, commits: seq<Commit>, commit: Commit, j: nat)
    requires ValidMode(mode) && j < |commits| && CommitOk(mode, commits, j)
    ensures CommitOk(mode, commits + [commit], j)
  {
    assert (commits + [commit])[..j] == commits[..j];
  }

  lemma ReleaseKeeps(st: State, index: nat)
    requires ValidMode(st.mode) && index < |st.buffers|
    requires FramesInv(st.mode, st.firstFrame, st.shadow, st.buffers, st.pacer, st.frames)
    ensures var next := Handle(st, Release(index));
            FramesInv(next.mode, next.firstFrame, next.shadow, next.buffers, next.pacer, next.frames)
  {
    hide ChainOk, Paced, Shown, Held, Commits;
    forall i: nat
      ensures Held(st.frames + [Released(index)], i) == if i == index then None else Held(st.frames, i)
    {
      EntryAppended(st.frames, Released(index), i);
    }
    EntryAppended(st.frames, Released(index), index);
  }

  lemma EntryAppended(frames: seq<FrameEntry>, entry: FrameEntry, index: nat)
    ensures Commits(frames + [entry]) == if entry.Committed? then Commits(frames) + [entry.commit] else Commits(frames)
    ensures Held(frames + [entry], index) ==
            if entry == Released(index) then None
            else if entry.Committed? && entry.commit.index == index then Some(entry.commit.pixels)
            else Held(frames, index)
  {
    assert (frames + [entry])[..|frames + [entry]| - 1] == frames;
  }

  lemma ShowKeeps(st: State, frame: seq<bv8>, rects: seq<Rect>, index: nat, now: nat)
    requires ValidMode(st.mode) && IsFrame(st.mode, frame) && ValidDamage(rects, st.mode.height)
    requires index < |st.buffers| && Ready(st.pacer, now)
    requires FramesInv(st.mode, st.firstFrame, st.shadow, st.buffers, st.pacer, st.frames)
    ensures var next := Show(st, frame, rects, index, now);
            FramesInv(next.mode, next.firstFrame, next.shadow, next.buffers, next.pacer, next.frames)
  {
    hide Converted, SentDamage, Effective, IsFrame, ValidDamage, Held, Commits;
    var next := Show(st, frame, rects, index, now);
    var commits := Commits(st.frames);
    var commit := next.frames[|st.frames|].commit;
    forall i: nat
      ensures Held(next.frames, i) == if i == index then Some(commit.pixels) else Held(st.frames, i)
    {
      EntryAppended(st.frames, Committed(commit), i);
    }
    EntryAppended(st.frames, Committed(commit), index);
    assert ChainOk(st.mode, commits + [commit]) by {
      forall j | 0 <= j < |commits + [commit]|
        ensures CommitOk(st.mode, commits + [commit], j)
      {
        if j < |commits| {
          CommitOkExtend(st.mode, commits, commit, j);
        } else {
          assert (commits + [commit])[..j] == commits;
        }
      }
    }
  }

  // ----- keys -----

  /** The events pushed since the queue was last cleared. */
  function AcceptedSince(keys: seq<KeyEntry>): seq<KeyEvent> {
    if keys == [] then []
    else
      var before := keys[..|keys| - 1];
      match keys[|keys| - 1]
      case Cleared => []
      case Accepted(event) => AcceptedSince(before) + [event]
      case _ => AcceptedSince(before)
  }

  /** The events handed to the app since then. */
  function DeliveredSince(keys: seq<KeyEntry>): seq<KeyEvent> {
    if keys == [] then []
    else
      var before := keys[..|keys| - 1];
      match keys[|keys| - 1]
      case Cleared => []
      case Delivered(event) => DeliveredSince(before) + [event]
      case _ => DeliveredSince(before)
  }

  /** An event was dropped and neither reported nor cleared since. */
  predicate OwesReport(keys: seq<KeyEntry>) {
    keys != [] &&
    match keys[|keys| - 1]
    case Dropped => true
    case Reported => false
    case Cleared => false
    case _ => OwesReport(keys[..|keys| - 1])
  }

  /** The entry may follow the entries before it. */
  ghost predicate EntryOk(before: seq<KeyEntry>, entry: KeyEntry) {
    var accepted, delivered := AcceptedSince(before), DeliveredSince(before);
    match entry
    case Accepted(_) => |accepted| - |delivered| < CAPACITY
    case Dropped => |accepted| - |delivered| == CAPACITY
    case Delivered(event) =>
      !OwesReport(before) && |delivered| < |accepted| && event == accepted[|delivered|]
    case Reported => OwesReport(before)
    case Cleared => true
  }

  ghost predicate KeysOk(keys: seq<KeyEntry>) {
    forall n :: 0 <= n < |keys| ==> EntryOk(keys[..n], keys[n])
  }

  ghost predicate KeysInv(queue: Queue, keys: seq<KeyEntry>) {
    && |queue.events| <= CAPACITY
    && AcceptedSince(keys) == DeliveredSince(keys) + queue.events
    && (queue.overflowed <==> OwesReport(keys))
    && KeysOk(keys)
  }

  lemma KeysOkExtend(keys: seq<KeyEntry>, entry: KeyEntry)
    requires KeysOk(keys) && EntryOk(keys, entry)
    ensures KeysOk(keys + [entry]) && (keys + [entry])[..|keys|] == keys
  {
    hide EntryOk;
    var longer := keys + [entry];
    assert longer[..|keys|] == keys;
    forall n | 0 <= n < |longer|
      ensures EntryOk(longer[..n], longer[n])
    {
      if n < |keys| {
        assert longer[..n] == keys[..n];
      }
    }
  }

  lemma ClearKeeps(st: State, focused: bool)
    requires KeysInv(st.queue, st.keys)
    ensures KeysInv(ClearKeys(st, focused).queue, ClearKeys(st, focused).keys)
  {
    KeysOkExtend(st.keys, Cleared);
  }

  lemma PushKeeps(st: State, event: KeyEvent)
    requires KeysInv(st.queue, st.keys)
    ensures KeysInv(PushKey(st, event).queue, PushKey(st, event).keys)
  {
    var entry := PushKey(st, event).keys[|st.keys|];
    KeysOkExtend(st.keys, entry);
    assert DeliveredSince(st.keys) + (st.queue.events + [event]) == DeliveredSince(st.keys) + st.queue.events + [event];
  }

  lemma ReportKeeps(st: State)
    requires KeysInv(st.queue, st.keys) && st.queue.overflowed
    ensures KeysInv(Report(st).queue, Report(st).keys)
  {
    KeysOkExtend(st.keys, Reported);
  }

  lemma DeliverKeeps(st: State)
    requires KeysInv(st.queue, st.keys) && !st.queue.overflowed && st.queue.events != []
    ensures KeysInv(Deliver(st).queue, Deliver(st).keys)
  {
    var event := st.queue.events[0];
    KeysOkExtend(st.keys, Delivered(event));
    assert [event] + st.queue.events[1..] == st.queue.events;
    assert DeliveredSince(st.keys) + [event] + st.queue.events[1..] ==
           DeliveredSince(st.keys) + ([event] + st.queue.events[1..]);
  }

  // ----- runs -----

  ghost predicate Inv(st: State) {
    && ValidMode(st.mode)
    && FramesInv(st.mode, st.firstFrame, st.shadow, st.buffers, st.pacer, st.frames)
    && KeysInv(st.queue, st.keys)
  }

  lemma HandleKeeps(st: State, event: Event)
    requires Inv(st)
    ensures Inv(Handle(st, event)) && Handle(st, event).mode == st.mode
  {
    hide FramesInv, KeysInv, Stored, Pushed;
    match event
    case Release(index) =>
      if index < |st.buffers| {
        ReleaseKeeps(st, index);
      }
    case Enter(_) => ClearKeeps(st, true);
    case Leave => ClearKeeps(st, false);
    case Key(code, pressed, modifiers, character) =>
      PushKeeps(st, Stored(code, pressed, false, modifiers, if pressed then character else 0));
    case Capabilities(_) => ClearKeeps(st, false);
    case Configure(_, _) =>
    case Close =>
  }

  lemma {:induction false} DispatchKeeps(st: State, events: seq<Event>)
    requires Inv(st)
    ensures Inv(Dispatch(st, events)) && Dispatch(st, events).mode == st.mode
    decreases |events|
  {
    hide Inv, Handle;
    if events != [] {
      HandleKeeps(st, events[0]);
      DispatchKeeps(Handle(st, events[0]), events[1..]);
    }
  }

  lemma PresentKeeps(st: State, frame: seq<bv8>, damage: seq<Octet>, env: PresentEnv)
    requires Inv(st)
    ensures Inv(Present(st, frame, damage, env).0) && Present(st, frame, damage, env).0.mode == st.mode
  {
    hide FramesInv, KeysInv, Dispatch, Available, Converted, Effective, SentDamage, IsFrame;
    var next := Dispatch(st, env.pending);
    DispatchKeeps(st, env.pending);
    var rects := DecodeDamage(damage, st.mode.height);
    var buffer := Available(next.buffers);
    if IsFrame(st.mode, frame) && rects.Some? && buffer.Some? && env.clock.Some? && Ready(next.pacer, env.clock.value) {
      ShowKeeps(next, frame, rects.value, buffer.value, env.clock.value);
    }
  }

  lemma TakeKeeps(st: State)
    requires Inv(st)
    ensures Inv(Take(st).0) && Take(st).0.mode == st.mode
  {
    hide FramesInv, KeysInv, Popped;
    if st.queue.overflowed {
      ReportKeeps(st);
    } else if st.queue.events != [] {
      DeliverKeeps(st);
    }
  }

  lemma PollKeeps(st: State, room: nat, timeout: int, env: WaitEnv)
    requires Inv(st)
    ensures Inv(Poll(st, room, timeout, env).0) && Poll(st, room, timeout, env).0.mode == st.mode
  {
    hide Inv, Dispatch, Take;
    TakeKeeps(st);
    DispatchKeeps(st, env.events);
    TakeKeeps(Dispatch(st, env.events));
  }

  lemma StepKeeps(st: State, call: Call)
    requires Inv(st)
    ensures Inv(Step(st, call)) && Step(st, call).mode == st.mode
  {
    assert ValidMode(st.mode);
    hide Inv, Dispatch, Poll, Present;
    match call
    case PresentCall(frame, damage, env) => PresentKeeps(st, frame, damage, env);
    case PollCall(room, timeout, env) => PollKeeps(st, room, timeout, env);
    case WaitCall(timeout, env) => DispatchKeeps(st, env.events);
  }

  /** The state after a session of calls. */
  ghost function Run(mode: Mode, arrived: seq<Event>, calls: seq<Call>): (st: State)
    requires ValidMode(mode)
    ensures Inv(st) && st.mode == mode
    decreases |calls|
  {
    if calls == [] then
      InitialInv(mode);
      DispatchKeeps(Initial(mode), arrived);
      Started(mode, arrived)
    else
      var before := Run(mode, arrived, calls[..|calls| - 1]);
      StepKeeps(before, calls[|calls| - 1]);
      Step(before, calls[|calls| - 1])
  }

  lemma InitialInv(mode: Mode)
    requires ValidMode(mode)
    ensures Inv(Initial(mode))
  {
  }
}
