/**
 The app display of app-runtime/src/display.c as a step system: presenting
 frames, polling keys, and the compositor events both of them dispatch. The
 two logs record what the compositor and the app get to see.
 */
module DisplayModel {
  import opened Common
  import opened FramePacing
  import opened InputQueue
  import opened Pixels

  const BUFFER_COUNT: nat := 2

  datatype Buffer = Buffer(pixels: seq<bv32>, busy: bool)

  /** A committed frame: the buffer, the app's frame and damage, and what the compositor was sent. */
  datatype Commit = Commit(index: nat, frame: seq<bv8>, rects: seq<Rect>, pixels: seq<bv32>, damage: seq<Rect>,
                           time: nat)

  datatype FrameEntry = Committed(commit: Commit) | Released(index: nat)

  datatype KeyEntry = Accepted(event: KeyEvent) | Dropped | Delivered(event: KeyEvent) | Reported | Cleared

  datatype State = State(mode: Mode, failed: bool, firstFrame: bool, shadow: seq<bv32>, buffers: seq<Buffer>,
                         pacer: Pacer, queue: Queue, focused: bool, keyboard: bool,
                         frames: seq<FrameEntry>, keys: seq<KeyEntry>)

  function Blank(): (r: seq<bv32>)
    ensures |r| == FRAME_PIXELS
  {
    seq(FRAME_PIXELS, _ => 0)
  }

  /** When `cp0_display_initialize` has its surface; a seat without keyboard makes it fail before. */
  function Initial(mode: Mode): State {
    State(mode, false, true, Blank(), [Buffer(Blank(), false), Buffer(Blank(), false)], Pacer(0, false), EMPTY,
          false, true, [], [])
  }

  /** What the compositor sends; modifiers and character come from the keyboard tables. */
  datatype Event =
    | Release(index: nat)
    | Enter(ours: bool)
    | Leave
    | Key(code: nat, pressed: bool, modifiers: Octet, character: Octet)
    | Capabilities(keyboard: bool)
    | Configure(width: int, height: int)
    | Close

  function ClearKeys(st: State, focused: bool): State {
    st.(queue := EMPTY, focused := focused, keys := st.keys + [Cleared])
  }

  function PushKey(st: State, event: KeyEvent): State {
    st.(queue := Pushed(st.queue, event),
        keys := st.keys + [if |st.queue.events| < CAPACITY then Accepted(event) else Dropped])
  }

  function Handle(st: State, event: Event): State {
    match event
    case Release(index) =>
      if index < |st.buffers| then
        st.(buffers := st.buffers[index := st.buffers[index].(busy := false)], frames := st.frames + [Released(index)])
      else st
    case Enter(ours) => if ours then ClearKeys(st, true) else st
    case Leave => ClearKeys(st, false)
    case Key(code, pressed, modifiers, character) =>
      if !st.focused || code > 65535 then st
      else PushKey(st, Stored(code, pressed, false, modifiers, if pressed then character else 0))
    case Capabilities(keyboard) =>
      if keyboard && !st.keyboard then st.(keyboard := true)
      else if !keyboard && st.keyboard then ClearKeys(st, false).(keyboard := false)
      else st
    case Configure(width, height) =>
      if (width != 0 && width != WIDTH) || (height != 0 && height != HEIGHT) then st.(failed := true) else st
    case Close => st.(failed := true)
  }

  function Dispatch(st: State, events: seq<Event>): State
    decreases |events|
  {
    if events == [] then st else Dispatch(Handle(st, events[0]), events[1..])
  }

  /** When it returns: its last round trips may already have brought focus and keys. */
  function Started(mode: Mode, arrived: seq<Event>): State { Dispatch(Initial(mode), arrived) }

  /** `read_u16` */
  function ReadU16(low: Octet, high: Octet): nat { low + 256 * high }

  function RectAt(bytes: seq<Octet>, at: nat): Rect
    requires at + 8 <= |bytes|
  {
    Rect(ReadU16(bytes[at], bytes[at + 1]), ReadU16(bytes[at + 2], bytes[at + 3]),
         ReadU16(bytes[at + 4], bytes[at + 5]), ReadU16(bytes[at + 6], bytes[at + 7]))
  }

  function RectsOf(bytes: seq<Octet>): seq<Rect> {
    seq(|bytes| / 8, i requires 0 <= i < |bytes| / 8 => RectAt(bytes, 8 * i))
  }

  /** `decode_damage` */
  function DecodeDamage(bytes: seq<Octet>, height: nat): Option<seq<Rect>> {
    if |bytes| % 8 != 0 || |bytes| / 8 > MAX_DAMAGE_RECTS then None
    else
      var rects := RectsOf(bytes);
      if ValidDamage(rects, height) then Some(rects) else None
  }

  /** `available_buffer` */
  function Available(buffers: seq<Buffer>): (r: Option<nat>)
    ensures r.Some? <==> exists i :: 0 <= i < |buffers| && !buffers[i].busy
    ensures r.Some? ==> r.value < |buffers| && !buffers[r.value].busy &&
                        forall i :: 0 <= i < r.value ==> buffers[i].busy
  {
    if buffers == [] then None
    else if !buffers[0].busy then Some(0)
    else
      var rest := Available(buffers[1..]);
      assert forall i :: 0 < i < |buffers| ==> buffers[i] == buffers[1..][i - 1];
      assert forall i :: 0 <= i < |buffers| - 1 ==> buffers[1..][i] == buffers[i + 1];
      match rest
      case None => None
      case Some(index) => Some(index + 1)
  }

  /** The damage sent with a frame, in screen rows. */
  function SentDamage(mode: Mode, full: bool, rects: seq<Rect>): seq<Rect> {
    if full then [Rect(0, 0, WIDTH, HEIGHT)]
    else seq(|rects|, i requires 0 <= i < |rects| => rects[i].(y := rects[i].y + mode.offset))
  }

  /** How the calls into the system went: dispatched events, clock, and whether the flush failed for good. */
  datatype PresentEnv = PresentEnv(pending: seq<Event>, dispatched: bool, clock: Option<nat>, flushed: bool)

  function Show(st: State, frame: seq<bv8>, rects: seq<Rect>, index: nat, now: nat): State
    requires ValidMode(st.mode) && IsFrame(st.mode, frame) && index < |st.buffers|
  {
    var full := st.firstFrame || rects == [];
    var shadow := Converted(st.shadow, st.mode, frame, Effective(st.mode, if full then [] else rects));
    st.(shadow := shadow,
        buffers := st.buffers[index := Buffer(shadow, true)],
        firstFrame := false,
        pacer := Pacer(now, true),
        frames := st.frames +
          [Committed(Commit(index, frame, rects, shadow, SentDamage(st.mode, full, rects), now))])
  }

  lemma {:induction false} DispatchKeepsMode(st: State, events: seq<Event>)
    ensures Dispatch(st, events).mode == st.mode
    ensures |Dispatch(st, events).buffers| == |st.buffers|
    decreases |events|
  {
    if events != [] {
      var next := Handle(st, events[0]);
      assert next.mode == st.mode && |next.buffers| == |st.buffers|;
      DispatchKeepsMode(next, events[1..]);
    }
  }

  const OK := 0
  const UNAVAILABLE := -2
  const INVALID := -3
  const BUSY := -4

  /** What is left of a present once its events are dispatched. */
  function PresentReady(st: State, frame: seq<bv8>, rects: seq<Rect>, env: PresentEnv): (State, int)
    requires ValidMode(st.mode) && IsFrame(st.mode, frame)
  {
    var buffer := Available(st.buffers);
    if !env.dispatched then (st, UNAVAILABLE)
    else if buffer.None? then (st, BUSY)
    else if env.clock.None? then (st, UNAVAILABLE)
    else if !Ready(st.pacer, env.clock.value) then (st, BUSY)
    else
      var shown := Show(st, frame, rects, buffer.value, env.clock.value);
      if env.flushed then (shown, OK) else (shown.(failed := true), UNAVAILABLE)
  }

  /** `cp0_display_present_rgb565` */
  function Present(st: State, frame: seq<bv8>, damage: seq<Octet>, env: PresentEnv): (State, int)
    requires ValidMode(st.mode)
  {
    var rects := DecodeDamage(damage, st.mode.height);
    if st.failed then (st, UNAVAILABLE)
    else if !IsFrame(st.mode, frame) || rects.None? then (st, INVALID)
    else
      DispatchKeepsMode(st, env.pending);
      PresentReady(Dispatch(st, env.pending), frame, rects.value, env)
  }

  /** The events a wait dispatched, and whether every system call in it went well. */
  datatype WaitEnv = WaitEnv(events: seq<Event>, working: bool)

  /** `cp0_display_wait`; true for its zero result. */
  function Wait(st: State, timeout: int, env: WaitEnv): (State, bool) {
    if st.failed || timeout < 0 || timeout > 1000 then (st, false)
    else
      var next := Dispatch(st, env.events);
      (next, env.working && !next.failed)
  }

  const KEY_EVENT_BYTES: nat := 8

  datatype PollResult = PollResult(code: int, event: Option<KeyEvent>)

  function Report(st: State): State {
    st.(queue := st.queue.(overflowed := false), keys := st.keys + [Reported])
  }

  function Deliver(st: State): State
    requires st.queue.events != []
  {
    st.(queue := Popped(st.queue), keys := st.keys + [Delivered(st.queue.events[0])])
  }

  /** One look at the queue: a report, an event, or nothing. */
  function Take(st: State): (State, PollResult) {
    if st.queue.overflowed then (Report(st), PollResult(BUSY, None))
    else if st.queue.events != [] then (Deliver(st), PollResult(1, Some(st.queue.events[0])))
    else (st, PollResult(OK, None))
  }

  /** `cp0_display_poll_key_event` with room for `room` bytes. */
  function Poll(st: State, room: nat, timeout: int, env: WaitEnv): (State, PollResult) {
    if room != KEY_EVENT_BYTES || timeout < 0 || timeout > 1000 then (st, PollResult(INVALID, None))
    else if st.failed then (st, PollResult(UNAVAILABLE, None))
    else if Take(st).1.code != OK then Take(st)
    else
      var (next, woken) := Wait(st, timeout, env);
      if !woken then (next, PollResult(UNAVAILABLE, None)) else Take(next)
  }

  datatype Call =
    | PresentCall(frame: seq<bv8>, damage: seq<Octet>, presentEnv: PresentEnv)
    | PollCall(room: nat, pollTimeout: int, pollEnv: WaitEnv)
    | WaitCall(waitTimeout: int, waitEnv: WaitEnv)

  function Step(st: State, call: Call): State
    requires ValidMode(st.mode)
  {
    match call
    case PresentCall(frame, damage, env) => Present(st, frame, damage, env).0
    case PollCall(room, timeout, env) => Poll(st, room, timeout, env).0
    case WaitCall(timeout, env) => Wait(st, timeout, env).0
  }
}
