/**
 Display sleep and wake: compositor-policy/wake-key.c, backlight-state.c, and the
 keyboard grab the policy installs between them.
 */
module Wake {
  import opened Common

  datatype KeyResult = Forward | Consume | ConsumeAndFinish

  datatype WakeKey = WakeKey(armed: bool, captured: bool, key: nat)

  const DISARMED := WakeKey(false, false, 0)
  const ARMED := WakeKey(true, false, 0)

  /** Who holds the one keyboard. */
  datatype Grab = DefaultGrab | WakeGrab | OtherGrab

  datatype State = State(
    wakeKey: WakeKey,
    grab: Grab,
    sleeping: bool,
    saved: nat,
    brightness: nat,
    savedFile: nat)

  /** Whether each file access succeeds; a failed write leaves the file as it was. */
  datatype Files = Files(read: bool, save: bool, dim: bool, restore: bool)

  // ----- the handlers as functions

  /** `cp0_wake_key_handle`: the new key state and what becomes of the event. */
  function HandleKey(k: WakeKey, key: nat, pressed: bool): (WakeKey, KeyResult) {
    if !k.armed then (k, Forward)
    else if !k.captured && pressed then (WakeKey(true, true, key), Consume)
    else if k.captured && !pressed && k.key == key then (DISARMED, ConsumeAndFinish)
    else (k, Consume)
  }

  /** `finish_wake_key_grab` */
  function Finish(s: State): State {
    s.(grab := if s.grab == WakeGrab then DefaultGrab else s.grab, wakeKey := DISARMED)
  }

  /** `wake_key_grab_key`, called while the wake grab is installed. */
  function GrabKey(s: State, key: nat, pressed: bool): State {
    var (next, result) := HandleKey(s.wakeKey, key, pressed);
    if result == ConsumeAndFinish then Finish(s.(wakeKey := next)) else s.(wakeKey := next)
  }

  /** `arm_wake_key_grab`: whether the wake grab is installed afterwards. */
  function Arm(s: State): (State, bool) {
    if s.wakeKey.armed then (s, s.grab == WakeGrab)
    else if s.grab != DefaultGrab then (s, false)
    else (s.(wakeKey := ARMED, grab := WakeGrab), true)
  }

  /** `cp0_backlight_sleep` */
  function Dim(s: State, files: Files): State {
    if s.sleeping || !files.read || s.brightness == 0 || !files.save then s
    else if !files.dim then s.(savedFile := s.brightness)
    else s.(savedFile := s.brightness, brightness := 0, saved := s.brightness, sleeping := true)
  }

  /** `cp0_backlight_wake` */
  function Restore(s: State, files: Files): State {
    if !s.sleeping || s.saved == 0 || !files.restore then s else s.(brightness := s.saved, sleeping := false)
  }

  /** `put_display_to_sleep` */
  function Sleep(s: State, files: Files): State {
    var (armed, ok) := Arm(s);
    if ok then Dim(armed, files) else armed
  }

  /** `compositor_woke`; `keysDown` says whether a key is held. */
  function Woke(s: State, files: Files, keysDown: bool): State {
    var byKeyboard := s.wakeKey.armed && s.grab == WakeGrab && keysDown;
    var next := Restore(s, files);
    if !byKeyboard && next.wakeKey.armed then Finish(next) else next
  }

  // ----- the same, in place

  class WakeControl {
    var armed: bool
    var captured: bool
    var key: nat
    var grab: Grab
    var sleeping: bool
    var saved: nat
    var brightness: nat
    var savedFile: nat

    function Abs(): State
      reads this
    {
      State(WakeKey(armed, captured, key), grab, sleeping, saved, brightness, savedFile)
    }

    constructor (brightness: nat)
      ensures Abs() == State(DISARMED, DefaultGrab, false, 0, brightness, 0)
    {
      armed, captured, key, grab := false, false, 0, DefaultGrab;
      sleeping, saved, savedFile := false, 0, 0;
      this.brightness := brightness;
    }

    method Handle(k: nat, pressed: bool) returns (result: KeyResult)
      modifies this`armed, this`captured, this`key
      ensures Abs().wakeKey == HandleKey(old(Abs()).wakeKey, k, pressed).0
      ensures result == HandleKey(old(Abs()).wakeKey, k, pressed).1
    {
      if !armed { return Forward; }
      if !captured && pressed {
        captured, key := true, k;
        return Consume;
      }
      if captured && !pressed && key == k {
        armed, captured, key := false, false, 0;
        return ConsumeAndFinish;
      }
      return Consume;
    }

    method FinishGrab()
      modifies this`armed, this`captured, this`key, this`grab
      ensures Abs() == Finish(old(Abs()))
    {
      if grab == WakeGrab { grab := DefaultGrab; }
      armed, captured, key := false, false, 0;
    }

    method OnGrabKey(k: nat, pressed: bool)
      modifies this
      ensures Abs() == GrabKey(old(Abs()), k, pressed)
    {
      var result := Handle(k, pressed);
      if result == ConsumeAndFinish { FinishGrab(); }
    }

    method ArmGrab() returns (ok: bool)
      modifies this`armed, this`captured, this`key, this`grab
      ensures (Abs(), ok) == Arm(old(Abs()))
    {
      if armed { return grab == WakeGrab; }
      if grab != DefaultGrab { return false; }
      armed, captured, key := true, false, 0;
      grab := WakeGrab;
      return true;
    }

    method BacklightSleep(files: Files) returns (ok: bool)
      modifies this`sleeping, this`saved, this`brightness, this`savedFile
      ensures Abs() == Dim(old(Abs()), files) && ok == sleeping
    {
      if sleeping { return true; }
      if !files.read || brightness == 0 { return false; }
      var value := brightness;
      if !files.save { return false; }
      savedFile := value;
      if !files.dim { return false; }
      brightness := 0;
      saved, sleeping := value, true;
      return true;
    }

    method BacklightWake(files: Files) returns (ok: bool)
      modifies this`sleeping, this`brightness
      ensures Abs() == Restore(old(Abs()), files) && ok == !sleeping
    {
      if !sleeping { return true; }
      if saved == 0 || !files.restore { return false; }
      brightness := saved;
      sleeping := false;
      return true;
    }

    method PutDisplayToSleep(files: Files)
      modifies this
      ensures Abs() == Sleep(old(Abs()), files)
    {
      var ok := ArmGrab();
      if ok { var _ := BacklightSleep(files); }
    }

    method CompositorWoke(files: Files, keysDown: bool)
      modifies this
      ensures Abs() == Woke(old(Abs()), files, keysDown)
    {
      var byKeyboard := armed && grab == WakeGrab && keysDown;
      var _ := BacklightWake(files);
      if !byKeyboard && armed { FinishGrab(); }
    }
  }

  // ----- runs

  datatype Input =
    | SleepAsked(files: Files)
    | KeyEvent(key: nat, pressed: bool)
    | Wakened(files: Files, keysDown: bool)
    | GrabCancelled
    | OtherGrabbed
    | OtherReleased
    | BrightnessSet(value: nat)

  /**
   Keys reach the policy only through its grab; others take the keyboard only from
   the default grab, and give it back to that; nobody dims a sleeping display.
   */
  predicate Enabled(s: State, input: Input) {
    match input
    case KeyEvent(_, _) => s.grab == WakeGrab
    case GrabCancelled => s.grab == WakeGrab
    case OtherGrabbed => s.grab == DefaultGrab
    case OtherReleased => s.grab == OtherGrab
    case BrightnessSet(_) => !s.sleeping
    case _ => true
  }

  function Step(s: State, input: Input): State {
    match input
    case SleepAsked(files) => Sleep(s, files)
    case KeyEvent(key, pressed) => GrabKey(s, key, pressed)
    case Wakened(files, keysDown) => Woke(s, files, keysDown)
    case GrabCancelled => Finish(s)
    case OtherGrabbed => s.(grab := OtherGrab)
    case OtherReleased => s.(grab := DefaultGrab)
    case BrightnessSet(value) => s.(brightness := value)
  }

  predicate ValidRun(s: State, inputs: seq<Input>)
    decreases |inputs|
  {
    inputs == [] || (Enabled(s, inputs[0]) && ValidRun(Step(s, inputs[0]), inputs[1..]))
  }

  function Run(s: State, inputs: seq<Input>): State
    decreases |inputs|
  {
    if inputs == [] then s else Run(Step(s, inputs[0]), inputs[1..])
  }

  /** Armed exactly while the grab is installed, and a dark display remembers how bright it was. */
  predicate Inv(s: State) {
    && (s.wakeKey.armed <==> s.grab == WakeGrab)
    && (s.sleeping ==> s.saved > 0 && s.brightness == 0 && s.savedFile == s.saved)
  }

  lemma {:induction false} RunInv(s: State, inputs: seq<Input>)
    requires Inv(s) && ValidRun(s, inputs)
    ensures Inv(Run(s, inputs))
    decreases |inputs|
  {
    if inputs != [] { RunInv(Step(s, inputs[0]), inputs[1..]); }
  }

  /** Why others must leave the grab alone: taking it away breaks the first of these, and nothing else they take does. */
  lemma GrabTaken(s: State)
    requires Inv(s)
    ensures Inv(Step(s, OtherGrabbed)) <==> s.grab != WakeGrab
  {
  }

  // ----- brightness

  /** A lit display goes dark exactly if the keyboard is free for the grab, it shines, and its files can be used. */
  lemma SleepDims(s: State, files: Files)
    requires Inv(s) && !s.sleeping
    ensures var next := Sleep(s, files);
            && (next.grab == WakeGrab <==> s.grab != OtherGrab)
            && (next.sleeping <==> s.grab != OtherGrab && s.brightness > 0 && files.read && files.save && files.dim)
            && (if next.sleeping then next.brightness == 0 && next.saved == next.savedFile == s.brightness
                else next.brightness == s.brightness)
  {
  }

  /** A dark display lights up exactly if its file can be written. */
  lemma WakeLights(s: State, files: Files, keysDown: bool)
    requires Inv(s) && s.sleeping
    ensures var next := Woke(s, files, keysDown);
            && (next.sleeping <==> !files.restore)
            && next.brightness == if files.restore then s.saved else 0
  {
  }

  predicate LeavesDark(s: State, inputs: seq<Input>)
    decreases |inputs|
  {
    s.sleeping && (inputs == [] || LeavesDark(Step(s, inputs[0]), inputs[1..]))
  }

  /** However often sleep is asked for again, the saved brightness stays the one before the first sleep. */
  lemma {:induction false} SleepKeepsSaved(s: State, inputs: seq<Input>)
    requires Inv(s) && ValidRun(s, inputs) && LeavesDark(s, inputs)
    ensures Run(s, inputs).saved == s.saved && Run(s, inputs).savedFile == s.savedFile
    decreases |inputs|
  {
    if inputs != [] {
      assert Inv(Step(s, inputs[0]));
      SleepKeepsSaved(Step(s, inputs[0]), inputs[1..]);
    }
  }

  /** A display put to sleep, left dark for any run, and woken is as bright as before. */
  lemma WakeRestores(s: State, files: Files, inputs: seq<Input>, wake: Files, keysDown: bool)
    requires Inv(s) && !s.sleeping && Sleep(s, files).sleeping && wake.restore
    requires ValidRun(Sleep(s, files), inputs) && LeavesDark(Sleep(s, files), inputs)
    ensures var woken := Woke(Run(Sleep(s, files), inputs), wake, keysDown);
            woken.brightness == s.brightness && !woken.sleeping
  {
    var dark := Sleep(s, files);
    assert Inv(dark) && dark.saved == s.brightness;
    RunInv(dark, inputs);
    SleepKeepsSaved(dark, inputs);
    StaysDark(dark, inputs);
  }

  lemma {:induction false} StaysDark(s: State, inputs: seq<Input>)
    requires LeavesDark(s, inputs)
    ensures Run(s, inputs).sleeping
    decreases |inputs|
  {
    if inputs != [] { StaysDark(Step(s, inputs[0]), inputs[1..]); }
  }

  // ----- the keys a grab swallows

  /** The first key pressed, if `seen` is the one pressed before. */
  function Noted(seen: Option<nat>, input: Input): Option<nat> {
    if seen.None? && input.KeyEvent? && input.pressed then Some(input.key) else seen
  }

  function FirstPress(seen: Option<nat>, inputs: seq<Input>): Option<nat>
    decreases |inputs|
  {
    if inputs == [] then seen else FirstPress(Noted(seen, inputs[0]), inputs[1..])
  }

  /** The input releases the key that was pressed first. */
  predicate Releases(first: Option<nat>, input: Input) {
    input.KeyEvent? && !input.pressed && first == Some(input.key)
  }

  /** The only inputs that end a grab: that release, a cancellation, and a wake with no key held. */
  predicate Ends(first: Option<nat>, input: Input) {
    Releases(first, input) || input.GrabCancelled? || (input.Wakened? && !input.keysDown)
  }

  /** None of the inputs ends a grab whose first key so far is `seen`. */
  predicate NoneEnds(seen: Option<nat>, inputs: seq<Input>) {
    forall n :: 0 <= n < |inputs| ==> !Ends(FirstPress(seen, inputs[..n]), inputs[n])
  }

  lemma NoneEndsRest(seen: Option<nat>, inputs: seq<Input>)
    requires inputs != [] && NoneEnds(seen, inputs)
    ensures !Ends(seen, inputs[0]) && NoneEnds(Noted(seen, inputs[0]), inputs[1..])
  {
    hide Ends;
    assert !Ends(FirstPress(seen, inputs[..0]), inputs[0]);
    var rest := inputs[1..];
    forall n | 0 <= n < |rest| ensures !Ends(FirstPress(Noted(seen, inputs[0]), rest[..n]), rest[n]) {
      assert inputs[..n + 1][1..] == rest[..n];
      assert !Ends(FirstPress(seen, inputs[..n + 1]), inputs[n + 1]);
    }
  }

  /** The grab is installed, and its key state holds the first key pressed under it. */
  predicate Grabbing(s: State, first: Option<nat>) {
    && s.grab == WakeGrab
    && s.wakeKey == match first case None => ARMED case Some(key) => WakeKey(true, true, key)
  }

  /** Any input under the grab either ends it, or leaves it installed with the first key noted. */
  lemma GrabStep(s: State, first: Option<nat>, input: Input)
    requires Grabbing(s, first) && Enabled(s, input)
    ensures !Ends(first, input) ==> Grabbing(Step(s, input), Noted(first, input))
    ensures Ends(first, input) ==> Step(s, input).grab == DefaultGrab && Step(s, input).wakeKey == DISARMED
    ensures input.KeyEvent? ==>
      var result := HandleKey(s.wakeKey, input.key, input.pressed).1;
      result != Forward && (result == ConsumeAndFinish <==> Releases(first, input))
  {
  }

  lemma {:induction false} GrabHeld(s: State, seen: Option<nat>, inputs: seq<Input>)
    requires Grabbing(s, seen) && ValidRun(s, inputs) && NoneEnds(seen, inputs)
    ensures Grabbing(Run(s, inputs), FirstPress(seen, inputs))
    decreases |inputs|
  {
    if inputs != [] {
      NoneEndsRest(seen, inputs);
      GrabStep(s, seen, inputs[0]);
      GrabHeld(Step(s, inputs[0]), Noted(seen, inputs[0]), inputs[1..]);
    }
  }

  /**
   Over any run of sleep, key, wake and other inputs under a fresh grab, up to
   the first one that ends it: the grab stays installed and every key event is
   swallowed. Of key events exactly the release of the first key pressed ends
   it; of the others a cancellation and a wake with no key held do.
   */
  lemma GrabEndsAtRelease(s: State, inputs: seq<Input>, input: Input)
    requires s.grab == WakeGrab && s.wakeKey == ARMED
    requires ValidRun(s, inputs) && NoneEnds(None, inputs) && Enabled(Run(s, inputs), input)
    ensures var before, first := Run(s, inputs), FirstPress(None, inputs);
            && Grabbing(before, first)
            && (Step(before, input).grab != WakeGrab <==> Ends(first, input))
            && (input.KeyEvent? ==>
                  var result := HandleKey(before.wakeKey, input.key, input.pressed).1;
                  result != Forward && (result == ConsumeAndFinish <==> Releases(first, input)))
  {
    GrabHeld(s, None, inputs);
    GrabStep(Run(s, inputs), FirstPress(None, inputs), input);
  }

  /** Every grab of every run starts fresh, with a request to sleep. */
  lemma GrabStartsFresh(s: State, inputs: seq<Input>, input: Input)
    requires Inv(s) && ValidRun(s, inputs) && Enabled(Run(s, inputs), input)
    requires Run(s, inputs).grab != WakeGrab && Step(Run(s, inputs), input).grab == WakeGrab
    ensures input.SleepAsked? && Step(Run(s, inputs), input).wakeKey == ARMED
  {
    RunInv(s, inputs);
  }
}
