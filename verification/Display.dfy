/** The display state of app-runtime/src/display.c, updated in place; every operation is a step of `DisplayModel`. */
module Display {
  import opened Common
  import opened DisplayModel
  import opened FramePacing
  import opened InputQueue
  import opened Pixels

  /** `decode_damage` */
  method DecodeRectangles(bytes: seq<Octet>, height: nat) returns (rects: Option<seq<Rect>>)
    ensures rects == DecodeDamage(bytes, height)
  {
    if |bytes| % 8 != 0 || |bytes| / 8 > MAX_DAMAGE_RECTS {
      return None;
    }
    hide RectAt, ValidDamage;
    var count := |bytes| / 8;
    var list: seq<Rect> := [];
    var index := 0;
    while index < count
      invariant 0 <= index <= count == |bytes| / 8
      invariant |list| == index
      invariant forall i :: 0 <= i < index ==> list[i] == RectAt(bytes, 8 * i)
    {
      list := list + [RectAt(bytes, 8 * index)];
      index := index + 1;
    }
    assert list == RectsOf(bytes);
    var valid := DamageIsValid(list, height);
    return if valid then Some(list) else None;
  }

  class AppDisplay {
    const mode: Mode
    const shadow: array<bv32>
    const pixels: seq<array<bv32>>
    const queue: Ring
    const pacer: FramePacer
    var busy: seq<bool>
    var failed: bool
    var firstFrame: bool
    var focused: bool
    var keyboard: bool
    ghost var frames: seq<FrameEntry>
    ghost var keys: seq<KeyEntry>

    ghost const Repr: set<object>

    ghost predicate Valid()
      reads this, Repr
    {
      && Repr == {this, shadow, queue, queue.events, pacer} + (set a | a in pixels)
      && ValidMode(mode)
      && shadow.Length == FRAME_PIXELS && shadow !in pixels
      && |pixels| == BUFFER_COUNT && pixels[0] != pixels[1]
      && pixels[0].Length == FRAME_PIXELS && pixels[1].Length == FRAME_PIXELS
      && |busy| == BUFFER_COUNT
      && queue.Valid()
    }

    ghost function Buffers(): (r: seq<Buffer>)
      requires Valid()
      reads this, Repr
    {
      [Buffer(pixels[0][..], busy[0]), Buffer(pixels[1][..], busy[1])]
    }

    ghost function Value(): State
      requires Valid()
      reads this, Repr
    {
      State(mode, failed, firstFrame, shadow[..], Buffers(), pacer.Value(), queue.Value(), focused, keyboard, frames,
            keys)
    }

    /** `cp0_display_initialize` up to the point where it has its surface. */
    constructor (immersive: bool)
      ensures Valid() && fresh(Repr)
      ensures Value() == Initial(if immersive then IMMERSIVE else STANDARD)
    {
      mode := if immersive then IMMERSIVE else STANDARD;
      var blank := new bv32[FRAME_PIXELS](_ => 0);
      var first := new bv32[FRAME_PIXELS](_ => 0);
      var second := new bv32[FRAME_PIXELS](_ => 0);
      var ring := new Ring();
      var clock := new FramePacer();
      shadow := blank;
      pixels := [first, second];
      queue := ring;
      pacer := clock;
      busy := [false, false];
      failed, firstFrame, focused, keyboard := false, true, false, true;
      frames, keys := [], [];
      Repr := {this, blank, ring, ring.events, clock, first, second};
      new;
      assert shadow[..] == Blank() && pixels[0][..] == Blank() && pixels[1][..] == Blank();
    }

    method ClearInput(focus: bool)
      requires Valid()
      modifies this`focused, this`keys, queue, queue.events
      ensures Valid() && Value() == ClearKeys(old(Value()), focus)
    {
      queue.Reset();
      focused := focus;
      keys := keys + [Cleared];
    }

    method HandleKey(code: nat, pressed: bool, modifiers: Octet, character: Octet)
      requires Valid()
      modifies this`keys, queue, queue.events
      ensures Valid() && Value() == Handle(old(Value()), Key(code, pressed, modifiers, character))
    {
      hide Pushed, Stored;
      if !focused || code > 65535 {
        return;
      }
      var accepted := queue.Push(code, pressed, false, modifiers, if pressed then character else 0);
      ghost var stored := Stored(code, pressed, false, modifiers, if pressed then character else 0);
      keys := keys + [if accepted then Accepted(stored) else Dropped];
    }

    method HandleRelease(index: nat)
      requires Valid()
      modifies this`busy, this`frames
      ensures Valid() && Value() == Handle(old(Value()), Release(index))
    {
      if index < BUFFER_COUNT {
        busy := busy[index := false];
        frames := frames + [Released(index)];
      }
    }

    method HandleCapabilities(present: bool)
      requires Valid()
      modifies this`focused, this`keyboard, this`keys, queue, queue.events
      ensures Valid() && Value() == Handle(old(Value()), Capabilities(present))
    {
      if present && !keyboard {
        keyboard := true;
      } else if !present && keyboard {
        ClearInput(false);
        keyboard := false;
      }
    }

    method HandleConfigure(width: int, height: int)
      requires Valid()
      modifies this`failed
      ensures Valid() && Value() == Handle(old(Value()), Configure(width, height))
    {
      if (width != 0 && width != WIDTH) || (height != 0 && height != HEIGHT) {
        failed := true;
      }
    }

    method HandleEvent(event: Event)
      requires Valid()
      modifies this, queue, queue.events
      ensures Valid() && Value() == Handle(old(Value()), event)
    {
      match event
      case Release(index) => HandleRelease(index);
      case Enter(ours) =>
        if ours {
          ClearInput(true);
        }
      case Leave => ClearInput(false);
      case Key(code, pressed, modifiers, character) => HandleKey(code, pressed, modifiers, character);
      case Capabilities(present) => HandleCapabilities(present);
      case Configure(width, height) => HandleConfigure(width, height);
      case Close => failed := true;
    }

    /** Dispatching a list of pending events. */
    method DispatchPending(events: seq<Event>)
      requires Valid()
      modifies this, queue, queue.events
      ensures Valid() && Value() == Dispatch(old(Value()), events)
    {
      hide Handle;
      var index := 0;
      while index < |events|
        invariant 0 <= index <= |events|
        invariant Valid() && Dispatch(Value(), events[index..]) == Dispatch(old(Value()), events)
      {
        HandleEvent(events[index]);
        assert events[index..][1..] == events[index + 1..];
        index := index + 1;
      }
    }

    /**
     The round trips at the end of `cp0_display_initialize`, and whether it then succeeds;
     `configured` tells that they worked and that the surface was configured.
     */
    method FinishInitialize(arrived: seq<Event>, configured: bool) returns (ready: bool)
      requires Valid() && Value() == Initial(mode)
      modifies this, queue, queue.events
      ensures Valid() && Value() == Started(mode, arrived)
      ensures ready <==> configured && !failed
    {
      hide Dispatch, Initial;
      DispatchPending(arrived);
      return configured && !failed;
    }

    method AvailableBuffer() returns (buffer: Option<nat>)
      requires Valid()
      ensures buffer == Available(Buffers())
    {
      var index := 0;
      while index < BUFFER_COUNT
        invariant 0 <= index <= BUFFER_COUNT
        invariant forall i :: 0 <= i < index ==> Buffers()[i].busy
      {
        if !busy[index] {
          assert !Buffers()[index].busy;
          return Some(index);
        }
        index := index + 1;
      }
      return None;
    }

    /** The copy of the shadow into a buffer, which the compositor then holds. */
    method CopyShadow(index: nat)
      requires Valid() && index < BUFFER_COUNT
      modifies this`busy, pixels[index]
      ensures Valid() && Buffers() == old(Buffers())[index := Buffer(shadow[..], true)]
    {
      var target := pixels[index];
      forall k | 0 <= k < FRAME_PIXELS {
        target[k] := shadow[k];
      }
      assert target[..] == shadow[..];
      busy := busy[index := true];
      assert Buffers()[index] == Buffer(shadow[..], true);
      assert Buffers()[1 - index] == old(Buffers())[1 - index];
    }

    /** Converting, copying and committing one frame. */
    method ShowFrame(frame: seq<bv8>, rects: seq<Rect>, index: nat, now: nat)
      requires Valid() && IsFrame(mode, frame) && ValidDamage(rects, mode.height) && index < BUFFER_COUNT
      modifies this`busy, this`firstFrame, this`frames, shadow, pixels[index], pacer
      ensures Valid() && Value() == Show(old(Value()), frame, rects, index, now)
    {
      hide Converted, Effective, SentDamage, ValidDamage, IsFrame;
      var full := firstFrame || rects == [];
      NoDamageValid(mode);
      Convert(shadow, mode, frame, if full then [] else rects);
      assert Buffers() == old(Buffers());
      CopyShadow(index);
      firstFrame := false;
      frames := frames + [Committed(Commit(index, frame, rects, shadow[..], SentDamage(mode, full, rects), now))];
      pacer.MarkCommitted(now);
    }

    /** What is left of a present once its events are dispatched. */
    method PresentDispatched(frame: seq<bv8>, rects: seq<Rect>, env: PresentEnv) returns (code: int)
      requires Valid() && IsFrame(mode, frame) && ValidDamage(rects, mode.height)
      modifies Repr
      ensures Valid() && (Value(), code) == PresentReady(old(Value()), frame, rects, env)
    {
      hide Show, Available, Ready, ValidDamage, IsFrame;
      if !env.dispatched {
        return UNAVAILABLE;
      }
      var buffer := AvailableBuffer();
      if buffer.None? {
        return BUSY;
      }
      if env.clock.None? {
        return UNAVAILABLE;
      }
      var ready := pacer.IsReady(env.clock.value);
      if !ready {
        return BUSY;
      }
      ShowFrame(frame, rects, buffer.value, env.clock.value);
      if !env.flushed {
        failed := true;
        return UNAVAILABLE;
      }
      return OK;
    }

    /** `cp0_display_present_rgb565` */
    method PresentFrame(frame: seq<bv8>, damage: seq<Octet>, env: PresentEnv) returns (code: int)
      requires Valid()
      modifies Repr
      ensures Valid() && (Value(), code) == Present(old(Value()), frame, damage, env)
    {
      hide PresentReady, Dispatch, DecodeDamage, ValidDamage;
      if failed {
        return UNAVAILABLE;
      }
      var rects := DecodeRectangles(damage, mode.height);
      if |frame| != WIDTH * mode.height * 2 || rects.None? {
        return INVALID;
      }
      DecodedIsValid(damage, mode.height);
      DispatchPending(env.pending);
      code := PresentDispatched(frame, rects.value, env);
    }

    /** `cp0_display_wait` */
    method WaitForEvents(timeout: int, env: WaitEnv) returns (woken: bool)
      requires Valid()
      modifies this, queue, queue.events
      ensures Valid() && (Value(), woken) == Wait(old(Value()), timeout, env)
    {
      hide Dispatch;
      if failed || timeout < 0 || timeout > 1000 {
        return false;
      }
      DispatchPending(env.events);
      return env.working && !failed;
    }

    /** `cp0_display_poll_key_event` */
    method PollKeyEvent(room: nat, timeout: int, env: WaitEnv) returns (result: PollResult)
      requires Valid()
      modifies this, queue, queue.events
      ensures Valid() && (Value(), result) == Poll(old(Value()), room, timeout, env)
    {
      hide Wait, Popped;
      if room != KEY_EVENT_BYTES || timeout < 0 || timeout > 1000 {
        return PollResult(INVALID, None);
      }
      if failed {
        return PollResult(UNAVAILABLE, None);
      }
      result := TakeEvent();
      if result.code != OK {
        return;
      }
      var woken := WaitForEvents(timeout, env);
      if !woken {
        return PollResult(UNAVAILABLE, None);
      }
      result := TakeEvent();
    }

    /** The overflow report and the pop that stand before and after the wait. */
    method TakeEvent() returns (result: PollResult)
      requires Valid()
      modifies this, queue
      ensures Valid() && (Value(), result) == Take(old(Value()))
    {
      var overflow := queue.TakeOverflow();
      if overflow {
        keys := keys + [Reported];
        return PollResult(BUSY, None);
      }
      var event := queue.Pop();
      if event.None? {
        return PollResult(OK, None);
      }
      keys := keys + [Delivered(event.value)];
      return PollResult(1, event);
    }
  }

  lemma NoDamageValid(mode: Mode)
    requires ValidMode(mode)
    ensures ValidDamage([], mode.height)
  {
  }

  lemma DecodedIsValid(bytes: seq<Octet>, height: nat)
    requires DecodeDamage(bytes, height).Some?
    ensures ValidDamage(DecodeDamage(bytes, height).value, height)
  {
  }
}
