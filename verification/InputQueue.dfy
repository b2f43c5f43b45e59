/** The bounded key queue of app-runtime/src/input_queue.c: its contents as a value, and the ring that holds them. */
module InputQueue {
  import opened Common

  const CAPACITY: nat := 32

  datatype KeyEvent = KeyEvent(code: nat, pressed: bool, repeated: bool, modifiers: Octet, character: Octet)

  /** The stored event: a character is kept only for a press or repeat of a printable key. */
  function Stored(code: nat, pressed: bool, repeated: bool, modifiers: Octet, character: Octet): KeyEvent {
    KeyEvent(code, pressed, repeated, modifiers,
             if (pressed || repeated) && ' ' as int <= character <= '~' as int then character else 0)
  }

  datatype Queue = Queue(events: seq<KeyEvent>, overflowed: bool)

  const EMPTY := Queue([], false)

  function Pushed(queue: Queue, event: KeyEvent): Queue {
    if |queue.events| >= CAPACITY then queue.(overflowed := true) else queue.(events := queue.events + [event])
  }

  function Popped(queue: Queue): Queue {
    if queue.events == [] then queue else queue.(events := queue.events[1..])
  }

  /** The array index of the `i`-th oldest event. */
  function Slot(head: nat, i: nat): (r: nat)
    ensures r < CAPACITY
  {
    (head + i) % CAPACITY
  }

  lemma SlotsDistinct(head: nat, i: nat, length: nat)
    requires i < length < CAPACITY
    ensures Slot(head, i) != Slot(head, length)
  {
    assert head + i == (head + i) / CAPACITY * CAPACITY + Slot(head, i);
    assert head + length == (head + length) / CAPACITY * CAPACITY + Slot(head, length);
  }

  lemma NextSlot(head: nat, i: nat)
    ensures Slot(Slot(head, 1), i) == Slot(head, i + 1)
    ensures head < CAPACITY ==> Slot(head, 0) == head
  {
    var q := (head + 1) / CAPACITY;
    assert head + 1 == q * CAPACITY + Slot(head, 1);
    SameRemainder(Slot(head, 1) + i, q);
  }

  lemma SameRemainder(n: nat, q: nat)
    ensures n % CAPACITY == (n + q * CAPACITY) % CAPACITY
  {
    var r, d := n % CAPACITY, n / CAPACITY;
    assert n + q * CAPACITY == (d + q) * CAPACITY + r;
  }

  class Ring {
    const events: array<KeyEvent>
    var head: nat
    var length: nat
    var overflowed: bool

    ghost predicate Valid()
      reads this
    {
      events.Length == CAPACITY && head < CAPACITY && length <= CAPACITY
    }

    /** The events from the oldest to the newest. */
    ghost function Value(): Queue
      requires Valid()
      reads this, events
    {
      Queue(seq(length, i requires 0 <= i < length && Valid() reads this, events => events[Slot(head, i)]),
            overflowed)
    }

    constructor ()
      ensures Valid() && Value() == EMPTY && fresh(events)
    {
      events := new KeyEvent[CAPACITY](_ => KeyEvent(0, false, false, 0, 0));
      head, length, overflowed := 0, 0, false;
    }

    method Reset()
      requires Valid()
      modifies this, events
      ensures Valid() && Value() == EMPTY
    {
      forall i | 0 <= i < CAPACITY {
        events[i] := KeyEvent(0, false, false, 0, 0);
      }
      head, length, overflowed := 0, 0, false;
    }

    method Push(code: nat, pressed: bool, repeated: bool, modifiers: Octet, character: Octet) returns (accepted: bool)
      requires Valid()
      modifies this, events
      ensures Valid()
      ensures accepted <==> |old(Value()).events| < CAPACITY
      ensures Value() == Pushed(old(Value()), Stored(code, pressed, repeated, modifiers, character))
    {
      hide Slot;
      if length == CAPACITY {
        overflowed := true;
        assert Value().events == old(Value()).events;
        return false;
      }
      var tail := Slot(head, length);
      events[tail] := KeyEvent(code, pressed, repeated, modifiers, 0);
      if (pressed || repeated) && ' ' as int <= character <= '~' as int {
        events[tail] := events[tail].(character := character);
      }
      forall i | 0 <= i < length
        ensures events[Slot(head, i)] == old(Value()).events[i]
      {
        SlotsDistinct(head, i, length);
      }
      length := length + 1;
      assert Value().events == old(Value()).events + [events[tail]];
      return true;
    }

    method Pop() returns (event: Option<KeyEvent>)
      requires Valid()
      modifies this
      ensures Valid() && Value() == Popped(old(Value()))
      ensures event == if old(Value()).events == [] then None else Some(old(Value()).events[0])
    {
      hide Slot;
      if length == 0 {
        return None;
      }
      event := Some(events[head]);
      NextSlot(head, 0);
      forall i: nat
        ensures Slot(Slot(head, 1), i) == Slot(head, i + 1)
      {
        NextSlot(head, i);
      }
      head := Slot(head, 1);
      length := length - 1;
      assert Value().events == old(Value()).events[1..];
    }

    method TakeOverflow() returns (taken: bool)
      requires Valid()
      modifies this`overflowed
      ensures Valid() && taken == old(Value()).overflowed
      ensures Value() == old(Value()).(overflowed := false)
    {
      taken := overflowed;
      overflowed := false;
      assert Value().events == old(Value()).events;
    }
  }
}
