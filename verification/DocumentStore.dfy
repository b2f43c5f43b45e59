/** The exchange and the document handle in place, over the process's descriptor table. */
module DocumentStore {
  import opened Common
  import opened Documents

  class DescriptorTable {
    var live: set<int>
    ghost var received: multiset<int>
    ghost var closed: multiset<int>

    ghost function Value(): Ledger
      reads this
    {
      Ledger(live, received, closed)
    }

    constructor ()
      ensures Value() == Ledger({}, multiset{}, multiset{})
    {
      live, received, closed := {}, multiset{}, multiset{};
    }

    /** `close` of an open descriptor. */
    method CloseOne(fd: int)
      requires fd in live
      modifies this
      ensures Value() == Close(old(Value()), fd)
    {
      live := live - {fd};
      closed := closed + multiset{fd};
    }

    /** The kernel's part of `recvmsg`. */
    method InstallArrived(fds: seq<int>)
      requires Installable(live, fds)
      modifies this
      ensures Value() == InstallAll(old(Value()), fds)
    {
      var index := 0;
      assert fds[0..] == fds;
      while index < |fds|
        invariant 0 <= index <= |fds| && Installable(live, fds[index..])
        invariant InstallAll(Value(), fds[index..]) == InstallAll(old(Value()), fds)
      {
        assert fds[index..][1..] == fds[index + 1..];
        InstallableRest(live, fds[index..]);
        received := received + multiset{fds[index]};
        live := live + {fds[index]};
        index := index + 1;
      }
    }

    /** The loop over a header with the wrong number of descriptors. */
    method CloseArrived(fds: seq<int>)
      requires AllLive(live, fds)
      modifies this
      ensures Value() == CloseAll(old(Value()), fds)
    {
      var index := 0;
      assert fds[0..] == fds;
      while index < |fds|
        invariant 0 <= index <= |fds| && AllLive(live, fds[index..])
        invariant CloseAll(Value(), fds[index..]) == CloseAll(old(Value()), fds)
      {
        assert fds[index..][1..] == fds[index + 1..];
        AllLiveRest(live, fds[index..]);
        CloseOne(fds[index]);
        index := index + 1;
      }
    }

    /** The control header of one message. */
    method TakeHeader(packet: Packet, held: int, wanted: bool, ghost response: Text) returns (next: int, ok: bool)
      requires packet.Packet? && Installable(live, Arrived(packet))
      modifies this
      ensures (Exchange(Value(), response, next), ok) ==
              TakeControl(Exchange(old(Value()), response, held), packet, wanted)
    {
      match packet.control
      case NoControl => return held, true;
      case Foreign => return held, false;
      case Rights(fds, spare) =>
        InstalledAreLive(Value(), fds);
        InstallArrived(fds);
        if |fds| != 1 || spare != 0 {
          CloseArrived(fds);
          return held, false;
        }
        if !wanted || held >= 0 || !packet.sealed {
          CloseOne(fds[0]);
          return held, false;
        }
        return fds[0], true;
    }

    /** One round of the receive loop: go on, leave the loop, or go to `cleanup`. */
    method ReceiveOne(packet: Packet, text: Text, held: int, capacity: nat, wanted: bool)
      returns (exit: Exit, response: Text, next: int)
      requires |text| < capacity - 1 && Installable(live, Arrived(packet)) && (held >= 0 ==> held in live)
      modifies this
      ensures next >= 0 ==> next in live
      ensures Left(exit, Exchange(Value(), response, next)) ==
              Round(Exchange(old(Value()), text, held), packet, capacity, wanted)
    {
      hide TakeControl, Installable, Conclude, Abandon;
      response, next := text, held;
      match packet
      case Interrupted => return More, text, held;
      case Failed => return Broken, text, held;
      case Ended => return Done, text, held;
      case Packet(first, more, _, truncated, _) =>
        ControlHolds(Exchange(Value(), text, held), packet, wanted);
        var taken: bool;
        next, taken := TakeHeader(packet, held, wanted, text);
        if !taken || truncated {
          return Broken, text, next;
        }
        response := text + Clip([first] + more, capacity - 1 - |text|);
        exit := if '\n' in response then Done else More;
    }

    /** What stands behind the loop: the last byte is checked, and a failure gives the descriptor up. */
    method Finish(failed: bool, response: Text, held: int) returns (ok: bool, descriptor: int)
      requires held >= 0 ==> held in live
      modifies this
      ensures Outcome(Exchange(Value(), response, descriptor), ok) ==
              var exchange := Exchange(old(Value()), response, held);
              if failed then Abandon(exchange) else Conclude(exchange)
    {
      ok := !failed && response != [] && response[|response| - 1] == '\n';
      descriptor := held;
      if !ok && held >= 0 {
        CloseOne(held);
        descriptor := -1;
      }
    }

    /** The receive loop and the `cleanup` label of `broker_exchange_with_fd_timeout`. */
    method ReceiveResponse(packets: seq<Packet>, capacity: nat, wanted: bool)
      returns (ok: bool, response: Text, descriptor: int)
      requires 2 <= capacity && Deliverable(live, packets) && Balanced(Value())
      modifies this
      ensures Outcome(Exchange(Value(), response, descriptor), ok) ==
              Receive(Exchange(old(Value()), [], -1), packets, capacity, wanted, old(live))
    {
      hide Round, Balanced, Installable, Conclude, Abandon;
      ghost var others := live;
      response, descriptor := [], -1;
      var index, exit := 0, More;
      assert packets[0..] == packets;
      while exit == More && |response| < capacity - 1 && index < |packets|
        invariant 0 <= index <= |packets| && (descriptor >= 0 ==> descriptor in live)
        invariant exit == More ==>
          && Deliverable(live, packets[index..])
          && HeldOk(Exchange(Value(), response, descriptor), others) && Balanced(Value())
          && Receive(Exchange(Value(), response, descriptor), packets[index..], capacity, wanted, others) ==
             Receive(Exchange(old(Value()), [], -1), packets, capacity, wanted, others)
        invariant exit != More ==>
          Left(exit, Exchange(Value(), response, descriptor)) ==
          Stop(Receive(Exchange(old(Value()), [], -1), packets, capacity, wanted, others))
        decreases |packets| - index
      {
        assert packets[index..][1..] == packets[index + 1..] && packets[index..][0] == packets[index];
        RoundKeeps(Exchange(Value(), response, descriptor), packets[index], capacity, wanted, others);
        exit, response, descriptor := ReceiveOne(packets[index], response, descriptor, capacity, wanted);
        index := index + 1;
      }
      ok, descriptor := Finish(exit == Broken, response, descriptor);
    }
  }

  datatype Exit = More | Done | Broken

  /** What a round's exit stands for. */
  ghost function Left(exit: Exit, exchange: Exchange): Verdict
    requires exchange.held >= 0 ==> exchange.held in exchange.ledger.live
  {
    match exit
    case More => Continue(exchange)
    case Done => Stop(Conclude(exchange))
    case Broken => Stop(Abandon(exchange))
  }

  class Store {
    const table: DescriptorTable
    var descriptor: int
    var handle: nat
    var size: nat
    ghost var opens: nat

    ghost function Value(): State
      reads this, table
    {
      State(table.Value(), descriptor, handle, size, opens)
    }

    constructor ()
      ensures Value() == INITIAL && Inv(Value()) && fresh(table)
    {
      table := new DescriptorTable();
      descriptor, handle, size, opens := -1, 0, 0, 0;
    }

    method CloseAny(fd: int)
      requires fd >= 0 ==> fd in table.live
      modifies table
      ensures table.Value() == CloseIfAny(old(table.Value()), fd)
    {
      if fd >= 0 {
        table.CloseOne(fd);
      }
    }

    /** `cp0_broker_decode_document_response` */
    method Decode(reply: Reply, fd: int) returns (code: int, result: int, bytes: nat)
      requires fd >= 0 ==> fd in table.live
      modifies table
      ensures Decoded(table.Value(), code, result, bytes) == DecodeReply(old(table.Value()), reply, fd)
    {
      match reply
      case Refused(refusal) =>
        CloseAny(fd);
        return refusal, -1, 0;
      case Opened(id, length) =>
        if fd < 0 || id.None? || |id.value| != DOCUMENT_ID_BYTES || length.None? || length.value > DOCUMENT_MAX_BYTES {
          CloseAny(fd);
          return INTERNAL, -1, 0;
        }
        var index := 0;
        while index < |id.value|
          invariant 0 <= index <= |id.value| && table.Value() == old(table.Value())
          invariant forall i :: 0 <= i < index ==> IsLowerHex(id.value[i])
        {
          if !IsLowerHex(id.value[index]) {
            table.CloseOne(fd);
            return INTERNAL, -1, 0;
          }
          index := index + 1;
        }
        return OK, fd, length.value;
    }

    /** `cp0_broker_open_document` */
    method FetchDocument(env: OpenEnv) returns (code: int, result: int, bytes: nat)
      requires Inv(Value()) && env.connected && Deliverable(table.live, env.packets)
      modifies table
      ensures Decoded(table.Value(), code, result, bytes) == Fetch(old(Value()), env)
    {
      hide Receive, DecodeReply, Balanced, Deliverable;
      var ok, response, received := table.ReceiveResponse(env.packets, RESPONSE_BYTES, true);
      if !ok {
        return INTERNAL, -1, 0;
      }
      code, result, bytes := Decode(env.reply, received);
    }

    /** A checked descriptor takes the place of the active one. */
    method Adopt(found: int, bytes: nat) returns (result: int)
      requires descriptor >= 0 ==> descriptor in table.live
      modifies this, table
      ensures Value() == State(CloseIfAny(old(table.Value()), old(descriptor)), found, NextHandle(old(handle)), bytes,
                               old(opens) + 1)
      ensures result == handle * UINT32_SIZE + size
    {
      hide CloseIfAny;
      CloseAny(descriptor);
      descriptor := found;
      size := bytes;
      if handle == INT32_MAX {
        handle := 1;
      } else {
        handle := handle + 1;
      }
      opens := opens + 1;
      return handle * UINT32_SIZE + size;
    }

    /** `cp0_document_open` */
    method OpenDocument(env: OpenEnv) returns (result: int)
      requires Inv(Value()) && Possible(Value(), OpenCall(env))
      modifies this, table
      ensures (Value(), result) == Open(old(Value()), env)
    {
      hide Fetch, Balanced, Deliverable, HandleOf, CloseIfAny, NextHandle;
      if !env.connected {
        return env.failure;
      }
      var code, found, bytes := FetchDocument(env);
      if code != OK {
        return code;
      }
      if found < 0 || bytes > DOCUMENT_MAX_BYTES || env.metadata != Some(bytes) || !env.readOnly {
        CloseAny(found);
        return INTERNAL;
      }
      result := Adopt(found, bytes);
    }

    /** `cp0_document_read` */
    method ReadDocument(asked: int, offset: nat, capacity: nat, available: Option<nat>) returns (result: int)
      ensures result == Read(Value(), asked, offset, capacity, available)
    {
      if asked <= 0 || asked != handle || descriptor < 0 {
        return UNAVAILABLE;
      }
      if capacity == 0 || capacity > DOCUMENT_READ_BYTES {
        return INVALID_ARGUMENT;
      }
      if offset >= size {
        return 0;
      }
      var bounded := capacity;
      if bounded > size - offset {
        bounded := size - offset;
      }
      match available
      case None => return UNAVAILABLE;
      case Some(count) => return if count < bounded then count else bounded;
    }

    /** `cp0_document_close` */
    method CloseHandle(asked: int, clean: bool) returns (code: int)
      requires Inv(Value())
      modifies this, table
      ensures (Value(), code) == CloseDocument(old(Value()), asked, clean) && Inv(Value())
    {
      if asked <= 0 || asked != handle || descriptor < 0 {
        return UNAVAILABLE;
      }
      DestroyKeeps(Value());
      table.CloseOne(descriptor);
      descriptor := -1;
      size := 0;
      return if clean then OK else UNAVAILABLE;
    }

    /** `cp0_document_destroy` */
    method DestroyDocument()
      requires Inv(Value())
      modifies this, table
      ensures Value() == Destroy(old(Value())) && Inv(Value())
    {
      DestroyKeeps(Value());
      CloseAny(descriptor);
      descriptor := -1;
      size := 0;
    }
  }
}
