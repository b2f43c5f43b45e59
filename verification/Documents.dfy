/**
 Descriptor ownership from the broker's socket to the open document: the
 exchange loop and reply decoder of app-runtime/src/broker_client.c and the
 handle of app-runtime/src/document.c, over a ledger of open descriptors.
 */
module Documents {
  import opened Common

  /** Descriptors the process has open, and all it ever received and closed. */
  datatype Ledger = Ledger(live: set<int>, received: multiset<int>, closed: multiset<int>)

  /** Closing is possible once per receipt: it needs an open descriptor. */
  function Close(ledger: Ledger, fd: int): Ledger
    requires fd in ledger.live
  {
    ledger.(live := ledger.live - {fd}, closed := ledger.closed + multiset{fd})
  }

  /** The kernel installs a descriptor under a number that is not in use. */
  function Install(ledger: Ledger, fd: int): Ledger
    requires 0 <= fd && fd !in ledger.live
  {
    ledger.(live := ledger.live + {fd}, received := ledger.received + multiset{fd})
  }

  ghost predicate Balanced(ledger: Ledger) {
    ledger.received == ledger.closed + multiset(ledger.live)
  }

  // ----- the exchange

  /** The one control header a message has room for; only `Rights` carries descriptors. */
  datatype Control = NoControl | Foreign | Rights(fds: seq<int>, spare: nat)

  /** What one `recvmsg` did. A message on a stream carries at least one byte. */
  datatype Packet =
    | Interrupted
    | Failed
    | Ended
    | Packet(first: Byte, more: Text, control: Control, truncated: bool, sealed: bool)

  function Arrived(packet: Packet): seq<int> {
    if packet.Packet? && packet.control.Rights? then packet.control.fds else []
  }

  /** The kernel's side: numbers that arrive are valid, different, and not in use. */
  ghost predicate Installable(live: set<int>, fds: seq<int>) {
    && (forall i :: 0 <= i < |fds| ==> 0 <= fds[i] && fds[i] !in live)
    && (forall i, j :: 0 <= i < j < |fds| ==> fds[i] != fds[j])
  }

  function InstallAll(ledger: Ledger, fds: seq<int>): Ledger
    requires Installable(ledger.live, fds)
    decreases |fds|
  {
    if fds == [] then ledger
    else
      InstallableRest(ledger.live, fds);
      InstallAll(Install(ledger, fds[0]), fds[1..])
  }

  lemma InstallableRest(live: set<int>, fds: seq<int>)
    requires Installable(live, fds) && fds != []
    ensures Installable(live + {fds[0]}, fds[1..])
  {
  }

  function CloseAll(ledger: Ledger, fds: seq<int>): Ledger
    requires AllLive(ledger.live, fds)
    decreases |fds|
  {
    if fds == [] then ledger
    else
      AllLiveRest(ledger.live, fds);
      CloseAll(Close(ledger, fds[0]), fds[1..])
  }

  ghost predicate AllLive(live: set<int>, fds: seq<int>) {
    && (forall i :: 0 <= i < |fds| ==> fds[i] in live)
    && (forall i, j :: 0 <= i < j < |fds| ==> fds[i] != fds[j])
  }

  lemma AllLiveRest(live: set<int>, fds: seq<int>)
    requires AllLive(live, fds) && fds != []
    ensures AllLive(live - {fds[0]}, fds[1..])
  {
  }

  lemma {:induction false} InstalledAreLive(ledger: Ledger, fds: seq<int>)
    requires Installable(ledger.live, fds)
    ensures InstallAll(ledger, fds).live == ledger.live + (set fd | fd in fds)
    ensures AllLive(InstallAll(ledger, fds).live, fds)
    ensures Balanced(ledger) ==> Balanced(InstallAll(ledger, fds))
    decreases |fds|
  {
    if fds != [] {
      InstallableRest(ledger.live, fds);
      InstalledAreLive(Install(ledger, fds[0]), fds[1..]);
      assert fds == [fds[0]] + fds[1..];
    }
  }

  lemma {:induction false} ClosedAreGone(ledger: Ledger, fds: seq<int>)
    requires AllLive(ledger.live, fds)
    ensures CloseAll(ledger, fds).live == ledger.live - (set fd | fd in fds)
    ensures Balanced(ledger) ==> Balanced(CloseAll(ledger, fds))
    decreases |fds|
  {
    if fds != [] {
      AllLiveRest(ledger.live, fds);
      var next := Close(ledger, fds[0]);
      assert multiset(ledger.live) == multiset(next.live) + multiset{fds[0]} by {
        assert ledger.live == next.live + {fds[0]};
      }
      ClosedAreGone(next, fds[1..]);
      assert fds == [fds[0]] + fds[1..];
    }
  }

  /** The exchange so far: the response, and the descriptor held for the caller or -1. */
  datatype Exchange = Exchange(ledger: Ledger, response: Text, held: int)

  datatype Outcome = Outcome(exchange: Exchange, ok: bool)

  ghost predicate HeldOk(exchange: Exchange, others: set<int>) {
    && -1 <= exchange.held
    && (exchange.held >= 0 ==> exchange.held !in others)
    && exchange.ledger.live == (if exchange.held < 0 then others else others + {exchange.held})
  }

  /** The `cleanup` label after a failure. */
  function Abandon(exchange: Exchange): Outcome
    requires exchange.held >= 0 ==> exchange.held in exchange.ledger.live
  {
    Outcome(if exchange.held >= 0 then exchange.(ledger := Close(exchange.ledger, exchange.held), held := -1)
            else exchange, false)
  }

  /**
   The control header of one message; the flag is false where the source goes to
   `cleanup`. `wanted` tells whether the caller asked for a descriptor.
   */
  function TakeControl(exchange: Exchange, packet: Packet, wanted: bool): (Exchange, bool)
    requires packet.Packet? && Installable(exchange.ledger.live, Arrived(packet))
  {
    match packet.control
    case NoControl => (exchange, true)
    case Foreign => (exchange, false)
    case Rights(fds, spare) =>
      InstalledAreLive(exchange.ledger, fds);
      var ledger := InstallAll(exchange.ledger, fds);
      if |fds| != 1 || spare != 0 then (exchange.(ledger := CloseAll(ledger, fds)), false)
      else if !wanted || exchange.held >= 0 || !packet.sealed then (exchange.(ledger := Close(ledger, fds[0])), false)
      else (exchange.(ledger := ledger, held := fds[0]), true)
  }

  function Clip(text: Text, room: nat): Text { if |text| <= room then text else text[..room] }

  /** Every descriptor of the exchange has its own number, whichever messages end up being read. */
  ghost predicate Deliverable(live: set<int>, packets: seq<Packet>)
    decreases |packets|
  {
    packets == [] ||
    (Installable(live, Arrived(packets[0])) &&
     Deliverable(live + (set fd | fd in Arrived(packets[0])), packets[1..]))
  }

  lemma ControlKeeps(exchange: Exchange, packet: Packet, wanted: bool, others: set<int>)
    requires packet.Packet? && Installable(exchange.ledger.live, Arrived(packet))
    requires HeldOk(exchange, others) && Balanced(exchange.ledger)
    ensures var (next, ok) := TakeControl(exchange, packet, wanted);
            && HeldOk(next, others) && Balanced(next.ledger) && next.response == exchange.response
            && (ok ==> next.ledger.live == exchange.ledger.live + (set fd | fd in Arrived(packet)))
  {
    if packet.control.Rights? {
      var fds := packet.control.fds;
      InstalledAreLive(exchange.ledger, fds);
      var ledger := InstallAll(exchange.ledger, fds);
      if |fds| != 1 || packet.control.spare != 0 {
        ClosedAreGone(ledger, fds);
        assert ledger.live - (set fd | fd in fds) == exchange.ledger.live;
      } else {
        assert fds == [fds[0]] && (set fd | fd in fds) == {fds[0]};
        CloseKeeps(ledger, fds[0]);
        assert ledger.live - {fds[0]} == exchange.ledger.live;
      }
    }
  }

  lemma CloseKeeps(ledger: Ledger, fd: int)
    requires fd in ledger.live && Balanced(ledger)
    ensures Balanced(Close(ledger, fd))
  {
    assert ledger.live == (ledger.live - {fd}) + {fd};
    assert multiset(ledger.live) == multiset(ledger.live - {fd}) + multiset{fd};
  }

  lemma AbandonKeeps(exchange: Exchange, others: set<int>)
    requires HeldOk(exchange, others) && Balanced(exchange.ledger)
    ensures HeldOk(Abandon(exchange).exchange, others) && Balanced(Abandon(exchange).exchange.ledger)
    ensures Abandon(exchange).exchange.held == -1
  {
    if exchange.held >= 0 {
      CloseKeeps(exchange.ledger, exchange.held);
      assert exchange.ledger.live - {exchange.held} == others;
    }
  }

  /** After the loop: a response must end its line. */
  function Conclude(exchange: Exchange): Outcome
    requires exchange.held >= 0 ==> exchange.held in exchange.ledger.live
  {
    if exchange.response == [] || exchange.response[|exchange.response| - 1] != '\n' then Abandon(exchange)
    else Outcome(exchange, true)
  }

  ghost predicate OutcomeOk(outcome: Outcome, others: set<int>) {
    && HeldOk(outcome.exchange, others) && Balanced(outcome.exchange.ledger)
    && (!outcome.ok ==> outcome.exchange.held == -1)
  }

  lemma EndKeeps(exchange: Exchange, others: set<int>)
    requires HeldOk(exchange, others) && Balanced(exchange.ledger)
    ensures exchange.held >= 0 ==> exchange.held in exchange.ledger.live
    ensures OutcomeOk(Abandon(exchange), others) && OutcomeOk(Conclude(exchange), others)
  {
    AbandonKeeps(exchange, others);
  }

  datatype Verdict = Continue(next: Exchange) | Stop(outcome: Outcome)

  ghost predicate VerdictOk(verdict: Verdict, others: set<int>, live: set<int>) {
    match verdict
    case Continue(next) => HeldOk(next, others) && Balanced(next.ledger) && next.ledger.live == live
    case Stop(outcome) => OutcomeOk(outcome, others)
  }

  /** The rest of a round, once the control header was taken. */
  function TakeData(taken: Exchange, ok: bool, packet: Packet, capacity: nat): Verdict
    requires packet.Packet? && |taken.response| < capacity - 1
    requires taken.held >= 0 ==> taken.held in taken.ledger.live
  {
    if !ok || packet.truncated then Stop(Abandon(taken))
    else
      var response := taken.response + Clip([packet.first] + packet.more, capacity - 1 - |taken.response|);
      if '\n' in response then Stop(Conclude(taken.(response := response))) else Continue(taken.(response := response))
  }

  lemma DataKeeps(taken: Exchange, ok: bool, packet: Packet, capacity: nat, others: set<int>)
    requires packet.Packet? && |taken.response| < capacity - 1 && HeldOk(taken, others) && Balanced(taken.ledger)
    ensures VerdictOk(TakeData(taken, ok, packet, capacity), others, taken.ledger.live)
    ensures TakeData(taken, ok, packet, capacity).Continue? ==> ok
  {
    hide Balanced, Conclude, Abandon, OutcomeOk, Clip;
    EndKeeps(taken, others);
    if ok && !packet.truncated {
      var response := taken.response + Clip([packet.first] + packet.more, capacity - 1 - |taken.response|);
      EndKeeps(taken.(response := response), others);
    }
  }

  /** One round of the receive loop. */
  function Round(exchange: Exchange, packet: Packet, capacity: nat, wanted: bool): Verdict
    requires |exchange.response| < capacity - 1 && Installable(exchange.ledger.live, Arrived(packet))
    requires exchange.held >= 0 ==> exchange.held in exchange.ledger.live
  {
    match packet
    case Interrupted => Continue(exchange)
    case Failed => Stop(Abandon(exchange))
    case Ended => Stop(Conclude(exchange))
    case Packet(_, _, _, _, _) =>
      var (taken, ok) := TakeControl(exchange, packet, wanted);
      ControlHolds(exchange, packet, wanted);
      TakeData(taken, ok, packet, capacity)
  }

  lemma ControlHolds(exchange: Exchange, packet: Packet, wanted: bool)
    requires packet.Packet? && Installable(exchange.ledger.live, Arrived(packet))
    requires exchange.held >= 0 ==> exchange.held in exchange.ledger.live
    ensures var taken := TakeControl(exchange, packet, wanted).0;
            && taken.response == exchange.response
            && (taken.held >= 0 ==> taken.held in taken.ledger.live)
  {
    if packet.control.Rights? {
      var fds := packet.control.fds;
      InstalledAreLive(exchange.ledger, fds);
      ClosedAreGone(InstallAll(exchange.ledger, fds), fds);
    }
  }

  lemma RoundKeeps(exchange: Exchange, packet: Packet, capacity: nat, wanted: bool, others: set<int>)
    requires |exchange.response| < capacity - 1 && HeldOk(exchange, others) && Balanced(exchange.ledger)
    requires Installable(exchange.ledger.live, Arrived(packet))
    ensures VerdictOk(Round(exchange, packet, capacity, wanted), others,
                      exchange.ledger.live + (set fd | fd in Arrived(packet)))
  {
    hide Balanced, TakeControl, TakeData, Abandon, Conclude, Installable, OutcomeOk;
    EndKeeps(exchange, others);
    if packet.Packet? {
      ControlKeeps(exchange, packet, wanted, others);
      var (taken, ok) := TakeControl(exchange, packet, wanted);
      DataKeeps(taken, ok, packet, capacity, others);
    } else {
      assert exchange.ledger.live + (set fd | fd in Arrived(packet)) == exchange.ledger.live;
    }
  }

  /** The receive loop of `broker_exchange_with_fd_timeout`; `others` are the descriptors open before it. */
  function Receive(exchange: Exchange, packets: seq<Packet>, capacity: nat, wanted: bool, ghost others: set<int>)
    : (r: Outcome)
    requires 2 <= capacity && HeldOk(exchange, others) && Balanced(exchange.ledger)
    requires Deliverable(exchange.ledger.live, packets)
    ensures OutcomeOk(r, others)
    decreases |packets|
  {
    EndKeeps(exchange, others);
    if |exchange.response| >= capacity - 1 || packets == [] then Conclude(exchange)
    else
      RoundKeeps(exchange, packets[0], capacity, wanted, others);
      match Round(exchange, packets[0], capacity, wanted)
      case Stop(outcome) => outcome
      case Continue(next) => Receive(next, packets[1..], capacity, wanted, others)
  }

  // ----- the reply

  const OK := 0
  const UNAVAILABLE := -2
  const INVALID_ARGUMENT := -3
  const INTERNAL := -5
  const RESPONSE_BYTES: nat := 16384
  const DOCUMENT_ID_BYTES: nat := 32
  const DOCUMENT_MAX_BYTES: nat := 268_435_456
  const DOCUMENT_READ_BYTES: nat := 4096

  /** What the field readers find in a response: another status, or an opened document with its fields. */
  datatype Reply = Refused(code: int) | Opened(id: Option<Text>, size: Option<nat>)

  predicate IsLowerHex(c: Byte) { '0' <= c <= '9' || 'a' <= c <= 'f' }

  predicate GoodReply(reply: Reply) {
    && reply.Opened? && reply.id.Some? && |reply.id.value| == DOCUMENT_ID_BYTES
    && (forall i :: 0 <= i < |reply.id.value| ==> IsLowerHex(reply.id.value[i]))
    && reply.size.Some? && reply.size.value <= DOCUMENT_MAX_BYTES
  }

  datatype Decoded = Decoded(ledger: Ledger, code: int, descriptor: int, size: nat)

  function CloseIfAny(ledger: Ledger, fd: int): Ledger
    requires fd >= 0 ==> fd in ledger.live
  {
    if fd >= 0 then Close(ledger, fd) else ledger
  }

  /** `cp0_broker_decode_document_response`: the descriptor is passed on or closed. */
  function DecodeReply(ledger: Ledger, reply: Reply, fd: int): Decoded
    requires fd >= 0 ==> fd in ledger.live
  {
    if reply.Refused? then Decoded(CloseIfAny(ledger, fd), reply.code, -1, 0)
    else if fd < 0 || !GoodReply(reply) then Decoded(CloseIfAny(ledger, fd), INTERNAL, -1, 0)
    else Decoded(ledger, OK, fd, reply.size.value)
  }

  // ----- the document

  /** `opens` counts the successful opens so far. */
  datatype State = State(ledger: Ledger, descriptor: int, handle: nat, size: nat, opens: nat)

  const INITIAL := State(Ledger({}, multiset{}, multiset{}), -1, 0, 0, 0)

  /** How one open went outside: `metadata` is the size of a regular file, if `fstat` says it is one. */
  datatype OpenEnv = OpenEnv(connected: bool, failure: int, packets: seq<Packet>, reply: Reply, metadata: Option<nat>,
                             readOnly: bool)

  function Active(st: State): set<int> { if st.descriptor < 0 then {} else {st.descriptor} }

  /** The handle of the `n`-th open: 1 up to the largest int32, and again from 1. */
  function HandleOf(n: nat): nat { if n == 0 then 0 else (n - 1) % INT32_MAX + 1 }

  /** Everything received is closed, once, or is the one active document. */
  ghost predicate Inv(st: State) {
    && -1 <= st.descriptor
    && st.ledger.live == Active(st)
    && Balanced(st.ledger)
    && st.handle == HandleOf(st.opens)
    && st.size <= DOCUMENT_MAX_BYTES
  }

  lemma DecodeKeeps(ledger: Ledger, reply: Reply, fd: int, others: set<int>)
    requires Balanced(ledger) && -1 <= fd && (fd >= 0 ==> fd !in others)
    requires ledger.live == others + (if fd < 0 then {} else {fd})
    ensures var r := DecodeReply(ledger, reply, fd);
            && Balanced(r.ledger) && -1 <= r.descriptor && (r.descriptor >= 0 ==> r.descriptor == fd)
            && r.ledger.live == others + (if r.descriptor < 0 then {} else {r.descriptor})
            && (r.code != OK ==> r.descriptor == -1)
  {
    hide Balanced, GoodReply;
    if fd >= 0 {
      CloseKeeps(ledger, fd);
      assert ledger.live - {fd} == others;
    }
  }

  /** `cp0_broker_open_document` */
  function Fetch(st: State, env: OpenEnv): (r: Decoded)
    requires Inv(st) && env.connected && Deliverable(st.ledger.live, env.packets)
    ensures Balanced(r.ledger) && -1 <= r.descriptor && (r.descriptor >= 0 ==> r.descriptor !in Active(st))
    ensures r.ledger.live == Active(st) + (if r.descriptor < 0 then {} else {r.descriptor})
    ensures r.code != OK ==> r.descriptor == -1
  {
    var outcome := Receive(Exchange(st.ledger, [], -1), env.packets, RESPONSE_BYTES, true, Active(st));
    if !outcome.ok then Decoded(outcome.exchange.ledger, INTERNAL, -1, 0)
    else
      DecodeKeeps(outcome.exchange.ledger, env.reply, outcome.exchange.held, Active(st));
      DecodeReply(outcome.exchange.ledger, env.reply, outcome.exchange.held)
  }

  function NextHandle(handle: nat): nat { if handle == INT32_MAX then 1 else handle + 1 }

  /** `cp0_document_open` */
  function Open(st: State, env: OpenEnv): (State, int)
    requires Inv(st) && Deliverable(st.ledger.live, env.packets)
  {
    if !env.connected then (st, env.failure)
    else
      var fetched := Fetch(st, env);
      if fetched.code != OK then (st.(ledger := fetched.ledger), fetched.code)
      else if fetched.descriptor < 0 || fetched.size > DOCUMENT_MAX_BYTES || env.metadata != Some(fetched.size) ||
              !env.readOnly
      then (st.(ledger := CloseIfAny(fetched.ledger, fetched.descriptor)), INTERNAL)
      else
        var next := State(CloseIfAny(fetched.ledger, st.descriptor), fetched.descriptor, NextHandle(st.handle),
                          fetched.size, st.opens + 1);
        (next, next.handle * UINT32_SIZE + next.size)
  }

  predicate Accepts(st: State, handle: int) { handle > 0 && handle == st.handle && st.descriptor >= 0 }

  /** How many bytes a read asks the file for, or the result it returns at once. */
  datatype Plan = Return(result: int) | Ask(count: nat)

  function PlanRead(st: State, handle: int, offset: nat, capacity: nat): Plan {
    if !Accepts(st, handle) then Return(UNAVAILABLE)
    else if capacity == 0 || capacity > DOCUMENT_READ_BYTES then Return(INVALID_ARGUMENT)
    else if offset >= st.size then Return(0)
    else Ask(if capacity > st.size - offset then st.size - offset else capacity)
  }

  /** `cp0_document_read`; `available` is what the file has at the offset, if the read went well. */
  function Read(st: State, handle: int, offset: nat, capacity: nat, available: Option<nat>): int {
    match PlanRead(st, handle, offset, capacity)
    case Return(result) => result
    case Ask(count) =>
      if available.None? then UNAVAILABLE else if available.value < count then available.value else count
  }

  /** `cp0_document_close`; the descriptor is gone even if `close` reports an error. */
  function CloseDocument(st: State, handle: int, clean: bool): (State, int)
    requires Inv(st)
  {
    if !Accepts(st, handle) then (st, UNAVAILABLE)
    else (Destroy(st), if clean then OK else UNAVAILABLE)
  }

  /** `cp0_document_destroy` */
  function Destroy(st: State): State
    requires Inv(st)
  {
    st.(ledger := CloseIfAny(st.ledger, st.descriptor), descriptor := -1, size := 0)
  }

  /** The two halves of what a good open returns. */
  function HandlePart(result: int): int { result / UINT32_SIZE }

  function SizePart(result: int): int { result % UINT32_SIZE }

  lemma NextHandleOf(n: nat)
    ensures NextHandle(HandleOf(n)) == HandleOf(n + 1)
    ensures 1 <= HandleOf(n + 1) <= INT32_MAX
  {
    if n > 0 {
      var q, r := (n - 1) / INT32_MAX, (n - 1) % INT32_MAX;
      assert n - 1 == q * INT32_MAX + r;
      if r == INT32_MAX - 1 {
        assert n == (q + 1) * INT32_MAX;
        Remainder(q + 1, 0, n);
      } else {
        Remainder(q, r + 1, n);
      }
    }
  }

  lemma Remainder(q: nat, r: nat, n: nat)
    requires r < INT32_MAX && n == q * INT32_MAX + r
    ensures n % INT32_MAX == r
  {
  }

  predicate CameRound(k: nat, n: nat) { (n - k) % INT32_MAX == 0 }

  /** Two opens share a handle exactly if a multiple of 2^31 - 1 opens lies between them. */
  lemma HandleShared(k: nat, n: nat)
    requires 1 <= k <= n
    ensures HandleOf(k) == HandleOf(n) <==> CameRound(k, n)
  {
    var qk, rk := (k - 1) / INT32_MAX, (k - 1) % INT32_MAX;
    var qn, rn := (n - 1) / INT32_MAX, (n - 1) % INT32_MAX;
    assert k - 1 == qk * INT32_MAX + rk && n - 1 == qn * INT32_MAX + rn;
    if rk <= rn {
      assert n - k == (qn - qk) * INT32_MAX + (rn - rk);
      Remainder(qn - qk, rn - rk, n - k);
    } else {
      assert n - k == (qn - qk - 1) * INT32_MAX + (rn - rk + INT32_MAX);
      Remainder(qn - qk - 1, rn - rk + INT32_MAX, n - k);
    }
  }

  lemma CloseIfAnyKeeps(ledger: Ledger, fd: int)
    requires Balanced(ledger) && (fd >= 0 ==> fd in ledger.live)
    ensures Balanced(CloseIfAny(ledger, fd))
    ensures CloseIfAny(ledger, fd).live == ledger.live - (if fd < 0 then {} else {fd})
  {
    if fd >= 0 {
      CloseKeeps(ledger, fd);
    }
  }

  /** A good open is the next one and returns its handle and size; any other leaves the document as it was. */
  lemma OpenKeeps(st: State, env: OpenEnv)
    requires Inv(st) && Deliverable(st.ledger.live, env.packets) && env.failure < 0 &&
             (env.reply.Refused? ==> env.reply.code <= 0)
    ensures var (next, result) := Open(st, env);
            && Inv(next)
            && (if result < 0 then next == st.(ledger := next.ledger)
                else && next.opens == st.opens + 1 && next.descriptor >= 0
                     && HandlePart(result) == HandleOf(next.opens) && SizePart(result) == next.size
                     && env.metadata == Some(next.size) && env.readOnly && GoodReply(env.reply))
  {
    hide Balanced, Receive, Deliverable, CloseIfAny, HandleOf, GoodReply;
    if env.connected {
      var fetched := Fetch(st, env);
      CloseIfAnyKeeps(fetched.ledger, fetched.descriptor);
      NextHandleOf(st.opens);
      if st.descriptor >= 0 {
        CloseIfAnyKeeps(fetched.ledger, st.descriptor);
      } else {
        CloseIfAnyKeeps(fetched.ledger, -1);
      }
    }
  }

  lemma DestroyKeeps(st: State)
    requires Inv(st)
    ensures Inv(Destroy(st))
  {
    CloseIfAnyKeeps(st.ledger, st.descriptor);
  }

  /** No read asks for, or returns, bytes past the recorded size. */
  lemma ReadStaysInside(st: State, handle: int, offset: nat, capacity: nat, available: Option<nat>)
    ensures var plan := PlanRead(st, handle, offset, capacity);
            plan.Ask? ==> 0 < plan.count <= capacity && offset + plan.count <= st.size
    ensures var result := Read(st, handle, offset, capacity, available);
            result > 0 ==> Accepts(st, handle) && result <= capacity && offset + result <= st.size
  {
  }

  // ----- runs

  datatype Call = OpenCall(env: OpenEnv) | CloseCall(handle: int, clean: bool) | DestroyCall

  /** The kernel installs free numbers, and error codes are negative. */
  ghost predicate Possible(st: State, call: Call) {
    call.OpenCall? ==>
      && Deliverable(st.ledger.live, call.env.packets) && call.env.failure < 0
      && (call.env.reply.Refused? ==> call.env.reply.code <= 0)
  }

  ghost function Step(st: State, call: Call): (next: State)
    requires Inv(st) && Possible(st, call)
    ensures Inv(next) && st.opens <= next.opens
  {
    match call
    case OpenCall(env) =>
      OpenKeeps(st, env);
      Open(st, env).0
    case CloseCall(handle, clean) =>
      DestroyKeeps(st);
      CloseDocument(st, handle, clean).0
    case DestroyCall =>
      DestroyKeeps(st);
      Destroy(st)
  }

  ghost predicate ValidRun(st: State, calls: seq<Call>)
    requires Inv(st)
    decreases |calls|
  {
    calls == [] || (Possible(st, calls[0]) && ValidRun(Step(st, calls[0]), calls[1..]))
  }

  ghost function Run(st: State, calls: seq<Call>): (end: State)
    requires Inv(st) && ValidRun(st, calls)
    ensures Inv(end) && st.opens <= end.opens
    decreases |calls|
  {
    if calls == [] then st else Run(Step(st, calls[0]), calls[1..])
  }

  /** Over every run: what was received is what was closed plus the one active document, if any. */
  lemma DescriptorsConserved(calls: seq<Call>)
    requires ValidRun(INITIAL, calls)
    ensures var end := Run(INITIAL, calls);
            && end.ledger.received == end.ledger.closed + multiset(Active(end))
            && end.ledger.live == Active(end)
  {
  }

  /** A handle of an earlier open is accepted exactly if a document is open and the number of opens came round. */
  lemma HandleAccepted(st: State, k: nat)
    requires Inv(st) && 1 <= k <= st.opens
    ensures Accepts(st, HandleOf(k)) <==> st.descriptor >= 0 && CameRound(k, st.opens)
  {
    NextHandleOf(k - 1);
    HandleShared(k, st.opens);
    hide HandleOf, CameRound, Balanced;
  }

  /** After any run behind a good open, its handle is accepted exactly if a multiple of 2^31 - 1 opens followed. */
  lemma StaleHandle(st: State, env: OpenEnv, after: seq<Call>)
    requires Inv(st) && Possible(st, OpenCall(env)) && Open(st, env).1 >= 0
    requires ValidRun(Step(st, OpenCall(env)), after)
    ensures var next := Step(st, OpenCall(env));
            var end := Run(next, after);
            Accepts(end, HandlePart(Open(st, env).1)) <==> end.descriptor >= 0 && CameRound(next.opens, end.opens)
  {
    hide HandleOf, CameRound, HandlePart, Inv, Accepts, Run, ValidRun, Possible, Open;
    OpenPossible(st, env);
    HandleAccepted(Run(Step(st, OpenCall(env)), after), Step(st, OpenCall(env)).opens);
  }

  lemma OpenPossible(st: State, env: OpenEnv)
    requires Inv(st) && Possible(st, OpenCall(env)) && Open(st, env).1 >= 0
    ensures Step(st, OpenCall(env)).opens >= 1
    ensures HandlePart(Open(st, env).1) == HandleOf(Step(st, OpenCall(env)).opens)
  {
    OpenKeeps(st, env);
  }
}
