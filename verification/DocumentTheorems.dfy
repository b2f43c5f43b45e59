/** When a document opens, and what its readers get: exact conditions on the packets, the reply and the file. */
module DocumentTheorems {
  import opened Common
  import opened Documents

  // ----- the packets of a good exchange

  function DataOf(packet: Packet): Text { if packet.Packet? then [packet.first] + packet.more else [] }

  /** All bytes of the packets, however the stream was cut into them. */
  function BytesOf(packets: seq<Packet>): Text
    decreases |packets|
  {
    if packets == [] then [] else DataOf(packets[0]) + BytesOf(packets[1..])
  }

  /** All descriptors that came with them. */
  function Arrivals(packets: seq<Packet>): seq<int>
    decreases |packets|
  {
    if packets == [] then [] else Arrived(packets[0]) + Arrivals(packets[1..])
  }

  /** A packet that breaks nothing off: whole, and with at most one descriptor, made close-on-exec. */
  predicate Usable(packet: Packet) {
    packet.Interrupted? ||
    (packet.Packet? && !packet.truncated &&
     (packet.control.NoControl? ||
      (packet.control.Rights? && |packet.control.fds| == 1 && packet.control.spare == 0 && packet.sealed)))
  }

  /**
   Behind `before`, packet `n` is the first with a newline, the bytes that fit the
   buffer end with one, and all packets up to it are usable.
   */
  predicate EndsLine(before: Text, packets: seq<Packet>, n: nat, capacity: nat) {
    && n < |packets| && packets[n].Packet?
    && (forall i :: 0 <= i <= n ==> Usable(packets[i]))
    && FitsBefore(before + BytesOf(packets[..n]), capacity)
    && EndsWithNewline(Clip(before + BytesOf(packets[..n]) + DataOf(packets[n]), capacity - 1))
  }

  predicate FitsBefore(text: Text, capacity: nat) { |text| < capacity - 1 && '\n' !in text }

  predicate EndsWithNewline(text: Text) { text != [] && text[|text| - 1] == '\n' }

  /** Packet `n` completes the response, and no second descriptor came. */
  predicate Completes(exchange: Exchange, packets: seq<Packet>, n: nat, capacity: nat) {
    && EndsLine(exchange.response, packets, n, capacity)
    && |Arrivals(packets[..n + 1])| <= (if exchange.held < 0 then 1 else 0)
  }

  function HeldAfter(held: int, arrivals: seq<int>): int { if arrivals == [] then held else arrivals[0] }

  lemma PrefixUnfold(packets: seq<Packet>, n: nat)
    requires 0 < n <= |packets|
    ensures BytesOf(packets[..n]) == DataOf(packets[0]) + BytesOf(packets[1..][..n - 1])
    ensures Arrivals(packets[..n]) == Arrived(packets[0]) + Arrivals(packets[1..][..n - 1])
  {
    assert packets[..n][1..] == packets[1..][..n - 1];
  }

  lemma NothingYet(packets: seq<Packet>)
    ensures BytesOf(packets[..0]) == [] && Arrivals(packets[..0]) == []
  {
  }

  /** Past a first usable packet whose bytes are all kept and hold no newline, the rest decides. */
  lemma EndsLineRest(before: Text, packets: seq<Packet>, n: nat, capacity: nat)
    requires packets != [] && Usable(packets[0]) && n < |packets| - 1
    ensures EndsLine(before, packets, n + 1, capacity) <==>
            EndsLine(before + DataOf(packets[0]), packets[1..], n, capacity)
  {
    hide Usable, Clip, EndsWithNewline, FitsBefore;
    var rest := packets[1..];
    PrefixUnfold(packets, n + 1);
    assert before + (DataOf(packets[0]) + BytesOf(rest[..n])) == before + DataOf(packets[0]) + BytesOf(rest[..n]);
    assert rest[n] == packets[n + 1];
    if forall i :: 0 <= i <= n + 1 ==> Usable(packets[i]) {
      forall i | 0 <= i <= n ensures Usable(rest[i]) {
        assert rest[i] == packets[i + 1];
      }
    }
    if forall i :: 0 <= i <= n ==> Usable(rest[i]) {
      forall i | 0 <= i <= n + 1 ensures Usable(packets[i]) {
        if i > 0 {
          assert packets[i] == rest[i - 1];
        }
      }
    }
  }

  lemma EndsLineFirst(before: Text, packets: seq<Packet>, capacity: nat)
    requires packets != []
    ensures EndsLine(before, packets, 0, capacity) <==>
            packets[0].Packet? && Usable(packets[0]) && FitsBefore(before, capacity) &&
            EndsWithNewline(Clip(before + DataOf(packets[0]), capacity - 1))
  {
    hide Usable, Clip, EndsWithNewline, FitsBefore;
    NothingYet(packets);
    assert before + [] == before;
  }

  lemma NewlineBlocks(before: Text, packets: seq<Packet>, n: nat, capacity: nat)
    requires EndsLine(before, packets, n, capacity)
    ensures FitsBefore(before, capacity) && Usable(packets[0])
    ensures n > 0 ==> FitsBefore(before + DataOf(packets[0]), capacity)
  {
    hide Usable, Clip, EndsWithNewline;
    assert Usable(packets[0]);
    if n > 0 {
      PrefixUnfold(packets, n);
      var whole := before + BytesOf(packets[..n]);
      assert whole == before + DataOf(packets[0]) + BytesOf(packets[1..][..n - 1]);
      assert forall c :: c in before + DataOf(packets[0]) ==> c in whole;
      assert forall c :: c in before ==> c in before + DataOf(packets[0]);
    } else {
      NothingYet(packets);
      assert before + [] == before;
    }
  }

  // ----- one round

  /** A round goes on or ends well only on a usable packet that brings no second descriptor. */
  lemma ControlTaken(exchange: Exchange, packet: Packet)
    requires packet.Packet? && Installable(exchange.ledger.live, Arrived(packet)) && -1 <= exchange.held
    ensures var (taken, ok) := TakeControl(exchange, packet, true);
            && (ok && !packet.truncated <==>
                Usable(packet) && |Arrived(packet)| <= (if exchange.held < 0 then 1 else 0))
            && (ok ==> taken.held == HeldAfter(exchange.held, Arrived(packet)))
            && taken.response == exchange.response
  {
    if packet.control.Rights? {
      InstalledAreLive(exchange.ledger, packet.control.fds);
    }
    hide InstallAll, CloseAll, Installable;
  }

  lemma ClipAppend(before: Text, data: Text, room: nat)
    requires |before| <= room
    ensures before + Clip(data, room - |before|) == Clip(before + data, room)
  {
  }

  /** What the response is after a packet. */
  function Extended(exchange: Exchange, packet: Packet, capacity: nat): Text
    requires 1 <= capacity
  {
    Clip(exchange.response + DataOf(packet), capacity - 1)
  }

  predicate Welcome(exchange: Exchange, packet: Packet) {
    Usable(packet) && |Arrived(packet)| <= (if exchange.held < 0 then 1 else 0)
  }

  lemma PacketRound(exchange: Exchange, packet: Packet, capacity: nat)
    requires packet.Packet? && |exchange.response| < capacity - 1 && -1 <= exchange.held
    requires Installable(exchange.ledger.live, Arrived(packet))
    requires exchange.held >= 0 ==> exchange.held in exchange.ledger.live
    ensures var r, text := Round(exchange, packet, capacity, true), Extended(exchange, packet, capacity);
            && (!Welcome(exchange, packet) ==> r.Stop? && !r.outcome.ok)
            && (Welcome(exchange, packet) && '\n' in text ==>
                  r.Stop? && (r.outcome.ok <==> EndsWithNewline(text)) &&
                  (r.outcome.ok ==> r.outcome.exchange.held == HeldAfter(exchange.held, Arrived(packet))))
            && (Welcome(exchange, packet) && '\n' !in text ==>
                  r.Continue? && r.next.response == text && r.next.held == HeldAfter(exchange.held, Arrived(packet)))
  {
    ControlTaken(exchange, packet);
    ControlHolds(exchange, packet, true);
    hide TakeControl, TakeData, Usable, Clip, Installable, HeldAfter, Arrived;
    var (taken, ok) := TakeControl(exchange, packet, true);
    DataTaken(taken, ok, packet, capacity);
  }

  lemma DataTaken(taken: Exchange, ok: bool, packet: Packet, capacity: nat)
    requires packet.Packet? && |taken.response| < capacity - 1
    requires taken.held >= 0 ==> taken.held in taken.ledger.live
    ensures var r, text := TakeData(taken, ok, packet, capacity), Extended(taken, packet, capacity);
            && (!ok || packet.truncated ==> r.Stop? && !r.outcome.ok)
            && (ok && !packet.truncated && '\n' in text ==>
                  r.Stop? && (r.outcome.ok <==> EndsWithNewline(text)) &&
                  (r.outcome.ok ==> r.outcome.exchange.held == taken.held))
            && (ok && !packet.truncated && '\n' !in text ==>
                  r.Continue? && r.next.response == text && r.next.held == taken.held)
  {
    ClipAppend(taken.response, DataOf(packet), capacity - 1);
    hide Clip, Close;
  }

  // ----- the whole exchange

  ghost predicate Answers(exchange: Exchange, packets: seq<Packet>, capacity: nat, r: Outcome) {
    && (r.ok <==> exists n :: Completes(exchange, packets, n, capacity))
    && (forall n :: Completes(exchange, packets, n, capacity) ==>
          r.exchange.held == HeldAfter(exchange.held, Arrivals(packets[..n + 1])))
  }

  lemma ArrivalsRest(held: int, packets: seq<Packet>, n: nat)
    requires packets != [] && n < |packets| - 1 && -1 <= held
    requires |Arrived(packets[0])| <= (if held < 0 then 1 else 0)
    requires forall i :: 0 <= i < |Arrived(packets[0])| ==> 0 <= Arrived(packets[0])[i]
    ensures var next, rest := HeldAfter(held, Arrived(packets[0])), Arrivals(packets[1..][..n + 1]);
            && (|Arrivals(packets[..n + 2])| <= (if held < 0 then 1 else 0) <==> |rest| <= (if next < 0 then 1 else 0))
            && (|rest| <= (if next < 0 then 1 else 0) ==>
                  HeldAfter(held, Arrivals(packets[..n + 2])) == HeldAfter(next, rest))
  {
    hide Arrived;
    PrefixUnfold(packets, n + 2);
  }

  /** Past a first welcome packet without newline, the rest completes the response. */
  lemma CompletesRest(exchange: Exchange, packets: seq<Packet>, next: Exchange, n: nat, capacity: nat)
    requires packets != [] && n < |packets| - 1 && -1 <= exchange.held && Welcome(exchange, packets[0])
    requires forall i :: 0 <= i < |Arrived(packets[0])| ==> 0 <= Arrived(packets[0])[i]
    requires 1 <= capacity && next.response == Extended(exchange, packets[0], capacity)
    requires next.held == HeldAfter(exchange.held, Arrived(packets[0]))
    ensures Completes(exchange, packets, n + 1, capacity) <==> Completes(next, packets[1..], n, capacity)
    ensures Completes(exchange, packets, n + 1, capacity) ==>
              HeldAfter(exchange.held, Arrivals(packets[..n + 2])) ==
              HeldAfter(next.held, Arrivals(packets[1..][..n + 1]))
  {
    hide EndsLine, Arrived, Arrivals, HeldAfter, Usable, Extended, DataOf;
    ArrivalsRest(exchange.held, packets, n);
    EndsLineRest(exchange.response, packets, n, capacity);
    NotClipped(exchange, packets[0], capacity);
    if EndsLine(exchange.response, packets, n + 1, capacity) {
      NewlineBlocks(exchange.response, packets, n + 1, capacity);
    }
    if EndsLine(next.response, packets[1..], n, capacity) {
      NewlineBlocks(next.response, packets[1..], n, capacity);
    }
  }

  lemma NotClipped(exchange: Exchange, packet: Packet, capacity: nat)
    requires 1 <= capacity
    ensures var whole, kept := exchange.response + DataOf(packet), Extended(exchange, packet, capacity);
            FitsBefore(whole, capacity) || FitsBefore(kept, capacity) ==> kept == whole
  {
    hide DataOf;
  }

  lemma StoppedAnswers(exchange: Exchange, packets: seq<Packet>, capacity: nat, outcome: Outcome)
    requires packets != [] && packets[0].Packet? && |exchange.response| < capacity - 1 && '\n' !in exchange.response
    requires !Welcome(exchange, packets[0]) || '\n' in Extended(exchange, packets[0], capacity)
    requires outcome.ok <==> Welcome(exchange, packets[0]) && EndsWithNewline(Extended(exchange, packets[0], capacity))
    requires outcome.ok ==> outcome.exchange.held == HeldAfter(exchange.held, Arrived(packets[0]))
    ensures Answers(exchange, packets, capacity, outcome)
  {
    EndsLineFirst(exchange.response, packets, capacity);
    KeptNewline(exchange.response + DataOf(packets[0]), capacity - 1);
    PrefixUnfold(packets, 1);
    NothingYet(packets[1..]);
    assert Arrivals(packets[..1]) == Arrived(packets[0]);
    forall n: nat | Completes(exchange, packets, n, capacity) ensures n == 0 && Welcome(exchange, packets[0]) {
      NewlineBlocks(exchange.response, packets, n, capacity);
      FirstArrivals(packets, n);
    }
    if outcome.ok {
      assert Completes(exchange, packets, 0, capacity);
    }
    hide EndsLine, Usable, Arrived, Arrivals, HeldAfter, Clip;
  }

  lemma FirstArrivals(packets: seq<Packet>, n: nat)
    requires n < |packets|
    ensures |Arrived(packets[0])| <= |Arrivals(packets[..n + 1])|
  {
    PrefixUnfold(packets, n + 1);
  }

  lemma KeptNewline(text: Text, room: nat)
    ensures '\n' in Clip(text, room) ==> '\n' in text
  {
  }

  /** No packet completes a response that is full, or that nothing usable follows. */
  lemma NothingAnswers(exchange: Exchange, packets: seq<Packet>, capacity: nat, outcome: Outcome)
    requires !outcome.ok
    requires |exchange.response| >= capacity - 1 || packets == [] || !Usable(packets[0])
    ensures Answers(exchange, packets, capacity, outcome)
  {
    hide Usable;
    forall n: nat | Completes(exchange, packets, n, capacity) ensures false {
      NewlineBlocks(exchange.response, packets, n, capacity);
    }
  }

  lemma ContinuedAnswers(exchange: Exchange, packets: seq<Packet>, next: Exchange, capacity: nat, outcome: Outcome)
    requires packets != [] && -1 <= exchange.held && Welcome(exchange, packets[0]) && 1 <= capacity
    requires forall i :: 0 <= i < |Arrived(packets[0])| ==> 0 <= Arrived(packets[0])[i]
    requires |exchange.response| <= capacity - 1
    requires next.response == Extended(exchange, packets[0], capacity) && '\n' !in next.response
    requires next.held == HeldAfter(exchange.held, Arrived(packets[0]))
    requires Answers(next, packets[1..], capacity, outcome)
    ensures Answers(exchange, packets, capacity, outcome)
  {
    var rest := packets[1..];
    EndsLineFirst(exchange.response, packets, capacity);
    hide EndsLine, Usable, Arrived, Arrivals, HeldAfter, Extended, Welcome;
    assert !EndsWithNewline(next.response);
    assert !EndsLine(exchange.response, packets, 0, capacity) by {
      if packets[0].Packet? {
        ExtendedIs(exchange, packets[0], capacity);
      }
    }
    forall n: nat | Completes(exchange, packets, n, capacity)
      ensures n > 0 && Completes(next, rest, n - 1, capacity)
      ensures outcome.exchange.held == HeldAfter(exchange.held, Arrivals(packets[..n + 1]))
    {
      WithinPackets(exchange.response, packets, n, capacity);
      CompletesRest(exchange, packets, next, n - 1, capacity);
    }
    forall n: nat | Completes(next, rest, n, capacity)
      ensures Completes(exchange, packets, n + 1, capacity)
    {
      WithinPackets(next.response, rest, n, capacity);
      CompletesRest(exchange, packets, next, n, capacity);
    }
  }

  lemma ExtendedIs(exchange: Exchange, packet: Packet, capacity: nat)
    requires 1 <= capacity
    ensures Extended(exchange, packet, capacity) == Clip(exchange.response + DataOf(packet), capacity - 1)
  {
  }

  lemma WithinPackets(before: Text, packets: seq<Packet>, n: nat, capacity: nat)
    requires EndsLine(before, packets, n, capacity)
    ensures n < |packets|
  {
  }

  /** The exchange succeeds exactly if some packet completes the response, and hands out the descriptor that came. */
  lemma {:induction false} ReceiveAnswers(exchange: Exchange, packets: seq<Packet>, capacity: nat, others: set<int>)
    requires 2 <= capacity && HeldOk(exchange, others) && Balanced(exchange.ledger)
    requires Deliverable(exchange.ledger.live, packets) && '\n' !in exchange.response
    requires |exchange.response| <= capacity - 1
    ensures Answers(exchange, packets, capacity, Receive(exchange, packets, capacity, true, others))
    decreases |packets|
  {
    hide Balanced, Answers, Usable, Welcome, Extended, HeldAfter, Arrivals;
    EndKeeps(exchange, others);
    var r := Receive(exchange, packets, capacity, true, others);
    if |exchange.response| >= capacity - 1 || packets == [] {
      NothingAnswers(exchange, packets, capacity, r);
    } else {
      var packet := packets[0];
      RoundKeeps(exchange, packet, capacity, true, others);
      if packet.Packet? {
        PacketRound(exchange, packet, capacity);
        match Round(exchange, packet, capacity, true)
        case Stop(outcome) => StoppedAnswers(exchange, packets, capacity, outcome);
        case Continue(next) =>
          ExtendedFits(exchange, packet, capacity);
          ReceiveAnswers(next, packets[1..], capacity, others);
          ContinuedAnswers(exchange, packets, next, capacity, r);
      } else if packet.Interrupted? {
        InterruptedWelcome(exchange, packet, capacity);
        ReceiveAnswers(exchange, packets[1..], capacity, others);
        ContinuedAnswers(exchange, packets, exchange, capacity, r);
      } else {
        NotUsable(packet);
        NothingAnswers(exchange, packets, capacity, r);
      }
    }
  }

  lemma ExtendedFits(exchange: Exchange, packet: Packet, capacity: nat)
    requires 1 <= capacity
    ensures |Extended(exchange, packet, capacity)| <= capacity - 1
  {
  }

  lemma InterruptedWelcome(exchange: Exchange, packet: Packet, capacity: nat)
    requires packet.Interrupted? && 1 <= capacity && |exchange.response| <= capacity - 1
    ensures Welcome(exchange, packet) && Extended(exchange, packet, capacity) == exchange.response
    ensures Arrived(packet) == [] && HeldAfter(exchange.held, []) == exchange.held
  {
    assert exchange.response + [] == exchange.response;
  }

  lemma NotUsable(packet: Packet)
    requires packet.Failed? || packet.Ended?
    ensures !Usable(packet)
  {
  }

  // ----- what was received

  /** Packet `m` is read: all before it are usable, bring no second descriptor, and leave room and the line open. */
  predicate Reaches(exchange: Exchange, packets: seq<Packet>, m: nat, capacity: nat) {
    && m < |packets| && (forall i :: 0 <= i < m ==> Usable(packets[i]))
    && FitsBefore(exchange.response + BytesOf(packets[..m]), capacity)
    && |Arrivals(packets[..m])| <= (if exchange.held < 0 then 1 else 0)
  }

  lemma {:induction false} InstalledReceived(ledger: Ledger, fds: seq<int>)
    requires Installable(ledger.live, fds)
    ensures InstallAll(ledger, fds).received == ledger.received + multiset(fds)
    decreases |fds|
  {
    if fds != [] {
      InstallableRest(ledger.live, fds);
      InstalledReceived(Install(ledger, fds[0]), fds[1..]);
      assert fds == [fds[0]] + fds[1..];
    }
  }

  lemma {:induction false} ClosedReceived(ledger: Ledger, fds: seq<int>)
    requires AllLive(ledger.live, fds)
    ensures CloseAll(ledger, fds).received == ledger.received
    decreases |fds|
  {
    if fds != [] {
      AllLiveRest(ledger.live, fds);
      ClosedReceived(Close(ledger, fds[0]), fds[1..]);
    }
  }

  lemma ControlReceives(exchange: Exchange, packet: Packet)
    requires packet.Packet? && Installable(exchange.ledger.live, Arrived(packet))
    ensures TakeControl(exchange, packet, true).0.ledger.received ==
            exchange.ledger.received + multiset(Arrived(packet))
  {
    if packet.control.Rights? {
      var fds := packet.control.fds;
      InstalledAreLive(exchange.ledger, fds);
      InstalledReceived(exchange.ledger, fds);
      ClosedReceived(InstallAll(exchange.ledger, fds), fds);
      hide Installable, InstallAll, CloseAll;
    }
  }

  function LedgerOf(verdict: Verdict): Ledger {
    match verdict
    case Continue(next) => next.ledger
    case Stop(outcome) => outcome.exchange.ledger
  }

  lemma RoundReceives(exchange: Exchange, packet: Packet, capacity: nat)
    requires |exchange.response| < capacity - 1 && Installable(exchange.ledger.live, Arrived(packet))
    requires exchange.held >= 0 ==> exchange.held in exchange.ledger.live
    ensures Received(exchange.ledger, Arrived(packet), LedgerOf(Round(exchange, packet, capacity, true)))
  {
    if packet.Packet? {
      ControlReceives(exchange, packet);
      ControlHolds(exchange, packet, true);
      hide TakeControl, Installable, Clip, Arrived;
    }
  }

  lemma ReachesFirst(exchange: Exchange, packets: seq<Packet>, capacity: nat)
    ensures Reaches(exchange, packets, 0, capacity) <==> packets != [] && FitsBefore(exchange.response, capacity)
  {
    NothingYet(packets);
    assert exchange.response + [] == exchange.response;
  }

  /** The packet behind one that was not welcome, or that ended or filled the line, is not read. */
  lemma ReachesSecond(exchange: Exchange, packets: seq<Packet>, capacity: nat)
    requires packets != [] && Reaches(exchange, packets, 1, capacity)
    ensures Welcome(exchange, packets[0]) && FitsBefore(exchange.response + DataOf(packets[0]), capacity)
  {
    PrefixUnfold(packets, 1);
    NothingYet(packets[1..]);
    assert BytesOf(packets[..1]) == DataOf(packets[0]) && Arrivals(packets[..1]) == Arrived(packets[0]);
    hide Usable, Arrived, Arrivals, BytesOf, DataOf, FitsBefore;
    assert Usable(packets[0]);
  }

  lemma ReachesRest(exchange: Exchange, packets: seq<Packet>, next: Exchange, m: nat, capacity: nat)
    requires packets != [] && -1 <= exchange.held && Welcome(exchange, packets[0]) && 1 <= capacity
    requires forall i :: 0 <= i < |Arrived(packets[0])| ==> 0 <= Arrived(packets[0])[i]
    requires next.response == Extended(exchange, packets[0], capacity)
    requires next.held == HeldAfter(exchange.held, Arrived(packets[0]))
    ensures Reaches(exchange, packets, m + 1, capacity) <==> Reaches(next, packets[1..], m, capacity)
  {
    hide Usable, DataOf, BytesOf, Extended, FitsBefore, Arrived, Arrivals, HeldAfter;
    var rest := packets[1..];
    if m + 1 < |packets| {
      PrefixUnfold(packets, m + 1);
      ClippedFits(exchange, packets[0], BytesOf(rest[..m]), capacity);
      UsableRest(packets, m);
      HeldRest(exchange.held, Arrived(packets[0]), Arrivals(rest[..m]));
      assert exchange.response + BytesOf(packets[..m + 1]) == exchange.response + DataOf(packets[0]) + BytesOf(rest[..m]);
    }
  }

  lemma UsableRest(packets: seq<Packet>, m: nat)
    requires m + 1 < |packets| && Usable(packets[0])
    ensures (forall i :: 0 <= i < m + 1 ==> Usable(packets[i])) <==> (forall i :: 0 <= i < m ==> Usable(packets[1..][i]))
  {
    hide Usable;
    var rest := packets[1..];
    if forall i :: 0 <= i < m + 1 ==> Usable(packets[i]) {
      forall i | 0 <= i < m ensures Usable(rest[i]) { assert rest[i] == packets[i + 1]; }
    }
    if forall i :: 0 <= i < m ==> Usable(rest[i]) {
      forall i | 0 <= i < m + 1 ensures Usable(packets[i]) { if i > 0 { assert packets[i] == rest[i - 1]; } }
    }
  }

  lemma HeldRest(held: int, first: seq<int>, rest: seq<int>)
    requires -1 <= held && |first| <= (if held < 0 then 1 else 0) && forall i :: 0 <= i < |first| ==> 0 <= first[i]
    ensures |first + rest| <= (if held < 0 then 1 else 0) <==> |rest| <= (if HeldAfter(held, first) < 0 then 1 else 0)
  {
  }

  lemma ClippedFits(exchange: Exchange, packet: Packet, more: Text, capacity: nat)
    requires 1 <= capacity
    ensures FitsBefore(exchange.response + DataOf(packet) + more, capacity) <==>
            FitsBefore(Extended(exchange, packet, capacity) + more, capacity)
  {
    hide DataOf;
  }

  /** The first `k` packets are read, and no more. */
  predicate ReadExactly(exchange: Exchange, packets: seq<Packet>, k: nat, capacity: nat) {
    k <= |packets| && (forall i :: 0 <= i < k ==> Reaches(exchange, packets, i, capacity)) &&
    !Reaches(exchange, packets, k, capacity)
  }

  lemma ReadRest(exchange: Exchange, packets: seq<Packet>, next: Exchange, k: nat, capacity: nat)
    requires packets != [] && -1 <= exchange.held && Welcome(exchange, packets[0]) && 1 <= capacity && k > 0
    requires forall i :: 0 <= i < |Arrived(packets[0])| ==> 0 <= Arrived(packets[0])[i]
    requires next.response == Extended(exchange, packets[0], capacity)
    requires next.held == HeldAfter(exchange.held, Arrived(packets[0]))
    requires ReadExactly(exchange, packets, k, capacity)
    ensures ReadExactly(next, packets[1..], k - 1, capacity)
  {
    hide Reaches, Welcome, Extended, HeldAfter, Arrived;
    ReachesRest(exchange, packets, next, k - 1, capacity);
    forall i | 0 <= i < k - 1 ensures Reaches(next, packets[1..], i, capacity) {
      assert Reaches(exchange, packets, i + 1, capacity);
      ReachesRest(exchange, packets, next, i, capacity);
    }
  }

  lemma OneRead(exchange: Exchange, packets: seq<Packet>, k: nat, capacity: nat)
    requires packets != [] && |exchange.response| < capacity - 1 && '\n' !in exchange.response
    requires ReadExactly(exchange, packets, k, capacity)
    ensures k > 0
    ensures !Welcome(exchange, packets[0]) || '\n' in Extended(exchange, packets[0], capacity) ==> k == 1
  {
    ReachesFirst(exchange, packets, capacity);
    if k > 1 {
      hide Reaches, Welcome;
      assert Reaches(exchange, packets, 1, capacity);
      ReachesSecond(exchange, packets, capacity);
      KeptNewline(exchange.response + DataOf(packets[0]), capacity - 1);
    }
  }

  lemma FirstOnly(packets: seq<Packet>)
    requires packets != []
    ensures Arrivals(packets[..1]) == Arrived(packets[0])
  {
    PrefixUnfold(packets, 1);
    NothingYet(packets[1..]);
  }

  /** `after` has received these descriptors on top of `before`. */
  ghost predicate Received(before: Ledger, fds: seq<int>, after: Ledger) {
    after.received == before.received + multiset(fds)
  }

  lemma ReceivedBoth(before: Ledger, fds: seq<int>, middle: Ledger, more: seq<int>, after: Ledger)
    requires Received(before, fds, middle) && Received(middle, more, after)
    ensures Received(before, fds + more, after)
  {
  }

  /** However an exchange ends, the ledger has received exactly the descriptors of the packets that were read. */
  lemma {:induction false} ReceiveRecords(exchange: Exchange, packets: seq<Packet>, capacity: nat, others: set<int>, k: nat)
    requires 2 <= capacity && HeldOk(exchange, others) && Balanced(exchange.ledger)
    requires Deliverable(exchange.ledger.live, packets) && '\n' !in exchange.response
    requires |exchange.response| <= capacity - 1 && ReadExactly(exchange, packets, k, capacity)
    ensures k <= |packets|
    ensures Received(exchange.ledger, Arrivals(packets[..k]),
                     Receive(exchange, packets, capacity, true, others).exchange.ledger)
    decreases |packets|
  {
    EndKeeps(exchange, others);
    EndReceives(exchange);
    WithinRead(exchange, packets, k, capacity);
    hide Balanced, Welcome, Extended, HeldAfter, Arrivals, Reaches, ReadExactly, Round, Conclude, Usable, Received;
    if |exchange.response| >= capacity - 1 || packets == [] {
      NoneRead(exchange, packets, k, capacity);
      NothingYet(packets);
    } else {
      var packet := packets[0];
      RoundKeeps(exchange, packet, capacity, true, others);
      RoundReceives(exchange, packet, capacity);
      OneRead(exchange, packets, k, capacity);
      FirstOnly(packets);
      RoundGoesOn(exchange, packet, capacity);
      match Round(exchange, packet, capacity, true)
      case Stop(outcome) =>
      case Continue(next) =>
        ExtendedFits(exchange, packet, capacity);
        ReadRest(exchange, packets, next, k, capacity);
        ReceiveRecords(next, packets[1..], capacity, others, k - 1);
        PrefixUnfold(packets, k);
        ReceivedBoth(exchange.ledger, Arrived(packet), next.ledger, Arrivals(packets[1..][..k - 1]),
                     Receive(next, packets[1..], capacity, true, others).exchange.ledger);
    }
  }

  lemma EndReceives(exchange: Exchange)
    requires exchange.held >= 0 ==> exchange.held in exchange.ledger.live
    ensures Received(exchange.ledger, [], Conclude(exchange).exchange.ledger)
  {
  }

  lemma WithinRead(exchange: Exchange, packets: seq<Packet>, k: nat, capacity: nat)
    requires ReadExactly(exchange, packets, k, capacity)
    ensures k <= |packets|
  {
  }

  lemma NoneRead(exchange: Exchange, packets: seq<Packet>, k: nat, capacity: nat)
    requires |exchange.response| >= capacity - 1 || packets == []
    requires ReadExactly(exchange, packets, k, capacity)
    ensures k == 0
  {
    ReachesFirst(exchange, packets, capacity);
  }

  /** A round goes on exactly behind a welcome packet that leaves the line open. */
  lemma RoundGoesOn(exchange: Exchange, packet: Packet, capacity: nat)
    requires |exchange.response| < capacity - 1 && -1 <= exchange.held && '\n' !in exchange.response
    requires Installable(exchange.ledger.live, Arrived(packet))
    requires exchange.held >= 0 ==> exchange.held in exchange.ledger.live
    ensures var r, text := Round(exchange, packet, capacity, true), Extended(exchange, packet, capacity);
            && (r.Stop? ==> !Welcome(exchange, packet) || '\n' in text)
            && (r.Continue? ==>
                  && Welcome(exchange, packet) && '\n' !in text
                  && r.next.response == text && r.next.held == HeldAfter(exchange.held, Arrived(packet)))
  {
    if packet.Packet? {
      PacketRound(exchange, packet, capacity);
      hide Round, Welcome, Extended, HeldAfter;
    } else if packet.Interrupted? {
      InterruptedWelcome(exchange, packet, capacity);
    } else {
      NotUsable(packet);
    }
  }

  // ----- opening

  /** Packet `n` completes the reply, and exactly this descriptor came until then. */
  predicate Delivers(packets: seq<Packet>, n: nat, fd: int) {
    EndsLine([], packets, n, 16384) && Arrivals(packets[..n + 1]) == [fd]
  }

  lemma DeliversCompletes(start: Exchange, packets: seq<Packet>, n: nat, fd: int)
    requires start.response == [] && start.held == -1
    ensures Delivers(packets, n, fd) <==>
            Completes(start, packets, n, RESPONSE_BYTES) && Arrivals(packets[..n + 1]) == [fd]
  {
    hide Usable, Arrivals, BytesOf, Clip, FitsBefore, EndsWithNewline;
  }

  lemma HeldDecides(start: Exchange, packets: seq<Packet>, outcome: Outcome, fd: nat)
    requires start.response == [] && start.held == -1 && Answers(start, packets, RESPONSE_BYTES, outcome)
    ensures outcome.ok && outcome.exchange.held == fd <==> exists n :: Delivers(packets, n, fd)
  {
    hide Delivers, EndsLine, Arrivals;
    if outcome.ok && outcome.exchange.held == fd {
      var n: nat :| Completes(start, packets, n, RESPONSE_BYTES);
      WithinPackets([], packets, n, RESPONSE_BYTES);
      var arrivals := Arrivals(packets[..n + 1]);
      assert arrivals == [fd];
      DeliversCompletes(start, packets, n, fd);
    }
    if exists n :: Delivers(packets, n, fd) {
      var n: nat :| Delivers(packets, n, fd);
      DeliversCompletes(start, packets, n, fd);
    }
  }

  const LOWER_HEX: Text := "0123456789abcdef"

  /** An id of 32 lower-case hexadecimal digits and a size of at most 256 MiB. */
  predicate DocumentReply(reply: Reply) {
    && reply.Opened? && reply.id.Some? && |reply.id.value| == 32
    && (forall i :: 0 <= i < 32 ==> reply.id.value[i] in LOWER_HEX)
    && reply.size.Some? && reply.size.value <= 256 * 1024 * 1024
  }

  lemma LowerHex(c: Byte)
    ensures IsLowerHex(c) <==> c in LOWER_HEX
  {
    assert forall i :: 0 <= i < 10 ==> LOWER_HEX[i] == '0' + i as char;
    assert forall i :: 10 <= i < 16 ==> LOWER_HEX[i] == 'a' + (i - 10) as char;
    if '0' <= c <= '9' {
      assert LOWER_HEX[c as int - '0' as int] == c;
    }
    if 'a' <= c <= 'f' {
      assert LOWER_HEX[c as int - 'a' as int + 10] == c;
    }
  }

  lemma GoodReplies(reply: Reply)
    ensures GoodReply(reply) <==> DocumentReply(reply)
  {
    hide IsLowerHex;
    if reply.Opened? && reply.id.Some? {
      forall i | 0 <= i < |reply.id.value| ensures IsLowerHex(reply.id.value[i]) <==> reply.id.value[i] in LOWER_HEX {
        LowerHex(reply.id.value[i]);
      }
    }
  }

  /** Everything about an open but the packets. */
  predicate Acceptable(env: OpenEnv) {
    env.connected && DocumentReply(env.reply) && env.metadata == env.reply.size && env.readOnly
  }

  /**
   An open succeeds with a descriptor exactly if the broker was reached, its reply
   arrived as one line with exactly that descriptor, the reply is good, and the
   descriptor is a regular file of the promised size, open for reading only.
   */
  lemma OpenSucceeds(st: State, env: OpenEnv, fd: nat)
    requires Inv(st) && Possible(st, OpenCall(env))
    ensures Open(st, env).1 >= 0 && Open(st, env).0.descriptor == fd <==>
            Acceptable(env) && exists n :: Delivers(env.packets, n, fd)
    ensures Open(st, env).1 >= 0 ==> Open(st, env).0.descriptor >= 0
  {
    OpenKeeps(st, env);
    GoodReplies(env.reply);
    if env.connected {
      var start := Exchange(st.ledger, [], -1);
      ReceiveAnswers(start, env.packets, RESPONSE_BYTES, Active(st));
      HeldDecides(start, env.packets, Receive(start, env.packets, RESPONSE_BYTES, true, Active(st)), fd);
      hide Balanced, Deliverable, Receive, GoodReply, DocumentReply, Delivers, Answers, CloseIfAny, HandleOf;
    }
  }

  /** The broker's own refusal is passed on once its reply arrived; a failure to reach it too; any other one is internal. */
  lemma OpenReturns(st: State, env: OpenEnv)
    requires Inv(st) && Possible(st, OpenCall(env)) && Open(st, env).1 < 0
    ensures Open(st, env).1 ==
            if !env.connected then env.failure
            else if env.reply.Refused? && env.reply.code != 0 &&
                    exists n: nat :: Completes(Exchange(st.ledger, [], -1), env.packets, n, 16384)
            then env.reply.code else -5
  {
    OpenKeeps(st, env);
    if env.connected {
      var start := Exchange(st.ledger, [], -1);
      ReceiveAnswers(start, env.packets, RESPONSE_BYTES, Active(st));
      hide Balanced, Deliverable, Receive, GoodReply, Completes, CloseIfAny, HandleOf;
    }
  }

  lemma ClosingReceivesNothing(before: Ledger, fds: seq<int>, ledger: Ledger, fd: int)
    requires Received(before, fds, ledger) && (fd >= 0 ==> fd in ledger.live)
    ensures Received(before, fds, CloseIfAny(ledger, fd))
  {
  }

  lemma FetchRecords(st: State, env: OpenEnv, k: nat)
    requires Inv(st) && env.connected && Deliverable(st.ledger.live, env.packets)
    requires ReadExactly(Exchange(st.ledger, [], -1), env.packets, k, 16384)
    ensures k <= |env.packets| && Received(st.ledger, Arrivals(env.packets[..k]), Fetch(st, env).ledger)
  {
    var start := Exchange(st.ledger, [], -1);
    ReceiveRecords(start, env.packets, RESPONSE_BYTES, Active(st), k);
    var outcome := Receive(start, env.packets, RESPONSE_BYTES, true, Active(st));
    ClosingReceivesNothing(st.ledger, Arrivals(env.packets[..k]), outcome.exchange.ledger, outcome.exchange.held);
    hide Balanced, Deliverable, Receive, GoodReply, ReadExactly, HandleOf, Arrivals, Received, CloseIfAny;
  }

  /** Whatever an open returns, the ledger has received exactly the descriptors of the packets it read. */
  lemma OpenRecords(st: State, env: OpenEnv, k: nat)
    requires Inv(st) && Possible(st, OpenCall(env)) && env.connected
    requires ReadExactly(Exchange(st.ledger, [], -1), env.packets, k, 16384)
    ensures k <= |env.packets| && Received(st.ledger, Arrivals(env.packets[..k]), Open(st, env).0.ledger)
  {
    FetchRecords(st, env, k);
    var fetched := Fetch(st, env);
    ClosingReceivesNothing(st.ledger, Arrivals(env.packets[..k]), fetched.ledger, fetched.descriptor);
    ClosingReceivesNothing(st.ledger, Arrivals(env.packets[..k]), fetched.ledger, st.descriptor);
    hide Balanced, Deliverable, Fetch, GoodReply, ReadExactly, HandleOf, Arrivals, NextHandle, Received, CloseIfAny;
  }

  // ----- reading and closing

  function Smaller(a: nat, b: nat): nat { if a < b then a else b }

  /** A read with the handle of the open document gets all the file has there, up to the caller's room and the size. */
  lemma ReadGets(st: State, handle: int, offset: nat, capacity: nat, available: nat)
    requires st.descriptor >= 0 && handle == st.handle > 0 && 1 <= capacity <= 4096
    ensures Read(st, handle, offset, capacity, Some(available)) ==
            if offset < st.size then Smaller(available, Smaller(capacity, st.size - offset)) else 0
  {
  }

  /** After a close with its handle, or a destroy, no handle reads until a document is opened again. */
  lemma ClosedRefuses(st: State, handle: int, clean: bool, any: int)
    requires Inv(st)
    ensures st.descriptor >= 0 && handle == st.handle > 0 ==>
              !Accepts(CloseDocument(st, handle, clean).0, any) &&
              (CloseDocument(st, handle, clean).1 == OK <==> clean)
    ensures !(st.descriptor >= 0 && handle == st.handle > 0) ==> CloseDocument(st, handle, clean) == (st, UNAVAILABLE)
    ensures !Accepts(Destroy(st), any)
  {
  }
}
