/** The promises of the app display, for every session of calls. */
module DisplayTheorems {
  import opened Common
  import opened DisplayInvariants
  import opened DisplayModel
  import opened FramePacing
  import opened InputQueue
  import opened Pixels

  // ----- frames -----

  /** The status rows of every committed screen are zero. */
  lemma {:induction false} StatusRowsBlank(mode: Mode, commits: seq<Commit>, j: nat)
    requires ValidMode(mode) && ChainOk(mode, commits) && j <= |commits|
    ensures |Shown(commits[..j])| == FRAME_PIXELS
    ensures forall k :: 0 <= k < mode.offset * WIDTH ==> Shown(commits[..j])[k] == 0
  {
    hide Colour, Covered;
    if j > 0 {
      StatusRowsBlank(mode, commits, j - 1);
      assert CommitOk(mode, commits, j - 1);
      assert commits[..j][..j - 1] == commits[..j - 1];
    }
  }

  /** The app declared all that changed since the frame before. */
  ghost predicate Declared(mode: Mode, commits: seq<Commit>, j: nat)
    requires ValidMode(mode) && ChainOk(mode, commits) && j < |commits|
  {
    assert CommitOk(mode, commits, j);
    j == 0 || commits[j].rects == [] ||
    (assert CommitOk(mode, commits, j - 1);
     SameOutside(mode, commits[j - 1].frame, commits[j].frame, commits[j].rects))
  }

  ghost predicate ShowsFrame(mode: Mode, commits: seq<Commit>, j: nat)
    requires ValidMode(mode) && ChainOk(mode, commits) && j < |commits|
  {
    assert CommitOk(mode, commits, j);
    commits[j].pixels == FullScreen(mode, commits[j].frame)
  }

  /** A commit on top of a screen that shows its frame does so too exactly if the change was declared. */
  lemma CommitShowsFrame(mode: Mode, commits: seq<Commit>, j: nat)
    requires ValidMode(mode) && ChainOk(mode, commits) && j < |commits|
    requires j > 0 ==> ShowsFrame(mode, commits, j - 1)
    ensures ShowsFrame(mode, commits, j) <==> Declared(mode, commits, j)
  {
    hide Converted, FullScreen, SameOutside, Effective;
    assert CommitOk(mode, commits, j);
    var commit := commits[j];
    if j == 0 || commit.rects == [] {
      StatusRowsBlank(mode, commits, j);
      FullConversion(Shown(commits[..j]), mode, commit.frame);
    } else {
      assert CommitOk(mode, commits, j - 1);
      assert Shown(commits[..j]) == commits[j - 1].pixels;
      assert Effective(mode, commit.rects) == commit.rects by {
        EffectiveRects(mode, commit.rects);
      }
      IncrementalIsFull(mode, commits[j - 1].frame, commit.frame, commit.rects);
    }
  }

  lemma EffectiveRects(mode: Mode, rects: seq<Rect>)
    requires rects != []
    ensures Effective(mode, rects) == rects
  {
  }

  lemma {:induction false} DeclaredShows(mode: Mode, commits: seq<Commit>, n: nat)
    requires ValidMode(mode) && ChainOk(mode, commits) && n <= |commits|
    ensures (forall j :: 0 <= j < n ==> Declared(mode, commits, j)) <==>
            (forall j :: 0 <= j < n ==> ShowsFrame(mode, commits, j))
  {
    hide Declared, ShowsFrame;
    if n > 0 {
      DeclaredShows(mode, commits, n - 1);
      if forall j :: 0 <= j < n - 1 ==> ShowsFrame(mode, commits, j) {
        CommitShowsFrame(mode, commits, n - 1);
      }
    }
  }

  lemma ShiftedCovered(mode: Mode, rects: seq<Rect>, k: nat)
    requires Covered(k, mode.offset, rects)
    ensures Covered(k, 0, SentDamage(mode, false, rects))
  {
    var i :| 0 <= i < |rects| && Inside(k, mode.offset, rects[i]);
    assert Inside(k, 0, SentDamage(mode, false, rects)[i]);
  }

  /** Outside the damage sent with it, a commit shows what the commit before it showed. */
  lemma OutsideDamageUnchanged(mode: Mode, commits: seq<Commit>, j: nat, k: nat)
    requires ValidMode(mode) && ChainOk(mode, commits)
    requires 0 < j < |commits| && k < FRAME_PIXELS && !Covered(k, 0, commits[j].damage)
    ensures |commits[j].pixels| == |commits[j - 1].pixels| == FRAME_PIXELS
    ensures commits[j].pixels[k] == commits[j - 1].pixels[k]
  {
    hide Colour, Covered, Inside, SentDamage;
    StatusRowsBlank(mode, commits, j);
    assert CommitOk(mode, commits, j);
    var commit := commits[j];
    if commit.rects == [] {
      WholeScreenCovered(mode, commit.rects, k);
      assert false;
    } else if Covered(k, mode.offset, commit.rects) {
      ShiftedCovered(mode, commit.rects, k);
      assert false;
    }
  }

  /** The damage sent with a commit covers the declared rectangles, moved down to the content, and no more than needed. */
  lemma DamageIsDeclared(mode: Mode, commits: seq<Commit>, j: nat, k: nat)
    requires ValidMode(mode) && ChainOk(mode, commits) && j < |commits| && k < FRAME_PIXELS
    ensures Covered(k, 0, commits[j].damage) <==>
            j == 0 || commits[j].rects == [] || Covered(k, mode.offset, commits[j].rects)
  {
    hide Covered, SentDamage;
    assert CommitOk(mode, commits, j);
    if j == 0 || commits[j].rects == [] {
      WholeScreenCovered(mode, commits[j].rects, k);
    } else {
      ShiftedDamage(mode, commits[j].rects, k);
    }
  }

  lemma ShiftedDamage(mode: Mode, rects: seq<Rect>, k: nat)
    ensures Covered(k, 0, SentDamage(mode, false, rects)) <==> Covered(k, mode.offset, rects)
  {
    var sent := SentDamage(mode, false, rects);
    if Covered(k, mode.offset, rects) {
      ShiftedCovered(mode, rects, k);
    }
    if Covered(k, 0, sent) {
      var i :| 0 <= i < |sent| && Inside(k, 0, sent[i]);
      assert Inside(k, mode.offset, rects[i]);
    }
  }

  lemma WholeScreenCovered(mode: Mode, rects: seq<Rect>, k: nat)
    requires k < FRAME_PIXELS
    ensures Covered(k, 0, SentDamage(mode, true, rects))
  {
    assert Inside(k, 0, SentDamage(mode, true, rects)[0]);
  }

  /** The commits of a session. */
  ghost function SessionCommits(mode: Mode, arrived: seq<Event>, calls: seq<Call>): (commits: seq<Commit>)
    requires ValidMode(mode)
    ensures ChainOk(mode, commits) && Paced(Times(commits))
  {
    Commits(Run(mode, arrived, calls).frames)
  }

  /** In every session all committed screens show their frames in full exactly if the app declared its changes. */
  lemma SessionShows(mode: Mode, arrived: seq<Event>, calls: seq<Call>)
    requires ValidMode(mode)
    ensures var commits := SessionCommits(mode, arrived, calls);
            (forall j :: 0 <= j < |commits| ==> Declared(mode, commits, j)) <==>
            (forall j :: 0 <= j < |commits| ==> ShowsFrame(mode, commits, j))
  {
    hide SessionCommits, Declared, ShowsFrame;
    DeclaredShows(mode, SessionCommits(mode, arrived, calls), |SessionCommits(mode, arrived, calls)|);
  }

  /** Declared or not, status rows stay zero and the sent damage covers every change on the screen. */
  lemma SessionDamage(mode: Mode, arrived: seq<Event>, calls: seq<Call>, j: nat)
    requires ValidMode(mode) && j < |SessionCommits(mode, arrived, calls)|
    ensures var commits := SessionCommits(mode, arrived, calls);
            && BlankRows(mode, commits[j].pixels)
            && (j > 0 ==> UnchangedOutside(commits[j - 1].pixels, commits[j].pixels, commits[j].damage))
  {
    hide SessionCommits, CommitOk, Covered;
    var commits := SessionCommits(mode, arrived, calls);
    StatusRowsBlank(mode, commits, j + 1);
    if j > 0 {
      StatusRowsBlank(mode, commits, j);
      forall k: nat | k < FRAME_PIXELS && !Covered(k, 0, commits[j].damage)
        ensures commits[j].pixels[k] == commits[j - 1].pixels[k]
      {
        OutsideDamageUnchanged(mode, commits, j, k);
      }
    }
  }

  /** Commit times increase, and thirty-one commits never fit into a closed second. */
  lemma SessionRate(mode: Mode, arrived: seq<Event>, calls: seq<Call>, i: nat, j: nat)
    requires ValidMode(mode) && i < j < |SessionCommits(mode, arrived, calls)|
    ensures var commits := SessionCommits(mode, arrived, calls);
            && commits[i].time < commits[j].time
            && (commits[j].time <= commits[i].time + SECOND ==> j - i + 1 <= MAX_FRAME_RATE)
  {
    hide SessionCommits;
    PacedRate(Times(SessionCommits(mode, arrived, calls)), i, j);
  }

  ghost predicate BlankRows(mode: Mode, pixels: seq<bv32>) {
    |pixels| == FRAME_PIXELS && forall k :: 0 <= k < mode.offset * WIDTH && k < FRAME_PIXELS ==> pixels[k] == 0
  }

  ghost predicate UnchangedOutside(before: seq<bv32>, after: seq<bv32>, damage: seq<Rect>) {
    |before| == |after| == FRAME_PIXELS &&
    forall k: nat :: k < FRAME_PIXELS && !Covered(k, 0, damage) ==> after[k] == before[k]
  }

  /** A successful present in a session puts its frame, as committed last, into a buffer the compositor now holds. */
  lemma PresentShows(mode: Mode, arrived: seq<Event>, calls: seq<Call>, frame: seq<bv8>, damage: seq<Octet>, env: PresentEnv)
    requires ValidMode(mode)
    ensures var before := Run(mode, arrived, calls);
            var after := Present(before, frame, damage, env).0;
            var commits := Commits(after.frames);
            Present(before, frame, damage, env).1 == OK ==>
              && Run(mode, arrived, calls + [PresentCall(frame, damage, env)]) == after
              && |commits| == |Commits(before.frames)| + 1
              && var last := commits[|commits| - 1];
              && last.frame == frame
              && DecodeDamage(damage, mode.height) == Some(last.rects)
              && last.index < |after.buffers|
              && after.buffers[last.index] == Buffer(last.pixels, true)
  {
    hide Converted, Effective, SentDamage, Inv, Available;
    var before := Run(mode, arrived, calls);
    var longer := calls + [PresentCall(frame, damage, env)];
    assert longer[..|longer| - 1] == calls;
    if Present(before, frame, damage, env).1 == OK {
      var next := Dispatch(before, env.pending);
      var after := Present(before, frame, damage, env).0;
      DispatchCommitsNothing(before, env.pending);
      assert after.frames[..|after.frames| - 1] == next.frames;
    }
  }

  function Flat(value: bv8): (frame: seq<bv8>)
    ensures IsFrame(IMMERSIVE, frame)
  {
    seq(WIDTH * HEIGHT * 2, _ => value)
  }

  function ShowCall(frame: seq<bv8>, damage: seq<Octet>, now: nat): Call {
    PresentCall(frame, damage, PresentEnv([], true, Some(now), true))
  }

  /** The bytes of a rectangle of one pixel. */
  const CORNER: seq<Octet> := [0, 0, 0, 0, 1, 0, 1, 0]

  lemma CornerDecodes()
    ensures DecodeDamage(CORNER, HEIGHT) == Some([Rect(0, 0, 1, 1)]) && DecodeDamage([], HEIGHT) == Some([])
  {
    assert RectsOf(CORNER) == [Rect(0, 0, 1, 1)] && RectsOf([]) == [];
    assert Fits(Rect(0, 0, 1, 1), HEIGHT);
  }

  /** A present in a working session with a free buffer, after enough time, commits its frame. */
  lemma ShowCommits(calls: seq<Call>, frame: seq<bv8>, damage: seq<Octet>, now: nat)
    requires IsFrame(IMMERSIVE, frame) && DecodeDamage(damage, HEIGHT).Some?
    requires var st := Run(IMMERSIVE, [], calls);
             !st.failed && Ready(st.pacer, now) && Available(st.buffers).Some?
    ensures var before, after := Run(IMMERSIVE, [], calls), Run(IMMERSIVE, [], calls + [ShowCall(frame, damage, now)]);
            var index, rects := Available(before.buffers).value, DecodeDamage(damage, HEIGHT).value;
            && after == Show(before, frame, rects, index, now)
            && Commits(after.frames) == Commits(before.frames) + [after.frames[|before.frames|].commit]
            && after.frames[|before.frames|].commit.frame == frame && after.frames[|before.frames|].commit.rects == rects
  {
    hide Commits, Converted, Effective, SentDamage, IsFrame, DecodeDamage, Available, Ready, Inv;
    var longer := calls + [ShowCall(frame, damage, now)];
    assert longer[..|longer| - 1] == calls;
    var before, after := Run(IMMERSIVE, [], calls), Run(IMMERSIVE, [], longer);
    assert Dispatch(before, []) == before;
    EntryAppended(before.frames, after.frames[|before.frames|], 0);
  }

  /** A session in which a change outside the declared damage leaves a stale screen. */
  lemma StaleScreen() returns (calls: seq<Call>)
    ensures var commits := SessionCommits(IMMERSIVE, [], calls);
            |commits| == 2 && ShowsFrame(IMMERSIVE, commits, 0) && !ShowsFrame(IMMERSIVE, commits, 1)
  {
    var dark, bright := Flat(0), Flat(255);
    var first := [ShowCall(dark, [], 0)];
    calls := first + [ShowCall(bright, CORNER, MIN_FRAME_INTERVAL)];
    CornerDecodes();
    hide DecodeDamage, Converted, Effective, SentDamage;
    var start := Run(IMMERSIVE, [], []);
    assert start == Initial(IMMERSIVE);
    assert [] + [ShowCall(dark, [], 0)] == first;
    ShowCommits([], dark, [], 0);
    var shown := Run(IMMERSIVE, [], first);
    assert !shown.buffers[1].busy;
    ShowCommits(first, bright, CORNER, MIN_FRAME_INTERVAL);
    var commits := SessionCommits(IMMERSIVE, [], calls);
    assert commits[0].frame == dark && commits[1].frame == bright && commits[1].rects == [Rect(0, 0, 1, 1)];
    CommitShowsFrame(IMMERSIVE, commits, 0);
    CommitShowsFrame(IMMERSIVE, commits, 1);
    assert !Covered(1, 0, [Rect(0, 0, 1, 1)]) && InContent(IMMERSIVE, 1) && !SameAt(IMMERSIVE, dark, bright, 1);
  }

  lemma {:induction false} DispatchCommitsNothing(st: State, events: seq<Event>)
    ensures Commits(Dispatch(st, events).frames) == Commits(st.frames)
    ensures Dispatch(st, events).firstFrame == st.firstFrame && Dispatch(st, events).pacer == st.pacer
    decreases |events|
  {
    hide Handle, Commits;
    if events != [] {
      HandleCommitsNothing(st, events[0]);
      DispatchCommitsNothing(Handle(st, events[0]), events[1..]);
    }
  }

  lemma HandleCommitsNothing(st: State, event: Event)
    ensures Commits(Handle(st, event).frames) == Commits(st.frames)
    ensures Handle(st, event).firstFrame == st.firstFrame && Handle(st, event).pacer == st.pacer
  {
    hide Pushed, Stored;
    if event.Release? && event.index < |st.buffers| {
      var frames := st.frames + [Released(event.index)];
      assert frames[..|frames| - 1] == st.frames;
    }
  }

  /** In every session a busy buffer holds exactly what it was committed with. */
  lemma BusyHoldsCommit(mode: Mode, arrived: seq<Event>, calls: seq<Call>, index: nat)
    requires ValidMode(mode) && index < BUFFER_COUNT
    ensures var st := Run(mode, arrived, calls);
            |st.buffers| == BUFFER_COUNT &&
            (st.buffers[index].busy <==> Held(st.frames, index).Some?) &&
            (st.buffers[index].busy ==> st.buffers[index].pixels == Held(st.frames, index).value)
  {
    var st := Run(mode, arrived, calls);
    assert HoldOk(st.buffers[index], Held(st.frames, index));
  }

  lemma {:induction false} DispatchOnlyReleases(st: State, events: seq<Event>, index: nat)
    requires index < |st.buffers|
    ensures |Dispatch(st, events).buffers| == |st.buffers|
    ensures Dispatch(st, events).buffers[index].pixels == st.buffers[index].pixels
    ensures Dispatch(st, events).buffers[index].busy <==> st.buffers[index].busy && Release(index) !in events
    decreases |events|
  {
    hide Handle;
    if events != [] {
      HandleOnlyReleases(st, events[0], index);
      DispatchOnlyReleases(Handle(st, events[0]), events[1..], index);
      assert events == [events[0]] + events[1..];
    }
  }

  lemma HandleOnlyReleases(st: State, event: Event, index: nat)
    requires index < |st.buffers|
    ensures |Handle(st, event).buffers| == |st.buffers|
    ensures Handle(st, event).buffers[index].pixels == st.buffers[index].pixels
    ensures Handle(st, event).buffers[index].busy <==> st.buffers[index].busy && event != Release(index)
  {
    hide Pushed, Stored;
    if event.Release? && event.index < |st.buffers| {
      var buffers := st.buffers[event.index := st.buffers[event.index].(busy := false)];
      assert Handle(st, event).buffers == buffers;
    } else {
      assert Handle(st, event).buffers == st.buffers;
    }
  }

  /** No call writes a buffer that is busy and not released while the call dispatches. */
  lemma BusyNeverWritten(st: State, frame: seq<bv8>, damage: seq<Octet>, env: PresentEnv, index: nat)
    requires ValidMode(st.mode) && index < |st.buffers| && st.buffers[index].busy && Release(index) !in env.pending
    ensures |Present(st, frame, damage, env).0.buffers| == |st.buffers|
    ensures Present(st, frame, damage, env).0.buffers[index] == st.buffers[index]
  {
    hide Converted, Effective, SentDamage, Dispatch;
    DispatchOnlyReleases(st, env.pending, index);
  }

  /** The compositor does not hold the buffer, or gives it back while the call dispatches. */
  predicate Free(frames: seq<FrameEntry>, pending: seq<Event>, index: nat) {
    Held(frames, index).None? || Release(index) in pending
  }

  /** This would be the first commit, or 33,333,334 ns have passed since the last. */
  predicate InTime(commits: seq<Commit>, now: nat) {
    commits == [] || now >= commits[|commits| - 1].time + 33_333_334
  }

  lemma ReadyInTime(st: State, now: nat)
    requires Inv(st)
    ensures Ready(st.pacer, now) <==> InTime(Commits(st.frames), now)
  {
    hide Commits, ChainOk, Held, KeysInv;
  }

  lemma FreeDecides(st: State, pending: seq<Event>)
    requires Inv(st)
    ensures Available(Dispatch(st, pending).buffers).Some? <==>
            Free(st.frames, pending, 0) || Free(st.frames, pending, 1)
  {
    assert HoldOk(st.buffers[0], Held(st.frames, 0)) && HoldOk(st.buffers[1], Held(st.frames, 1));
    hide Held, Dispatch, Available, Commits, ChainOk, KeysInv;
    DispatchOnlyReleases(st, pending, 0);
    DispatchOnlyReleases(st, pending, 1);
    var buffers := Dispatch(st, pending).buffers;
    assert Available(buffers).Some? <==> !buffers[0].busy || !buffers[1].busy;
  }

  /**
   What a present returns at any point of a session. It succeeds exactly if the
   display works, frame and damage are well formed, the system calls succeed, a
   buffer is free and it comes in time; it refuses bad arguments; it is busy
   without a buffer or ahead of time; and in all other cases it is unavailable.
   */
  lemma PresentReturns(mode: Mode, arrived: seq<Event>, calls: seq<Call>, frame: seq<bv8>, damage: seq<Octet>,
                       env: PresentEnv)
    requires ValidMode(mode)
    ensures var st, commits := Run(mode, arrived, calls), SessionCommits(mode, arrived, calls);
            var free := Free(st.frames, env.pending, 0) || Free(st.frames, env.pending, 1);
            var good := IsFrame(mode, frame) && DecodeDamage(damage, mode.height).Some?;
            Present(st, frame, damage, env).1 ==
            if st.failed then -2 else if !good then -3 else if !env.dispatched then -2 else if !free then -4
            else if env.clock.None? then -2 else if !InTime(commits, env.clock.value) then -4
            else if env.flushed then 0 else -2
  {
    var st := Run(mode, arrived, calls);
    FreeDecides(st, env.pending);
    DispatchCommitsNothing(st, env.pending);
    if env.clock.Some? {
      ReadyInTime(st, env.clock.value);
    }
    hide DecodeDamage, Show, Run, IsFrame, Commits, Dispatch, Available, Ready, InTime, Free, Inv;
  }

  // ----- damage bytes -----

  function EncodeU16(n: nat): seq<Octet>
    requires n < 65536
  {
    [n % 256, n / 256]
  }

  predicate Encodable(rect: Rect) { rect.x < 65536 && rect.y < 65536 && rect.width < 65536 && rect.height < 65536 }

  function EncodeRect(rect: Rect): (r: seq<Octet>)
    requires Encodable(rect)
    ensures |r| == 8
  {
    EncodeU16(rect.x) + EncodeU16(rect.y) + EncodeU16(rect.width) + EncodeU16(rect.height)
  }

  predicate AllEncodable(rects: seq<Rect>) { forall i :: 0 <= i < |rects| ==> Encodable(rects[i]) }

  function EncodeRects(rects: seq<Rect>): seq<Octet>
    requires AllEncodable(rects)
  {
    seq(8 * |rects|, k requires 0 <= k < 8 * |rects| => assert Encodable(rects[k / 8]); EncodeRect(rects[k / 8])[k % 8])
  }

  lemma EncodedU16(n: nat, low: Octet, high: Octet)
    ensures n < 65536 && [low, high] == EncodeU16(n) <==> n == ReadU16(low, high)
  {
    if n < 65536 && [low, high] == EncodeU16(n) {
      assert [low, high][0] == n % 256 && [low, high][1] == n / 256;
    }
  }

  lemma EncodedRect(rect: Rect, bytes: seq<Octet>, at: nat)
    requires at + 8 <= |bytes|
    ensures Encodable(rect) && bytes[at..at + 8] == EncodeRect(rect) <==> rect == RectAt(bytes, at)
  {
    var first := bytes[at..at + 8];
    FourFields(rect, first);
    hide ReadU16, EncodeU16;
    EncodedU16(rect.x, first[0], first[1]);
    EncodedU16(rect.y, first[2], first[3]);
    EncodedU16(rect.width, first[4], first[5]);
    EncodedU16(rect.height, first[6], first[7]);
  }

  lemma FourFields(rect: Rect, first: seq<Octet>)
    requires |first| == 8
    ensures Encodable(rect) ==>
              (first == EncodeRect(rect) <==>
               [first[0], first[1]] == EncodeU16(rect.x) && [first[2], first[3]] == EncodeU16(rect.y) &&
               [first[4], first[5]] == EncodeU16(rect.width) && [first[6], first[7]] == EncodeU16(rect.height))
  {
    if Encodable(rect) {
      var x, y, w, h := EncodeU16(rect.x), EncodeU16(rect.y), EncodeU16(rect.width), EncodeU16(rect.height);
      assert EncodeRect(rect) == [x[0], x[1], y[0], y[1], w[0], w[1], h[0], h[1]];
    }
  }

  lemma EncodedPiece(rects: seq<Rect>, i: nat)
    requires AllEncodable(rects) && i < |rects|
    ensures EncodeRects(rects)[8 * i..8 * i + 8] == EncodeRect(rects[i])
  {
    hide EncodeRect;
    var piece := EncodeRects(rects)[8 * i..8 * i + 8];
    assert Encodable(rects[i]);
    forall j | 0 <= j < 8
      ensures piece[j] == EncodeRect(rects[i])[j]
    {
      assert (8 * i + j) / 8 == i && (8 * i + j) % 8 == j;
    }
  }

  lemma RectsOfEncoded(rects: seq<Rect>)
    requires AllEncodable(rects)
    ensures RectsOf(EncodeRects(rects)) == rects
  {
    hide EncodeRects, EncodeRect, RectAt;
    var bytes := EncodeRects(rects);
    EncodedLength(rects);
    forall i | 0 <= i < |rects|
      ensures RectsOf(bytes)[i] == rects[i]
    {
      EncodedPiece(rects, i);
      EncodedRect(rects[i], bytes, 8 * i);
    }
  }

  lemma EncodedLength(rects: seq<Rect>)
    requires AllEncodable(rects)
    ensures |EncodeRects(rects)| == 8 * |rects|
  {
  }

  lemma EncodedRectsOf(bytes: seq<Octet>)
    requires |bytes| % 8 == 0
    ensures AllEncodable(RectsOf(bytes)) && EncodeRects(RectsOf(bytes)) == bytes
  {
    hide EncodeRect, RectAt, Encodable;
    var rects := RectsOf(bytes);
    forall i | 0 <= i < |rects|
      ensures Encodable(rects[i]) && EncodeRect(rects[i]) == bytes[8 * i..8 * i + 8]
    {
      EncodedRect(rects[i], bytes, 8 * i);
    }
    forall k | 0 <= k < |bytes|
      ensures EncodeRects(rects)[k] == bytes[k]
    {
      assert k == 8 * (k / 8) + k % 8;
      assert EncodeRect(rects[k / 8]) == bytes[8 * (k / 8)..8 * (k / 8) + 8];
    }
  }

  /** The byte form of damage stands for at most one list of rectangles, and every valid list has one. */
  lemma DamageRoundTrip(bytes: seq<Octet>, rects: seq<Rect>, height: nat)
    ensures DecodeDamage(bytes, height) == Some(rects) <==>
            ValidDamage(rects, height) && AllEncodable(rects) && bytes == EncodeRects(rects)
  {
    hide RectsOf, EncodeRects;
    if DecodeDamage(bytes, height) == Some(rects) {
      EncodedRectsOf(bytes);
    }
    if AllEncodable(rects) && bytes == EncodeRects(rects) {
      EncodedLength(rects);
      RectsOfEncoded(rects);
    }
  }

  // ----- keys -----

  lemma {:induction false} FifoPrefix(keys: seq<KeyEntry>, n: nat)
    requires KeysOk(keys) && n <= |keys|
    ensures DeliveredSince(keys[..n]) <= AcceptedSince(keys[..n])
    ensures |AcceptedSince(keys[..n])| - |DeliveredSince(keys[..n])| <= CAPACITY
  {
    if n > 0 {
      FifoPrefix(keys, n - 1);
      assert keys[..n][..n - 1] == keys[..n - 1];
      assert EntryOk(keys[..n - 1], keys[n - 1]);
    }
  }

  lemma {:induction false} StillOwed(keys: seq<KeyEntry>, i: nat, m: nat)
    requires i < m <= |keys| && keys[i].Dropped?
    requires forall l :: i < l < m ==> !keys[l].Reported? && !keys[l].Cleared?
    ensures OwesReport(keys[..m])
    decreases m
  {
    assert keys[..m][..m - 1] == keys[..m - 1];
    if i + 1 < m {
      StillOwed(keys, i, m - 1);
    }
  }

  /**
   In every session, at every moment: the events handed out since the last reset
   are the accepted ones, in order and without gaps, and at most 32 wait. A key
   is dropped only when 32 wait, and between a dropped key and the next event
   handed out there is a report or a reset.
   */
  lemma SessionKeys(mode: Mode, arrived: seq<Event>, calls: seq<Call>)
    requires ValidMode(mode)
    ensures var keys := Run(mode, arrived, calls).keys;
            && (forall n :: 0 <= n <= |keys| ==> InOrder(keys[..n]))
            && (forall n :: 0 <= n < |keys| && keys[n].Dropped? ==> Waiting(keys[..n]) == CAPACITY)
            && (forall i, j :: 0 <= i < j < |keys| && keys[i].Dropped? && keys[j].Delivered? ==>
                 exists m :: i < m < j && (keys[m].Reported? || keys[m].Cleared?))
  {
    var keys := Run(mode, arrived, calls).keys;
    assert KeysOk(keys);
    hide Run;
    forall n | 0 <= n <= |keys|
      ensures InOrder(keys[..n])
    {
      FifoPrefix(keys, n);
    }
    forall n | 0 <= n < |keys| && keys[n].Dropped?
      ensures Waiting(keys[..n]) == CAPACITY
    {
      assert EntryOk(keys[..n], keys[n]);
    }
    forall i, j | 0 <= i < j < |keys| && keys[i].Dropped? && keys[j].Delivered?
      ensures exists m :: i < m < j && (keys[m].Reported? || keys[m].Cleared?)
    {
      assert EntryOk(keys[..j], keys[j]);
      if forall m :: i < m < j ==> !keys[m].Reported? && !keys[m].Cleared? {
        StillOwed(keys, i, j);
        assert false;
      }
    }
  }

  function Waiting(keys: seq<KeyEntry>): int { |AcceptedSince(keys)| - |DeliveredSince(keys)| }

  predicate InOrder(keys: seq<KeyEntry>) {
    DeliveredSince(keys) <= AcceptedSince(keys) && Waiting(keys) <= CAPACITY
  }

  predicate FromCompositor(entry: KeyEntry) { entry.Accepted? || entry.Dropped? || entry.Cleared? }

  lemma {:induction false} DispatchHandsOutNothing(st: State, events: seq<Event>)
    ensures st.keys <= Dispatch(st, events).keys
    ensures forall n :: |st.keys| <= n < |Dispatch(st, events).keys| ==> FromCompositor(Dispatch(st, events).keys[n])
    decreases |events|
  {
    hide Handle, FromCompositor;
    if events != [] {
      HandleHandsOutNothing(st, events[0]);
      DispatchHandsOutNothing(Handle(st, events[0]), events[1..]);
    }
  }

  lemma HandleHandsOutNothing(st: State, event: Event)
    ensures st.keys <= Handle(st, event).keys
    ensures forall n :: |st.keys| <= n < |Handle(st, event).keys| ==> FromCompositor(Handle(st, event).keys[n])
  {
    hide Pushed, Stored;
  }

  /** The log says what the polls returned: 1 with an event is a delivery, -4 a report, and nothing else is either. */
  lemma PollLogs(st: State, room: nat, timeout: int, env: WaitEnv)
    ensures var (next, result) := Poll(st, room, timeout, env);
            && st.keys <= next.keys
            && (result.code == 1 <==> result.event.Some?)
            && var own := if result.code == 1 then [Delivered(result.event.value)]
                          else if result.code == BUSY then [Reported] else [];
            && |st.keys| + |own| <= |next.keys|
            && next.keys[|next.keys| - |own|..] == own
            && forall n :: |st.keys| <= n < |next.keys| - |own| ==> FromCompositor(next.keys[n])
  {
    DispatchHandsOutNothing(st, env.events);
    hide Dispatch, FromCompositor;
    if room == KEY_EVENT_BYTES && 0 <= timeout <= 1000 && !st.failed {
      if Take(st).1.code == OK {
        TakeLogs(Dispatch(st, env.events));
      } else {
        TakeLogs(st);
      }
    }
  }

  lemma TakeLogs(st: State)
    ensures var (next, result) := Take(st);
            && (result.code == 1 <==> result.event.Some?)
            && next.keys == st.keys + if result.code == 1 then [Delivered(result.event.value)]
                                      else if result.code == BUSY then [Reported] else []
  {
  }

  /**
   A key event under focus is recorded as it came, with its character only for a
   press of a printable key; it is dropped exactly if 32 events wait. Without
   focus, or with a code of more than 16 bits, nothing is recorded.
   */
  lemma KeyRecorded(st: State, code: nat, pressed: bool, modifiers: Octet, character: Octet)
    requires KeysInv(st.queue, st.keys)
    ensures var next := Handle(st, Key(code, pressed, modifiers, character));
            if !st.focused || code > 0xffff then next == st
            else && |next.keys| == |st.keys| + 1 && st.keys <= next.keys
                 && var entry := next.keys[|st.keys|];
                 && (entry.Accepted? <==> Waiting(st.keys) < 32) && (entry.Dropped? <==> Waiting(st.keys) == 32)
                 && (entry.Accepted? ==>
                       && entry.event.code == code && entry.event.pressed == pressed && !entry.event.repeated
                       && entry.event.modifiers == modifiers
                       && entry.event.character == if pressed && 32 <= character <= 126 then character else 0)
  {
  }

  /** Focus comes with entering the app's surface and goes with leaving it or losing the keyboard, each time with a reset. */
  lemma FocusHandled(st: State, event: Event)
    ensures var next := Handle(st, event);
            var resets := event == Enter(true) || event == Leave || (event == Capabilities(false) && st.keyboard);
            && next.focused == (if event == Enter(true) then true else if resets then false else st.focused)
            && (resets ==> next.keys == st.keys + [Cleared] && next.queue.events == [] && !next.queue.overflowed)
            && (!resets && !event.Key? ==> next.keys == st.keys && next.queue == st.queue)
            && next.keyboard == (if event.Capabilities? then event.keyboard else st.keyboard)
  {
    hide Pushed, Stored;
  }

  /** The compositor closes the display, or gives it another size than 320 by 170. */
  predicate Breaks(event: Event) {
    event.Close? || (event.Configure? && !(event.width in {0, 320} && event.height in {0, 170}))
  }

  lemma FailureHandled(st: State, event: Event)
    ensures Handle(st, event).failed <==> st.failed || Breaks(event)
  {
    hide Pushed, Stored;
  }

  lemma {:induction false} DispatchFails(st: State, events: seq<Event>)
    ensures Dispatch(st, events).failed <==> st.failed || exists i :: 0 <= i < |events| && Breaks(events[i])
    decreases |events|
  {
    hide Handle, Breaks;
    if events != [] {
      FailureHandled(st, events[0]);
      DispatchFails(Handle(st, events[0]), events[1..]);
      var rest := events[1..];
      if exists i :: 0 <= i < |rest| && Breaks(rest[i]) {
        var i :| 0 <= i < |rest| && Breaks(rest[i]);
        assert Breaks(events[i + 1]);
      }
      if exists i :: 0 <= i < |events| && Breaks(events[i]) {
        var i :| 0 <= i < |events| && Breaks(events[i]);
        assert i > 0 ==> Breaks(rest[i - 1]);
      }
    }
  }

  /** A wait succeeds exactly on a working display, up to a second, if the calls do and no event breaks the display. */
  lemma WaitReturns(st: State, timeout: int, env: WaitEnv)
    ensures var (next, ok) := Wait(st, timeout, env);
            && (ok <==> !st.failed && 0 <= timeout <= 1000 && env.working &&
                        forall i :: 0 <= i < |env.events| ==> !Breaks(env.events[i]))
            && (st.failed || timeout < 0 || timeout > 1000 ==> next == st)
  {
    hide Breaks, Dispatch;
    DispatchFails(st, env.events);
  }

  /**
   A present leaves the display failed exactly if it was, if an event it
   dispatched broke it, or if its frame stayed unflushed.
   */
  lemma PresentFails(st: State, frame: seq<bv8>, damage: seq<Octet>, env: PresentEnv)
    requires Inv(st)
    ensures var next := Present(st, frame, damage, env).0;
            var good := IsFrame(st.mode, frame) && DecodeDamage(damage, st.mode.height).Some?;
            next.failed <==>
            st.failed || (good && exists i :: 0 <= i < |env.pending| && Breaks(env.pending[i])) ||
            (Commits(next.frames) != Commits(st.frames) && !env.flushed)
  {
    DispatchCommitsNothing(st, env.pending);
    DispatchFails(st, env.pending);
    hide DecodeDamage, IsFrame, Dispatch, Available, Ready, Inv, Converted, Effective, SentDamage, Breaks;
  }

  /** What one look at the queue gives: the report if one is owed, else the oldest waiting event, else nothing. */
  predicate Gives(keys: seq<KeyEntry>, result: PollResult) {
    var next := |DeliveredSince(keys)|;
    if OwesReport(keys) then result == PollResult(-4, None)
    else if Waiting(keys) > 0 then next < |AcceptedSince(keys)| && result == PollResult(1, Some(AcceptedSince(keys)[next]))
    else result == PollResult(0, None)
  }

  lemma TakeGives(st: State)
    requires KeysInv(st.queue, st.keys)
    ensures Gives(st.keys, Take(st).1)
  {
    hide KeysOk;
  }

  /**
   What a poll returns at any point of a session: -3 for bad arguments, -2 for a
   failed display; else what the queue gives, and if that is nothing, what it gives
   after the wait, or -2 if the wait fails.
   */
  lemma PollReturns(mode: Mode, arrived: seq<Event>, calls: seq<Call>, room: nat, timeout: int, env: WaitEnv)
    requires ValidMode(mode)
    ensures var st := Run(mode, arrived, calls);
            var result, woken := Poll(st, room, timeout, env).1, Dispatch(st, env.events);
            if room != 8 || timeout < 0 || timeout > 1000 then result == PollResult(-3, None)
            else if st.failed then result == PollResult(-2, None)
            else if OwesReport(st.keys) || Waiting(st.keys) > 0 then Gives(st.keys, result)
            else if !env.working || woken.failed then result == PollResult(-2, None)
            else Gives(woken.keys, result)
  {
    var st := Run(mode, arrived, calls);
    DispatchKeeps(st, env.events);
    TakeGives(st);
    TakeGives(Dispatch(st, env.events));
    hide Run, Dispatch, KeysInv, FramesInv, AcceptedSince, DeliveredSince, OwesReport;
  }
}
