/** What every run of the compositor policy keeps. */
module PolicyInvariants {
  import opened Common
  import opened AppTokens
  import opened Identifiers
  import opened PolicyModel

  // ----- the event stream of a session

  function After(live: set<nat>, event: Event): set<nat> {
    match event
    case Added(token, _) => live + {token}
    case Removed(token) => live - {token}
    case _ => live
  }

  /** The tokens a reader of the stream takes for alive. */
  function Live(sent: seq<Event>): set<nat> {
    if sent == [] then {} else After(Live(sent[..|sent| - 1]), sent[|sent| - 1])
  }

  /** An event that makes sense after the events before it. */
  predicate Sensible(before: set<nat>, event: Event) {
    match event
    case Added(token, _) => token != 0 && token !in before
    case Removed(token) => token in before
    case Identity(token, _) => token in before
    case DisplayMode(token, _) => token in before
    case ActivationFailed(_) => true
    case Action(_) => true
  }

  /** Tokens are added only while dead, removed and described only while alive. */
  predicate StreamOk(sent: seq<Event>) {
    sent == [] || (StreamOk(sent[..|sent| - 1]) && Sensible(Live(sent[..|sent| - 1]), sent[|sent| - 1]))
  }

  lemma SendOne(sent: seq<Event>, event: Event)
    ensures StreamOk(sent + [event]) <==> StreamOk(sent) && Sensible(Live(sent), event)
    ensures Live(sent + [event]) == After(Live(sent), event)
  {
    assert (sent + [event])[..|sent + [event]| - 1] == sent;
  }

  // ----- tokens

  ghost predicate HoldsAnnounced(watches: seq<Watch>, token: nat) {
    exists i :: 0 <= i < |watches| && watches[i].announced && watches[i].token == token
  }

  predicate TokensDistinct(watches: seq<Watch>) {
    forall i, j :: 0 <= i < j < |watches| && watches[i].token != 0 ==> watches[i].token != watches[j].token
  }

  predicate TokensInRange(s: State) {
    forall i :: 0 <= i < |s.watches| ==>
      s.watches[i].token <= TOKENS && (s.watches[i].announced ==> s.watches[i].token != 0 && ShellListens(s))
  }

  ghost predicate StreamMatches(watches: seq<Watch>, sent: seq<Event>) {
    forall token :: token in Live(sent) <==> HoldsAnnounced(watches, token)
  }

  /**
   Tokens are distinct; only a bound shell of version 2 or more has been told of
   any; and within its session the stream's live tokens are those of the
   announced watches.
   */
  ghost predicate TokenInv(s: State) {
    && TokensDistinct(s.watches) && TokensInRange(s)
    && StreamOk(s.sent) && (s.shell.Some? ==> StreamMatches(s.watches, s.sent))
  }

  // ----- structure

  predicate RefAlive(s: State, id: Option<Id>) { id.Some? ==> id.value in s.world }

  ghost predicate Structure(s: State) {
    && Watched(s) && s.layers.Keys == s.world.Keys && |s.watches| < TOKENS && s.counter <= TOKENS
    && s.mode <= NOTIFICATION
    && RefAlive(s, s.trusted) && RefAlive(s, s.splash) && RefAlive(s, s.active)
  }

  // ----- layers

  /** Either a pass is queued, or every view is in its layer. */
  predicate Placed(s: State) {
    s.pending || forall id :: id in s.layers && Placeable(s, id) ==> s.layers[id] == Prescribed(s, id)
  }

  ghost predicate Inv(s: State) { Structure(s) && TokenInv(s) && Placed(s) }

  // ----- what announcing and withdrawing leave alone

  predicate SameViews(s: State, r: State) {
    && r.world == s.world && r.layers == s.layers
    && r.trusted == s.trusted && r.splash == s.splash && r.active == s.active && r.mode == s.mode
    && Surfaces(r.watches) == Surfaces(s.watches)
  }

  predicate SameLayout(s: State, r: State) {
    SameViews(s, r) && r.splashUid == s.splashUid && r.shell == s.shell && r.pending == s.pending
  }

  lemma ViewsKeep(s: State, r: State)
    requires SameViews(s, r)
    ensures Placed(s) && s.pending == r.pending ==> Placed(r)
    ensures Structure(s) && r.counter <= TOKENS ==> Structure(r)
  {
    assert forall id :: Placeable(s, id) == Placeable(r, id) && Prescribed(s, id) == Prescribed(r, id);
    if Structure(s) {
      forall i, j | 0 <= i < j < |r.watches| ensures r.watches[i].surface != r.watches[j].surface {
        assert r.watches[i].surface == Surfaces(r.watches)[i] == Surfaces(s.watches)[i] == s.watches[i].surface;
        assert r.watches[j].surface == Surfaces(r.watches)[j] == Surfaces(s.watches)[j] == s.watches[j].surface;
      }
    }
  }

  lemma QueuedIsPlaced(s: State)
    requires s.pending
    ensures Placed(s)
  {
  }

  /** The token invariant reads the watches, the shell and the stream. */
  lemma SameTokens(s: State, r: State)
    requires TokenInv(s) && r.watches == s.watches && r.shell == s.shell && r.sent == s.sent
    ensures TokenInv(r)
  {
    assert TokensInRange(r);
  }

  lemma AnnounceLayout(s: State, i: nat)
    requires i < |s.watches| && s.counter <= TOKENS
    ensures SameLayout(s, Announce(s, i))
  {
    assert Surfaces(Announce(s, i).watches) == Surfaces(s.watches);
  }

  lemma WithdrawLayout(s: State, i: nat)
    requires i < |s.watches|
    ensures SameLayout(s, Withdraw(s, i)) && Withdraw(s, i).counter == s.counter
  {
    assert Surfaces(Withdraw(s, i).watches) == Surfaces(s.watches);
  }

  // ----- announcing

  lemma UnusedToken(s: State, token: nat)
    requires token !in ToSet(Tokens(s.watches))
    ensures forall i :: 0 <= i < |s.watches| ==> s.watches[i].token != token
  {
    forall i | 0 <= i < |s.watches| ensures s.watches[i].token != token {
      assert Tokens(s.watches)[i] in ToSet(Tokens(s.watches));
    }
  }

  /** The token `announce_app` introduces: nonzero, and no other watch's. */
  lemma AnnouncedToken(s: State, i: nat)
    requires i < |s.watches| && |s.watches| < TOKENS && s.counter <= TOKENS
    requires TokensDistinct(s.watches) && TokensInRange(s) && Announceable(s, i)
    ensures var token := Announce(s, i).watches[i].token;
            1 <= token <= TOKENS && forall j :: 0 <= j < |s.watches| && j != i ==> s.watches[j].token != token
  {
    var used := Tokens(s.watches);
    ToSetSize(used);
    AllocateFresh(s.counter, ToSet(used));
    UnusedToken(s, Allocate(s.counter, ToSet(used)));
  }

  lemma IntroductionStream(version: nat, sent: seq<Event>, token: nat, surface: Surface, immersive: bool)
    requires StreamOk(sent) && token != 0 && token !in Live(sent)
    ensures StreamOk(sent + Introduction(version, token, surface, immersive))
    ensures Live(sent + Introduction(version, token, surface, immersive)) == Live(sent) + {token}
  {
    hide Sanitize, StreamOk, Live;
    var added := Added(token, Sanitize(surface.appId));
    SendOne(sent, added);
    var a := sent + [added];
    var b := a;
    if version >= 7 && surface.uid.Some? {
      SendOne(a, Identity(token, surface.uid.value));
      b := a + [Identity(token, surface.uid.value)];
    }
    var c := b;
    if version >= 3 {
      SendOne(b, DisplayMode(token, immersive));
      c := b + [DisplayMode(token, immersive)];
    }
    assert sent + Introduction(version, token, surface, immersive) == c;
  }

  lemma AnnounceTokens(s: State, i: nat)
    requires i < |s.watches| && |s.watches| < TOKENS && s.counter <= TOKENS && TokenInv(s)
    ensures TokenInv(Announce(s, i))
  {
    hide Live, StreamOk, Introduction, Allocate;
    var r := Announce(s, i);
    if Announceable(s, i) {
      AnnouncedToken(s, i);
      var watch := r.watches[i];
      assert !HoldsAnnounced(s.watches, watch.token);
      IntroductionStream(s.shell.value, s.sent, watch.token, s.world[watch.surface], watch.immersive);
      forall token ensures token in Live(r.sent) <==> HoldsAnnounced(r.watches, token) {
        AnnouncedSet(s.watches, r.watches, i, token);
      }
    }
  }

  /** Changing one watch changes the announced tokens by that watch alone. */
  lemma AnnouncedSet(before: seq<Watch>, after: seq<Watch>, i: nat, token: nat)
    requires i < |before| == |after| && after == before[i := after[i]]
    requires !before[i].announced && after[i].announced
    ensures HoldsAnnounced(after, token) <==> HoldsAnnounced(before, token) || token == after[i].token
  {
    if HoldsAnnounced(before, token) {
      var j :| 0 <= j < |before| && before[j].announced && before[j].token == token;
      assert after[j].announced && after[j].token == token;
    }
    if token == after[i].token { assert after[i].announced && after[i].token == token; }
    if HoldsAnnounced(after, token) {
      var j :| 0 <= j < |after| && after[j].announced && after[j].token == token;
      if j != i { assert before[j].announced && before[j].token == token; }
    }
  }

  lemma {:induction false} AnnounceAll(s: State, i: nat)
    requires i <= |s.watches| && |s.watches| < TOKENS && s.counter <= TOKENS && TokenInv(s)
    ensures TokenInv(AnnounceFrom(s, i)) && SameLayout(s, AnnounceFrom(s, i))
    decreases |s.watches| - i
  {
    if i < |s.watches| {
      AnnounceTokens(s, i);
      AnnounceLayout(s, i);
      AnnounceAll(Announce(s, i), i + 1);
    }
  }

  // ----- withdrawing

  lemma WithdrawTokens(s: State, i: nat)
    requires i < |s.watches| && TokenInv(s)
    ensures TokenInv(Withdraw(s, i))
  {
    var r := Withdraw(s, i);
    if s.watches[i].announced {
      var gone := s.watches[i].token;
      assert HoldsAnnounced(s.watches, gone);
      SendOne(s.sent, Removed(gone));
      forall token ensures token in Live(r.sent) <==> HoldsAnnounced(r.watches, token) {
        if HoldsAnnounced(s.watches, token) && token != gone {
          var j :| 0 <= j < |s.watches| && s.watches[j].announced && s.watches[j].token == token;
          assert r.watches[j].announced && r.watches[j].token == token;
        }
        if HoldsAnnounced(r.watches, token) {
          var j :| 0 <= j < |r.watches| && r.watches[j].announced && r.watches[j].token == token;
          assert s.watches[j].announced && s.watches[j].token == token && j != i;
        }
      }
    }
  }

  lemma SendActionKeeps(s: State, action: nat)
    ensures TokenInv(s) ==> TokenInv(SendAction(s, action))
    ensures SameLayout(s, SendAction(s, action)) && SendAction(s, action).counter == s.counter
    ensures SendAction(s, action).watches == s.watches
  {
    SendOne(s.sent, Action(action));
  }

  // ----- layers are set by a pass

  lemma ReassertPlaces(s: State)
    ensures Placed(Reassert(s))
    ensures Structure(s) ==> Structure(Reassert(s))
    ensures TokenInv(s) ==> TokenInv(Reassert(s))
  {
    var r := Reassert(s);
    assert forall id :: Placeable(s, id) == Placeable(r, id) && Prescribed(s, id) == Prescribed(r, id);
  }

  lemma SetModeKeeps(s: State, mode: nat)
    requires mode <= NOTIFICATION
    ensures Placed(SetMode(s, mode)) && SetMode(s, mode).watches == s.watches
    ensures Structure(s) ==> Structure(SetMode(s, mode))
    ensures TokenInv(s) ==> TokenInv(SetMode(s, mode))
  {
    ReassertPlaces(s.(mode := mode));
  }

  // ----- one step

  lemma CreateStructure(s: State, id: Id)
    requires Structure(s) && Enabled(s, Created(id))
    ensures Structure(Create(s, id))
  {
    var r := Create(s, id);
    assert Surfaces(r.watches) == [id] + Surfaces(s.watches);
    assert forall i :: 0 < i < |r.watches| ==> r.watches[i] == s.watches[i - 1];
    forall i | 0 < i < |r.watches| ensures r.watches[i].surface != id {
      assert Surfaces(s.watches)[i - 1] == r.watches[i].surface;
    }
  }

  lemma CreateTokens(s: State, id: Id)
    requires TokenInv(s)
    ensures TokenInv(Create(s, id))
  {
    hide Live, StreamOk;
    var r := Create(s, id);
    assert forall i :: 0 < i < |r.watches| ==> r.watches[i] == s.watches[i - 1];
    forall token ensures HoldsAnnounced(s.watches, token) <==> HoldsAnnounced(r.watches, token) {
      if HoldsAnnounced(s.watches, token) {
        var j :| 0 <= j < |s.watches| && s.watches[j].announced && s.watches[j].token == token;
        assert r.watches[j + 1].announced && r.watches[j + 1].token == token;
      }
    }
  }

  lemma CreatePlaced(s: State, id: Id)
    requires Structure(s) && Placed(s) && Enabled(s, Created(id))
    ensures Placed(Create(s, id))
  {
    var r := Create(s, id);
    forall x | x in r.layers && Placeable(r, x) ensures s.pending || r.layers[x] == Prescribed(r, x) {
      CreateKeepsView(s, id, x);
    }
  }

  lemma CreateKeepsView(s: State, id: Id, x: Id)
    requires Structure(s) && id !in s.world && Placeable(Create(s, id), x)
    ensures x != id && Placeable(s, x) && Prescribed(Create(s, id), x) == Prescribed(s, x)
  {
    assert Surfaces(Create(s, id).watches) == [id] + Surfaces(s.watches);
  }

  lemma UnmapKeeps(s: State, k: nat)
    requires k < |s.watches| && Structure(s) && TokenInv(s)
    ensures Structure(Unmap(s, k)) && TokenInv(Unmap(s, k))
  {
    hide TokenInv, Placed, Reassert, Withdraw, SendAction, SameViews;
    var b := s;
    if s.active == Some(s.watches[k].surface) {
      var a := s.(active := None);
      SameTokens(s, a);
      NoActive(s);
      SetModeKeeps(a, FULL);
      b := SendAction(SetMode(a, FULL), HOME);
      SendActionKeeps(SetMode(a, FULL), HOME);
      ViewsKeep(SetMode(a, FULL), b);
    }
    WithdrawTokens(b, k);
    WithdrawLayout(b, k);
    ViewsKeep(b, Withdraw(b, k));
  }

  lemma NoActive(s: State)
    requires Structure(s)
    ensures Structure(s.(active := None))
  {
    assert Surfaces(s.(active := None).watches) == Surfaces(s.watches);
  }

  lemma SplashStructure(s: State, id: Id)
    requires Structure(s) && id in s.world
    ensures Structure(RegisterSplash(s, id)) && RegisterSplash(s, id).watches == s.watches
  {
    assert Surfaces(RegisterSplash(s, id).watches) == Surfaces(s.watches);
  }

  lemma CommitKeeps(s: State, id: Id)
    requires Structure(s) && TokenInv(s) && id in s.world
    ensures WatchFor(s.watches, id) < |s.watches|
    ensures Inv(Commit(s, id))
  {
    hide TokenInv, Placed, Announce, Unmap, SameViews;
    WatchFound(s, id);
    var a := RegisterSplash(s, id);
    SplashStructure(s, id);
    SameTokens(s, a);
    var k := WatchFor(s.watches, id);
    AnnounceTokens(a, k);
    AnnounceLayout(a, k);
    ViewsKeep(a, Announce(a, k));
    UnmapKeeps(a, k);
    var next := if a.trusted != Some(id) && a.splash != Some(id) && Root(a, id) == Some(id) then
                  if Mapped(a, Some(id)) then Announce(a, k)
                  else if a.watches[k].announced then Unmap(a, k) else a
                else a;
    Queue(next);
  }

  lemma Queue(s: State)
    requires Structure(s) && TokenInv(s)
    ensures Inv(s.(pending := true))
  {
    hide Placed;
    SameTokens(s, s.(pending := true));
    assert Surfaces(s.(pending := true).watches) == Surfaces(s.watches);
    QueuedIsPlaced(s.(pending := true));
  }

  lemma RemoveTokens(s: State, k: nat)
    requires k < |s.watches| && TokenInv(s) && !s.watches[k].announced
    ensures TokenInv(RemoveWatch(s, k))
  {
    var r := RemoveWatch(s, k);
    assert forall i :: 0 <= i < |r.watches| ==> r.watches[i] == s.watches[if i < k then i else i + 1];
    forall token ensures HoldsAnnounced(r.watches, token) <==> HoldsAnnounced(s.watches, token) {
      if HoldsAnnounced(s.watches, token) {
        var j :| 0 <= j < |s.watches| && s.watches[j].announced && s.watches[j].token == token;
        var i := if j < k then j else j - 1;
        assert r.watches[i] == s.watches[j];
      }
    }
  }

  /** `Structure` but for the watch of a surface that no longer exists. */
  ghost predicate Dangling(s: State, id: Id, k: nat) {
    && k < |s.watches| && s.watches[k].surface == id && id !in s.world
    && (forall x :: x in s.world || x == id <==> x in Surfaces(s.watches))
    && (forall i, j :: 0 <= i < j < |s.watches| ==> s.watches[i].surface != s.watches[j].surface)
    && s.layers.Keys == s.world.Keys && |s.watches| < TOKENS && s.counter <= TOKENS && s.mode <= NOTIFICATION
    && RefAlive(s, s.trusted) && RefAlive(s, s.splash) && RefAlive(s, s.active)
  }

  lemma RemoveStructure(s: State, id: Id, k: nat)
    requires Dangling(s, id, k)
    ensures Structure(RemoveWatch(s, k))
  {
    var r := RemoveWatch(s, k);
    assert forall i :: 0 <= i < |r.watches| ==> r.watches[i] == s.watches[if i < k then i else i + 1];
    forall x ensures x in r.world <==> x in Surfaces(r.watches) { RemovedSurface(s.watches, k, x); }
  }

  /** Without watch `k` its surface is gone from the list, and no other. */
  lemma RemovedSurface(watches: seq<Watch>, k: nat, x: Id)
    requires k < |watches| && forall i, j :: 0 <= i < j < |watches| ==> watches[i].surface != watches[j].surface
    ensures x in Surfaces(watches[..k] + watches[k + 1..]) <==> x in Surfaces(watches) && x != watches[k].surface
  {
    var before, after := Surfaces(watches), Surfaces(watches[..k] + watches[k + 1..]);
    assert after == before[..k] + before[k + 1..];
    assert before == before[..k] + [before[k]] + before[k + 1..];
  }

  lemma DestroyKeeps(s: State, id: Id, world: map<Id, Surface>, layers: map<Id, Layer>)
    requires Structure(s) && TokenInv(s) && Enabled(s, Destroyed(id, world, layers))
    ensures WatchFor(s.watches, id) < |s.watches|
    ensures Inv(Destroy(s.(world := world, layers := layers), id))
  {
    hide TokenInv, Placed, Withdraw, SetMode, SendAction, SameViews;
    WatchFound(s, id);
    var k := WatchFor(s.watches, id);
    var a := s.(world := world, layers := layers);
    SameTokens(s, a);
    WithdrawTokens(a, k);
    WithdrawLayout(a, k);
    var b := Withdraw(a, k);
    var c := DropReferences(b, id);
    SameTokens(b, c);
    DanglingAfterWithdraw(s, a, b, c, id, k);
    RemoveTokens(c, k);
    RemoveStructure(c, id, k);
    var next := RemoveWatch(c, k);
    if a.active == Some(id) {
      SetModeKeeps(next, FULL);
      SendActionKeeps(SetMode(next, FULL), HOME);
      ViewsKeep(SetMode(next, FULL), SendAction(SetMode(next, FULL), HOME));
    } else {
      Queue(next);
    }
  }

  lemma DanglingAfterWithdraw(s: State, a: State, b: State, c: State, id: Id, k: nat)
    requires Structure(s) && id in s.world && a == s.(world := a.world, layers := a.layers)
    requires a.world.Keys == a.layers.Keys == s.world.Keys - {id}
    requires k < |a.watches| && a.watches[k].surface == id
    requires b == Withdraw(a, k) && SameLayout(a, b) && c == DropReferences(b, id)
    ensures Dangling(c, id, k) && !c.watches[k].announced
  {
    assert c.watches == b.watches && Surfaces(c.watches) == Surfaces(s.watches);
    forall x ensures x in c.world || x == id <==> x in Surfaces(c.watches) {
      assert x in c.world <==> x in s.world.Keys - {id};
    }
    assert c.watches[k].surface == Surfaces(c.watches)[k];
    forall i, j | 0 <= i < j < |c.watches| ensures c.watches[i].surface != c.watches[j].surface {
      assert c.watches[i].surface == Surfaces(c.watches)[i] == s.watches[i].surface;
      assert c.watches[j].surface == Surfaces(c.watches)[j] == s.watches[j].surface;
    }
  }

  lemma UnbindKeeps(s: State)
    requires Inv(s)
    ensures Inv(Unbind(s))
  {
    var r := Unbind(s);
    assert Surfaces(r.watches) == Surfaces(s.watches);
    assert forall i :: 0 <= i < |s.watches| ==>
      r.watches[i].surface == s.watches[i].surface && r.watches[i].token == s.watches[i].token;
  }

  lemma RegisterKeeps(s: State, id: Id, sameClient: bool)
    requires Inv(s) && id in s.world
    ensures Inv(Register(s, id, sameClient))
  {
    hide TokenInv, Placed, Withdraw, AnnounceFrom, SameViews;
    if !(s.trusted.Some? || !sameClient || Root(s, id).None? || s.world[id].appId != Some(SHELL_APP_ID)) {
      WatchFound(s, id);
      var k := WatchFor(s.watches, id);
      var a := s.(trusted := Some(id), mode := FULL);
      assert Surfaces(a.watches) == Surfaces(s.watches);
      SameTokens(s, a);
      WithdrawTokens(a, k);
      WithdrawLayout(a, k);
      ViewsKeep(a, Withdraw(a, k));
      Queue(Withdraw(a, k));
      AnnounceKeeps(Withdraw(a, k).(pending := true));
    }
  }

  lemma AnnounceKeeps(s: State)
    requires Inv(s)
    ensures Inv(AnnounceFrom(s, 0)) && AnnounceFrom(s, 0).pending == s.pending
  {
    hide TokenInv, Placed, AnnounceFrom, SameViews;
    AnnounceAll(s, 0);
    ViewsKeep(s, AnnounceFrom(s, 0));
  }

  lemma BindKeeps(s: State, version: nat, trustedUid: bool)
    requires Inv(s)
    ensures Inv(Bind(s, version, trustedUid))
  {
    if trustedUid && s.shell.None? {
      var a := s.(shell := Some(if version < PROTOCOL_VERSION then version else PROTOCOL_VERSION), sent := []);
      NewSession(s, a);
      hide Placed, AnnounceFrom;
      ViewsKeep(s, a);
      AnnounceKeeps(a);
    }
  }

  /** A session starts with an empty stream, and no watch is announced without a shell. */
  lemma NewSession(s: State, a: State)
    requires TokenInv(s) && s.shell.None? && a.shell.Some? && a.sent == [] && a.watches == s.watches
    ensures TokenInv(a)
  {
    assert forall i :: 0 <= i < |s.watches| ==> !s.watches[i].announced;
  }

  lemma IdleKeeps(s: State)
    requires Inv(s)
    ensures Inv(Idle(s)) && !Idle(s).pending
  {
    hide TokenInv, Placed, AnnounceFrom, SameViews;
    var a := s.(pending := false);
    SameTokens(s, a);
    assert Surfaces(a.watches) == Surfaces(s.watches);
    AnnounceAll(a, 0);
    ViewsKeep(a, AnnounceFrom(a, 0));
    ReassertPlaces(AnnounceFrom(a, 0));
  }

  lemma ActivateKeeps(s: State, token: nat)
    requires Inv(s)
    ensures Inv(Activate(s, token))
  {
    hide TokenInv, Placed, Reassert, SetMode;
    var k := FindActivatable(s, token, 0);
    if k == |s.watches| {
      var r := Send(s, ActivationFailed(token));
      NeutralEvent(s, ActivationFailed(token));
      ViewsKeep(s, r);
    } else {
      var a := s.(active := Some(s.watches[k].surface));
      SameTokens(s, a);
      assert Surfaces(a.watches) == Surfaces(s.watches) && Surfaces(s.watches)[k] in s.world;
      SetModeKeeps(a, if s.watches[k].immersive then HIDDEN else STATUS);
    }
  }

  /** Events that name no new or dying token. */
  lemma NeutralEvent(s: State, event: Event)
    requires TokenInv(s) && (event.ActivationFailed? || event.Action?)
    ensures TokenInv(Send(s, event))
  {
    SendOne(s.sent, event);
  }

  lemma DispatchKeeps(s: State, action: nat)
    requires Inv(s)
    ensures Inv(Dispatch(s, action))
  {
    if !(action == UINT32_SIZE - 1 || s.shell.None? || s.trusted.None?) {
      var a := if action == SCREENSHOT then s
               else SetMode(s, if action <= POWER || action == HELP then FULL else TransientTarget(s.mode));
      if action != SCREENSHOT {
        SetModeKeeps(s, if action <= POWER || action == HELP then FULL else TransientTarget(s.mode));
      }
      SendActionKeeps(a, action);
      ViewsKeep(a, SendAction(a, action));
    }
  }

  lemma DescribeKeeps(s: State, input: Input)
    requires Inv(s) && input.Described? && Enabled(s, input)
    ensures Inv(Step(s, input))
  {
    hide TokenInv, Placed;
    SameTokens(s, Step(s, input));
    DescribeStructure(s, input);
    DescribePlaced(s, input);
  }

  lemma DescribeStructure(s: State, input: Input)
    requires Structure(s) && input.Described? && Enabled(s, input)
    ensures Structure(Step(s, input))
  {
    var r := Step(s, input);
    assert r.world.Keys == s.world.Keys && Surfaces(r.watches) == Surfaces(s.watches);
    forall id ensures Mapped(s, id) == Mapped(r, id) {}
  }

  lemma DescribePlaced(s: State, input: Input)
    requires Structure(s) && Placed(s) && input.Described? && Enabled(s, input)
    ensures Placed(Step(s, input))
  {
    var r := Step(s, input);
    forall id ensures Mapped(s, id) == Mapped(r, id) {}
    forall id ensures Placeable(s, id) == Placeable(r, id) && Prescribed(s, id) == Prescribed(r, id) {
      assert Root(s, id) == Root(r, id);
    }
  }

  lemma StepKeeps(s: State, input: Input)
    requires Inv(s) && Enabled(s, input)
    ensures Inv(Step(s, input))
  {
    hide Commit, Destroy, Create, Idle, Unbind, Register, Activate, Bind, Dispatch, SetMode, TokenInv, Placed;
    match input
    case Created(id) =>
      CreateStructure(s, id);
      CreateTokens(s, id);
      CreatePlaced(s, id);
    case Committed(id, world, layers) =>
      var a := s.(world := world, layers := layers);
      EnvironmentKeeps(s, a);
      CommitKeeps(a, id);
    case Destroyed(id, world, layers) => DestroyKeeps(s, id, world, layers);
    case IdleReached => IdleKeeps(s);
    case Described(_, _, _, _) => DescribeKeeps(s, input);
    case Bound(version, trustedUid) => BindKeeps(s, version, trustedUid);
    case Unbound => UnbindKeeps(s);
    case Registered(id, sameClient) => RegisterKeeps(s, id, sameClient);
    case VisibleSet(visible) => if visible <= 1 { SetModeKeeps(s, if visible == 1 then FULL else HIDDEN); }
    case OverlaySet(mode) => if mode <= NOTIFICATION { SetModeKeeps(s, mode); }
    case Activated(token) => ActivateKeeps(s, token);
    case ActionTaken(action) => DispatchKeeps(s, action);
  }

  lemma EnvironmentKeeps(s: State, a: State)
    requires Structure(s) && TokenInv(s) && a == s.(world := a.world, layers := a.layers)
    requires a.world.Keys == a.layers.Keys == s.world.Keys
    ensures Structure(a) && TokenInv(a)
  {
    assert forall id :: id in a.world <==> id in s.world.Keys;
    assert TokensInRange(a);
  }

  // ----- runs

  ghost predicate ValidRun(s: State, inputs: seq<Input>)
    requires Inv(s)
    decreases |inputs|
  {
    inputs == [] || (Enabled(s, inputs[0]) && (StepKeeps(s, inputs[0]); ValidRun(Step(s, inputs[0]), inputs[1..])))
  }

  ghost function Run(s: State, inputs: seq<Input>): (r: State)
    requires Inv(s) && ValidRun(s, inputs)
    ensures Inv(r)
    decreases |inputs|
  {
    if inputs == [] then s else (StepKeeps(s, inputs[0]); Run(Step(s, inputs[0]), inputs[1..]))
  }

  lemma InitialInv(splashUid: nat)
    ensures Inv(Initial(splashUid))
  {
  }

  ghost predicate Reachable(s: State) {
    exists splashUid: nat, inputs: seq<Input> :: ReachedBy(s, splashUid, inputs)
  }

  ghost predicate ReachedBy(s: State, splashUid: nat, inputs: seq<Input>) {
    InitialInv(splashUid);
    ValidRun(Initial(splashUid), inputs) && s == Run(Initial(splashUid), inputs)
  }

  /** In every reachable state the views are where the policy wants them, or a pass is queued. */
  lemma ReachableInv(s: State)
    requires Reachable(s)
    ensures Inv(s)
  {
    var splashUid: nat, inputs: seq<Input> :| ReachedBy(s, splashUid, inputs);
    InitialInv(splashUid);
  }

  /** A mapped surface of a desktop tree. */
  predicate IsView(s: State, id: Id) { id in s.world && s.world[id].mapped && s.world[id].root.Some? }

  /** The view belongs to the tree of that surface, if there is one. */
  predicate BelongsTo(s: State, id: Id, surface: Option<Id>) { surface.Some? && Root(s, id) == surface }

  /**
   With no pass queued every mapped view of a desktop tree is in one of
   four layers: the shell's in the trusted layer unless the mode is hidden; the
   splash's in the splash layer while the shell is unmapped; the active
   application's in the application layer unless the mode is full; and every
   other view, and these at other times, in the hidden layer.
   */
  lemma ShownViews(s: State, id: Id)
    requires Reachable(s) && !s.pending && IsView(s, id)
    ensures id in s.layers && s.layers[id] != Elsewhere
    ensures s.layers[id] == TrustedLayer <==> BelongsTo(s, id, s.trusted) && s.mode != HIDDEN
    ensures s.layers[id] == SplashLayer <==>
            BelongsTo(s, id, s.splash) && !BelongsTo(s, id, s.trusted) && !Mapped(s, s.trusted)
    ensures s.layers[id] == AppLayer <==>
            BelongsTo(s, id, s.active) && !BelongsTo(s, id, s.trusted) && !BelongsTo(s, id, s.splash) && s.mode != FULL
  {
    ReachableInv(s);
  }

  /** Hence at most one application tree is shown. */
  lemma OneApplicationShown(s: State, id: Id, other: Id)
    requires Reachable(s) && !s.pending && IsView(s, id) && IsView(s, other)
    requires id in s.layers && other in s.layers && s.layers[id] == AppLayer && s.layers[other] == AppLayer
    ensures Root(s, id) == Root(s, other)
  {
    ShownViews(s, id);
    ShownViews(s, other);
  }

  // ----- overlay mode and active surface

  /** Outside full mode there is an application to show. */
  predicate ModeBacked(s: State) { s.mode != FULL ==> s.active.Some? }

  lemma {:induction false} AnnounceFromBacked(s: State, i: nat)
    requires i <= |s.watches| && s.counter <= TOKENS
    ensures AnnounceFrom(s, i).mode == s.mode && AnnounceFrom(s, i).active == s.active
    ensures AnnounceFrom(s, i).world == s.world && AnnounceFrom(s, i).layers == s.layers
    decreases |s.watches| - i
  {
    if i < |s.watches| { AnnounceFromBacked(Announce(s, i), i + 1); }
  }

  lemma CommitBacked(s: State, id: Id)
    requires ModeBacked(s) && s.counter <= TOKENS && WatchFor(s.watches, id) < |s.watches|
    ensures ModeBacked(Commit(s, id))
  {
    hide WatchFor, Introduction, Allocate, Placeable, Prescribed;
  }

  lemma DestroyBacked(s: State, id: Id)
    requires ModeBacked(s) && WatchFor(s.watches, id) < |s.watches|
    ensures ModeBacked(Destroy(s, id))
  {
    hide WatchFor, Placeable, Prescribed;
  }

  lemma RegisterBacked(s: State, id: Id, sameClient: bool)
    requires ModeBacked(s) && s.counter <= TOKENS && id in s.world
    ensures ModeBacked(Register(s, id, sameClient))
  {
    hide AnnounceFrom, WatchFor;
    var k := WatchFor(s.watches, id);
    var a := s.(trusted := Some(id), mode := FULL);
    var b := if k < |s.watches| then Withdraw(a, k) else a;
    AnnounceFromBacked(b.(pending := true), 0);
  }

  lemma RequestBacked(s: State, input: Input)
    requires ModeBacked(s) && (input.VisibleSet? || input.OverlaySet? || input.Activated? || input.ActionTaken?)
    requires Inv(s) && Enabled(s, input)
    ensures ModeBacked(Step(s, input)) <==> !(input == VisibleSet(0) && s.active.None?)
  {
    hide FindActivatable, Placeable, Prescribed, Inv;
  }

  /** One step keeps that, exactly unless the shell hides itself with nothing active. */
  lemma ModeStep(s: State, input: Input)
    requires Inv(s) && Enabled(s, input) && ModeBacked(s)
    ensures ModeBacked(Step(s, input)) <==> !(input == VisibleSet(0) && s.active.None?)
  {
    hide AnnounceFrom, Commit, Destroy, Register, TokenInv, Placed, SetMode, Activate, Dispatch;
    match input
    case Committed(id, world, layers) =>
      WatchFound(s, id);
      CommitBacked(s.(world := world, layers := layers), id);
    case Destroyed(id, world, layers) =>
      WatchFound(s, id);
      DestroyBacked(s.(world := world, layers := layers), id);
    case IdleReached => AnnounceFromBacked(s.(pending := false), 0);
    case Bound(version, trustedUid) =>
      AnnounceFromBacked(
        s.(shell := Some(if version < PROTOCOL_VERSION then version else PROTOCOL_VERSION), sent := []), 0);
    case Registered(id, sameClient) => RegisterBacked(s, id, sameClient);
    case VisibleSet(_) => RequestBacked(s, input);
    case OverlaySet(_) => RequestBacked(s, input);
    case Activated(_) => RequestBacked(s, input);
    case ActionTaken(_) => RequestBacked(s, input);
    case _ =>
  }

  /** In every run without `set_visible(0)`, a mode other than full has an active surface. */
  lemma {:induction false} RunModeBacked(s: State, inputs: seq<Input>)
    requires Inv(s) && ValidRun(s, inputs) && ModeBacked(s)
    requires forall i :: 0 <= i < |inputs| ==> inputs[i] != VisibleSet(0)
    ensures ModeBacked(Run(s, inputs))
    decreases |inputs|
  {
    if inputs != [] {
      hide Inv, Step;
      ModeStep(s, inputs[0]);
      StepKeeps(s, inputs[0]);
      RunModeBacked(Step(s, inputs[0]), inputs[1..]);
    }
  }

  /** With `set_visible(0)` it can fail: a shell may bind and hide itself at once. */
  lemma HiddenWithoutActive() returns (s: State)
    ensures ReachedBy(s, 0, [Bound(7, true), VisibleSet(0)]) && !ModeBacked(s)
  {
    InitialInv(0);
    var inputs := [Bound(7, true), VisibleSet(0)];
    var a := Step(Initial(0), inputs[0]);
    assert a == Initial(0).(shell := Some(7));
    StepKeeps(Initial(0), inputs[0]);
    assert inputs[1..] == [VisibleSet(0)] && inputs[1..][1..] == [];
    StepKeeps(a, VisibleSet(0));
    assert ValidRun(a, inputs[1..]);
    s := Step(a, VisibleSet(0));
    assert Run(s, []) == s;
    assert Run(a, inputs[1..]) == s;
  }
}
