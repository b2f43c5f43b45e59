/** What the shell's requests and the surfaces' commits bring about: which applications are announced and shown, and in what mode. */
module PolicyTheorems {
  import opened Common
  import opened AppTokens
  import opened Identifiers
  import opened PolicyModel
  import opened PolicyInvariants

  /** A mapped desktop root that is neither the shell's surface nor the splash. */
  predicate IsApplication(s: State, id: Id) {
    Root(s, id) == Some(id) && Mapped(s, Some(id)) && s.trusted != Some(id) && s.splash != Some(id)
  }

  // ----- announcing

  /** The names the policy goes by. */
  lemma PolicyNames()
    ensures STANDARD_TITLE == "cardputerzero:standard" && SHELL_APP_ID == "os.cardputerzero.shell"
    ensures SPLASH_APP_ID == "os.cardputerzero.boot-splash"
  {
  }

  /** The events tell the token and its id first, its account from version 7 on, and its mode from version 3 on. */
  ghost predicate Tells(news: seq<Event>, version: nat, token: nat, surface: Surface, immersive: bool) {
    && news != [] && news[0] == Added(token, Sanitize(surface.appId))
    && (forall uid: nat :: Identity(token, uid) in news <==> version >= 7 && surface.uid == Some(uid))
    && (forall mode :: DisplayMode(token, mode) in news <==> version >= 3 && mode == immersive)
  }

  lemma IntroductionTells(version: nat, token: nat, surface: Surface, immersive: bool)
    ensures Tells(Introduction(version, token, surface, immersive), version, token, surface, immersive)
  {
    hide Sanitize;
  }

  /** How an application is announced; it counts as immersive unless its title says it is standard. */
  lemma AnnounceTells(s: State, i: nat)
    requires i < |s.watches| < TOKENS && s.counter <= TOKENS && TokensDistinct(s.watches) && TokensInRange(s)
    requires !s.watches[i].announced && ShellListens(s) && IsApplication(s, s.watches[i].surface)
    ensures var next, surface := Announce(s, i), s.world[s.watches[i].surface];
            var watch := next.watches[i];
            && s.sent <= next.sent && watch.announced && watch.token != 0
            && (if s.watches[i].token != 0 then watch.token == s.watches[i].token && next.counter == s.counter
                else watch.token == next.counter && watch.token !in Tokens(s.watches))
            && watch.immersive == (surface.title != Some(STANDARD_TITLE))
            && Tells(next.sent[|s.sent|..], s.shell.value, watch.token, surface, watch.immersive)
  {
    AnnouncedToken(s, i);
    hide Sanitize, Allocate, Introduction, Tells, TokensDistinct, TokensInRange;
    var next, surface := Announce(s, i), s.world[s.watches[i].surface];
    IntroductionTells(s.shell.value, next.watches[i].token, surface, next.watches[i].immersive);
    assert next.sent[|s.sent|..] ==
           Introduction(s.shell.value, next.watches[i].token, surface, next.watches[i].immersive);
  }

  lemma AnnounceOne(s: State, i: nat, k: nat)
    requires i < |s.watches| && k < |s.watches| && s.counter <= TOKENS
    ensures Announce(s, i).watches[k].surface == s.watches[k].surface
    ensures s.watches[k].announced ==> Announce(s, i).watches[k].announced
    ensures k != i ==> Announce(s, i).watches[k] == s.watches[k]
    ensures Announce(s, i).watches[i].announced <==>
            s.watches[i].announced || (ShellListens(s) && IsApplication(s, s.watches[i].surface))
  {
    hide Introduction, Allocate;
  }

  /** One pass over the watches announces every application it meets. */
  lemma {:induction false} AnnounceFromReaches(s: State, i: nat, k: nat)
    requires i <= |s.watches| && k < |s.watches| && |s.watches| < TOKENS && s.counter <= TOKENS && TokenInv(s)
    requires k < i ==> s.watches[k].announced
    ensures AnnounceFrom(s, i).watches[k].surface == s.watches[k].surface
    ensures k < i ==> AnnounceFrom(s, i).watches[k].announced
    ensures ShellListens(s) && IsApplication(s, s.watches[k].surface) ==> AnnounceFrom(s, i).watches[k].announced
    decreases |s.watches| - i
  {
    hide TokenInv, Announce;
    if i < |s.watches| {
      AnnounceTokens(s, i);
      AnnounceLayout(s, i);
      AnnounceOne(s, i, k);
      if k != i || Announce(s, i).watches[i].announced {
        AnnounceFromReaches(Announce(s, i), i + 1, k);
      } else {
        LaterSurface(Announce(s, i), i + 1, k);
      }
    }
  }

  lemma {:induction false} LaterSurface(s: State, i: nat, k: nat)
    requires i <= |s.watches| && k < |s.watches| && s.counter <= TOKENS
    ensures AnnounceFrom(s, i).watches[k].surface == s.watches[k].surface
    decreases |s.watches| - i
  {
    hide Announce;
    if i < |s.watches| {
      AnnounceOne(s, i, k);
      LaterSurface(Announce(s, i), i + 1, k);
    }
  }

  /** Only applications are announced on the way. */
  lemma {:induction false} AnnounceFromOnly(s: State, i: nat, k: nat)
    requires i <= |s.watches| && k < |s.watches| && s.counter <= TOKENS && |s.watches| < TOKENS && TokenInv(s)
    ensures AnnounceFrom(s, i).watches[k].announced ==>
              s.watches[k].announced || IsApplication(s, s.watches[k].surface)
    decreases |s.watches| - i
  {
    hide TokenInv, Announce;
    if i < |s.watches| {
      AnnounceTokens(s, i);
      AnnounceLayout(s, i);
      AnnounceOne(s, i, k);
      AnnounceFromOnly(Announce(s, i), i + 1, k);
    }
  }

  /** Besides those that were, exactly the applications are announced. */
  ghost predicate Announces(before: seq<Watch>, s: State) {
    && |s.watches| == |before|
    && forall k :: 0 <= k < |before| ==>
         && s.watches[k].surface == before[k].surface
         && (s.watches[k].announced <==> before[k].announced || IsApplication(s, before[k].surface))
  }

  lemma AnnounceFromAll(s: State)
    requires |s.watches| < TOKENS && s.counter <= TOKENS && TokenInv(s) && ShellListens(s)
    ensures Announces(s.watches, AnnounceFrom(s, 0)) && SameLayout(s, AnnounceFrom(s, 0))
  {
    hide TokenInv, AnnounceFrom;
    AnnounceAll(s, 0);
    var next := AnnounceFrom(s, 0);
    forall k | 0 <= k < |next.watches|
      ensures next.watches[k].surface == s.watches[k].surface
      ensures next.watches[k].announced <==> s.watches[k].announced || IsApplication(next, s.watches[k].surface)
    {
      AnnounceFromReaches(s, 0, k);
      AnnounceFromOnly(s, 0, k);
      if s.watches[k].announced { AnnounceFromKeeps(s, 0, k); }
    }
  }

  lemma {:induction false} AnnounceFromKeeps(s: State, i: nat, k: nat)
    requires i <= |s.watches| && k < |s.watches| && s.counter <= TOKENS && s.watches[k].announced
    ensures AnnounceFrom(s, i).watches[k].announced
    decreases |s.watches| - i
  {
    hide Announce;
    if i < |s.watches| {
      AnnounceOne(s, i, k);
      AnnounceFromKeeps(Announce(s, i), i + 1, k);
    }
  }

  /** A pass announces exactly the applications to a shell of version 2 or more. */
  lemma IdleAnnounces(s: State)
    requires Inv(s) && Enabled(s, IdleReached)
    ensures var next := Step(s, IdleReached);
            !next.pending && next.shell == s.shell && (ShellListens(s) ==> Announces(s.watches, next))
  {
    hide TokenInv, AnnounceFrom, Placed;
    var begun := s.(pending := false);
    SameTokens(s, begun);
    AnnounceAll(begun, 0);
    if ShellListens(s) {
      AnnounceFromAll(begun);
    }
  }

  /** A trusted shell is bound exactly if none is, with at most version 7, and from version 2 told of exactly the applications. */
  lemma BindAnnounces(s: State, version: nat, trustedUid: bool)
    requires Inv(s)
    ensures var next := Step(s, Bound(version, trustedUid));
            if !trustedUid || s.shell.Some? then next == s
            else && next.shell == Some(if version < 7 then version else 7)
                 && (forall k :: 0 <= k < |s.watches| ==> !s.watches[k].announced)
                 && (version >= 2 ==> Announces(s.watches, next)) && (version < 2 ==> next.sent == [])
  {
    hide AnnounceFrom, Placed;
    if trustedUid && s.shell.None? {
      var begun := s.(shell := Some(if version < 7 then version else 7), sent := []);
      NewSession(s, begun);
      hide TokenInv;
      AnnounceAll(begun, 0);
      if version >= 2 {
        AnnounceFromAll(begun);
      } else {
        NothingTold(begun, 0);
      }
    }
  }

  lemma {:induction false} NothingTold(s: State, i: nat)
    requires i <= |s.watches| && s.counter <= TOKENS && !ShellListens(s)
    ensures AnnounceFrom(s, i) == s
    decreases |s.watches| - i
  {
    if i < |s.watches| { NothingTold(s, i + 1); }
  }

  /** A commit that finds the surface mapped leaves mode and active surface alone. */
  lemma CommitKeepsActive(s: State, id: Id)
    requires s.counter <= TOKENS && WatchFor(s.watches, id) < |s.watches|
    ensures var next := Commit(s, id);
            && next.pending && |next.watches| == |s.watches| && next.world == s.world && next.shell == s.shell
            && next.trusted == s.trusted
            && (Mapped(s, Some(id)) ==> next.active == s.active && next.mode == s.mode)
            && next.splash == if s.splash.None? && IsBootSplash(s, id) then Some(id) else s.splash
  {
    hide WatchFor, IsBootSplash, Announce, Reassert;
    var k, a := WatchFor(s.watches, id), RegisterSplash(s, id);
    AnnounceLayout(a, k);
    ReassertKeeps(a.(active := None, mode := FULL));
  }

  lemma CommitDecides(s: State, id: Id)
    requires s.counter <= TOKENS && WatchFor(s.watches, id) < |s.watches|
    requires s.watches[WatchFor(s.watches, id)].announced ==> ShellListens(s)
    ensures var next, k := Commit(s, id), WatchFor(s.watches, id);
            Root(s, id) == Some(id) && next.trusted != Some(id) && next.splash != Some(id) ==>
              && |next.watches| == |s.watches|
              && (next.watches[k].announced <==> Mapped(s, Some(id)) && ShellListens(s))
              && (s.watches[k].announced && !Mapped(s, Some(id)) ==> next.watches[k].token == 0)
              && (s.watches[k].announced && s.active == Some(id) && !Mapped(s, Some(id)) ==>
                    next.active == None && next.mode == FULL && |s.sent| < |next.sent| && next.sent[|s.sent|] == Action(HOME))
  {
    hide Introduction, Allocate, Placeable, Prescribed, WatchFor;
  }

  lemma CommitStep(s: State, id: Id, world: map<Id, Surface>, layers: map<Id, Layer>)
    requires Inv(s) && Enabled(s, Committed(id, world, layers))
    ensures var a := s.(world := world, layers := layers);
            && a.counter <= TOKENS && WatchFor(a.watches, id) < |a.watches|
            && (a.watches[WatchFor(a.watches, id)].announced ==> ShellListens(a))
            && Step(s, Committed(id, world, layers)) == Commit(a, id)
            && Root(a, id) == world[id].root && (Mapped(a, Some(id)) <==> world[id].mapped)
            && (ShellListens(a) <==> ShellListens(s))
  {
    WatchFound(s, id);
    if s.watches[WatchFor(s.watches, id)].announced { AnnouncedListens(s, WatchFor(s.watches, id)); }
    hide Commit, Placed, Watched, WatchFor, TokenInv;
  }

  lemma AnnouncedListens(s: State, k: nat)
    requires TokenInv(s) && k < |s.watches| && s.watches[k].announced
    ensures ShellListens(s)
  {
  }

  lemma MappedIn(s: State, world: map<Id, Surface>, id: Id)
    requires s.world == world && id in world
    ensures Mapped(s, Some(id)) <==> world[id].mapped
  {
  }

  predicate LooksLikeSplash(surface: Surface, id: Id, splashUid: nat) {
    surface.root == Some(id) && surface.uid == Some(splashUid) && surface.appId == Some(SPLASH_APP_ID)
  }

  lemma SplashLooks(s: State, id: Id)
    requires id in s.world
    ensures IsBootSplash(s, id) <==> LooksLikeSplash(s.world[id], id, s.splashUid)
  {
  }

  /**
   After a commit an application root is announced exactly if it is mapped and a
   shell listens; one that lost its view while active leaves the full mode, nothing
   active, and the shell told to go home; and a pass is queued. The first surface
   that is a root of the splash user under the splash's id becomes the splash.
   */
  lemma CommitAnnounces(s: State, id: Id, world: map<Id, Surface>, layers: map<Id, Layer>)
    requires Inv(s) && Enabled(s, Committed(id, world, layers))
    ensures var next, k := Step(s, Committed(id, world, layers)), WatchFor(s.watches, id);
            && next.pending && k < |s.watches| == |next.watches| && next.world == world && next.shell == s.shell
            && (Mapped(next, Some(id)) ==> next.active == s.active && next.mode == s.mode)
            && next.splash == (if s.splash.None? && LooksLikeSplash(world[id], id, s.splashUid) then Some(id) else s.splash)
            && (world[id].root == Some(id) && next.trusted != Some(id) && next.splash != Some(id) ==>
                  && (next.watches[k].announced <==> world[id].mapped && ShellListens(s))
                  && (s.watches[k].announced && !world[id].mapped ==> next.watches[k].token == 0)
                  && (s.watches[k].announced && s.active == Some(id) && !world[id].mapped ==>
                        next.active == None && next.mode == FULL && Action(HOME) in next.sent))
  {
    var a := s.(world := world, layers := layers);
    CommitStep(s, id, world, layers);
    hide *;
    SplashLooks(a, id);
    CommitKeepsActive(a, id);
    CommitDecides(a, id);
    MappedIn(Commit(a, id), world, id);
  }

  // ----- requests

  predicate CanActivate(s: State, i: nat, token: nat) {
    i < |s.watches| && s.watches[i].announced && s.watches[i].token == token && Mapped(s, Some(s.watches[i].surface))
  }

  /** Every view of the active application is in the application layer, unless the shell or the splash owns it. */
  predicate ActiveShown(s: State) {
    forall id ::
      (id in s.layers && IsView(s, id) && BelongsTo(s, id, s.active) && !BelongsTo(s, id, s.trusted) &&
       !BelongsTo(s, id, s.splash)) ==> s.layers[id] == AppLayer
  }

  lemma SameWatched(s: State, t: State)
    requires Watched(s) && t.world == s.world && t.watches == s.watches
    ensures Watched(t)
  {
  }

  lemma ReassertShows(s: State)
    requires s.mode != FULL && Watched(s)
    ensures ActiveShown(Reassert(s))
  {
    var next := Reassert(s);
    assert forall id :: Placeable(s, id) == Placeable(next, id) && Prescribed(s, id) == Prescribed(next, id);
    forall id | IsView(next, id) ensures Placeable(next, id) { assert id in s.world; }
  }

  /**
   Activating a token works exactly if an announced, mapped application has it:
   then that one is active, in hidden mode if it is immersive and in status mode
   otherwise, and on screen at once. If not, the shell is told so and nothing changes.
   */
  lemma ActivationShows(s: State, token: nat, i: nat)
    requires Inv(s) && Enabled(s, Activated(token))
    ensures var next := Step(s, Activated(token));
            && (CanActivate(s, i, token) ==>
                  && next.active == Some(s.watches[i].surface) && next.sent == s.sent && ActiveShown(next)
                  && next.mode == if s.watches[i].immersive then HIDDEN else STATUS)
            && ((forall j: nat :: !CanActivate(s, j, token)) ==>
                  next == s.(sent := s.sent + [ActivationFailed(token)]))
  {
    hide Placeable, Prescribed, Placed, Watched, Reassert, ActiveShown, FindActivatable, Surfaces;
    var k := FindActivatable(s, token, 0);
    if k < |s.watches| {
      var begun := s.(active := Some(s.watches[k].surface), mode := if s.watches[k].immersive then HIDDEN else STATUS);
      SameWatched(s, begun);
      ReassertShows(begun);
      ReassertKeeps(begun);
      assert CanActivate(s, k, token);
    } else if CanActivate(s, i, token) {
      ActivatableFound(s, token, 0, i);
      assert false;
    }
  }

  lemma ReassertKeeps(s: State)
    ensures Reassert(s) == s.(layers := Reassert(s).layers)
  {
  }

  lemma {:induction false} ActivatableFound(s: State, token: nat, from: nat, i: nat)
    requires from <= i && CanActivate(s, i, token)
    ensures FindActivatable(s, token, from) < |s.watches|
    decreases |s.watches| - from
  {
    if from < i && !Activatable(s, from, token) {
      ActivatableFound(s, token, from + 1, i);
    }
  }

  /** An overlay request is granted exactly if the mode exists and is full or has an active application to show. */
  lemma OverlayRequest(s: State, mode: nat)
    requires Inv(s) && Enabled(s, OverlaySet(mode))
    ensures var next := Step(s, OverlaySet(mode));
            if mode > 3 || (mode != FULL && s.active.None?) then next == s
            else next == s.(mode := mode, layers := next.layers) && (mode != FULL ==> ActiveShown(next))
  {
    hide Reassert, ActiveShown;
    ReassertKeeps(s.(mode := mode));
    if mode != FULL { ReassertShows(s.(mode := mode)); }
  }

  /** Showing the shell is the full mode, hiding it the hidden one; other values are refused. */
  lemma VisibleRequest(s: State, visible: nat)
    requires Inv(s) && Enabled(s, VisibleSet(visible))
    ensures var next := Step(s, VisibleSet(visible));
            if visible > 1 then next == s
            else next == s.(mode := if visible == 1 then FULL else HIDDEN, layers := next.layers)
  {
    hide Reassert;
    ReassertKeeps(s.(mode := if visible == 1 then FULL else HIDDEN));
  }

  lemma RegisterWithdraws(s: State, id: Id)
    requires TokenInv(s) && |s.watches| < TOKENS && s.counter <= TOKENS && WatchFor(s.watches, id) < |s.watches|
    ensures var k := WatchFor(s.watches, id);
            var a := Withdraw(s.(trusted := Some(id), mode := FULL), k).(pending := true);
            var next := AnnounceFrom(a, 0);
            && next.trusted == Some(id) && next.mode == FULL && next.pending && |next.watches| == |s.watches|
            && !next.watches[k].announced
  {
    hide TokenInv, AnnounceFrom, WatchFor;
    var k, a := WatchFor(s.watches, id), s.(trusted := Some(id), mode := FULL);
    SameTokens(s, a);
    WithdrawTokens(a, k);
    var b := Withdraw(a, k).(pending := true);
    SameTokens(Withdraw(a, k), b);
    AnnounceAll(b, 0);
    ShellUnannounced(b, 0, k);
  }

  predicate LooksLikeShell(surface: Surface) { surface.root.Some? && surface.appId == Some(SHELL_APP_ID) }

  lemma RegisterDecides(s: State, id: Id, sameClient: bool)
    requires s.counter <= TOKENS && id in s.world && WatchFor(s.watches, id) < |s.watches|
    ensures var k := WatchFor(s.watches, id);
            Register(s, id, sameClient) ==
            if s.trusted.None? && sameClient && LooksLikeShell(s.world[id])
            then AnnounceFrom(Withdraw(s.(trusted := Some(id), mode := FULL), k).(pending := true), 0) else s
  {
    hide AnnounceFrom, Withdraw, WatchFor;
  }

  /** The shell's surface is registered exactly if none is, it is the shell's own, a desktop surface and bears the shell's id. */
  lemma RegisterRequest(s: State, id: Id, sameClient: bool)
    requires Inv(s) && Enabled(s, Registered(id, sameClient))
    ensures var next, k := Step(s, Registered(id, sameClient)), WatchFor(s.watches, id);
            if s.trusted.None? && sameClient && LooksLikeShell(s.world[id])
            then && next.trusted == Some(id) && next.mode == FULL && next.pending && k < |next.watches|
                 && !next.watches[k].announced
            else next == s
  {
    WatchFound(s, id);
    hide AnnounceFrom, Placed, TokenInv, Withdraw, WatchFor, Watched;
    RegisterWithdraws(s, id);
    RegisterDecides(s, id, sameClient);
    hide Register, LooksLikeShell;
  }

  lemma {:induction false} ShellUnannounced(s: State, i: nat, k: nat)
    requires i <= |s.watches| && k < |s.watches| && s.counter <= TOKENS
    requires s.trusted == Some(s.watches[k].surface) && !s.watches[k].announced
    ensures !AnnounceFrom(s, i).watches[k].announced
    decreases |s.watches| - i
  {
    if i < |s.watches| {
      hide Introduction, Allocate;
      ShellUnannounced(Announce(s, i), i + 1, k);
    }
  }

  /**
   A key action reaches a shell with a registered surface. A screenshot leaves the
   mode alone; going home, the other full-screen actions and help show the shell
   alone; any other shows it over the application, or alone if it was alone.
   */
  lemma ActionRequest(s: State, action: nat)
    requires Inv(s)
    ensures var next := Step(s, ActionTaken(action));
            if action == 0xffff_ffff || s.shell.None? || s.trusted.None? then next == s
            else && next.sent == s.sent + [Action(action)] && next.active == s.active && next.watches == s.watches
                 && next.mode == (if action == 13 then s.mode else if action <= 3 || action == 12 || s.mode == FULL then FULL
                                  else NOTIFICATION)
                 && (action != 13 && next.mode != FULL ==> ActiveShown(next))
  {
    hide Reassert, ActiveShown, Placed, TokenInv, Watched;
    ReassertKeeps(s.(mode := FULL));
    ReassertKeeps(s.(mode := NOTIFICATION));
    SameWatched(s, s.(mode := NOTIFICATION));
    ReassertShows(s.(mode := NOTIFICATION));
    SentKeepsShown(Reassert(s.(mode := NOTIFICATION)), s.sent + [Action(action)]);
  }

  lemma SentKeepsShown(s: State, sent: seq<Event>)
    ensures ActiveShown(s) <==> ActiveShown(s.(sent := sent))
  {
    var t := s.(sent := sent);
    assert forall id :: IsView(s, id) == IsView(t, id);
  }

  /** When the shell goes, nothing is announced, the mode is full and a pass is queued; tokens stay for the next shell. */
  lemma ShellGone(s: State)
    requires Inv(s) && Enabled(s, Unbound)
    ensures var next := Step(s, Unbound);
            && next.shell == None && next.mode == FULL && next.pending && Tokens(next.watches) == Tokens(s.watches)
            && forall k :: 0 <= k < |next.watches| ==> !next.watches[k].announced
  {
    hide TokenInv, Placed, Watched;
  }

  lemma DestroyEffect(s: State, id: Id)
    requires WatchFor(s.watches, id) < |s.watches|
    ensures var next := Destroy(s, id);
            && next.trusted == (if s.trusted == Some(id) then None else s.trusted)
            && next.splash == (if s.splash == Some(id) then None else s.splash)
            && next.active == (if s.active == Some(id) then None else s.active)
            && next.mode == (if s.active == Some(id) || s.trusted == Some(id) then FULL else s.mode)
            && (s.active == Some(id) && s.shell.Some? ==> next.sent != [] && next.sent[|next.sent| - 1] == Action(HOME))
  {
    hide WatchFor, Reassert;
    var next := RemoveWatch(DropReferences(Withdraw(s, WatchFor(s.watches, id)), id), WatchFor(s.watches, id));
    ReassertKeeps(next.(mode := FULL));
  }

  // ----- what is left alone

  /** Inputs that other parties' changes come with. */
  predicate Rearranges(input: Input) { input.Created? || input.Committed? || input.Destroyed? }

  lemma ReassertLeaves(s: State, id: Id)
    requires id in s.layers && !IsView(s, id)
    ensures id in Reassert(s).layers && Reassert(s).layers[id] == s.layers[id]
  {
    hide Prescribed;
  }

  /** Surfaces that are no desktop views are never moved. */
  lemma OthersLeft(s: State, input: Input, id: Id)
    requires Inv(s) && Enabled(s, input) && !Rearranges(input) && id in s.layers && !IsView(s, id)
    ensures id in Step(s, input).layers && Step(s, input).layers[id] == s.layers[id]
  {
    hide TokenInv, Placed, Watched, AnnounceFrom, FindActivatable, Reassert, Withdraw;
    match input
    case IdleReached =>
      AnnounceFromFrame(s.(pending := false), 0);
      ReassertLeaves(AnnounceFrom(s.(pending := false), 0), id);
    case Bound(version, _) =>
      AnnounceFromFrame(s.(shell := Some(if version < 7 then version else 7), sent := []), 0);
    case Registered(surface, same) =>
      RegisterLeaves(s, surface, same);
      hide Register;
    case VisibleSet(visible) => ReassertLeaves(s.(mode := if visible == 1 then FULL else HIDDEN), id);
    case OverlaySet(mode) => ReassertLeaves(s.(mode := mode), id);
    case Activated(token) => ActivateLeaves(s, token, id);
    case ActionTaken(_) =>
      ReassertLeaves(s.(mode := FULL), id);
      ReassertLeaves(s.(mode := TransientTarget(s.mode)), id);
    case _ =>
  }

  lemma {:induction false} AnnounceFromFrame(s: State, i: nat)
    requires i <= |s.watches| && s.counter <= TOKENS
    ensures var next := AnnounceFrom(s, i);
            next.layers == s.layers && next.world == s.world
    decreases |s.watches| - i
  {
    if i < |s.watches| {
      AnnounceFromFrame(Announce(s, i), i + 1);
      hide Introduction, Allocate;
    }
  }

  lemma RegisterLeaves(s: State, id: Id, sameClient: bool)
    requires s.counter <= TOKENS
    ensures Register(s, id, sameClient).layers == s.layers
  {
    hide AnnounceFrom, WatchFor;
    var k, next := WatchFor(s.watches, id), s.(trusted := Some(id), mode := FULL);
    if k < |s.watches| {
      AnnounceFromFrame(Withdraw(next, k).(pending := true), 0);
    } else {
      AnnounceFromFrame(next.(pending := true), 0);
    }
  }

  lemma ActivateLeaves(s: State, token: nat, id: Id)
    requires id in s.layers && !IsView(s, id)
    ensures id in Activate(s, token).layers && Activate(s, token).layers[id] == s.layers[id]
  {
    hide Reassert, FindActivatable;
    var k := FindActivatable(s, token, 0);
    if k < |s.watches| {
      ReassertLeaves(s.(active := Some(s.watches[k].surface), mode := if s.watches[k].immersive then HIDDEN else STATUS), id);
    }
  }

  lemma NoneAnnounced(s: State, k: nat)
    requires Inv(s) && s.shell.None? && k < |s.watches|
    ensures !s.watches[k].announced
  {
    if s.watches[k].announced { AnnouncedListens(s, k); }
  }

  /** Without a shell nothing is sent. */
  lemma NothingSent(s: State, input: Input)
    requires Inv(s) && Enabled(s, input) && s.shell.None? && !input.Bound?
    ensures Step(s, input).sent == s.sent && Step(s, input).shell == None
  {
    hide TokenInv, Placed, Watched, Reassert, WatchFor, Commit, Destroy, Register, AnnounceFrom;
    match input
    case IdleReached =>
      NothingTold(s.(pending := false), 0);
      ReassertKeeps(s.(pending := false));
    case Committed(id, world, layers) =>
      WatchFound(s, id);
      NoneAnnounced(s, WatchFor(s.watches, id));
      CommitSilent(s.(world := world, layers := layers), id);
    case Destroyed(id, world, layers) =>
      WatchFound(s, id);
      NoneAnnounced(s, WatchFor(s.watches, id));
      DestroySilent(s.(world := world, layers := layers), id);
    case _ =>
  }

  lemma CommitSilent(s: State, id: Id)
    requires s.counter <= TOKENS && WatchFor(s.watches, id) < |s.watches|
    requires s.shell.None? && !s.watches[WatchFor(s.watches, id)].announced
    ensures Commit(s, id).sent == s.sent && Commit(s, id).shell == None
  {
    hide WatchFor, IsBootSplash, Introduction, Allocate, Unmap;
  }

  lemma DestroySilent(s: State, id: Id)
    requires WatchFor(s.watches, id) < |s.watches| && s.shell.None? && !s.watches[WatchFor(s.watches, id)].announced
    ensures Destroy(s, id).sent == s.sent && Destroy(s, id).shell == None
  {
    hide WatchFor, Reassert;
    var k := WatchFor(s.watches, id);
    ReassertKeeps(RemoveWatch(DropReferences(s, id), k).(mode := FULL));
  }

  /** When a surface goes, so does every reference to it; the loss of the active one or of the shell's leaves the full mode. */
  lemma SurfaceGone(s: State, id: Id, world: map<Id, Surface>, layers: map<Id, Layer>)
    requires Inv(s) && Enabled(s, Destroyed(id, world, layers))
    ensures var next := Step(s, Destroyed(id, world, layers));
            && next.trusted == (if s.trusted == Some(id) then None else s.trusted)
            && next.splash == (if s.splash == Some(id) then None else s.splash)
            && next.active == (if s.active == Some(id) then None else s.active)
            && next.mode == (if s.active == Some(id) || s.trusted == Some(id) then FULL else s.mode)
            && (s.active == Some(id) && s.shell.Some? ==> next.sent != [] && next.sent[|next.sent| - 1] == Action(HOME))
  {
    WatchFound(s, id);
    hide TokenInv, Placed, Watched, Destroy, WatchFor;
    DestroyEffect(s.(world := world, layers := layers), id);
  }
}
