/** The handlers in the source's own form: one policy object whose fields they update. */
module Policy {
  import opened Common
  import opened AppTokens
  import opened Identifiers
  import opened PolicyModel
  import opened PolicyInvariants

  class CompositorPolicy {
    var world: map<Id, Surface>
    var layers: map<Id, Layer>
    var watches: seq<Watch>
    var splashUid: nat
    var shell: Option<nat>
    var trusted: Option<Id>
    var splash: Option<Id>
    var active: Option<Id>
    var mode: nat
    var counter: nat
    var pending: bool
    var sent: seq<Event>

    function Abs(): State
      reads this
    {
      State(world, layers, watches, splashUid, shell, trusted, splash, active, mode, counter, pending, sent)
    }

    constructor (splashUid: nat)
      ensures Abs() == Initial(splashUid) && Inv(Abs())
    {
      world, layers, watches, sent := map[], map[], [], [];
      this.splashUid := splashUid;
      shell, trusted, splash, active := None, None, None, None;
      mode, counter, pending := FULL, 0, false;
      new;
      InitialInv(splashUid);
    }

    /** Moves one view to its layer. */
    method PlaceView(id: Id, ghost before: State)
      requires id in world && world[id].root.Some? && before == Abs().(layers := before.layers)
      modifies this`layers
      ensures layers == old(layers)[id := Prescribed(before, id)]
    {
      var root := world[id].root;
      if root == trusted {
        layers := layers[id := if mode != HIDDEN then TrustedLayer else HiddenLayer];
      } else if root == splash {
        var shellMapped := trusted.Some? && trusted.value in world && world[trusted.value].mapped;
        layers := layers[id := if !shellMapped then SplashLayer else HiddenLayer];
      } else {
        layers := layers[id := if mode != FULL && root == active then AppLayer else HiddenLayer];
      }
    }

    method ReassertLayers()
      requires layers.Keys == world.Keys
      modifies this`layers
      ensures Abs() == Reassert(old(Abs()))
    {
      hide Prescribed, Placeable, ReassertedUpTo;
      ghost var before := Abs();
      ReassertStart(before);
      for i := 0 to |watches|
        invariant layers == ReassertedUpTo(before, i)
      {
        var id := watches[i].surface;
        ReassertNext(before, i);
        if id in world && world[id].root.Some? && world[id].mapped {
          PlaceView(id, before);
        }
      }
      ReassertEnd(before);
    }

    method SetOverlayMode(newMode: nat)
      requires layers.Keys == world.Keys
      modifies this`mode, this`layers
      ensures Abs() == SetMode(old(Abs()), newMode)
    {
      mode := newMode;
      ReassertLayers();
    }

    method AllocateAppToken() returns (token: nat)
      requires counter <= TOKENS && |watches| < TOKENS
      modifies this`counter
      ensures token == counter == Allocate(old(counter), ToSet(Tokens(watches)))
      ensures 1 <= token <= TOKENS && forall i :: 0 <= i < |watches| ==> watches[i].token != token
    {
      counter := AllocateToken(counter, Tokens(watches));
      token := counter;
      forall i | 0 <= i < |watches| ensures watches[i].token != token {
        assert Tokens(watches)[i] in Tokens(watches);
      }
    }

    method SendIntroduction(token: nat, surface: Surface, immersive: bool)
      requires shell.Some?
      modifies this`sent
      ensures sent == old(sent) + Introduction(shell.value, token, surface, immersive)
    {
      var safeAppId := Sanitize(surface.appId);
      sent := sent + [Added(token, safeAppId)];
      if shell.value >= 7 && surface.uid.Some? {
        sent := sent + [Identity(token, surface.uid.value)];
      }
      if shell.value >= 3 {
        sent := sent + [DisplayMode(token, immersive)];
      }
    }

    method AnnounceApp(i: nat)
      requires i < |watches| < TOKENS && counter <= TOKENS
      modifies this`watches, this`counter, this`sent
      ensures Abs() == Announce(old(Abs()), i)
    {
      hide Allocate, Introduction;
      var watch := watches[i];
      var id := watch.surface;
      if watch.announced || shell.None? || shell.value < 2 || id !in world || world[id].root != Some(id)
         || trusted == Some(id) || splash == Some(id) || !world[id].mapped {
        return;
      }
      var surface := world[id];
      var immersive := surface.title != Some(STANDARD_TITLE);
      var token := watch.token;
      if token == 0 { token := AllocateAppToken(); }
      SendIntroduction(token, surface, immersive);
      watches := watches[i := Watch(id, token, true, immersive)];
    }

    method AnnounceApps()
      requires |watches| < TOKENS && counter <= TOKENS
      modifies this`watches, this`counter, this`sent
      ensures Abs() == AnnounceFrom(old(Abs()), 0)
    {
      hide Announce;
      var i := 0;
      while i < |watches|
        invariant 0 <= i <= |watches| == |old(watches)| && counter <= TOKENS
        invariant AnnounceFrom(Abs(), i) == AnnounceFrom(old(Abs()), 0)
      {
        AnnounceApp(i);
        i := i + 1;
      }
    }

    method WithdrawApp(i: nat)
      requires i < |watches|
      modifies this`watches, this`sent
      ensures Abs() == Withdraw(old(Abs()), i)
    {
      var watch := watches[i];
      if !watch.announced { return; }
      if shell.Some? && shell.value >= 2 {
        sent := sent + [Removed(watch.token)];
      }
      watches := watches[i := watch.(announced := false, token := 0)];
    }

    method SendHome()
      modifies this`sent
      ensures Abs() == SendAction(old(Abs()), HOME)
    {
      if shell.Some? { sent := sent + [Action(HOME)]; }
    }

    method FindWatch(id: Id) returns (index: nat)
      ensures index == WatchFor(watches, id)
    {
      index := 0;
      while index < |watches|
        invariant 0 <= index <= |watches|
        invariant forall i :: 0 <= i < index ==> watches[i].surface != id
      {
        if watches[index].surface == id { return; }
        index := index + 1;
      }
    }

    method RegisterBootSplash(id: Id)
      requires id in world
      modifies this`splash
      ensures Abs() == RegisterSplash(old(Abs()), id)
    {
      if splash.None? && world[id].root == Some(id) && world[id].uid == Some(splashUid)
         && world[id].appId == Some(SPLASH_APP_ID) {
        splash := Some(id);
      }
    }

    method UnmapApp(k: nat)
      requires k < |watches| && layers.Keys == world.Keys
      modifies this
      ensures Abs() == Unmap(old(Abs()), k)
    {
      hide Withdraw, Reassert;
      if active == Some(watches[k].surface) {
        active := None;
        SetOverlayMode(FULL);
        SendHome();
      }
      WithdrawApp(k);
    }

    method HandleCommit(id: Id)
      requires layers.Keys == world.Keys && |watches| < TOKENS && counter <= TOKENS
      requires id in world && WatchFor(watches, id) < |watches|
      modifies this
      ensures Abs() == Commit(old(Abs()), id)
    {
      hide Announce, Unmap;
      RegisterBootSplash(id);
      var k := FindWatch(id);
      if trusted != Some(id) && splash != Some(id) && world[id].root == Some(id) {
        if world[id].mapped {
          AnnounceApp(k);
        } else if watches[k].announced {
          UnmapApp(k);
        }
      }
      pending := true;
    }

    /** A surface changed; `newWorld` and `newLayers` are what the compositor made of it. */
    method SurfaceCommitted(id: Id, newWorld: map<Id, Surface>, newLayers: map<Id, Layer>)
      requires Inv(Abs()) && Enabled(Abs(), Committed(id, newWorld, newLayers))
      modifies this
      ensures Abs() == Step(old(Abs()), Committed(id, newWorld, newLayers)) && Inv(Abs())
    {
      hide Commit, Inv;
      StepKeeps(Abs(), Committed(id, newWorld, newLayers));
      StructureOf(Abs());
      WatchFound(Abs(), id);
      world, layers := newWorld, newLayers;
      HandleCommit(id);
    }

    method ForgetSurface(id: Id)
      modifies this`trusted, this`mode, this`splash, this`active
      ensures Abs() == DropReferences(old(Abs()), id)
    {
      if trusted == Some(id) {
        trusted := None;
        mode := FULL;
      }
      if splash == Some(id) { splash := None; }
      if active == Some(id) { active := None; }
    }

    method HandleDestroy(id: Id)
      requires layers.Keys == world.Keys && WatchFor(watches, id) < |watches|
      modifies this
      ensures Abs() == Destroy(old(Abs()), id)
    {
      hide Withdraw, Reassert, DropReferences;
      var activeLost := active == Some(id);
      var k := FindWatch(id);
      WithdrawApp(k);
      WithdrawLayout(old(Abs()), k);
      assert Abs().layers.Keys == Abs().world.Keys;
      ForgetSurface(id);
      DropKeepsViews(Withdraw(old(Abs()), k), id);
      watches := watches[..k] + watches[k + 1..];
      if activeLost {
        SetOverlayMode(FULL);
        SendHome();
      } else {
        pending := true;
      }
    }

    method SurfaceDestroyed(id: Id, newWorld: map<Id, Surface>, newLayers: map<Id, Layer>)
      requires Inv(Abs()) && Enabled(Abs(), Destroyed(id, newWorld, newLayers))
      modifies this
      ensures Abs() == Step(old(Abs()), Destroyed(id, newWorld, newLayers)) && Inv(Abs())
    {
      hide Destroy, Inv;
      StepKeeps(Abs(), Destroyed(id, newWorld, newLayers));
      StructureOf(Abs());
      WatchFound(Abs(), id);
      world, layers := newWorld, newLayers;
      HandleDestroy(id);
    }

    method SurfaceCreated(id: Id)
      requires Inv(Abs()) && Enabled(Abs(), Created(id))
      modifies this
      ensures Abs() == Step(old(Abs()), Created(id)) && Inv(Abs())
    {
      hide Inv;
      StepKeeps(Abs(), Created(id));
      world := world[id := Surface(false, None, None, None, None)];
      layers := layers[id := Elsewhere];
      watches := [Watch(id, 0, false, false)] + watches;
    }

    method ReassertIdle()
      requires Inv(Abs()) && pending
      modifies this
      ensures Abs() == Step(old(Abs()), IdleReached) && Inv(Abs())
    {
      hide Inv, AnnounceFrom, Reassert;
      StepKeeps(Abs(), IdleReached);
      StructureOf(Abs());
      pending := false;
      AnnounceApps();
      AnnounceFromBacked(old(Abs()).(pending := false), 0);
      ReassertLayers();
    }

    method ShellResourceDestroyed()
      requires Inv(Abs()) && shell.Some?
      modifies this
      ensures Abs() == Step(old(Abs()), Unbound) && Inv(Abs())
    {
      hide Inv;
      StepKeeps(Abs(), Unbound);
      shell := None;
      mode := FULL;
      for i := 0 to |watches|
        invariant |watches| == |old(watches)| && shell == None && mode == FULL
        invariant forall j :: 0 <= j < |watches| ==>
          watches[j] == if j < i then old(watches)[j].(announced := false) else old(watches)[j]
        invariant Abs() == old(Abs()).(shell := None, mode := FULL, watches := watches)
      {
        watches := watches[i := watches[i].(announced := false)];
      }
      pending := true;
      assert watches == Unbind(old(Abs())).watches;
    }

    method RegisterSurface(id: Id, sameClient: bool)
      requires Inv(Abs()) && Enabled(Abs(), Registered(id, sameClient))
      modifies this
      ensures Abs() == Step(old(Abs()), Registered(id, sameClient)) && Inv(Abs())
    {
      hide Inv, Register;
      StepKeeps(Abs(), Registered(id, sameClient));
      StructureOf(Abs());
      HandleRegister(id, sameClient);
    }

    method HandleRegister(id: Id, sameClient: bool)
      requires |watches| < TOKENS && counter <= TOKENS && id in world
      modifies this
      ensures Abs() == Register(old(Abs()), id, sameClient)
    {
      hide Withdraw, AnnounceFrom;
      if trusted.Some? || !sameClient || world[id].root.None? || world[id].appId != Some(SHELL_APP_ID) { return; }
      trusted := Some(id);
      mode := FULL;
      var k := FindWatch(id);
      if k < |watches| {
        WithdrawLayout(Abs(), k);
        WithdrawApp(k);
      }
      pending := true;
      AnnounceApps();
    }

    method ShellSetVisible(visible: nat)
      requires Inv(Abs()) && shell.Some?
      modifies this
      ensures Abs() == Step(old(Abs()), VisibleSet(visible)) && Inv(Abs())
    {
      hide Inv, SetMode;
      StepKeeps(Abs(), VisibleSet(visible));
      StructureOf(Abs());
      if visible > 1 { return; }
      SetOverlayMode(if visible == 1 then FULL else HIDDEN);
    }

    method ShellSetOverlayMode(newMode: nat)
      requires Inv(Abs()) && shell.Some?
      modifies this
      ensures Abs() == Step(old(Abs()), OverlaySet(newMode)) && Inv(Abs())
    {
      hide Inv, SetMode;
      StepKeeps(Abs(), OverlaySet(newMode));
      StructureOf(Abs());
      if newMode > NOTIFICATION || (newMode != FULL && active.None?) { return; }
      SetOverlayMode(newMode);
    }

    method ActivateApp(token: nat)
      requires Inv(Abs()) && shell.Some?
      modifies this
      ensures Abs() == Step(old(Abs()), Activated(token)) && Inv(Abs())
    {
      hide Inv, SetMode;
      StepKeeps(Abs(), Activated(token));
      StructureOf(Abs());
      var i := 0;
      while i < |watches|
        invariant 0 <= i <= |watches| && Abs() == old(Abs())
        invariant FindActivatable(Abs(), token, i) == FindActivatable(Abs(), token, 0)
      {
        var id := watches[i].surface;
        if watches[i].announced && watches[i].token == token && id in world && world[id].mapped {
          active := Some(id);
          SetOverlayMode(if watches[i].immersive then HIDDEN else STATUS);
          return;
        }
        i := i + 1;
      }
      sent := sent + [ActivationFailed(token)];
    }

    method BindSystemShell(version: nat, trustedUid: bool)
      requires Inv(Abs())
      modifies this
      ensures Abs() == Step(old(Abs()), Bound(version, trustedUid)) && Inv(Abs())
    {
      hide Inv, AnnounceFrom;
      StepKeeps(Abs(), Bound(version, trustedUid));
      StructureOf(Abs());
      if !trustedUid || shell.Some? { return; }
      shell := Some(if version < PROTOCOL_VERSION then version else PROTOCOL_VERSION);
      sent := [];
      AnnounceApps();
    }

    method DispatchSystemAction(action: nat)
      requires Inv(Abs())
      modifies this
      ensures Abs() == Step(old(Abs()), ActionTaken(action)) && Inv(Abs())
    {
      hide Inv, SetMode;
      StepKeeps(Abs(), ActionTaken(action));
      StructureOf(Abs());
      if action == UINT32_SIZE - 1 || shell.None? || trusted.None? { return; }
      if action != SCREENSHOT {
        if action <= POWER || action == HELP {
          SetOverlayMode(FULL);
        } else {
          SetOverlayMode(TransientTarget(mode));
        }
      }
      sent := sent + [Action(action)];
    }
  }

  /** The layers once the first `i` watches are handled. */
  ghost function ReassertedUpTo(s: State, i: nat): map<Id, Layer>
    requires i <= |s.watches|
  {
    map id | id in s.layers ::
      if Placeable(s, id) && id in Surfaces(s.watches)[..i] then Prescribed(s, id) else s.layers[id]
  }

  lemma ReassertStart(s: State)
    ensures ReassertedUpTo(s, 0) == s.layers
  {
  }

  lemma ReassertNext(s: State, i: nat)
    requires i < |s.watches| && s.layers.Keys == s.world.Keys
    ensures var id := s.watches[i].surface;
            ReassertedUpTo(s, i + 1) ==
            if id in s.world && s.world[id].root.Some? && s.world[id].mapped
            then ReassertedUpTo(s, i)[id := Prescribed(s, id)] else ReassertedUpTo(s, i)
  {
    hide Prescribed;
    var id := s.watches[i].surface;
    assert Surfaces(s.watches)[i] == id;
    assert Surfaces(s.watches)[..i + 1] == Surfaces(s.watches)[..i] + [id];
  }

  lemma ReassertEnd(s: State)
    ensures ReassertedUpTo(s, |s.watches|) == Reassert(s).layers
  {
    assert Surfaces(s.watches)[..|s.watches|] == Surfaces(s.watches);
  }

  lemma StructureOf(s: State)
    requires Inv(s)
    ensures Watched(s) && s.layers.Keys == s.world.Keys && |s.watches| < TOKENS && s.counter <= TOKENS
  {
  }

  lemma DropKeepsViews(s: State, id: Id)
    ensures var r := DropReferences(s, id);
            r.world == s.world && r.layers == s.layers && r.watches == s.watches
  {
  }
}
