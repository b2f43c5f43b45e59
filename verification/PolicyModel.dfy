/**
 The compositor policy of compositor-policy/cardputerzero-policy.c as a step
 system: one function for every handler, over the policy's fields, the part of
 the compositor it reads, and the events it sent in the current shell session.
 */
module PolicyModel {
  import opened Common
  import opened AppTokens
  import opened Identifiers

  type Id = nat

  /** The four layers the policy owns; a view the policy has not placed is elsewhere. */
  datatype Layer = TrustedLayer | SplashLayer | AppLayer | HiddenLayer | Elsewhere

  /** What libweston says about a surface; `root` is the desktop root, absent for other surfaces. */
  datatype Surface = Surface(mapped: bool, root: Option<Id>, appId: Option<Text>, title: Option<Text>, uid: Option<nat>)

  datatype Watch = Watch(surface: Id, token: nat, announced: bool, immersive: bool)

  /** Events of the shell protocol. */
  datatype Event =
    | Added(token: nat, appId: Text)
    | Removed(token: nat)
    | Identity(token: nat, uid: nat)
    | DisplayMode(token: nat, immersive: bool)
    | ActivationFailed(token: nat)
    | Action(action: nat)

  const FULL: nat := 0
  const STATUS: nat := 1
  const HIDDEN: nat := 2
  const NOTIFICATION: nat := 3

  const HOME: nat := 0
  const POWER: nat := 3
  const HELP: nat := 12
  const SCREENSHOT: nat := 13

  const PROTOCOL_VERSION: nat := 7
  const SHELL_APP_ID: Text := "os.cardputerzero.shell"
  const SPLASH_APP_ID: Text := "os.cardputerzero.boot-splash"
  const STANDARD_TITLE: Text := "cardputerzero:standard"

  datatype State = State(
    world: map<Id, Surface>,
    layers: map<Id, Layer>,
    watches: seq<Watch>,
    splashUid: nat,
    shell: Option<nat>,
    trusted: Option<Id>,
    splash: Option<Id>,
    active: Option<Id>,
    mode: nat,
    counter: nat,
    pending: bool,
    sent: seq<Event>)

  function Initial(splashUid: nat): State {
    State(map[], map[], [], splashUid, None, None, None, None, FULL, 0, false, [])
  }

  // ----- reading the compositor

  /** `first_mapped_view(surface) != NULL` */
  predicate Mapped(s: State, surface: Option<Id>) {
    surface.Some? && surface.value in s.world && s.world[surface.value].mapped
  }

  /** `desktop_root_surface` */
  function Root(s: State, surface: Id): Option<Id> {
    if surface in s.world then s.world[surface].root else None
  }

  predicate IsBootSplash(s: State, surface: Id) {
    Root(s, surface) == Some(surface) && s.world[surface].uid == Some(s.splashUid)
    && s.world[surface].appId == Some(SPLASH_APP_ID)
  }

  function Surfaces(watches: seq<Watch>): (r: seq<Id>)
    ensures |r| == |watches|
  {
    seq(|watches|, i requires 0 <= i < |watches| => watches[i].surface)
  }

  function Tokens(watches: seq<Watch>): (r: seq<nat>)
    ensures |r| == |watches|
  {
    seq(|watches|, i requires 0 <= i < |watches| => watches[i].token)
  }

  /** `watch_for_surface`: the index of the watch, or the length of the list. */
  function WatchFor(watches: seq<Watch>, surface: Id): (r: nat)
    ensures r <= |watches|
    ensures r < |watches| ==> watches[r].surface == surface
    ensures forall i :: 0 <= i < r ==> watches[i].surface != surface
  {
    if watches == [] || watches[0].surface == surface then 0
    else
      var r := 1 + WatchFor(watches[1..], surface);
      assert forall i :: 0 < i < r ==> watches[i] == watches[1..][i - 1];
      r
  }

  // ----- layers

  /** A view that `reassert_layers` moves: mapped, watched, and part of a desktop tree. */
  predicate Placeable(s: State, surface: Id) {
    Mapped(s, Some(surface)) && Root(s, surface).Some? && surface in Surfaces(s.watches)
  }

  /** The layer such a view belongs in. */
  function Prescribed(s: State, surface: Id): Layer {
    var root := Root(s, surface);
    if root == s.trusted then if s.mode != HIDDEN then TrustedLayer else HiddenLayer
    else if root == s.splash then if !Mapped(s, s.trusted) then SplashLayer else HiddenLayer
    else if s.mode != FULL && root == s.active then AppLayer else HiddenLayer
  }

  function Reassert(s: State): State {
    s.(layers := map id | id in s.layers :: if Placeable(s, id) then Prescribed(s, id) else s.layers[id])
  }

  function SetMode(s: State, mode: nat): State { Reassert(s.(mode := mode)) }

  // ----- the session's event stream

  function Send(s: State, event: Event): State { s.(sent := s.sent + [event]) }

  /** Actions are sent whenever a shell is bound. */
  function SendAction(s: State, action: nat): State {
    if s.shell.Some? then Send(s, Action(action)) else s
  }

  predicate ShellListens(s: State) { s.shell.Some? && s.shell.value >= 2 }

  predicate Announceable(s: State, i: nat)
    requires i < |s.watches|
  {
    var id := s.watches[i].surface;
    && !s.watches[i].announced && ShellListens(s) && Root(s, id) == Some(id)
    && s.trusted != Some(id) && s.splash != Some(id) && Mapped(s, Some(id))
  }

  /** The events that introduce one application. */
  function Introduction(version: nat, token: nat, surface: Surface, immersive: bool): seq<Event> {
    [Added(token, Sanitize(surface.appId))]
    + (if version >= 7 && surface.uid.Some? then [Identity(token, surface.uid.value)] else [])
    + (if version >= 3 then [DisplayMode(token, immersive)] else [])
  }

  /** `announce_app` */
  function Announce(s: State, i: nat): (r: State)
    requires i < |s.watches| && s.counter <= TOKENS
    ensures |r.watches| == |s.watches| && r.counter <= TOKENS
  {
    if !Announceable(s, i) then s
    else
      var watch := s.watches[i];
      var surface := s.world[watch.surface];
      var immersive := surface.title != Some(STANDARD_TITLE);
      var unused := Allocate(s.counter, ToSet(Tokens(s.watches)));
      var token := if watch.token == 0 then unused else watch.token;
      s.(counter := if watch.token == 0 then unused else s.counter,
         watches := s.watches[i := Watch(watch.surface, token, true, immersive)],
         sent := s.sent + Introduction(s.shell.value, token, surface, immersive))
  }

  /** `announce_apps`, from the `i`-th watch on. */
  function AnnounceFrom(s: State, i: nat): (r: State)
    requires i <= |s.watches| && s.counter <= TOKENS
    ensures |r.watches| == |s.watches| && r.counter <= TOKENS
    decreases |s.watches| - i
  {
    if i == |s.watches| then s else AnnounceFrom(Announce(s, i), i + 1)
  }

  /** `withdraw_app` */
  function Withdraw(s: State, i: nat): (r: State)
    requires i < |s.watches|
    ensures |r.watches| == |s.watches|
  {
    var watch := s.watches[i];
    if !watch.announced then s
    else
      s.(watches := s.watches[i := watch.(announced := false, token := 0)],
         sent := if ShellListens(s) then s.sent + [Removed(watch.token)] else s.sent)
  }

  // ----- handlers

  /** `surface_created` */
  function Create(s: State, id: Id): State {
    s.(world := s.world[id := Surface(false, None, None, None, None)],
       layers := s.layers[id := Elsewhere],
       watches := [Watch(id, 0, false, false)] + s.watches)
  }

  function RegisterSplash(s: State, id: Id): State {
    if s.splash.None? && IsBootSplash(s, id) then s.(splash := Some(id)) else s
  }

  /** An announced application that lost its view. */
  function Unmap(s: State, k: nat): State
    requires k < |s.watches|
  {
    var id := s.watches[k].surface;
    if s.active == Some(id) then Withdraw(SendAction(SetMode(s.(active := None), FULL), HOME), k)
    else Withdraw(s, k)
  }

  /** `surface_committed` */
  function Commit(s: State, id: Id): State
    requires s.counter <= TOKENS && WatchFor(s.watches, id) < |s.watches|
  {
    var s := RegisterSplash(s, id);
    var k := WatchFor(s.watches, id);
    var next :=
      if s.trusted != Some(id) && s.splash != Some(id) && Root(s, id) == Some(id) then
        if Mapped(s, Some(id)) then Announce(s, k)
        else if s.watches[k].announced then Unmap(s, k)
        else s
      else s;
    next.(pending := true)
  }

  function DropReferences(s: State, id: Id): State {
    s.(trusted := if s.trusted == Some(id) then None else s.trusted,
       mode := if s.trusted == Some(id) then FULL else s.mode,
       splash := if s.splash == Some(id) then None else s.splash,
       active := if s.active == Some(id) then None else s.active)
  }

  function RemoveWatch(s: State, k: nat): State
    requires k < |s.watches|
  {
    s.(watches := s.watches[..k] + s.watches[k + 1..])
  }

  /** `surface_destroyed` */
  function Destroy(s: State, id: Id): State
    requires WatchFor(s.watches, id) < |s.watches|
  {
    var k := WatchFor(s.watches, id);
    var next := RemoveWatch(DropReferences(Withdraw(s, k), id), k);
    if s.active == Some(id) then SendAction(SetMode(next, FULL), HOME) else next.(pending := true)
  }

  /** `reassert_idle` */
  function Idle(s: State): State
    requires s.counter <= TOKENS
  {
    Reassert(AnnounceFrom(s.(pending := false), 0))
  }

  /** `shell_resource_destroyed` */
  function Unbind(s: State): State {
    s.(shell := None, mode := FULL, pending := true,
       watches := seq(|s.watches|, i requires 0 <= i < |s.watches| => s.watches[i].(announced := false)))
  }

  /** `shell_register_surface` */
  function Register(s: State, id: Id, sameClient: bool): State
    requires s.counter <= TOKENS
  {
    if s.trusted.Some? || !sameClient || Root(s, id).None? || s.world[id].appId != Some(SHELL_APP_ID) then s
    else
      var k := WatchFor(s.watches, id);
      var next := s.(trusted := Some(id), mode := FULL);
      var next := if k < |s.watches| then Withdraw(next, k) else next;
      AnnounceFrom(next.(pending := true), 0)
  }

  /** `shell_set_visible` */
  function SetVisible(s: State, visible: nat): State {
    if visible > 1 then s else SetMode(s, if visible == 1 then FULL else HIDDEN)
  }

  /** `shell_set_overlay_mode` */
  function SetOverlay(s: State, mode: nat): State {
    if mode > NOTIFICATION || (mode != FULL && s.active.None?) then s else SetMode(s, mode)
  }

  predicate Activatable(s: State, i: nat, token: nat)
    requires i < |s.watches|
  {
    s.watches[i].announced && s.watches[i].token == token && Mapped(s, Some(s.watches[i].surface))
  }

  function FindActivatable(s: State, token: nat, i: nat): (r: nat)
    requires i <= |s.watches|
    ensures i <= r <= |s.watches| && (r < |s.watches| ==> Activatable(s, r, token))
    decreases |s.watches| - i
  {
    if i == |s.watches| || Activatable(s, i, token) then i else FindActivatable(s, token, i + 1)
  }

  /** `shell_activate_app` */
  function Activate(s: State, token: nat): State {
    var k := FindActivatable(s, token, 0);
    if k == |s.watches| then Send(s, ActivationFailed(token))
    else SetMode(s.(active := Some(s.watches[k].surface)), if s.watches[k].immersive then HIDDEN else STATUS)
  }

  /** `bind_system_shell` */
  function Bind(s: State, version: nat, trustedUid: bool): State
    requires s.counter <= TOKENS
  {
    if !trustedUid || s.shell.Some? then s
    else
      AnnounceFrom(s.(shell := Some(if version < PROTOCOL_VERSION then version else PROTOCOL_VERSION), sent := []), 0)
  }

  /** `cp0_overlay_transient_target` of compositor-policy/overlay-state.c. */
  function TransientTarget(mode: nat): nat {
    if mode == FULL || mode > NOTIFICATION then FULL else NOTIFICATION
  }

  /** `dispatch_system_action` */
  function Dispatch(s: State, action: nat): State {
    if action == UINT32_SIZE - 1 || s.shell.None? || s.trusted.None? then s
    else if action == SCREENSHOT then SendAction(s, action)
    else if action <= POWER || action == HELP then SendAction(SetMode(s, FULL), action)
    else SendAction(SetMode(s, TransientTarget(s.mode)), action)
  }

  // ----- steps

  datatype Input =
    | Created(id: Id)
    | Committed(id: Id, world: map<Id, Surface>, layers: map<Id, Layer>)
    | Destroyed(id: Id, world: map<Id, Surface>, layers: map<Id, Layer>)
    | IdleReached
    | Described(id: Id, appId: Option<Text>, title: Option<Text>, uid: Option<nat>)
    | Bound(version: nat, trustedUid: bool)
    | Unbound
    | Registered(id: Id, sameClient: bool)
    | VisibleSet(visible: nat)
    | OverlaySet(mode: nat)
    | Activated(token: nat)
    | ActionTaken(action: nat)

  /**
   When an input can occur. Views are mapped, re-parented and moved by others
   only together with a commit or a destruction; requests need a bound shell; and
   fewer than 2^32 - 1 surfaces exist at a time.
   */
  predicate Enabled(s: State, input: Input) {
    match input
    case Created(id) => id !in s.world && |s.watches| + 1 < TOKENS
    case Committed(id, world, layers) => id in s.world && world.Keys == layers.Keys == s.world.Keys
    case Destroyed(id, world, layers) => id in s.world && world.Keys == layers.Keys == s.world.Keys - {id}
    case IdleReached => s.pending
    case Described(id, _, _, _) => id in s.world
    case Bound(_, _) => true
    case Unbound => s.shell.Some?
    case Registered(id, _) => s.shell.Some? && id in s.world
    case VisibleSet(_) => s.shell.Some?
    case OverlaySet(_) => s.shell.Some?
    case Activated(_) => s.shell.Some?
    case ActionTaken(_) => true
  }

  /** Every live surface has exactly one watch. */
  ghost predicate Watched(s: State) {
    && (forall id :: id in s.world <==> id in Surfaces(s.watches))
    && (forall i, j :: 0 <= i < j < |s.watches| ==> s.watches[i].surface != s.watches[j].surface)
  }

  lemma WatchFound(s: State, id: Id)
    requires Watched(s) && id in s.world
    ensures WatchFor(s.watches, id) < |s.watches|
  {
    assert id in Surfaces(s.watches);
    var i :| 0 <= i < |s.watches| && Surfaces(s.watches)[i] == id;
  }

  function Step(s: State, input: Input): State
    requires Enabled(s, input) && Watched(s) && s.counter <= TOKENS
  {
    match input
    case Created(id) => Create(s, id)
    case Committed(id, world, layers) => WatchFound(s, id); Commit(s.(world := world, layers := layers), id)
    case Destroyed(id, world, layers) => WatchFound(s, id); Destroy(s.(world := world, layers := layers), id)
    case IdleReached => Idle(s)
    case Described(id, appId, title, uid) =>
      s.(world := s.world[id := s.world[id].(appId := appId, title := title, uid := uid)])
    case Bound(version, trustedUid) => Bind(s, version, trustedUid)
    case Unbound => Unbind(s)
    case Registered(id, sameClient) => Register(s, id, sameClient)
    case VisibleSet(visible) => SetVisible(s, visible)
    case OverlaySet(mode) => SetOverlay(s, mode)
    case Activated(token) => Activate(s, token)
    case ActionTaken(action) => Dispatch(s, action)
  }
}
