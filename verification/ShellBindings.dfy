/**
 The shell's mirror of the compositor's applications, `app_surfaces` of
 system-shell/src/main.c, fed by the event stream of its session.
 */
module ShellBindings {
  import opened Common
  import opened PolicyModel
  import opened PolicyInvariants

  const SURFACE_MAX: nat := 32
  const APP_ID_CHARS: nat := 128

  datatype Binding = Binding(token: nat, uid: nat, appId: Text)

  const EMPTY := Binding(0, 0, [])

  /** The bytes of `text` that fit the fixed `app_id` field. */
  function Truncated(text: Text): Text { if |text| <= APP_ID_CHARS then text else text[..APP_ID_CHARS] }

  /** `surface_binding`: the index of a token's binding, or the number of bindings. */
  function Find(bindings: seq<Binding>, token: nat): (r: nat)
    ensures r <= |bindings| && (r < |bindings| ==> bindings[r].token == token)
    ensures forall i :: 0 <= i < r ==> bindings[i].token != token
  {
    if bindings == [] || bindings[0].token == token then 0
    else
      var r := 1 + Find(bindings[1..], token);
      assert forall i :: 0 < i < r ==> bindings[i] == bindings[1..][i - 1];
      r
  }

  /** `remember_surface` */
  function Remember(bindings: seq<Binding>, token: nat, appId: Text): seq<Binding> {
    var k := Find(bindings, token);
    if k < |bindings| then bindings[k := bindings[k].(appId := Truncated(appId))]
    else if |bindings| == SURFACE_MAX then bindings
    else bindings + [Binding(token, 0, Truncated(appId))]
  }

  /** `forget_surface` */
  function Forget(bindings: seq<Binding>, token: nat): seq<Binding> {
    var k := Find(bindings, token);
    if k < |bindings| then bindings[..k] + bindings[k + 1..] else bindings
  }

  /** The part of `handle_app_identity` that touches the bindings. */
  function Identify(bindings: seq<Binding>, token: nat, uid: nat): seq<Binding> {
    var k := Find(bindings, token);
    if k < |bindings| && uid != 0 then bindings[k := bindings[k].(uid := uid)] else bindings
  }

  function Consume(bindings: seq<Binding>, event: Event): seq<Binding> {
    match event
    case Added(token, appId) => Remember(bindings, token, appId)
    case Removed(token) => Forget(bindings, token)
    case ActivationFailed(token) => Forget(bindings, token)
    case Identity(token, uid) => Identify(bindings, token, uid)
    case _ => bindings
  }

  /** The bindings after a session's first events. */
  function Mirror(sent: seq<Event>): seq<Binding> {
    if sent == [] then [] else Consume(Mirror(sent[..|sent| - 1]), sent[|sent| - 1])
  }

  // ----- the fixed array

  class SurfaceTable {
    const slots: array<Binding>
    var count: nat

    ghost predicate Valid()
      reads this
    {
      slots.Length == SURFACE_MAX && count <= SURFACE_MAX
    }

    ghost function Contents(): seq<Binding>
      requires Valid()
      reads this, slots
    {
      slots[..count]
    }

    constructor ()
      ensures Valid() && fresh(slots) && Contents() == []
    {
      slots := new Binding[SURFACE_MAX](_ => EMPTY);
      count := 0;
    }

    method FindBinding(token: nat) returns (index: nat)
      requires Valid()
      ensures index == Find(Contents(), token)
    {
      index := 0;
      while index < count
        invariant index <= count && forall i :: 0 <= i < index ==> Contents()[i].token != token
      {
        if slots[index].token == token { return; }
        index := index + 1;
      }
    }

    method RememberSurface(token: nat, appId: Text)
      requires Valid()
      modifies this`count, slots
      ensures Valid() && Contents() == Remember(old(Contents()), token, appId)
    {
      var index := FindBinding(token);
      if index == count {
        if count == SURFACE_MAX { return; }
        slots[index] := Binding(token, 0, []);
        count := count + 1;
      }
      slots[index] := slots[index].(appId := Truncated(appId));
    }

    /** The `memmove` over a removed binding, and the clearing of the last place. */
    method CloseGap(index: nat)
      requires Valid() && index < count
      modifies this`count, slots
      ensures Valid() && Contents() == old(Contents())[..index] + old(Contents())[index + 1..]
    {
      ghost var before := Contents();
      var last := count - 1;
      forall i | index <= i < last { slots[i] := slots[i + 1]; }
      assert forall i :: 0 <= i < index ==> slots[i] == before[i];
      assert forall i :: index <= i < last ==> slots[i] == before[i + 1];
      slots[last] := EMPTY;
      count := last;
    }

    method ForgetSurface(token: nat)
      requires Valid()
      modifies this`count, slots
      ensures Valid() && Contents() == Forget(old(Contents()), token)
    {
      var index := FindBinding(token);
      if index < count { CloseGap(index); }
    }

    method HandleIdentity(token: nat, uid: nat)
      requires Valid()
      modifies slots
      ensures Valid() && Contents() == Identify(old(Contents()), token, uid)
    {
      var index := FindBinding(token);
      if index == count || uid == 0 { return; }
      slots[index] := slots[index].(uid := uid);
    }

    method HandleEvent(event: Event)
      requires Valid()
      modifies this`count, slots
      ensures Valid() && Contents() == Consume(old(Contents()), event)
    {
      match event
      case Added(token, appId) => RememberSurface(token, appId);
      case Removed(token) => ForgetSurface(token);
      case ActivationFailed(token) => ForgetSurface(token);
      case Identity(token, uid) => HandleIdentity(token, uid);
      case DisplayMode(_, _) =>
      case Action(_) =>
    }
  }

  // ----- the mirror and the stream

  /** What a stream says of a live token: its application, and the last nonzero account or 0. */
  datatype App = App(appId: Text, uid: nat)

  function AppsAfter(live: map<nat, App>, event: Event): map<nat, App> {
    match event
    case Added(token, appId) => live[token := App(appId, 0)]
    case Removed(token) => live - {token}
    case Identity(token, uid) =>
      if token in live && uid != 0 then live[token := live[token].(uid := uid)] else live
    case _ => live
  }

  /** The live tokens of a stream, with what it says of each. */
  function LiveApps(sent: seq<Event>): map<nat, App> {
    if sent == [] then map[] else AppsAfter(LiveApps(sent[..|sent| - 1]), sent[|sent| - 1])
  }

  lemma {:induction false} LiveAppsKeys(sent: seq<Event>)
    ensures LiveApps(sent).Keys == Live(sent)
    decreases |sent|
  {
    if sent != [] { LiveAppsKeys(sent[..|sent| - 1]); }
  }

  /** Distinct bindings, each of a live token, with the application and the account announced for it. */
  predicate Faithful(bindings: seq<Binding>, live: map<nat, App>) {
    && |bindings| <= SURFACE_MAX
    && (forall i, j :: 0 <= i < j < |bindings| ==> bindings[i].token != bindings[j].token)
    && (forall i :: 0 <= i < |bindings| ==>
          bindings[i].token in live && Describes(bindings[i], live[bindings[i].token]))
  }

  predicate Describes(binding: Binding, app: App) { binding.appId == Truncated(app.appId) && binding.uid == app.uid }

  predicate Complete(bindings: seq<Binding>, live: map<nat, App>) {
    forall token :: token in live ==> Find(bindings, token) < |bindings|
  }

  lemma FoundAt(bindings: seq<Binding>, i: nat)
    requires i < |bindings|
    ensures Find(bindings, bindings[i].token) <= i
  {
  }

  lemma RememberFaithful(bindings: seq<Binding>, live: map<nat, App>, token: nat, appId: Text)
    requires Faithful(bindings, live) && token !in live
    ensures Faithful(Remember(bindings, token, appId), live[token := App(appId, 0)])
    ensures Complete(bindings, live) && |live| < SURFACE_MAX ==>
      Complete(Remember(bindings, token, appId), live[token := App(appId, 0)])
  {
    var r := Remember(bindings, token, appId);
    if Complete(bindings, live) && |live| < SURFACE_MAX {
      BindingsBound(bindings, live);
      forall t | t in live[token := App(appId, 0)] ensures Find(r, t) < |r| {
        var i := if t == token then |bindings| else Find(bindings, t);
        assert r[i].token == t;
        FoundAt(r, i);
      }
    }
  }

  /** Distinct tokens of a set are no more than the set has. */
  lemma {:induction false} BindingsBound(bindings: seq<Binding>, live: map<nat, App>)
    requires Faithful(bindings, live)
    ensures |bindings| <= |live|
    decreases |bindings|
  {
    if bindings != [] {
      var last := bindings[|bindings| - 1].token;
      assert Faithful(bindings[..|bindings| - 1], live - {last});
      BindingsBound(bindings[..|bindings| - 1], live - {last});
      assert (live - {last}).Keys == live.Keys - {last};
      assert |live - {last}| == |(live - {last}).Keys| && |live| == |live.Keys|;
    }
  }

  /** What is left after `Forget`, element by element. */
  lemma ForgetElement(bindings: seq<Binding>, token: nat, i: nat)
    requires Find(bindings, token) < |bindings| && i < |bindings| - 1
    ensures |Forget(bindings, token)| == |bindings| - 1
    ensures Forget(bindings, token)[i] == bindings[if i < Find(bindings, token) then i else i + 1]
  {
    hide Find;
  }

  lemma ForgetKeepsFaithful(bindings: seq<Binding>, live: map<nat, App>, token: nat)
    requires Faithful(bindings, live)
    ensures Faithful(Forget(bindings, token), live - {token}) && Faithful(Forget(bindings, token), live)
  {
    hide Forget;
    var k, r := Find(bindings, token), Forget(bindings, token);
    if k == |bindings| {
      NothingForgotten(bindings, token);
    } else {
      NothingLeft(bindings, token);
      forall i | 0 <= i < |r|
        ensures r[i].token != token && r[i].token in live && Describes(r[i], live[r[i].token])
      {
        ForgetElement(bindings, token, i);
      }
      forall i, j | 0 <= i < j < |r| ensures r[i].token != r[j].token {
        ForgetElement(bindings, token, i);
        ForgetElement(bindings, token, j);
      }
    }
  }

  lemma NothingForgotten(bindings: seq<Binding>, token: nat)
    requires Find(bindings, token) == |bindings|
    ensures Forget(bindings, token) == bindings
  {
  }

  lemma NothingLeft(bindings: seq<Binding>, token: nat)
    requires Find(bindings, token) < |bindings|
    ensures |Forget(bindings, token)| == |bindings| - 1
  {
  }

  lemma ForgetFaithful(bindings: seq<Binding>, live: map<nat, App>, token: nat)
    requires Faithful(bindings, live)
    ensures Faithful(Forget(bindings, token), live - {token}) && Faithful(Forget(bindings, token), live)
    ensures Complete(bindings, live) ==> Complete(Forget(bindings, token), live - {token})
  {
    hide Forget, Faithful;
    ForgetKeepsFaithful(bindings, live, token);
    var k, r := Find(bindings, token), Forget(bindings, token);
    if Complete(bindings, live) {
      if k == |bindings| { NothingForgotten(bindings, token); } else { NothingLeft(bindings, token); }
      forall t | t in live - {token} ensures Find(r, t) < |r| {
        var j := Find(bindings, t);
        var i := if k < j then j - 1 else j;
        if k < |bindings| {
          ForgetElement(bindings, token, i);
        }
        FoundAt(r, i);
      }
    }
  }

  lemma IdentifyElement(bindings: seq<Binding>, token: nat, uid: nat, i: nat)
    requires i < |bindings|
    ensures |Identify(bindings, token, uid)| == |bindings|
    ensures Identify(bindings, token, uid)[i] ==
            if i == Find(bindings, token) && uid != 0 then bindings[i].(uid := uid) else bindings[i]
  {
    hide Find;
  }

  lemma IdentifyLength(bindings: seq<Binding>, token: nat, uid: nat)
    ensures |Identify(bindings, token, uid)| == |bindings|
  {
    hide Find;
  }

  lemma IdentifyKeepsFaithful(bindings: seq<Binding>, live: map<nat, App>, token: nat, uid: nat)
    requires Faithful(bindings, live)
    ensures Faithful(Identify(bindings, token, uid), AppsAfter(live, Identity(token, uid)))
  {
    hide Identify;
    var r, after := Identify(bindings, token, uid), AppsAfter(live, Identity(token, uid));
    IdentifyLength(bindings, token, uid);
    forall i | 0 <= i < |r|
      ensures r[i].token == bindings[i].token && r[i].token in after && Describes(r[i], after[r[i].token])
    {
      IdentifyElement(bindings, token, uid, i);
      FoundAt(bindings, i);
    }
  }

  lemma IdentifyFaithful(bindings: seq<Binding>, live: map<nat, App>, token: nat, uid: nat)
    requires Faithful(bindings, live)
    ensures Faithful(Identify(bindings, token, uid), AppsAfter(live, Identity(token, uid)))
    ensures Complete(bindings, live) ==> Complete(Identify(bindings, token, uid), AppsAfter(live, Identity(token, uid)))
  {
    hide Faithful, Identify;
    IdentifyKeepsFaithful(bindings, live, token, uid);
    var r := Identify(bindings, token, uid);
    if Complete(bindings, live) {
      forall t | t in AppsAfter(live, Identity(token, uid)) ensures Find(r, t) < |r| {
        var i := Find(bindings, t);
        IdentifyElement(bindings, token, uid, i);
        FoundAt(r, i);
      }
    }
  }

  /** After any prefix of a session the shell's bindings are distinct live tokens with the right names and accounts. */
  lemma {:induction false} MirrorFaithful(sent: seq<Event>)
    requires StreamOk(sent)
    ensures Faithful(Mirror(sent), LiveApps(sent))
    decreases |sent|
  {
    if sent != [] {
      hide Faithful, Remember, Forget, Identify;
      var before, event := sent[..|sent| - 1], sent[|sent| - 1];
      MirrorFaithful(before);
      LiveAppsKeys(before);
      match event
      case Added(token, appId) => RememberFaithful(Mirror(before), LiveApps(before), token, appId);
      case Removed(token) => ForgetFaithful(Mirror(before), LiveApps(before), token);
      case ActivationFailed(token) => ForgetFaithful(Mirror(before), LiveApps(before), token);
      case Identity(token, uid) => IdentifyFaithful(Mirror(before), LiveApps(before), token, uid);
      case _ =>
    } else {
      assert Faithful([], map[]);
    }
  }

  /** At no point of the stream were more than 32 tokens alive, and no activation failed. */
  predicate Roomy(sent: seq<Event>) {
    forall k :: 0 <= k < |sent| ==> RoomyAt(sent, k)
  }

  predicate RoomyAt(sent: seq<Event>, k: nat)
    requires k < |sent|
  {
    !sent[k].ActivationFailed? && |Live(sent[..k + 1])| <= SURFACE_MAX
  }

  lemma RoomyPrefix(sent: seq<Event>)
    requires sent != [] && Roomy(sent)
    ensures Roomy(sent[..|sent| - 1]) && !sent[|sent| - 1].ActivationFailed? && |Live(sent)| <= SURFACE_MAX
  {
    hide Live;
    var before := sent[..|sent| - 1];
    forall k | 0 <= k < |before| ensures RoomyAt(before, k) {
      assert before[..k + 1] == sent[..k + 1];
      assert RoomyAt(sent, k);
    }
    assert RoomyAt(sent, |sent| - 1);
    assert sent[..|sent| - 1 + 1] == sent;
  }

  lemma RoomyLast(sent: seq<Event>)
    requires sent != [] && Roomy(sent) && StreamOk(sent)
    ensures Roomy(sent[..|sent| - 1]) && !sent[|sent| - 1].ActivationFailed?
    ensures sent[|sent| - 1].Added? ==> |LiveApps(sent[..|sent| - 1])| < SURFACE_MAX
  {
    var before, event := sent[..|sent| - 1], sent[|sent| - 1];
    RoomyPrefix(sent);
    assert Sensible(Live(before), event) && Live(sent) == After(Live(before), event);
    hide Live, LiveApps, StreamOk, Roomy;
    if event.Added? {
      LiveAppsKeys(before);
      OneMore(Live(before), event.token);
      assert |LiveApps(before)| == |LiveApps(before).Keys|;
    }
  }

  lemma OneMore(live: set<nat>, token: nat)
    ensures token !in live ==> |live + {token}| == |live| + 1
  {
  }

  /** Then the bindings are all the live tokens. */
  lemma {:induction false} MirrorComplete(sent: seq<Event>)
    requires StreamOk(sent) && Roomy(sent)
    ensures Complete(Mirror(sent), LiveApps(sent))
    decreases |sent|
  {
    if sent != [] {
      hide Faithful, Remember, Forget, Identify, Complete, Roomy;
      var before, event := sent[..|sent| - 1], sent[|sent| - 1];
      RoomyLast(sent);
      MirrorComplete(before);
      MirrorFaithful(before);
      LiveAppsKeys(before);
      match event
      case Added(token, appId) => RememberFaithful(Mirror(before), LiveApps(before), token, appId);
      case Removed(token) => ForgetFaithful(Mirror(before), LiveApps(before), token);
      case Identity(token, uid) => IdentifyFaithful(Mirror(before), LiveApps(before), token, uid);
      case _ =>
    }
  }

  lemma {:induction false} StreamPrefix(sent: seq<Event>, k: nat)
    requires StreamOk(sent) && k <= |sent|
    ensures StreamOk(sent[..k])
    decreases |sent|
  {
    if k == |sent| {
      assert sent[..k] == sent;
    } else {
      StreamPrefix(sent[..|sent| - 1], k);
      assert sent[..|sent| - 1][..k] == sent[..k];
    }
  }

  /**
   End to end: in every reachable state of the compositor, a shell that has
   consumed any prefix of its session binds distinct live tokens only, and all of
   them while at most 32 were alive and no activation failed.
   */
  lemma BindingsFollowCompositor(s: State, k: nat)
    requires Reachable(s) && k <= |s.sent|
    ensures Faithful(Mirror(s.sent[..k]), LiveApps(s.sent[..k]))
    ensures LiveApps(s.sent[..k]).Keys == Live(s.sent[..k])
    ensures Roomy(s.sent[..k]) ==> Complete(Mirror(s.sent[..k]), LiveApps(s.sent[..k]))
  {
    ReachableInv(s);
    StreamPrefix(s.sent, k);
    MirrorFaithful(s.sent[..k]);
    LiveAppsKeys(s.sent[..k]);
    if Roomy(s.sent[..k]) { MirrorComplete(s.sent[..k]); }
  }

  /**
   Once it has read everything, it binds only tokens of announced watches, and
   exactly those while at most 32 were alive and no activation failed.
   */
  lemma BindingsAreAnnounced(s: State, token: nat)
    requires Reachable(s) && s.shell.Some?
    ensures IsBound(Mirror(s.sent), token) ==> HoldsAnnounced(s.watches, token)
    ensures Roomy(s.sent) ==> (IsBound(Mirror(s.sent), token) <==> HoldsAnnounced(s.watches, token))
  {
    ReachableInv(s);
    MirrorFaithful(s.sent);
    LiveAppsKeys(s.sent);
    hide Mirror, LiveApps, Live, Describes;
    if Roomy(s.sent) { MirrorComplete(s.sent); }
  }

  predicate IsBound(bindings: seq<Binding>, token: nat) { Find(bindings, token) < |bindings| }
}
