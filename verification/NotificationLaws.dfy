/** What the notification bookkeeping is there for: the latest payload updates the
    notification on screen in place, and callbacks fire for what is shown and at most once
    (src/platform/PlatformUtils_Linux.cpp:222-327, :578-650, :762-900). */
module NotificationLaws {
  import opened Notifications

  // ---------------------------------------------------------------- what a dispatch says

  /** The entry of a payload just put on the wire: in flight, with its callbacks.  A payload
      sent at once brings its close callback only if a close response is wanted. */
  predicate Carries(e: Entry, p: Payload, promoted: bool) {
    && e.inFlight && e.queued.None?
    && e.closeResponse == p.closeResponse && e.onActivated == p.onActivated
    && e.onClosed == (p.onClosed && (promoted || p.closeResponse))
  }

  /** A payload that waits goes out with the reply: it replaces the id that reply brings, or,
      if the reply failed, the one the notification had; its callbacks take over. */
  lemma PromotedReplaces(s: State, i: nat, ok: bool, id: nat)
    requires OneInFlight(s) && i < |s.calls| && Waiting(s, s.calls[i].key).Some?
    ensures var t, k := AfterReply(s, i, ok, id), s.calls[i].key;
      var now, q := if ok then id else s.entries[k].daemonId, Waiting(s, k).value;
      && |t.calls| == |s.calls| && t.calls[|t.calls| - 1] == Call(k, now)
      && Of(t.dispatched, k) == Of(s.dispatched, k) + [q]
      && k in t.entries && t.entries[k].daemonId == now && Carries(t.entries[k], q, true)
  {
    hide Remapped;
  }

  /** Nothing of the key goes out. */
  ghost predicate Silent(s: State, t: State, k: Key) {
    && Of(t.dispatched, k) == Of(s.dispatched, k)
    && forall c :: c in t.calls && c.key == k ==> c in s.calls
  }

  /** One payload of the key goes out, as a call that replaces the notification the key has
      at that moment. */
  ghost predicate Speaks(s: State, t: State, k: Key, promoted: bool) {
    && |Of(t.dispatched, k)| == |Of(s.dispatched, k)| + 1 && Of(s.dispatched, k) <= Of(t.dispatched, k)
    && k in t.entries && t.calls != [] && t.calls[|t.calls| - 1] == Call(k, t.entries[k].daemonId)
    && Carries(t.entries[k], Of(t.dispatched, k)[|Of(s.dispatched, k)|], promoted)
  }

  lemma SendSpeaks(s: State, k: Key, p: Payload, x: Key)
    requires OneInFlight(s)
    ensures var t := AfterSend(s, k, p);
      if x == k && !EntryOf(s.entries, k).inFlight
      then Speaks(s, t, x, false) && Of(t.dispatched, x) == Of(s.dispatched, x) + [p] && t.entries[x].daemonId == EntryOf(s.entries, x).daemonId
      else Silent(s, t, x)
  {
  }

  lemma ReplySpeaks(s: State, i: nat, ok: bool, id: nat, x: Key)
    requires OneInFlight(s) && i < |s.calls|
    ensures var t := AfterReply(s, i, ok, id);
      if x == s.calls[i].key && Waiting(s, x).Some? then Speaks(s, t, x, true) else Silent(s, t, x)
  {
    if x == s.calls[i].key && Waiting(s, x).Some? {
      PromotedReplaces(s, i, ok, id);
    } else {
      ReplyQuiet(s, i, ok, id, x);
    }
  }

  lemma ReplyQuiet(s: State, i: nat, ok: bool, id: nat, x: Key)
    requires OneInFlight(s) && i < |s.calls| && (x == s.calls[i].key ==> Waiting(s, x).None?)
    ensures Silent(s, AfterReply(s, i, ok, id), x)
  {
    hide Remapped;
    var t, rest := AfterReply(s, i, ok, id), WithoutCall(s.calls, i);
    forall c | c in t.calls && c.key == x ensures c in s.calls {
      assert c in rest;
    }
  }

  /** In every step, for every key: either nothing goes out, or exactly one payload does, as a
      call that names the id the notification has then. */
  lemma DispatchNames(s: State, v: Event, k: Key)
    requires Inv(s) && Allowed(s, v)
    ensures Silent(s, Next(s, v), k) || Speaks(s, Next(s, v), k, v.Reply?)
  {
    hide AfterSend, AfterReply, AfterClosed, AfterAction, AfterClose, Silent, Speaks;
    match v
    case Send(x, p) => SendSpeaks(s, x, p, k);
    case Reply(i, ok, id) => ReplySpeaks(s, i, ok, id, k);
    case _ =>
      SignalSilent(s, v, k);
  }

  lemma SignalSilent(s: State, v: Event, k: Key)
    requires Inv(s) && !v.Send? && !v.Reply?
    ensures Silent(s, Next(s, v), k)
  {
    hide Inv;
  }

  // ---------------------------------------------------------------- what is on screen

  /** The notifications the daemon shows, by id. */
  type Screen = map<nat, Key>

  /** A reply tells that the notification is shown, a close that it is not.  Acting on one
      takes it off the screen too, unless the daemon leaves it there. */
  function ShownAfter(screen: Screen, s: State, v: Event, stays: bool): Screen
    requires Allowed(s, v)
  {
    match v
    case Reply(i, ok, id) => if ok then screen[id := s.calls[i].key] else screen
    case Closed(id) => screen - {id}
    case ActionInvoked(id) => if stays then screen else screen - {id}
    case _ => screen
  }

  /** A daemon as section 9 of the Desktop Notifications Specification describes it: what is
      shown is replaced in place, and what is not gets an id of its own. */
  predicate InPlace(screen: Screen, s: State, v: Event)
    requires Allowed(s, v)
  {
    && Polite(s, v)
    && (v.Reply? && v.ok ==> if s.calls[v.i].replacesId in screen then v.id == s.calls[v.i].replacesId else v.id !in screen)
  }

  /** Everything on screen is the one notification its key has. */
  ghost predicate OneShown(screen: Screen, s: State) {
    forall d :: d in screen ==> Bears(s.entries, screen[d], d)
  }

  /** An outstanding call replaces what its key has, unless that was closed meanwhile, and
      never what another key shows. */
  ghost predicate CallsKnow(screen: Screen, s: State) {
    forall i :: 0 <= i < |s.calls| && s.calls[i].key in s.entries ==>
      && (s.entries[s.calls[i].key].daemonId == s.calls[i].replacesId || s.entries[s.calls[i].key].daemonId == 0)
      && (s.calls[i].replacesId in screen ==> screen[s.calls[i].replacesId] == s.calls[i].key)
  }

  /** One notification of a key at most. */
  lemma OneEach(screen: Screen, s: State, d: nat, e: nat)
    requires OneShown(screen, s) && d in screen && e in screen && screen[d] == screen[e]
    ensures d == e
  {
    assert Bears(s.entries, screen[d], d) && Bears(s.entries, screen[e], e);
  }

  /** The daemon leaves on screen what the bookkeeping forgets: a notification that wants no
      close response and whose action was invoked. */
  predicate Forgotten(screen: Screen, s: State, v: Event, stays: bool) {
    v.ActionInvoked? && stays && v.id in screen && !EntryOf(s.entries, screen[v.id]).closeResponse
  }

  lemma ReplyShown(screen: Screen, s: State, i: nat, ok: bool, id: nat)
    requires Inv(s) && Inverse(s) && OneShown(screen, s) && CallsKnow(screen, s) && 0 !in screen
    requires i < |s.calls| && InPlace(screen, s, Reply(i, ok, id))
    ensures OneShown(ShownAfter(screen, s, Reply(i, ok, id), false), AfterReply(s, i, ok, id))
  {
    hide Inverse, LatestWins, Remapped, WithoutCall, AfterReply;
    var t, k := AfterReply(s, i, ok, id), s.calls[i].key;
    CallHasEntry(s, i);
    if ok {
      ReplyIds(s, i, id);
    } else {
      FailedIds(s, i, id);
    }
  }

  lemma FailedIds(s: State, i: nat, id: nat)
    requires i < |s.calls| && s.calls[i].key in s.entries
    ensures var t, k := AfterReply(s, i, false, id), s.calls[i].key;
      && t.toKey == s.toKey
      && (forall x :: x in t.entries ==> x in s.entries && t.entries[x].daemonId == s.entries[x].daemonId)
      && (forall x :: x in s.entries && s.entries[x].daemonId != 0 ==> x in t.entries)
  {
    hide WithoutCall, Add;
  }

  lemma ActionShown(screen: Screen, s: State, id: nat, stays: bool)
    requires Inverse(s) && OneShown(screen, s) && 0 !in screen
    ensures OneShown(ShownAfter(screen, s, ActionInvoked(id), stays), AfterAction(s, id)) <==> !Forgotten(screen, s, ActionInvoked(id), stays)
  {
    if Forgotten(screen, s, ActionInvoked(id), stays) {
      assert Bears(s.entries, screen[id], id);
      assert id in s.toKey && s.toKey[id] == screen[id];
      assert id in ShownAfter(screen, s, ActionInvoked(id), stays);
    } else {
      forall d | d in ShownAfter(screen, s, ActionInvoked(id), stays) ensures Bears(AfterAction(s, id).entries, screen[d], d) {
        assert Bears(s.entries, screen[d], d);
      }
    }
  }

  lemma ClosedShown(screen: Screen, s: State, id: nat)
    requires Inverse(s) && OneShown(screen, s) && 0 !in screen
    ensures OneShown(screen - {id}, AfterClosed(s, id))
  {
    forall d | d in screen - {id} ensures Bears(AfterClosed(s, id).entries, screen[d], d) {
      assert Bears(s.entries, screen[d], d);
    }
  }

  lemma SendShown(screen: Screen, s: State, k: Key, p: Payload)
    requires OneShown(screen, s)
    ensures OneShown(screen, AfterSend(s, k, p))
  {
    hide AfterSend;
    SendIds(s, k, p);
  }

  /** With a daemon that replaces in place, a step keeps one notification per key on screen if
      and only if it leaves nothing there that is forgotten. */
  lemma StepShownIff(screen: Screen, s: State, v: Event, stays: bool)
    requires Inv(s) && Inverse(s) && OneShown(screen, s) && CallsKnow(screen, s) && 0 !in screen
    requires Allowed(s, v) && InPlace(screen, s, v)
    ensures OneShown(ShownAfter(screen, s, v, stays), Next(s, v)) <==> !Forgotten(screen, s, v, stays)
  {
    hide Inv, Inverse, OneShown, CallsKnow, AfterSend, AfterReply, AfterClosed, AfterAction;
    match v
    case Send(k, p) => SendShown(screen, s, k, p);
    case Reply(i, ok, id) => ReplyShown(screen, s, i, ok, id);
    case Closed(id) => ClosedShown(screen, s, id);
    case ActionInvoked(id) => ActionShown(screen, s, id, stays);
    case Close(k) => CloseShown(screen, s, k);
  }

  lemma CloseShown(screen: Screen, s: State, k: Key)
    requires OneShown(screen, s)
    ensures OneShown(screen, AfterClose(s, k))
  {
    forall d | d in screen ensures Bears(AfterClose(s, k).entries, screen[d], d) {
      assert Bears(s.entries, screen[d], d);
    }
  }

  lemma SendKnows(screen: Screen, s: State, k: Key, p: Payload)
    requires OneInFlight(s) && Inverse(s) && OneShown(screen, s) && CallsKnow(screen, s) && 0 !in screen
    ensures CallsKnow(screen, AfterSend(s, k, p))
  {
    hide Add;
    var t, d := AfterSend(s, k, p), EntryOf(s.entries, k).daemonId;
    if d in screen { assert Bears(s.entries, screen[d], d); }
    forall i | 0 <= i < |t.calls| && t.calls[i].key in t.entries
      ensures t.entries[t.calls[i].key].daemonId == t.calls[i].replacesId || t.entries[t.calls[i].key].daemonId == 0
      ensures t.calls[i].replacesId in screen ==> screen[t.calls[i].replacesId] == t.calls[i].key
    {
      if i < |s.calls| { assert t.calls[i] == s.calls[i]; }
    }
  }

  lemma ReplyKnows(screen: Screen, s: State, i: nat, ok: bool, id: nat)
    requires OneInFlight(s) && OneShown(screen, s) && CallsKnow(screen, s) && 0 !in screen && i < |s.calls| && InPlace(screen, s, Reply(i, ok, id))
    ensures CallsKnow(ShownAfter(screen, s, Reply(i, ok, id), false), AfterReply(s, i, ok, id))
  {
    hide Add, Remapped;
    var t, after := AfterReply(s, i, ok, id), ShownAfter(screen, s, Reply(i, ok, id), false);
    forall j | 0 <= j < |t.calls| && t.calls[j].key in t.entries
      ensures t.entries[t.calls[j].key].daemonId == t.calls[j].replacesId || t.entries[t.calls[j].key].daemonId == 0
      ensures t.calls[j].replacesId in after ==> after[t.calls[j].replacesId] == t.calls[j].key
    {
      if j < |s.calls| - 1 {
        var was := if j < i then j else j + 1;
        assert t.calls[j] == s.calls[was] && s.calls[was].key != s.calls[i].key;
      }
    }
  }

  lemma SignalKnows(screen: Screen, s: State, v: Event, stays: bool)
    requires CallsKnow(screen, s) && Inverse(s) && !v.Send? && !v.Reply?
    ensures CallsKnow(ShownAfter(screen, s, v, stays), Next(s, v))
  {
  }

  lemma StepKnows(screen: Screen, s: State, v: Event, stays: bool)
    requires Inv(s) && Inverse(s) && OneShown(screen, s) && CallsKnow(screen, s) && 0 !in screen
    requires Allowed(s, v) && InPlace(screen, s, v)
    ensures CallsKnow(ShownAfter(screen, s, v, stays), Next(s, v)) && 0 !in ShownAfter(screen, s, v, stays)
  {
    hide Inverse, OneShown, CallsKnow, AfterSend, AfterReply, AfterClosed, AfterAction, AfterClose, LatestWins, OneInFlight;
    match v
    case Send(k, p) => SendKnows(screen, s, k, p);
    case Reply(i, ok, id) => ReplyKnows(screen, s, i, ok, id);
    case _ => SignalKnows(screen, s, v, stays);
  }

  /** A run together with the screen. */
  ghost predicate ShownRun(states: seq<State>, events: seq<Event>, screens: seq<Screen>, stays: seq<bool>) {
    && Run(states, events) && |screens| == |states| && |stays| == |events| && screens[0] == map[]
    && forall i :: 0 <= i < |events| ==>
         && InPlace(screens[i], states[i], events[i])
         && screens[i + 1] == ShownAfter(screens[i], states[i], events[i], stays[i])
  }

  lemma {:induction false} ShownSoFar(states: seq<State>, events: seq<Event>, screens: seq<Screen>, stays: seq<bool>, n: nat)
    requires ShownRun(states, events, screens, stays) && n < |states|
    requires forall i :: 0 <= i < n ==> !Forgotten(screens[i], states[i], events[i], stays[i])
    ensures OneShown(screens[n], states[n]) && CallsKnow(screens[n], states[n]) && 0 !in screens[n]
  {
    hide Inv, Inverse, Next, ShownAfter, Forgotten;
    if n > 0 {
      ShownSoFar(states, events, screens, stays, n - 1);
      RunKeepsInv(states, events, n - 1);
      IdsInverse(states, events, n - 1);
      StepShownIff(screens[n - 1], states[n - 1], events[n - 1], stays[n - 1]);
      StepKnows(screens[n - 1], states[n - 1], events[n - 1], stays[n - 1]);
    }
  }

  /** Over every run with a daemon that replaces in place, everything on screen is the one
      notification of its key throughout if and only if the daemon never leaves there what
      the bookkeeping forgets. */
  lemma OneShownIff(states: seq<State>, events: seq<Event>, screens: seq<Screen>, stays: seq<bool>)
    requires ShownRun(states, events, screens, stays)
    ensures (forall n :: 0 <= n < |states| ==> OneShown(screens[n], states[n])) <==>
      (forall i :: 0 <= i < |events| ==> !Forgotten(screens[i], states[i], events[i], stays[i]))
  {
    hide OneShown, Forgotten, Next, ShownAfter;
    if forall i :: 0 <= i < |events| ==> !Forgotten(screens[i], states[i], events[i], stays[i]) {
      forall n | 0 <= n < |states| ensures OneShown(screens[n], states[n]) { ShownSoFar(states, events, screens, stays, n); }
    } else {
      var i := FirstForgotten(states, events, screens, stays, |events|);
      ShownSoFar(states, events, screens, stays, i);
      RunKeepsInv(states, events, i);
      IdsInverse(states, events, i);
      StepShownIff(screens[i], states[i], events[i], stays[i]);
      assert states[i + 1] == Next(states[i], events[i]);
    }
  }

  lemma {:induction false} FirstForgotten(states: seq<State>, events: seq<Event>, screens: seq<Screen>, stays: seq<bool>, n: nat) returns (i: nat)
    requires ShownRun(states, events, screens, stays) && n <= |events|
    requires exists j :: 0 <= j < n && Forgotten(screens[j], states[j], events[j], stays[j])
    ensures i < n && Forgotten(screens[i], states[i], events[i], stays[i])
    ensures forall j :: 0 <= j < i ==> !Forgotten(screens[j], states[j], events[j], stays[j])
  {
    hide Forgotten, InPlace, ShownAfter, Next;
    i :| 0 <= i < n && Forgotten(screens[i], states[i], events[i], stays[i]);
    if j :| 0 <= j < i && Forgotten(screens[j], states[j], events[j], stays[j]) {
      i := FirstForgotten(states, events, screens, stays, i);
    }
  }

  const PLAIN := Payload(0, false, false, false)

  /** A notification was shown with id 1 and its action invoked. */
  const ACTED := State(map[], map[], [], map[7 := [PLAIN]], map[7 := [PLAIN]])

  lemma FirstActed()
    ensures var sent := AfterSend(START, 7, PLAIN); var shown := AfterReply(sent, 0, true, 1);
      && sent.calls == [Call(7, 0)] && sent.toKey == map[]
      && shown.entries == map[7 := Entry(1, false, false, false, false, None)] && shown.toKey == map[1 := 7]
      && AfterAction(shown, 1) == ACTED
  {
    assert AfterSend(START, 7, PLAIN).calls == [Call(7, 0)];
    assert WithoutCall([Call(7, 0)], 0) == [];
    assert [] + [PLAIN] == [PLAIN];
    assert Add(map[], 7, PLAIN) == map[7 := [PLAIN]];
    var shown := AfterReply(AfterSend(START, 7, PLAIN), 0, true, 1);
    assert shown.entries - {7} == map[] && shown.toKey - {1} == map[];
  }

  lemma SecondShown()
    ensures var sent := AfterSend(ACTED, 7, PLAIN); var shown := AfterReply(sent, 0, true, 2);
      && sent.calls == [Call(7, 0)] && sent.toKey == map[] && shown.calls == []
  {
    hide Add;
    assert AfterSend(ACTED, 7, PLAIN).calls == [Call(7, 0)];
    assert WithoutCall([Call(7, 0)], 0) == [];
  }

  /** What the daemon does in the run below is what it should. */
  lemma ActedInPlace()
    ensures var sent, again := AfterSend(START, 7, PLAIN), AfterSend(ACTED, 7, PLAIN);
      && Allowed(sent, Reply(0, true, 1)) && Allowed(again, Reply(0, true, 2))
      && var shown := AfterReply(sent, 0, true, 1);
      && InPlace(map[], START, Send(7, PLAIN)) && ShownAfter(map[], START, Send(7, PLAIN), true) == map[]
      && InPlace(map[], sent, Reply(0, true, 1)) && ShownAfter(map[], sent, Reply(0, true, 1), true) == map[1 := 7]
      && InPlace(map[1 := 7], shown, ActionInvoked(1)) && ShownAfter(map[1 := 7], shown, ActionInvoked(1), true) == map[1 := 7]
      && InPlace(map[1 := 7], ACTED, Send(7, PLAIN)) && ShownAfter(map[1 := 7], ACTED, Send(7, PLAIN), true) == map[1 := 7]
      && InPlace(map[1 := 7], again, Reply(0, true, 2)) && ShownAfter(map[1 := 7], again, Reply(0, true, 2), true) == map[1 := 7, 2 := 7]
  {
    FirstActed();
    SecondShown();
    hide AfterSend, AfterReply, AfterAction;
  }

  function Actings(): seq<Event> {
    [Send(7, PLAIN), Reply(0, true, 1), ActionInvoked(1), Send(7, PLAIN), Reply(0, true, 2)]
  }

  lemma ActedRun() returns (states: seq<State>)
    ensures Run(states, Actings()) && |states| == 6
    ensures var sent, again := AfterSend(START, 7, PLAIN), AfterSend(ACTED, 7, PLAIN);
      && states[0] == START && states[1] == sent && states[3] == ACTED && states[4] == again
      && Allowed(sent, Reply(0, true, 1)) && states[2] == AfterReply(sent, 0, true, 1)
  {
    hide AfterSend, AfterReply, AfterAction;
    FirstActed();
    SecondShown();
    var sent := AfterSend(START, 7, PLAIN);
    var again := AfterSend(ACTED, 7, PLAIN);
    states := [START, sent, AfterReply(sent, 0, true, 1), ACTED, again, AfterReply(again, 0, true, 2)];
  }

  /** A daemon that leaves a notification on screen after its action was invoked comes to
      show two of one key. */
  lemma ActedShownTwice() returns (states: seq<State>, screens: seq<Screen>)
    ensures ShownRun(states, Actings(), screens, [true, true, true, true, true]) && screens[5] == map[1 := 7, 2 := 7]
  {
    hide AfterSend, AfterReply, AfterAction, InPlace, ShownAfter, Run;
    ActedInPlace();
    states := ActedRun();
    screens := [map[], map[], map[1 := 7], map[1 := 7], map[1 := 7], map[1 := 7, 2 := 7]];
  }

  // ---------------------------------------------------------------- callbacks

  /** The close callback of the key goes out in this step. */
  predicate CloseFires(s: State, v: Event, k: Key) {
    match v
    case Closed(id) => id in s.toKey && s.toKey[id] == k && Bears(s.entries, k, id) && s.entries[k].onClosed
    case Close(x) => x == k && k in s.entries && s.entries[k].daemonId == 0 && s.entries[k].closeResponse && s.entries[k].onClosed
    case _ => false
  }

  /** How often it went out in the first `n` steps. */
  function CloseCount(states: seq<State>, events: seq<Event>, k: Key, n: nat): nat
    requires n <= |events| < |states|
  {
    if n == 0 then 0 else CloseCount(states, events, k, n - 1) + if CloseFires(states[n - 1], events[n - 1], k) then 1 else 0
  }

  function Armed(s: State, k: Key): bool { k in s.entries && s.entries[k].onClosed }

  /** The callbacks of an entry are those of the payload dispatched last, or were taken from
      it. */
  predicate Own(s: State, k: Key) {
    k in s.entries && (s.entries[k].onClosed || s.entries[k].onActivated) ==>
      && Of(s.dispatched, k) != []
      && var last := Of(s.dispatched, k)[|Of(s.dispatched, k)| - 1];
         (s.entries[k].onClosed ==> last.onClosed) && (s.entries[k].onActivated ==> last.onActivated)
  }

  /** A fired close callback is gone, and only a dispatch brings one. */
  lemma StepArms(s: State, v: Event, k: Key)
    requires Inv(s) && Allowed(s, v) && Own(s, k)
    ensures Own(Next(s, v), k)
    ensures CloseFires(s, v, k) ==> Armed(s, k) && !Armed(Next(s, v), k)
    ensures Of(Next(s, v).dispatched, k) == Of(s.dispatched, k) ==> Armed(Next(s, v), k) ==> Armed(s, k)
  {
    hide LatestWins, AfterReply;
    match v
    case Reply(i, ok, id) => ReplyArms(s, i, ok, id, k);
    case Send(_, _) => hide OneInFlight;
    case _ => hide OneInFlight, Own; SignalArms(s, v, k);
  }

  lemma SignalArms(s: State, v: Event, k: Key)
    requires Own(s, k) && !v.Send? && !v.Reply?
    ensures Own(Next(s, v), k) && (Armed(Next(s, v), k) ==> Armed(s, k))
    ensures CloseFires(s, v, k) ==> Armed(s, k) && !Armed(Next(s, v), k)
  {
  }

  lemma ReplyArms(s: State, i: nat, ok: bool, id: nat, k: Key)
    requires OneInFlight(s) && i < |s.calls| && Own(s, k)
    ensures var t := AfterReply(s, i, ok, id);
      && Own(t, k)
      && (Of(t.dispatched, k) == Of(s.dispatched, k) ==> Armed(t, k) ==> Armed(s, k))
  {
    hide Remapped, WithoutCall;
  }

  lemma {:induction false} RunOwn(states: seq<State>, events: seq<Event>, n: nat, k: Key)
    requires Run(states, events) && n < |states|
    ensures Own(states[n], k)
    ensures CloseCount(states, events, k, n) + (if Armed(states[n], k) then 1 else 0) <= |Of(states[n].dispatched, k)|
  {
    hide Inv, Next, Own, CloseFires, Armed, Allowed;
    if n == 0 {
      NothingOwn(k);
    } else {
      RunOwn(states, events, n - 1, k);
      RunKeepsInv(states, events, n - 1);
      StepArms(states[n - 1], events[n - 1], k);
      StepGrows(states[n - 1], events[n - 1], k);
    }
  }

  lemma StepGrows(s: State, v: Event, k: Key)
    requires Inv(s) && Allowed(s, v)
    ensures Of(Next(s, v).dispatched, k) == Of(s.dispatched, k) || |Of(Next(s, v).dispatched, k)| == |Of(s.dispatched, k)| + 1
  {
    hide Inv, Next;
    DispatchNames(s, v, k);
  }

  lemma NothingOwn(k: Key)
    ensures Own(START, k) && !Armed(START, k) && Of(START.dispatched, k) == []
  {
  }

  /** Over every run: the callbacks a notification has are those of the payload dispatched
      last, never of one it replaced, and close callbacks go out at most once for each
      payload dispatched. */
  lemma CallbacksOnce(states: seq<State>, events: seq<Event>, n: nat, k: Key)
    requires Run(states, events) && n < |states|
    ensures CloseCount(states, events, k, n) <= |Of(states[n].dispatched, k)|
    ensures k in states[n].entries && (states[n].entries[k].onClosed || states[n].entries[k].onActivated) ==>
      && Of(states[n].dispatched, k) != []
      && var last := Of(states[n].dispatched, k)[|Of(states[n].dispatched, k)| - 1];
         (states[n].entries[k].onClosed ==> last.onClosed) && (states[n].entries[k].onActivated ==> last.onActivated)
  {
    hide Next;
    RunOwn(states, events, n, k);
  }

  /** Something keeps the entry: it is shown, in flight, or was acted on while it had a close
      callback that it did not ask to be called. */
  predicate Alive(e: Entry) { e.daemonId != 0 || e.inFlight || (e.onClosed && !e.closeResponse) }

  ghost predicate NoneForgotten(s: State) { forall k :: k in s.entries ==> Alive(s.entries[k]) }

  lemma StepForgetsNone(s: State, v: Event)
    requires Inv(s) && Inverse(s) && NoneForgotten(s) && Allowed(s, v) && Polite(s, v)
    ensures NoneForgotten(Next(s, v))
  {
    hide Latest, Remapped, WithoutCall, Add;
    assert OneInFlight(s);
  }

  /** Over every run with a polite daemon no entry stays for nothing. */
  lemma {:induction false} EntriesAlive(states: seq<State>, events: seq<Event>, n: nat)
    requires Run(states, events) && n < |states|
    requires forall i :: 0 <= i < n ==> Polite(states[i], events[i])
    ensures NoneForgotten(states[n])
  {
    hide Inv, Inverse, Next, NoneForgotten, Polite;
    if n == 0 {
      StartForgetsNone();
    } else {
      EntriesAlive(states, events, n - 1);
      RunKeepsInv(states, events, n - 1);
      IdsInverse(states, events, n - 1);
      StepForgetsNone(states[n - 1], events[n - 1]);
    }
  }

  lemma StartForgetsNone()
    ensures NoneForgotten(START)
  {
  }
}
