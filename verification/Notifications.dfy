/** Tracked desktop notifications: one send in flight per key, newer payloads coalesce,
    replies and signals interleave with sends
    (src/platform/PlatformUtils_Linux.cpp:45-82, :222-327, :578-650, :762-896). */
module Notifications {

  /** A source and client identifier, joined. */
  type Key = nat

  /** What is shown, whether a close response is wanted, and which callbacks came along. */
  datatype Payload = Payload(content: int, closeResponse: bool, onClosed: bool, onActivated: bool)

  datatype Option<T> = None | Some(value: T)

  datatype Entry = Entry(
    daemonId: nat, inFlight: bool, closeResponse: bool, onClosed: bool, onActivated: bool, queued: Option<Payload>)

  /** A Notify call awaiting its reply, with the daemon id it asked to replace. */
  datatype Call = Call(key: Key, replacesId: nat)

  type History = map<Key, seq<Payload>>

  datatype State = State(
    entries: map<Key, Entry>, toKey: map<nat, Key>, calls: seq<Call>, sent: History, dispatched: History)

  datatype Event =
    | Send(key: Key, payload: Payload)
    | Reply(i: nat, ok: bool, id: nat)
    | Closed(id: nat)
    | ActionInvoked(id: nat)
    | Close(key: Key)

  const BLANK := Entry(0, false, false, false, false, None)

  const START := State(map[], map[], [], map[], map[])

  function Of(h: History, k: Key): seq<Payload> { if k in h then h[k] else [] }

  function Add(h: History, k: Key, p: Payload): History { h[k := Of(h, k) + [p]] }

  function EntryOf(entries: map<Key, Entry>, k: Key): Entry { if k in entries then entries[k] else BLANK }

  // ---------------------------------------------------------------- the handlers

  function AfterSend(s: State, k: Key, p: Payload): State {
    var e := EntryOf(s.entries, k);
    if e.inFlight then
      s.(entries := s.entries[k := e.(queued := Some(p))], sent := Add(s.sent, k, p))
    else
      var now := e.(inFlight := true, closeResponse := p.closeResponse, onClosed := p.closeResponse && p.onClosed,
                    onActivated := p.onActivated);
      s.(entries := s.entries[k := now],
         calls := s.calls + [Call(k, e.daemonId)],
         sent := Add(s.sent, k, p), dispatched := Add(s.dispatched, k, p))
  }

  /** The daemon-id map after a successful reply: ids the notification no longer has go,
      the new one comes. */
  function Remapped(toKey: map<nat, Key>, key: Key, had: nat, replacesId: nat, id: nat): map<nat, Key> {
    var one := if had != 0 && had != id then toKey - {had} else toKey;
    var two := if replacesId != 0 && replacesId != id && replacesId != had then one - {replacesId} else one;
    two[id := key]
  }

  function WithoutCall(calls: seq<Call>, i: nat): (r: seq<Call>)
    requires i < |calls|
    ensures |r| == |calls| - 1 && forall j :: 0 <= j < |r| ==> r[j] == calls[if j < i then j else j + 1]
  {
    calls[..i] + calls[i + 1..]
  }

  /** The flight of a notification ends, or goes on with the payload that waits. */
  function Settled(s: State, key: Key, ok: bool): State
    requires key in s.entries
  {
    var e := s.entries[key];
    if e.queued.Some? then
      var q := e.queued.value;
      var now := e.(closeResponse := q.closeResponse, onClosed := q.onClosed, onActivated := q.onActivated, queued := None);
      s.(entries := s.entries[key := now], calls := s.calls + [Call(key, e.daemonId)], dispatched := Add(s.dispatched, key, q))
    else if !ok && e.daemonId == 0 then s.(entries := s.entries - {key})
    else s.(entries := s.entries[key := e.(inFlight := false)])
  }

  /** A successful reply's id is noted. */
  function Renumbered(s: State, c: Call, id: nat): State
    requires c.key in s.entries
  {
    var e := s.entries[c.key];
    s.(toKey := Remapped(s.toKey, c.key, e.daemonId, c.replacesId, id), entries := s.entries[c.key := e.(daemonId := id)])
  }

  function AfterReply(s: State, i: nat, ok: bool, id: nat): State
    requires i < |s.calls|
  {
    var c, answered := s.calls[i], s.(calls := WithoutCall(s.calls, i));
    if c.key !in s.entries then answered
    else if ok then Settled(Renumbered(answered, c, id), c.key, ok)
    else Settled(answered, c.key, ok)
  }

  function AfterClosed(s: State, id: nat): State {
    if id !in s.toKey then s
    else
      var k, toKey := s.toKey[id], s.toKey - {id};
      if k !in s.entries || s.entries[k].daemonId != id then s.(toKey := toKey)
      else
        var e := s.entries[k].(onClosed := false, closeResponse := false, daemonId := 0);
        if !e.inFlight && e.queued.None? then s.(toKey := toKey, entries := s.entries - {k})
        else s.(toKey := toKey, entries := s.entries[k := e])
  }

  function AfterAction(s: State, id: nat): State {
    if id !in s.toKey || s.toKey[id] !in s.entries then s
    else
      var k := s.toKey[id];
      var e := s.entries[k];
      if e.closeResponse then s
      else if !e.inFlight && e.queued.None? && !e.onClosed then s.(toKey := s.toKey - {id}, entries := s.entries - {k})
      else s.(toKey := s.toKey - {id}, entries := s.entries[k := e.(daemonId := 0, onActivated := false)])
  }

  function AfterClose(s: State, k: Key): State {
    if k !in s.entries || s.entries[k].daemonId != 0 || !s.entries[k].closeResponse then s
    else s.(entries := s.entries[k := s.entries[k].(onClosed := false, closeResponse := false)])
  }

  /** A reply answers an outstanding call, in any order and with any id. */
  predicate Allowed(s: State, v: Event) {
    v.Reply? ==> v.i < |s.calls|
  }

  /** A reply leaves the daemon-id map right if the id it carries is not another
      notification's, and the erased id, which the call replaces, is not either: the guard
      that src/platform/PlatformUtils_Linux.cpp:620-622 does not have. */
  predicate Harmless(s: State, v: Event)
    requires Allowed(s, v)
  {
    v.Reply? && v.ok && s.calls[v.i].key in s.entries ==>
      var c := s.calls[v.i];
      && v.id != 0
      && (v.id in s.toKey ==> s.toKey[v.id] == c.key)
      && (c.replacesId != v.id && c.replacesId in s.toKey ==> s.toKey[c.replacesId] == c.key)
  }

  /** A daemon that never gives out 0, nor an id that a notification has or an outstanding
      call still replaces, but for the one the answered call replaces. */
  predicate Polite(s: State, v: Event)
    requires Allowed(s, v)
  {
    v.Reply? && v.ok ==>
      && v.id != 0 && (v.id == s.calls[v.i].replacesId || v.id !in s.toKey)
      && forall j :: 0 <= j < |s.calls| && j != v.i ==> s.calls[j].replacesId != v.id
  }

  function Next(s: State, v: Event): State
    requires Allowed(s, v)
  {
    match v
    case Send(k, p) => AfterSend(s, k, p)
    case Reply(i, ok, id) => AfterReply(s, i, ok, id)
    case Closed(id) => AfterClosed(s, id)
    case ActionInvoked(id) => AfterAction(s, id)
    case Close(k) => AfterClose(s, k)
  }

  /** The entry of the key bears the id. */
  predicate Bears(entries: map<Key, Entry>, k: Key, id: nat) { k in entries && entries[k].daemonId == id }

  // ---------------------------------------------------------------- invariant

  /** A call is outstanding for a key exactly while its entry says so, and only one. */
  ghost predicate OneInFlight(s: State) {
    && (forall i, j :: 0 <= i < j < |s.calls| ==> s.calls[i].key != s.calls[j].key)
    && (forall i :: 0 <= i < |s.calls| ==> s.calls[i].key in s.entries && s.entries[s.calls[i].key].inFlight)
    && (forall k :: k in s.entries && s.entries[k].inFlight ==> exists i :: 0 <= i < |s.calls| && s.calls[i].key == k)
    && (forall k :: k in s.entries && s.entries[k].queued.Some? ==> s.entries[k].inFlight)
  }

  /** The daemon-id map and the entries' ids are inverse. */
  ghost predicate Inverse(s: State) {
    && 0 !in s.toKey
    && (forall d :: d in s.toKey ==> s.toKey[d] in s.entries && s.entries[s.toKey[d]].daemonId == d)
    && (forall k :: k in s.entries && s.entries[k].daemonId != 0 ==>
          s.entries[k].daemonId in s.toKey && s.toKey[s.entries[k].daemonId] == k)
  }

  /** An id that a call replaces belongs to the key of the call, if to any. */
  ghost predicate OwnReplaced(s: State) {
    forall i :: 0 <= i < |s.calls| && s.calls[i].replacesId in s.toKey ==> s.toKey[s.calls[i].replacesId] == s.calls[i].key
  }

  /** `a` comes out of `b` by leaving elements out. */
  predicate Subsequence(a: seq<Payload>, b: seq<Payload>) {
    if a == [] then true
    else if b == [] then false
    else (a[|a| - 1] == b[|b| - 1] && Subsequence(a[..|a| - 1], b[..|b| - 1])) || Subsequence(a, b[..|b| - 1])
  }

  function Waiting(s: State, k: Key): Option<Payload> {
    if k in s.entries then s.entries[k].queued else None
  }

  /** With a payload waiting, it is the last one sent and everything dispatched was sent
      before it; otherwise the last dispatched payload is the last one sent. */
  ghost predicate Latest(waiting: Option<Payload>, dispatched: seq<Payload>, sent: seq<Payload>) {
    if waiting.Some? then
      && sent != [] && sent[|sent| - 1] == waiting.value
      && Subsequence(dispatched, sent[..|sent| - 1])
    else
      && Subsequence(dispatched, sent)
      && (sent != [] ==> dispatched != [] && dispatched[|dispatched| - 1] == sent[|sent| - 1])
  }

  ghost predicate LatestWins(s: State, k: Key) {
    Latest(Waiting(s, k), Of(s.dispatched, k), Of(s.sent, k))
  }

  /** What holds whatever ids the daemon gives out. */
  ghost predicate Inv(s: State) {
    OneInFlight(s) && forall k :: LatestWins(s, k)
  }

  lemma {:induction false} SubsequenceMore(a: seq<Payload>, b: seq<Payload>, p: Payload)
    requires Subsequence(a, b)
    ensures Subsequence(a, b + [p]) && Subsequence(a + [p], b + [p])
  {
    assert (b + [p])[..|b|] == b && (a + [p])[..|a|] == a;
  }

  lemma QueueLatest(q: Option<Payload>, a: seq<Payload>, b: seq<Payload>, p: Payload)
    requires Latest(q, a, b)
    ensures Latest(Some(p), a, b + [p])
  {
    hide Subsequence;
    assert (b + [p])[..|b|] == b;
    if q.Some? {
      SubsequenceMore(a, b[..|b| - 1], b[|b| - 1]);
      assert b[..|b| - 1] + [b[|b| - 1]] == b;
    }
  }

  lemma SendLatest(a: seq<Payload>, b: seq<Payload>, p: Payload)
    requires Latest(None, a, b)
    ensures Latest(None, a + [p], b + [p])
  {
    hide Subsequence;
    SubsequenceMore(a, b, p);
  }

  lemma PromoteLatest(q: Payload, a: seq<Payload>, b: seq<Payload>)
    requires Latest(Some(q), a, b)
    ensures Latest(None, a + [q], b)
  {
    hide Subsequence;
    SubsequenceMore(a, b[..|b| - 1], q);
    assert b[..|b| - 1] + [q] == b;
  }

  // ---------------------------------------------------------------- every step

  lemma SendKeeps(s: State, k: Key, p: Payload)
    requires Inv(s)
    ensures Inv(AfterSend(s, k, p))
  {
    SendFlights(s, k, p);
    forall x ensures LatestWins(AfterSend(s, k, p), x) {
      SendHistory(s, k, p, x);
    }
  }

  lemma SendFlights(s: State, k: Key, p: Payload)
    requires OneInFlight(s)
    ensures OneInFlight(AfterSend(s, k, p))
  {
    hide Add;
    var t, e := AfterSend(s, k, p), EntryOf(s.entries, k);
    if !e.inFlight {
      assert t.calls == s.calls + [Call(k, e.daemonId)] && k in t.entries && t.entries[k].inFlight && t.entries[k].queued == e.queued;
      assert forall x :: x != k ==> (x in t.entries <==> x in s.entries) && (x in s.entries ==> t.entries[x] == s.entries[x]);
      hide AfterSend;
      NewFlight(s, t, k);
    }
  }

  lemma NewFlight(s: State, t: State, k: Key)
    requires OneInFlight(s) && (k in s.entries ==> !s.entries[k].inFlight)
    requires |t.calls| == |s.calls| + 1 && t.calls[..|s.calls|] == s.calls && t.calls[|s.calls|].key == k
    requires k in t.entries && t.entries[k].inFlight
    requires forall x :: x != k ==> (x in t.entries <==> x in s.entries) && (x in s.entries ==> t.entries[x] == s.entries[x])
    ensures OneInFlight(t)
  {
    assert forall i :: 0 <= i < |s.calls| ==> t.calls[i] == t.calls[..|s.calls|][i];
    forall x | x in t.entries && t.entries[x].inFlight ensures exists i :: 0 <= i < |t.calls| && t.calls[i].key == x {
      if x != k {
        var i :| 0 <= i < |s.calls| && s.calls[i].key == x;
        assert t.calls[i].key == x;
      }
    }
  }

  lemma SendHistory(s: State, k: Key, p: Payload, x: Key)
    requires OneInFlight(s) && LatestWins(s, x)
    ensures LatestWins(AfterSend(s, k, p), x)
  {
    hide Latest;
    if x == k {
      var a, b := Of(s.dispatched, k), Of(s.sent, k);
      if EntryOf(s.entries, k).inFlight { QueueLatest(Waiting(s, k), a, b, p); } else { SendLatest(a, b, p); }
    }
  }

  /** What a reply does to the flights. */
  ghost predicate ReplyShape(s: State, i: nat, t: State)
    requires i < |s.calls|
  {
    var key, rest := s.calls[i].key, WithoutCall(s.calls, i);
    && (forall x :: x != key ==> (x in t.entries <==> x in s.entries) && (x in s.entries ==> t.entries[x] == s.entries[x]))
    && (if Waiting(s, key).Some? then
          && |t.calls| == |s.calls| && t.calls[..|rest|] == rest && t.calls[|rest|].key == key
          && key in t.entries && t.entries[key].inFlight && t.entries[key].queued.None?
        else
          && t.calls == rest && (key in t.entries ==> !t.entries[key].inFlight && t.entries[key].queued.None?))
  }

  lemma ReplyShaped(s: State, i: nat, ok: bool, id: nat)
    requires i < |s.calls| && s.calls[i].key in s.entries && s.entries[s.calls[i].key].inFlight
    ensures ReplyShape(s, i, AfterReply(s, i, ok, id))
  {
    hide Remapped;
    var t, rest := AfterReply(s, i, ok, id), WithoutCall(s.calls, i);
    assert Waiting(s, s.calls[i].key).Some? ==> t.calls[..|rest|] == rest;
  }

  lemma StillCalled(s: State, i: nat, t: State, x: Key)
    requires OneInFlight(s) && i < |s.calls| && |t.calls| >= |s.calls| - 1
    requires forall j :: 0 <= j < |s.calls| - 1 ==> t.calls[j] == WithoutCall(s.calls, i)[j]
    requires x != s.calls[i].key && x in s.entries && s.entries[x].inFlight
    ensures exists j :: 0 <= j < |t.calls| && t.calls[j].key == x
  {
    hide WithoutCall;
    var j :| 0 <= j < |s.calls| && s.calls[j].key == x;
    assert t.calls[if j < i then j else j - 1].key == x;
  }

  lemma ReplyLinks(s: State, i: nat, t: State)
    requires OneInFlight(s) && i < |s.calls| && ReplyShape(s, i, t)
    ensures OneInFlight(t)
  {
    hide WithoutCall;
    var key, rest := s.calls[i].key, WithoutCall(s.calls, i);
    assert forall j :: 0 <= j < |rest| ==> t.calls[j] == rest[j] by {
      assert forall j :: 0 <= j < |rest| ==> t.calls[..|rest|][j] == t.calls[j];
    }
    forall x | x in t.entries && t.entries[x].inFlight ensures exists j :: 0 <= j < |t.calls| && t.calls[j].key == x {
      if x != key { StillCalled(s, i, t, x); }
    }
  }

  lemma ReplyElsewhere(s: State, i: nat, ok: bool, id: nat, x: Key)
    requires LatestWins(s, x) && i < |s.calls| && x != s.calls[i].key
    ensures LatestWins(AfterReply(s, i, ok, id), x)
  {
    hide Latest, Remapped, WithoutCall;
    var t := AfterReply(s, i, ok, id);
    assert (x in t.entries <==> x in s.entries) && (x in s.entries ==> t.entries[x] == s.entries[x]);
    assert Of(t.dispatched, x) == Of(s.dispatched, x) && t.sent == s.sent;
  }

  lemma ReplyHistory(s: State, i: nat, ok: bool, id: nat, x: Key)
    requires LatestWins(s, x) && i < |s.calls|
    ensures LatestWins(AfterReply(s, i, ok, id), x)
  {
    hide Latest, Remapped, WithoutCall;
    if x != s.calls[i].key {
      ReplyElsewhere(s, i, ok, id, x);
    } else if Waiting(s, x).Some? {
      PromoteLatest(Waiting(s, x).value, Of(s.dispatched, x), Of(s.sent, x));
    }
  }

  lemma CallHasEntry(s: State, i: nat)
    requires OneInFlight(s) && i < |s.calls|
    ensures s.calls[i].key in s.entries && s.entries[s.calls[i].key].inFlight
  {
  }

  lemma ReplyKeeps(s: State, i: nat, ok: bool, id: nat)
    requires Inv(s) && i < |s.calls|
    ensures Inv(AfterReply(s, i, ok, id))
  {
    hide AfterReply, OneInFlight, LatestWins, ReplyShape;
    CallHasEntry(s, i);
    ReplyShaped(s, i, ok, id);
    ReplyLinks(s, i, AfterReply(s, i, ok, id));
    forall x ensures LatestWins(AfterReply(s, i, ok, id), x) {
      ReplyHistory(s, i, ok, id, x);
    }
  }

  /** A signal changes no call and no history, and drops only idle entries. */
  lemma SignalHistory(s: State, t: State, x: Key)
    requires LatestWins(s, x) && t.sent == s.sent && t.dispatched == s.dispatched
    requires Waiting(t, x) == Waiting(s, x)
    ensures LatestWins(t, x)
  {
    hide Latest;
  }

  /** Entries may lose marks and idle entries may go; flights and queues stay. */
  ghost predicate SameFlights(s: State, t: State) {
    && t.calls == s.calls && t.sent == s.sent && t.dispatched == s.dispatched
    && (forall k :: k in t.entries ==> k in s.entries && t.entries[k].inFlight == s.entries[k].inFlight && t.entries[k].queued == s.entries[k].queued)
    && (forall k :: k in s.entries && k !in t.entries ==> !s.entries[k].inFlight && s.entries[k].queued.None?)
  }

  lemma SignalKeeps(s: State, t: State)
    requires Inv(s) && SameFlights(s, t)
    ensures Inv(t)
  {
    FlightsKept(s, t);
    forall x ensures LatestWins(t, x) {
      assert LatestWins(s, x);
      SignalHistory(s, t, x);
    }
  }

  lemma FlightsKept(s: State, t: State)
    requires OneInFlight(s) && SameFlights(s, t)
    ensures OneInFlight(t)
  {
  }

  lemma SignalIdle(s: State, v: Event)
    requires Inv(s) && !v.Send? && !v.Reply?
    ensures SameFlights(s, Next(s, v))
  {
    hide Inv;
  }

  lemma StepKeepsInv(s: State, v: Event)
    requires Inv(s) && Allowed(s, v)
    ensures Inv(Next(s, v))
  {
    hide Inv, AfterSend, AfterReply, AfterClosed, AfterAction, AfterClose, SameFlights;
    match v
    case Send(k, p) => SendKeeps(s, k, p);
    case Reply(i, ok, id) => ReplyKeeps(s, i, ok, id);
    case _ =>
      SignalIdle(s, v);
      SignalKeeps(s, Next(s, v));
  }

  // ---------------------------------------------------------------- the ids

  lemma RemappedAt(toKey: map<nat, Key>, key: Key, had: nat, replacesId: nat, id: nat, d: nat)
    ensures var r := Remapped(toKey, key, had, replacesId, id);
      && (d in r <==> d == id || (d in toKey && (d == 0 || (d != had && d != replacesId))))
      && (d in r ==> r[d] == if d == id then key else toKey[d])
  {
  }

  /** A successful reply, as far as the ids go. */
  lemma ReplyIds(s: State, i: nat, id: nat)
    requires i < |s.calls| && s.calls[i].key in s.entries
    ensures var t, c := AfterReply(s, i, true, id), s.calls[i];
      && t.toKey == Remapped(s.toKey, c.key, s.entries[c.key].daemonId, c.replacesId, id)
      && t.entries.Keys == s.entries.Keys
      && forall x :: x in t.entries ==> t.entries[x].daemonId == if x == c.key then id else s.entries[x].daemonId
  {
    hide Remapped, WithoutCall;
  }

  lemma HarmlessKeeps(s: State, i: nat, id: nat)
    requires Inverse(s) && i < |s.calls| && s.calls[i].key in s.entries && Harmless(s, Reply(i, true, id))
    ensures Inverse(AfterReply(s, i, true, id))
  {
    hide Remapped, AfterReply;
    var t, c := AfterReply(s, i, true, id), s.calls[i];
    var had := s.entries[c.key].daemonId;
    ReplyIds(s, i, id);
    forall d | d in t.toKey ensures d != 0 && t.toKey[d] in t.entries && t.entries[t.toKey[d]].daemonId == d {
      RemappedAt(s.toKey, c.key, had, c.replacesId, id, d);
    }
    forall k | k in t.entries && t.entries[k].daemonId != 0 ensures t.entries[k].daemonId in t.toKey && t.toKey[t.entries[k].daemonId] == k {
      RemappedAt(s.toKey, c.key, had, c.replacesId, id, t.entries[k].daemonId);
    }
  }

  /** An id of another notification that the reply takes over or erases is missed there. */
  lemma HarmBreaks(s: State, i: nat, id: nat)
    requires Inverse(s) && i < |s.calls| && s.calls[i].key in s.entries && !Harmless(s, Reply(i, true, id))
    ensures !Inverse(AfterReply(s, i, true, id))
  {
    hide Remapped, AfterReply;
    var t, c := AfterReply(s, i, true, id), s.calls[i];
    var had := s.entries[c.key].daemonId;
    ReplyIds(s, i, id);
    var d := if id == 0 || (id in s.toKey && s.toKey[id] != c.key) then id else c.replacesId;
    RemappedAt(s.toKey, c.key, had, c.replacesId, id, d);
    assert d != 0 ==> t.entries[s.toKey[d]].daemonId == d;
  }

  /** A reply keeps the map and the entries inverse if and only if it is harmless. */
  lemma ReplyInverseIff(s: State, i: nat, ok: bool, id: nat)
    requires Inverse(s) && i < |s.calls|
    ensures Inverse(AfterReply(s, i, ok, id)) <==> Harmless(s, Reply(i, ok, id))
  {
    hide Remapped, WithoutCall;
    if ok && s.calls[i].key in s.entries {
      hide Inverse, Harmless, AfterReply;
      if Harmless(s, Reply(i, ok, id)) { HarmlessKeeps(s, i, id); } else { HarmBreaks(s, i, id); }
    }
  }

  lemma SendIds(s: State, k: Key, p: Payload)
    ensures var t := AfterSend(s, k, p);
      && t.toKey == s.toKey && t.entries.Keys == s.entries.Keys + {k}
      && forall x :: x in t.entries ==> t.entries[x].daemonId == EntryOf(s.entries, x).daemonId
  {
    hide Add;
  }

  lemma SendInverse(s: State, k: Key, p: Payload)
    requires Inverse(s)
    ensures Inverse(AfterSend(s, k, p))
  {
    hide AfterSend;
    SendIds(s, k, p);
  }

  lemma ClosedInverse(s: State, id: nat)
    requires Inverse(s)
    ensures Inverse(AfterClosed(s, id))
  {
  }

  lemma ActionInverse(s: State, id: nat)
    requires Inverse(s)
    ensures Inverse(AfterAction(s, id))
  {
  }

  lemma OthersInverse(s: State, v: Event)
    requires Inverse(s) && Allowed(s, v) && !v.Reply?
    ensures Inverse(Next(s, v))
  {
    hide AfterReply, AfterSend, AfterClosed, AfterAction;
    match v
    case Send(k, p) => SendInverse(s, k, p);
    case Closed(id) => ClosedInverse(s, id);
    case ActionInvoked(id) => ActionInverse(s, id);
    case _ =>
  }

  /** A step keeps the map and the entries inverse if and only if it is harmless; only
      replies can be harmful. */
  lemma StepInverseIff(s: State, v: Event)
    requires Inverse(s) && Allowed(s, v)
    ensures Inverse(Next(s, v)) <==> Harmless(s, v)
  {
    if v.Reply? {
      hide Inverse, Harmless, AfterReply;
      ReplyInverseIff(s, v.i, v.ok, v.id);
    } else {
      hide Inverse, AfterSend, AfterClosed, AfterAction, AfterClose;
      OthersInverse(s, v);
    }
  }

  lemma ReplyOwn(s: State, i: nat, ok: bool, id: nat)
    requires OneInFlight(s) && Inverse(s) && OwnReplaced(s) && i < |s.calls| && Polite(s, Reply(i, ok, id))
    ensures OwnReplaced(AfterReply(s, i, ok, id))
  {
    hide Add;
    var t := AfterReply(s, i, ok, id);
    forall j | 0 <= j < |t.calls| && t.calls[j].replacesId in t.toKey ensures t.toKey[t.calls[j].replacesId] == t.calls[j].key {
      if j < |s.calls| - 1 {
        var was := if j < i then j else j + 1;
        assert t.calls[j] == s.calls[was];
        assert ok ==> s.calls[was].replacesId != id;
      }
    }
  }

  /** With a polite daemon, no call replaces an id of another key. */
  lemma StepOwn(s: State, v: Event)
    requires OneInFlight(s) && Inverse(s) && OwnReplaced(s) && Allowed(s, v) && Polite(s, v)
    ensures OwnReplaced(Next(s, v)) && Harmless(s, v)
  {
    hide AfterReply;
    match v
    case Reply(i, ok, id) => ReplyOwn(s, i, ok, id);
    case _ =>
  }

  // ---------------------------------------------------------------- runs

  ghost predicate Run(states: seq<State>, events: seq<Event>) {
    && |states| == |events| + 1 && states[0] == START
    && forall i :: 0 <= i < |events| ==> Allowed(states[i], events[i]) && states[i + 1] == Next(states[i], events[i])
  }

  lemma {:induction false} RunKeepsInv(states: seq<State>, events: seq<Event>, n: nat)
    requires Run(states, events) && n < |states|
    ensures Inv(states[n])
  {
    if n > 0 {
      RunKeepsInv(states, events, n - 1);
      StepKeepsInv(states[n - 1], events[n - 1]);
    }
  }

  predicate Outstanding(s: State, k: Key) { exists i :: 0 <= i < |s.calls| && s.calls[i].key == k }

  lemma OnlyNothing(a: seq<Payload>)
    requires Subsequence(a, [])
    ensures a == []
  {
  }

  lemma LatestSound(waiting: Option<Payload>, a: seq<Payload>, b: seq<Payload>)
    requires Latest(waiting, a, b)
    ensures Subsequence(a, b)
    ensures waiting.None? ==> (b == [] <==> a == []) && (b != [] ==> a[|a| - 1] == b[|b| - 1])
  {
    hide Subsequence;
    if waiting.Some? {
      SubsequenceMore(a, b[..|b| - 1], b[|b| - 1]);
      assert b[..|b| - 1] + [b[|b| - 1]] == b;
    } else if b == [] {
      OnlyNothing(a);
    }
  }

  lemma FlightsKnown(s: State, k: Key)
    requires Inv(s)
    ensures Latest(Waiting(s, k), Of(s.dispatched, k), Of(s.sent, k))
    ensures !Outstanding(s, k) ==> Waiting(s, k).None?
    ensures forall i, j :: 0 <= i < j < |s.calls| ==> s.calls[i].key != s.calls[j].key
  {
    hide Latest;
    assert LatestWins(s, k);
  }

  /** Over every run, for every key: at most one Notify is outstanding, what was
      dispatched is a subsequence of what was sent, and when nothing is outstanding the
      last payload dispatched is the last one sent. */
  lemma LatestPayloadWins(states: seq<State>, events: seq<Event>, n: nat, k: Key)
    requires Run(states, events) && n < |states|
    ensures var s := states[n]; var a, b := Of(s.dispatched, k), Of(s.sent, k);
      && (forall i, j :: 0 <= i < j < |s.calls| ==> !(s.calls[i].key == k && s.calls[j].key == k))
      && Subsequence(a, b)
      && (!Outstanding(s, k) ==> (b == [] <==> a == []) && (b != [] ==> a[|a| - 1] == b[|b| - 1]))
  {
    hide Inv, Latest, Subsequence, Next, Allowed, Of;
    RunKeepsInv(states, events, n);
    FlightsKnown(states[n], k);
    LatestSound(Waiting(states[n], k), Of(states[n].dispatched, k), Of(states[n].sent, k));
  }

  /** Over every run the daemon-id map and the entries' ids stay inverse if and only if
      every reply is harmless. */
  lemma {:induction false} RunInverseIff(states: seq<State>, events: seq<Event>)
    requires Run(states, events)
    ensures (forall k :: 0 <= k < |states| ==> Inverse(states[k])) <==> (forall i :: 0 <= i < |events| ==> Harmless(states[i], events[i]))
  {
    hide Inverse, Harmless, Next;
    if forall i :: 0 <= i < |events| ==> Harmless(states[i], events[i]) {
      forall k | 0 <= k < |states| ensures Inverse(states[k]) { HarmlessSoFar(states, events, k); }
    } else {
      var i :| 0 <= i < |events| && !Harmless(states[i], events[i]);
      assert states[i + 1] == Next(states[i], events[i]);
      if Inverse(states[i]) { StepInverseIff(states[i], events[i]); }
    }
  }

  lemma {:induction false} HarmlessSoFar(states: seq<State>, events: seq<Event>, k: nat)
    requires Run(states, events) && k < |states|
    requires forall i :: 0 <= i < k ==> Harmless(states[i], events[i])
    ensures Inverse(states[k])
  {
    if k > 0 {
      HarmlessSoFar(states, events, k - 1);
      StepInverseIff(states[k - 1], events[k - 1]);
    }
  }

  /** In every run with a polite daemon they are inverse, whatever is outstanding. */
  lemma {:induction false} IdsInverse(states: seq<State>, events: seq<Event>, n: nat)
    requires Run(states, events) && n < |states|
    requires forall i :: 0 <= i < n ==> Polite(states[i], events[i])
    ensures Inverse(states[n]) && OwnReplaced(states[n])
  {
    if n > 0 {
      var s, v := states[n - 1], events[n - 1];
      IdsInverse(states, events, n - 1);
      RunKeepsInv(states, events, n - 1);
      StepOwn(s, v);
      StepInverseIff(s, v);
    }
  }

  /** Key 8 is sent, answered with id 1, sent again as a replacement of 1, and closed by
      the user before the reply; then key 7 is sent. */
  function TwoOutstanding(p: Payload): State {
    AfterSend(AfterClosed(AfterSend(AfterReply(AfterSend(START, 8, p), 0, true, 1), 8, p), 1), 7, p)
  }

  lemma FirstAnswered(p: Payload)
    ensures var s := AfterReply(AfterSend(START, 8, p), 0, true, 1);
      s.calls == [] && s.toKey == map[1 := 8] && s.entries == map[8 := Entry(1, false, p.closeResponse, p.closeResponse && p.onClosed, p.onActivated, None)]
  {
    hide Add;
    assert AfterSend(START, 8, p).calls == [Call(8, 0)];
    assert WithoutCall([Call(8, 0)], 0) == [];
  }

  lemma BothOutstanding(p: Payload)
    ensures var s := TwoOutstanding(p);
      && s.calls == [Call(8, 1), Call(7, 0)] && s.toKey == map[] && s.entries.Keys == {7, 8}
      && forall k :: k in s.entries ==> s.entries[k].daemonId == 0 && s.entries[k].inFlight && s.entries[k].queued.None?
  {
    hide Add, AfterReply;
    FirstAnswered(p);
  }

  /** A harmful reply in a run: when the daemon now gives id 1 to key 7, the late reply to
      key 8 drops the mapping of key 7. */
  lemma ReissuedIdLosesMapping(p: Payload)
    ensures TwoOutstanding(p).calls == [Call(8, 1), Call(7, 0)]
    ensures var t := AfterReply(TwoOutstanding(p), 1, true, 1);
      && t.calls == [Call(8, 1)] && Inverse(t) && !Harmless(t, Reply(0, true, 2))
      && var u := AfterReply(t, 0, true, 2);
      7 in u.entries && u.entries[7].daemonId == 1 && 1 !in u.toKey
  {
    hide Add, AfterSend, AfterClosed;
    BothOutstanding(p);
    var s := TwoOutstanding(p);
    hide TwoOutstanding;
    assert WithoutCall(s.calls, 1) == [Call(8, 1)];
  }

  // ---------------------------------------------------------------- the handlers in place

  /** The bookkeeping behind its lock: entries, daemon ids, and the calls on the wire. */
  class NotificationCenter {
    var entries: map<Key, Entry>
    var daemonToKey: map<nat, Key>
    var calls: seq<Call>
    ghost var sent: History
    ghost var dispatched: History

    ghost function St(): State
      reads this
    {
      State(entries, daemonToKey, calls, sent, dispatched)
    }

    constructor ()
      ensures St() == START && Inv(St())
    {
      entries, daemonToKey, calls, sent, dispatched := map[], map[], [], map[], map[];
    }

    method SendNotification(key: Key, payload: Payload)
      requires Inv(St())
      modifies this
      ensures St() == Next(old(St()), Send(key, payload)) && Inv(St())
    {
      hide OneInFlight, LatestWins;
      SendKeeps(St(), key, payload);
      var e := EntryOf(entries, key);
      sent := Add(sent, key, payload);
      if e.inFlight {
        e := e.(queued := Some(payload));
        entries := entries[key := e];
      } else {
        e := e.(inFlight := true, closeResponse := payload.closeResponse);
        e := e.(onClosed := payload.closeResponse && payload.onClosed, onActivated := payload.onActivated);
        entries := entries[key := e];
        Dispatch(key, payload, e.daemonId);
      }
    }

    /** Put a Notify call on the wire. */
    method Dispatch(key: Key, payload: Payload, replacesId: nat)
      modifies this`calls, this`dispatched
      ensures calls == old(calls) + [Call(key, replacesId)] && dispatched == Add(old(dispatched), key, payload)
    {
      calls := calls + [Call(key, replacesId)];
      dispatched := Add(dispatched, key, payload);
    }

    method OnNotifyReply(i: nat, ok: bool, newDaemonId: nat)
      requires Inv(St()) && Allowed(St(), Reply(i, ok, newDaemonId))
      modifies this
      ensures St() == Next(old(St()), Reply(i, ok, newDaemonId)) && Inv(St())
    {
      ReplyKeeps(St(), i, ok, newDaemonId);
      hide Inv, Remapped, WithoutCall, Settled;
      var call := calls[i];
      calls := WithoutCall(calls, i);
      if call.key !in entries { return; }
      if ok { Remap(call.key, call.replacesId, newDaemonId); }
      Settle(call.key, ok);
    }

    /** Promote the payload that waits, or end the flight; a notification that was never
        shown is forgotten. */
    method Settle(key: Key, ok: bool)
      requires key in entries
      modifies this`entries, this`calls, this`dispatched
      ensures St() == Settled(old(St()), key, ok)
    {
      hide Add;
      var e := entries[key];
      if e.queued.Some? {
        var q := e.queued.value;
        e := e.(closeResponse := q.closeResponse, onClosed := q.onClosed, onActivated := q.onActivated, queued := None);
        entries := entries[key := e];
        Dispatch(key, q, e.daemonId);
      } else {
        entries := entries[key := e.(inFlight := false)];
        if !ok && e.daemonId == 0 { entries := entries - {key}; }
      }
    }

    /** Drop the ids the notification had and note the new one. */
    method Remap(key: Key, replacesAtSend: nat, newDaemonId: nat)
      requires key in entries
      modifies this`entries, this`daemonToKey
      ensures entries == old(entries)[key := old(entries)[key].(daemonId := newDaemonId)]
      ensures daemonToKey == Remapped(old(daemonToKey), key, old(entries)[key].daemonId, replacesAtSend, newDaemonId)
    {
      var had := entries[key].daemonId;
      if had != 0 && had != newDaemonId { daemonToKey := daemonToKey - {had}; }
      if replacesAtSend != 0 && replacesAtSend != newDaemonId && replacesAtSend != had {
        daemonToKey := daemonToKey - {replacesAtSend};
      }
      entries := entries[key := entries[key].(daemonId := newDaemonId)];
      daemonToKey := daemonToKey[newDaemonId := key];
    }

    /** Returns whether the close callback goes out: the one of the notification that has
        the id now, not of one that had it. */
    method HandleClosed(id: nat) returns (fired: bool)
      requires Inv(St())
      modifies this`entries, this`daemonToKey
      ensures St() == Next(old(St()), Closed(id)) && Inv(St())
      ensures fired <==> id in old(daemonToKey) && Bears(old(entries), old(daemonToKey)[id], id) && old(entries)[old(daemonToKey)[id]].onClosed
    {
      StepKeepsInv(St(), Closed(id));
      if id !in daemonToKey { return false; }
      var key := daemonToKey[id];
      daemonToKey := daemonToKey - {id};
      if key !in entries { return false; }
      var e := entries[key];
      if e.daemonId != id { return false; }
      fired := e.onClosed;
      e := e.(onClosed := false, closeResponse := false, daemonId := 0);
      entries := entries[key := e];
      if !e.inFlight && e.queued.None? { entries := entries - {key}; }
    }

    /** Returns whether the click callback goes out: the current one of the key the id
        leads to, and without a wanted close response it never goes out again. */
    method HandleActionInvoked(id: nat) returns (fired: bool)
      requires Inv(St())
      modifies this`entries, this`daemonToKey
      ensures St() == Next(old(St()), ActionInvoked(id)) && Inv(St())
      ensures fired <==> id in old(daemonToKey) && EntryOf(old(entries), old(daemonToKey)[id]).onActivated
      ensures fired && !EntryOf(old(entries), old(daemonToKey)[id]).closeResponse ==>
        id !in daemonToKey && !EntryOf(entries, old(daemonToKey)[id]).onActivated
    {
      StepKeepsInv(St(), ActionInvoked(id));
      if id !in daemonToKey { return false; }
      var key := daemonToKey[id];
      if key !in entries { return false; }
      var e := entries[key];
      fired := e.onActivated;
      if !e.closeResponse {
        e := e.(onActivated := false);
        daemonToKey := daemonToKey - {id};
        if !e.inFlight && e.queued.None? && !e.onClosed {
          entries := entries - {key};
        } else {
          entries := entries[key := e.(daemonId := 0)];
        }
      }
    }

    /** Returns the daemon id to close, or 0 when there is none yet, and whether the close
        callback goes out at once instead. */
    method CloseNotification(key: Key) returns (daemonId: nat, fired: bool)
      requires Inv(St())
      modifies this`entries
      ensures St() == Next(old(St()), Close(key)) && Inv(St())
      ensures daemonId == EntryOf(old(entries), key).daemonId
      ensures fired <==> daemonId == 0 && EntryOf(old(entries), key).closeResponse && EntryOf(old(entries), key).onClosed
      ensures fired ==> !EntryOf(entries, key).onClosed
      ensures Inverse(old(St())) && daemonId != 0 ==> daemonId in daemonToKey && daemonToKey[daemonId] == key
    {
      StepKeepsInv(St(), Close(key));
      daemonId, fired := 0, false;
      if key !in entries { return; }
      var e := entries[key];
      if e.daemonId != 0 {
        daemonId := e.daemonId;
      } else if e.closeResponse {
        fired := e.onClosed;
        entries := entries[key := e.(onClosed := false, closeResponse := false)];
      }
    }
  }
}
