/**
  Which guacd connection of a session can be joined: the owner's socket publishes its uuid, joiners
  look it up, and every socket withdraws only what it published itself when it closes.
 */
module UuidRegistry {
  import opened Wrappers

  type Key = string
  type Uuid = string
  type Id = nat

  // ---------- The shared store ----------

  function Lookup(stored: map<Key, Uuid>, key: Key): Option<Uuid> {
    if key in stored then Some(stored[key]) else None
  }

  /** Drop the uuid only if it is still this one. */
  function Clear(stored: map<Key, Uuid>, key: Key, uuid: Uuid): map<Key, Uuid> {
    if Lookup(stored, key) == Some(uuid) then stored - {key} else stored
  }

  class SessionStore {
    var stored: map<Key, Uuid>

    constructor ()
      ensures stored == map[]
    {
      stored := map[];
    }

    method GetGuacUuid(key: Key) returns (uuid: Option<Uuid>)
      ensures uuid == Lookup(stored, key)
    {
      uuid := if key in stored then Some(stored[key]) else None;
    }

    method SetGuacUuid(key: Key, uuid: Uuid)
      modifies this
      ensures stored == old(stored)[key := uuid]
    {
      stored := stored[key := uuid];
    }

    method ClearGuacUuid(key: Key, uuid: Uuid)
      modifies this
      ensures stored == Clear(old(stored), key, uuid)
    {
      var current := GetGuacUuid(key);
      if current != Some(uuid) {
        return;
      }
      stored := stored - {key};
    }
  }

  // ---------- Sockets around it ----------

  /** A browser socket bridged to guacd; `joined` is what a watcher selected. */
  datatype Socket = Socket(key: Key, owner: bool, joined: Option<Uuid>, published: Option<Uuid>, open: bool)

  datatype Publication = Publication(socket: Id, key: Key, uuid: Uuid)

  datatype Proxy = Proxy(stored: map<Key, Uuid>, sockets: map<Id, Socket>, published: seq<Publication>)

  const STARTED := Proxy(map[], map[], [])

  /** A watcher without a uuid to join is refused; `Ready` is the first frame from guacd. */
  datatype Event = Connect(socket: Id, key: Key, owner: bool) | Ready(socket: Id, uuid: Uuid) | Close(socket: Id)

  function DoConnect(p: Proxy, s: Id, key: Key, owner: bool): Proxy {
    var join := if owner then None else Lookup(p.stored, key);
    if !owner && join.None? then p
    else p.(sockets := p.sockets[s := Socket(key, owner, join, None, true)])
  }

  function DoReady(p: Proxy, s: Id, uuid: Uuid): Proxy
    requires s in p.sockets
  {
    var socket := p.sockets[s];
    if !socket.owner then p
    else
      Proxy(p.stored[socket.key := uuid], p.sockets[s := socket.(published := Some(uuid))],
            p.published + [Publication(s, socket.key, uuid)])
  }

  function DoClose(p: Proxy, s: Id): Proxy
    requires s in p.sockets
  {
    var socket := p.sockets[s];
    p.(stored := if socket.published.Some? then Clear(p.stored, socket.key, socket.published.value) else p.stored,
       sockets := p.sockets[s := socket.(published := None, open := false)])
  }

  /** Socket ids and guacd's uuids are never reused; a closed socket hears nothing more of guacd. */
  ghost predicate Possible(p: Proxy, e: Event) {
    && (e.Connect? ==> e.socket !in p.sockets)
    && (e.Ready? ==>
          && e.socket in p.sockets && p.sockets[e.socket].open && p.sockets[e.socket].published == None
          && forall i :: 0 <= i < |p.published| ==> p.published[i].uuid != e.uuid)
    && (e.Close? ==> e.socket in p.sockets)
  }

  ghost function Step(p: Proxy, e: Event): Proxy
    requires Possible(p, e)
  {
    match e
    case Connect(socket, key, owner) => DoConnect(p, socket, key, owner)
    case Ready(socket, uuid) => DoReady(p, socket, uuid)
    case Close(socket) => DoClose(p, socket)
  }

  ghost predicate Feasible(p: Proxy, events: seq<Event>)
    decreases |events|
  {
    events == [] || (Possible(p, events[0]) && Feasible(Step(p, events[0]), events[1..]))
  }

  ghost function Run(p: Proxy, events: seq<Event>): Proxy
    requires Feasible(p, events)
    decreases |events|
  {
    if events == [] then p else Run(Step(p, events[0]), events[1..])
  }

  lemma {:induction false} RunUnfold(p: Proxy, e: Event, more: seq<Event>)
    requires Feasible(p, [e] + more)
    ensures Possible(p, e) && Feasible(Step(p, e), more) && Run(p, [e] + more) == Run(Step(p, e), more)
  {
    assert ([e] + more)[1..] == more;
  }

  /** The handlers of all sockets, which share nothing but the store. */
  class ConnectionProxy {
    const store: SessionStore
    var sockets: map<Id, Socket>
    var published: seq<Publication>

    function View(): Proxy
      reads this, store
    {
      Proxy(store.stored, sockets, published)
    }

    constructor ()
      ensures View() == STARTED && fresh(store)
    {
      store := new SessionStore();
      sockets, published := map[], [];
    }

    method OnConnect(s: Id, key: Key, owner: bool)
      modifies this
      ensures View() == DoConnect(old(View()), s, key, owner)
    {
      var join: Option<Uuid> := None;
      if !owner {
        join := store.GetGuacUuid(key);
        if join == None {
          return;
        }
      }
      sockets := sockets[s := Socket(key, owner, join, None, true)];
    }

    method OnReady(s: Id, uuid: Uuid)
      requires s in sockets
      modifies this, store
      ensures View() == DoReady(old(View()), s, uuid)
    {
      if sockets[s].owner {
        published := published + [Publication(s, sockets[s].key, uuid)];
        store.SetGuacUuid(sockets[s].key, uuid);
        sockets := sockets[s := sockets[s].(published := Some(uuid))];
      }
    }

    method OnClose(s: Id)
      requires s in sockets
      modifies this, store
      ensures View() == DoClose(old(View()), s)
    {
      if sockets[s].published.Some? {
        store.ClearGuacUuid(sockets[s].key, sockets[s].published.value);
      }
      sockets := sockets[s := sockets[s].(published := None, open := false)];
    }

    /** Over a whole run the handlers and the store do what the step functions say. */
    method Serve(events: seq<Event>)
      requires Feasible(View(), events)
      modifies this, store
      ensures View() == Run(old(View()), events)
      decreases |events|
    {
      if events != [] {
        ghost var before := View();
        assert [events[0]] + events[1..] == events;
        RunUnfold(before, events[0], events[1..]);
        match events[0] {
          case Connect(socket, key, owner) => OnConnect(socket, key, owner);
          case Ready(socket, uuid) => OnReady(socket, uuid);
          case Close(socket) => OnClose(socket);
        }
        assert View() == Step(before, events[0]);
        Serve(events[1..]);
      }
    }
  }

  // ---------- What should be stored ----------

  /** The last publication for a session. */
  function Latest(published: seq<Publication>, key: Key): Option<Publication> {
    if published == [] then None
    else
      var last := published[|published| - 1];
      if last.key == key then Some(last) else Latest(published[..|published| - 1], key)
  }

  lemma {:induction false} LatestGrows(published: seq<Publication>, p: Publication)
    ensures forall key :: Latest(published + [p], key) == if p.key == key then Some(p) else Latest(published, key)
  {
    assert (published + [p])[..|published|] == published;
  }

  lemma {:induction false} LatestIsPublished(published: seq<Publication>, key: Key)
    ensures var latest := Latest(published, key);
            latest.Some? ==> latest.value in published && latest.value.key == key
  {
    if published != [] {
      LatestIsPublished(published[..|published| - 1], key);
    }
  }

  /** The uuid of the last owner socket to publish, as long as that socket has not closed. */
  function Joinable(p: Proxy, key: Key): Option<Uuid> {
    var latest := Latest(p.published, key);
    if latest.Some? && latest.value.socket in p.sockets && p.sockets[latest.value.socket].open
    then Some(latest.value.uuid) else None
  }

  // ---------- The invariant ----------

  /** Publications are of real owner sockets, one each, with distinct uuids. */
  ghost predicate Recorded(p: Proxy) {
    && (forall i :: 0 <= i < |p.published| ==>
          var x := p.published[i];
          && x.socket in p.sockets && p.sockets[x.socket].owner && p.sockets[x.socket].key == x.key
          && (p.sockets[x.socket].open ==> p.sockets[x.socket].published == Some(x.uuid)))
    && (forall i, j :: 0 <= i < j < |p.published| ==>
          p.published[i].uuid != p.published[j].uuid && p.published[i].socket != p.published[j].socket)
    && (forall s :: s in p.sockets && p.sockets[s].published.Some? ==>
          p.sockets[s].open && Publication(s, p.sockets[s].key, p.sockets[s].published.value) in p.published)
  }

  predicate RightAt(p: Proxy, key: Key) {
    Lookup(p.stored, key) == Joinable(p, key)
  }

  ghost predicate StoreIsRight(p: Proxy) {
    forall key :: RightAt(p, key)
  }

  ghost predicate Inv(p: Proxy) {
    Recorded(p) && StoreIsRight(p)
  }

  lemma {:induction false} ReadyRecorded(p: Proxy, s: Id, uuid: Uuid)
    requires Recorded(p) && Possible(p, Ready(s, uuid)) && p.sockets[s].owner
    ensures Recorded(DoReady(p, s, uuid))
  {
    var p' := DoReady(p, s, uuid);
    var x := Publication(s, p.sockets[s].key, uuid);
    assert forall i :: 0 <= i < |p.published| ==> p'.published[i] == p.published[i] && p.published[i].socket != s;
    assert x in p'.published;
    assert forall y :: y in p.published ==> y in p'.published;
  }

  lemma {:induction false} StepKeepsRecorded(p: Proxy, e: Event)
    requires Recorded(p) && Possible(p, e)
    ensures Recorded(Step(p, e))
  {
    if e.Ready? && p.sockets[e.socket].owner {
      ReadyRecorded(p, e.socket, e.uuid);
    }
  }

  /** One session's entry: set by its owner, withdrawn by the socket that set it, left alone by any other. */
  lemma {:induction false} StepKeepsKey(p: Proxy, e: Event, key: Key)
    requires Recorded(p) && Possible(p, e) && RightAt(p, key)
    ensures RightAt(Step(p, e), key)
  {
    hide Latest;
    LatestIsPublished(p.published, key);
    if e.Ready? {
      LatestGrows(p.published, Publication(e.socket, p.sockets[e.socket].key, e.uuid));
    } else if e.Close? {
      CloseKey(p, e.socket, key);
    }
  }

  lemma {:induction false} CloseKey(p: Proxy, s: Id, key: Key)
    requires Recorded(p) && s in p.sockets && RightAt(p, key)
    ensures RightAt(DoClose(p, s), key)
  {
    hide Latest;
    LatestIsPublished(p.published, key);
    var latest := Latest(p.published, key);
    var socket := p.sockets[s];
    if latest.Some? {
      var i :| 0 <= i < |p.published| && p.published[i] == latest.value;
      if socket.published.Some? {
        var j :| 0 <= j < |p.published| && p.published[j] == Publication(s, socket.key, socket.published.value);
        assert i != j ==> latest.value.uuid != socket.published.value && latest.value.socket != s;
      }
    }
  }

  /** Steps keep the record straight, and right wherever the store was right. */
  lemma {:induction false} RunKeepsKeys(p: Proxy, events: seq<Event>)
    requires Recorded(p) && Feasible(p, events)
    ensures Recorded(Run(p, events))
    ensures forall key :: RightAt(p, key) ==> RightAt(Run(p, events), key)
    decreases |events|
  {
    hide Recorded;
    hide RightAt;
    hide Step;
    hide Possible;
    if events != [] {
      StepKeepsRecorded(p, events[0]);
      forall key | RightAt(p, key)
        ensures RightAt(Step(p, events[0]), key)
      {
        StepKeepsKey(p, events[0], key);
      }
      RunKeepsKeys(Step(p, events[0]), events[1..]);
    }
  }

  lemma {:induction false} RunKeepsInv(p: Proxy, events: seq<Event>)
    requires Inv(p) && Feasible(p, events)
    ensures Inv(Run(p, events))
  {
    hide Recorded;
    hide RightAt;
    RunKeepsKeys(p, events);
  }

  /**
    Over every run of connects, reconnects, joins and closes: a session's stored uuid is that of
    the last owner socket to publish while that socket is open, and nothing otherwise.
   */
  lemma {:induction false} StoredIsTheLiveOwner(events: seq<Event>, key: Key)
    requires Feasible(STARTED, events)
    ensures Lookup(Run(STARTED, events).stored, key) == Joinable(Run(STARTED, events), key)
  {
    RunKeepsInv(STARTED, events);
    assert RightAt(Run(STARTED, events), key);
  }

  /** The late close of an older socket leaves a newer uuid alone, and a joiner never changes anything. */
  lemma {:induction false} LateCloseIsHarmless(events: seq<Event>, older: Id, newer: Publication)
    requires Feasible(STARTED, events) && older in Run(STARTED, events).sockets
    requires Latest(Run(STARTED, events).published, newer.key) == Some(newer) && newer.socket != older
    ensures var p := Run(STARTED, events);
            Lookup(DoClose(p, older).stored, newer.key) == Lookup(p.stored, newer.key)
  {
    hide Latest;
    RunKeepsInv(STARTED, events);
    var p := Run(STARTED, events);
    assert RightAt(p, newer.key);
    CloseKey(p, older, newer.key);
  }

  lemma {:induction false} ClosedStaysClosed(p: Proxy, events: seq<Event>, s: Id)
    requires Feasible(p, events) && s in p.sockets && !p.sockets[s].open && p.sockets[s].published == None
    ensures var q := Run(p, events);
            s in q.sockets && !q.sockets[s].open && q.sockets[s].published == None && p.published <= q.published
    decreases |events|
  {
    if events != [] {
      ClosedStaysClosed(Step(p, events[0]), events[1..], s);
    }
  }

  /** From its close on, whatever came before or comes after, nobody finds what a socket published. */
  lemma {:induction false} NothingAfterTheClose(before: seq<Event>, s: Id, after: seq<Event>, x: Publication)
    requires Feasible(STARTED, before) && s in Run(STARTED, before).sockets
    requires Feasible(Step(Run(STARTED, before), Close(s)), after)
    requires x in Run(STARTED, before).published && x.socket == s
    ensures var q := Run(Step(Run(STARTED, before), Close(s)), after);
            && s in q.sockets && !q.sockets[s].open
            && Lookup(q.stored, x.key) != Some(x.uuid)
  {
    hide Feasible;
    hide Latest;
    RunKeepsInv(STARTED, before);
    var p := Run(STARTED, before);
    var closed := Step(p, Close(s));
    StepKeepsRecorded(p, Close(s));
    forall key ensures RightAt(closed, key) { StepKeepsKey(p, Close(s), key); }
    RunKeepsInv(closed, after);
    ClosedStaysClosed(closed, after, s);
    var q := Run(closed, after);
    hide Run;
    assert RightAt(q, x.key);
    LatestIsPublished(q.published, x.key);
    assert x in q.published;
  }

  lemma {:induction false} JoinersChangeNothing(events: seq<Event>, joiner: Id, uuid: Uuid)
    requires Feasible(STARTED, events)
    requires joiner in Run(STARTED, events).sockets && !Run(STARTED, events).sockets[joiner].owner
    ensures var p := Run(STARTED, events);
            && DoReady(p, joiner, uuid).stored == p.stored
            && DoClose(p, joiner).stored == p.stored
  {
    RunKeepsInv(STARTED, events);
  }

  /**
    A watcher gets in exactly when the last owner socket to publish is open at that moment, and
    then joins that socket's connection. An owner always gets in, and joins nobody.
   */
  lemma {:induction false} WatchersJoinALiveOwner(events: seq<Event>, s: Id, key: Key)
    requires Feasible(STARTED, events) && s !in Run(STARTED, events).sockets
    ensures var p := Run(STARTED, events);
            var p' := DoConnect(p, s, key, false);
            var latest := Latest(p.published, key);
            && (latest.Some? ==> latest.value.socket in p.sockets)
            && (s in p'.sockets <==> latest.Some? && p.sockets[latest.value.socket].open)
            && (s in p'.sockets ==> p'.sockets[s].joined == Some(latest.value.uuid))
            && (var p'' := DoConnect(p, s, key, true);
                p''.stored == p.stored && p''.sockets == p.sockets[s := Socket(key, true, None, None, true)])
  {
    hide Latest;
    RunKeepsInv(STARTED, events);
    var p := Run(STARTED, events);
    assert RightAt(p, key);
    LatestIsPublished(p.published, key);
  }

  // ---------- A clear in two store operations ----------

  lemma {:induction false} LatestOfTwo(a: seq<Publication>, b: seq<Publication>, key: Key)
    ensures Latest(a + b, key) == if Latest(b, key).Some? then Latest(b, key) else Latest(a, key)
  {
    if b == [] {
      assert a + b == a;
    } else {
      assert (a + b)[..|a + b| - 1] == a + b[..|b| - 1];
      LatestOfTwo(a, b[..|b| - 1], key);
    }
  }

  /** The socket has closed and the read of its clear has matched; the delete is still to come. */
  function CloseAndRead(p: Proxy, s: Id): Proxy
    requires s in p.sockets
  {
    p.(sockets := p.sockets[s := p.sockets[s].(published := None, open := false)])
  }

  /** Does the read of this socket's clear find its own uuid, so that a delete follows? */
  predicate ReadMatches(p: Proxy, s: Id)
    requires s in p.sockets
  {
    p.sockets[s].published.Some? && Lookup(p.stored, p.sockets[s].key) == p.sockets[s].published
  }

  /** A clear that has read its own uuid, when that many publications were made. */
  datatype PendingClear = PendingClear(key: Key, seen: nat)

  /** The proxy, and the clears whose delete is still to come, by socket. */
  datatype Shared = Shared(proxy: Proxy, clears: map<Id, PendingClear>)

  const FRESH := Shared(STARTED, map[])

  /** A close up to the read of its clear, the delete of one that matched, or any other event. */
  datatype Half = CloseRead(socket: Id) | Delete(socket: Id) | Whole(event: Event)

  ghost predicate HalfPossible(c: Shared, h: Half) {
    && (h.CloseRead? ==> h.socket in c.proxy.sockets)
    && (h.Delete? ==> h.socket in c.clears)
    && (h.Whole? ==> !h.event.Close? && Possible(c.proxy, h.event))
  }

  ghost function HalfStep(c: Shared, h: Half): Shared
    requires HalfPossible(c, h)
  {
    match h
    case CloseRead(s) =>
      Shared(CloseAndRead(c.proxy, s),
             if ReadMatches(c.proxy, s)
             then c.clears[s := PendingClear(c.proxy.sockets[s].key, |c.proxy.published|)] else c.clears)
    case Delete(s) =>
      Shared(c.proxy.(stored := c.proxy.stored - {c.clears[s].key}), c.clears - {s})
    case Whole(e) => c.(proxy := Step(c.proxy, e))
  }

  ghost predicate AllPossible(c: Shared, halves: seq<Half>)
    decreases |halves|
  {
    halves == [] || (HalfPossible(c, halves[0]) && AllPossible(HalfStep(c, halves[0]), halves[1..]))
  }

  /** The session's entry is right, or is that of the last publisher, closed and about to delete it. */
  predicate SettledAt(c: Shared, key: Key) {
    || RightAt(c.proxy, key)
    || (&& Joinable(c.proxy, key) == None
        && var latest := Latest(c.proxy.published, key);
        && latest.Some? && Lookup(c.proxy.stored, key) == Some(latest.value.uuid)
        && latest.value.socket in c.clears)
  }

  ghost predicate Settled(c: Shared) {
    forall key :: SettledAt(c, key)
  }

  ghost predicate SettledThroughout(c: Shared, halves: seq<Half>)
    requires AllPossible(c, halves)
    decreases |halves|
  {
    Settled(c) && (halves == [] || SettledThroughout(HalfStep(c, halves[0]), halves[1..]))
  }

  /**
    A delete in time: nothing was published for the session since its read, or the last socket
    that did has closed again.
   */
  predicate InTime(c: Shared, h: Half) {
    h.Delete? && h.socket in c.clears && c.clears[h.socket].seen <= |c.proxy.published| ==>
      var newer := Latest(c.proxy.published[c.clears[h.socket].seen..], c.clears[h.socket].key);
      newer.Some? && newer.value.socket in c.proxy.sockets ==> !c.proxy.sockets[newer.value.socket].open
  }

  ghost predicate AllInTime(c: Shared, halves: seq<Half>)
    requires AllPossible(c, halves)
    decreases |halves|
  {
    halves == [] || (InTime(c, halves[0]) && AllInTime(HalfStep(c, halves[0]), halves[1..]))
  }

  /** A pending clear is of a closed socket, the last to publish by the time of its read. */
  ghost predicate ClearsRight(c: Shared) {
    forall s :: s in c.clears ==>
      && c.clears[s].seen <= |c.proxy.published|
      && s in c.proxy.sockets && !c.proxy.sockets[s].open
      && var latest := Latest(c.proxy.published[..c.clears[s].seen], c.clears[s].key);
      && latest.Some? && latest.value.socket == s
  }

  ghost predicate SharedInv(c: Shared) {
    Recorded(c.proxy) && ClearsRight(c) && Settled(c)
  }

  // ---------- Each half on its own ----------

  lemma {:induction false} CloseReadKeepsRecorded(p: Proxy, s: Id)
    requires Recorded(p) && s in p.sockets
    ensures Recorded(CloseAndRead(p, s))
  {
    StepKeepsRecorded(p, Close(s));
  }

  /** A socket whose read matches is the last that published for its session. */
  lemma {:induction false} MatchedIsLatest(c: Shared, s: Id)
    requires Recorded(c.proxy) && s in c.proxy.sockets && ReadMatches(c.proxy, s)
    requires SettledAt(c, c.proxy.sockets[s].key)
    ensures var x := c.proxy.sockets[s];
            Latest(c.proxy.published, x.key) == Some(Publication(s, x.key, x.published.value))
  {
    hide Latest;
    var p, key := c.proxy, c.proxy.sockets[s].key;
    LatestIsPublished(p.published, key);
    assert Publication(s, key, p.sockets[s].published.value) in p.published;
  }

  /** A socket that is the last to publish, and open, finds its uuid when it closes. */
  lemma {:induction false} LatestMatches(c: Shared, s: Id, key: Key)
    requires Recorded(c.proxy) && SettledAt(c, key) && s in c.proxy.sockets && c.proxy.sockets[s].open
    requires Latest(c.proxy.published, key).Some? && Latest(c.proxy.published, key).value.socket == s
    ensures ReadMatches(c.proxy, s) && c.proxy.sockets[s].key == key
  {
    hide Latest;
    LatestIsPublished(c.proxy.published, key);
  }

  lemma {:induction false} CloseReadKeepsKey(c: Shared, s: Id, key: Key)
    requires Recorded(c.proxy) && s in c.proxy.sockets && SettledAt(c, key)
    ensures SettledAt(HalfStep(c, CloseRead(s)), key)
  {
    hide Latest;
    hide Recorded;
    var latest := Latest(c.proxy.published, key);
    if latest.Some? && latest.value.socket == s && c.proxy.sockets[s].open {
      LatestMatches(c, s, key);
      MatchedIsLatest(c, s);
    }
  }

  lemma {:induction false} CloseReadKeepsClears(c: Shared, s: Id)
    requires Recorded(c.proxy) && ClearsRight(c) && s in c.proxy.sockets && SettledAt(c, c.proxy.sockets[s].key)
    ensures ClearsRight(HalfStep(c, CloseRead(s)))
  {
    hide Latest;
    hide Recorded;
    hide SettledAt;
    if ReadMatches(c.proxy, s) {
      MatchedIsLatest(c, s);
      assert c.proxy.published[..|c.proxy.published|] == c.proxy.published;
    }
  }

  /** The delete of a clear leaves its session right exactly if it is in time. */
  lemma {:induction false} DeleteExactly(c: Shared, s: Id)
    requires SharedInv(c) && s in c.clears
    ensures SettledAt(HalfStep(c, Delete(s)), c.clears[s].key) <==> InTime(c, Delete(s))
  {
    hide Latest;
    var p, key, seen := c.proxy, c.clears[s].key, c.clears[s].seen;
    assert p.published == p.published[..seen] + p.published[seen..];
    LatestOfTwo(p.published[..seen], p.published[seen..], key);
    LatestIsPublished(p.published, key);
  }

  lemma {:induction false} DeleteKeepsKey(c: Shared, s: Id, key: Key)
    requires Recorded(c.proxy) && ClearsRight(c) && s in c.clears && key != c.clears[s].key && SettledAt(c, key)
    ensures SettledAt(HalfStep(c, Delete(s)), key)
  {
    hide Latest;
    var published, seen := c.proxy.published, c.clears[s].seen;
    LatestIsPublished(published, key);
    LatestIsPublished(published[..seen], c.clears[s].key);
    assert forall x :: x in published[..seen] ==> x in published;
  }

  lemma {:induction false} WholeKeepsKey(c: Shared, e: Event, key: Key)
    requires Recorded(c.proxy) && !e.Close? && Possible(c.proxy, e) && SettledAt(c, key)
    ensures SettledAt(HalfStep(c, Whole(e)), key)
  {
    hide Latest;
    LatestIsPublished(c.proxy.published, key);
    if e.Ready? {
      LatestGrows(c.proxy.published, Publication(e.socket, c.proxy.sockets[e.socket].key, e.uuid));
    }
  }

  lemma {:induction false} WholeKeepsClears(c: Shared, e: Event)
    requires ClearsRight(c) && !e.Close? && Possible(c.proxy, e)
    ensures ClearsRight(HalfStep(c, Whole(e)))
  {
    hide Latest;
    var before, after := c.proxy.published, Step(c.proxy, e).published;
    assert before <= after;
    assert forall s :: s in c.clears ==> after[..c.clears[s].seen] == before[..c.clears[s].seen];
  }

  lemma {:induction false} HalfStepExactly(c: Shared, h: Half)
    requires SharedInv(c) && HalfPossible(c, h)
    ensures Settled(HalfStep(c, h)) <==> InTime(c, h)
    ensures InTime(c, h) ==> SharedInv(HalfStep(c, h))
  {
    hide SettledAt;
    hide Recorded;
    match h
    case CloseRead(s) =>
      CloseReadKeepsRecorded(c.proxy, s);
      CloseReadKeepsClears(c, s);
      forall key ensures SettledAt(HalfStep(c, h), key) { CloseReadKeepsKey(c, s, key); }
    case Delete(s) =>
      DeleteExactly(c, s);
      forall key | key != c.clears[s].key ensures SettledAt(HalfStep(c, h), key) { DeleteKeepsKey(c, s, key); }
      DeleteKeepsRest(c, s);
    case Whole(e) =>
      StepKeepsRecorded(c.proxy, e);
      WholeKeepsClears(c, e);
      forall key ensures SettledAt(HalfStep(c, h), key) { WholeKeepsKey(c, e, key); }
  }

  lemma {:induction false} DeleteKeepsRest(c: Shared, s: Id)
    requires Recorded(c.proxy) && ClearsRight(c) && s in c.clears
    ensures Recorded(HalfStep(c, Delete(s)).proxy) && ClearsRight(HalfStep(c, Delete(s)))
  {
    hide Latest;
  }

  // ---------- A whole run of halves ----------

  /**
    Against the real store the read and the delete of every clear are two operations, and any
    others may act in between. Throughout a run each entry is right, or is the closed last
    publisher's and about to go, if and only if every delete is in time: a reconnect that
    publishes in between loses its uuid.
   */
  lemma {:induction false} DeleteAfterRead(halves: seq<Half>)
    requires AllPossible(FRESH, halves)
    ensures SettledThroughout(FRESH, halves) <==> AllInTime(FRESH, halves)
  {
    forall key ensures SettledAt(FRESH, key) {
      assert RightAt(STARTED, key);
    }
    SettledExactly(FRESH, halves);
  }

  lemma {:induction false} SettledExactly(c: Shared, halves: seq<Half>)
    requires SharedInv(c) && AllPossible(c, halves)
    ensures SettledThroughout(c, halves) <==> AllInTime(c, halves)
    decreases |halves|
  {
    hide Recorded;
    hide ClearsRight;
    hide Settled;
    hide InTime;
    hide HalfStep;
    hide HalfPossible;
    if halves != [] {
      HalfStepExactly(c, halves[0]);
      if InTime(c, halves[0]) {
        SettledExactly(HalfStep(c, halves[0]), halves[1..]);
      } else {
        assert !Settled(HalfStep(c, halves[0]));
      }
    }
  }

  lemma {:induction false} RunOfTwo(p: Proxy, e: Event, f: Event)
    requires Possible(p, e) && Possible(Step(p, e), f)
    ensures Feasible(p, [e, f]) && Run(p, [e, f]) == Step(Step(p, e), f)
  {
    assert [e, f][1..] == [f] && [f][1..] == [];
    assert Run(Step(p, e), [f]) == Run(Step(Step(p, e), f), []);
  }

  /** Such a loss: a reconnect publishes between the read and the delete, and nobody can join it. */
  lemma {:induction false} ReconnectLosesItsUuid() returns (before: seq<Event>, between: seq<Event>)
    ensures Feasible(STARTED, before)
    ensures var p := Run(STARTED, before);
            && 1 in p.sockets && ReadMatches(p, 1)
            && Feasible(CloseAndRead(p, 1), between)
            && var q := Run(CloseAndRead(p, 1), between);
            && Joinable(q, "session") == Lookup(q.stored, "session") == Some("second")
            && Lookup(q.stored - {p.sockets[1].key}, "session") == None
  {
    before := [Connect(1, "session", true), Ready(1, "first")];
    between := [Connect(2, "session", true), Ready(2, "second")];
    RunOfTwo(STARTED, before[0], before[1]);
    var p := Run(STARTED, before);
    RunOfTwo(CloseAndRead(p, 1), between[0], between[1]);
  }
}
