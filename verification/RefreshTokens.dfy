/**
  Refresh-token rotation. Tokens are known by their hash; a refresh, taken as one step, exchanges
  a token for a successor in its family, and a replayed token takes the whole family with it
  (rotation as in section 5.2.2.3 of RFC 6819). Hashes and families drawn at random are fresh.
 */
module RefreshTokens {
  import opened Wrappers

  type Hash = string
  type Family = string
  type User = string

  datatype Row = Row(user: User, family: Family, expiresAt: int, revoked: bool)

  datatype Exchange = Exchange(spent: Hash, successor: Hash)

  /** The token table, and the exchanges made so far. */
  datatype Store = Store(rows: map<Hash, Row>, exchanges: seq<Exchange>)

  const EMPTY := Store(map[], [])

  datatype Answer = Issued(hash: Hash) | InvalidToken | ReuseDetected | Expired | UserUnavailable

  // ---------- Steps ----------

  function RevokeFamily(rows: map<Hash, Row>, family: Family): map<Hash, Row> {
    map h | h in rows :: if rows[h].family == family then rows[h].(revoked := true) else rows[h]
  }

  function RevokeUser(rows: map<Hash, Row>, user: User): map<Hash, Row> {
    map h | h in rows :: if rows[h].user == user then rows[h].(revoked := true) else rows[h]
  }

  function Issue(s: Store, user: User, hash: Hash, family: Family, expiresAt: int): Store {
    s.(rows := s.rows[hash := Row(user, family, expiresAt, false)])
  }

  function Refresh(s: Store, presented: Hash, signed: bool, userActive: bool, next: Hash, now: int, ttl: nat)
    : (Store, Answer)
  {
    if !signed || presented !in s.rows then (s, InvalidToken)
    else
      var stored := s.rows[presented];
      if stored.revoked then (s.(rows := RevokeFamily(s.rows, stored.family)), ReuseDetected)
      else if stored.expiresAt < now then (s, Expired)
      else if !userActive then (s, UserUnavailable)
      else
        var rotated := Store(s.rows[presented := stored.(revoked := true)], s.exchanges + [Exchange(presented, next)]);
        (Issue(rotated, stored.user, next, stored.family, now + ttl), Issued(next))
  }

  function Logout(s: Store, user: User, presented: Option<Hash>): Store {
    if presented.Some? && presented.value in s.rows && s.rows[presented.value].user == user then
      s.(rows := s.rows[presented.value := s.rows[presented.value].(revoked := true)])
    else s
  }

  datatype Event =
    | LoggedIn(user: User, hash: Hash, family: Family, now: int, ttl: nat)
    | Refreshed(presented: Hash, signed: bool, userActive: bool, next: Hash, now: int, ttl: nat)
    | LoggedOut(user: User, token: Option<Hash>)
    | RevokedAll(user: User)

  /** Random draws do not collide with anything in the table. */
  ghost predicate Fresh(s: Store, e: Event) {
    && (e.LoggedIn? ==> e.hash !in s.rows && forall h :: h in s.rows ==> s.rows[h].family != e.family)
    && (e.Refreshed? ==> e.next !in s.rows)
  }

  function Step(s: Store, e: Event): Store {
    match e
    case LoggedIn(user, hash, family, now, ttl) => Issue(s, user, hash, family, now + ttl)
    case Refreshed(presented, signed, userActive, next, now, ttl) =>
      Refresh(s, presented, signed, userActive, next, now, ttl).0
    case LoggedOut(user, token) => Logout(s, user, token)
    case RevokedAll(user) => s.(rows := RevokeUser(s.rows, user))
  }

  function Run(s: Store, events: seq<Event>): Store
    decreases |events|
  {
    if events == [] then s else Run(Step(s, events[0]), events[1..])
  }

  ghost predicate AllFresh(s: Store, events: seq<Event>)
    decreases |events|
  {
    events == [] || (Fresh(s, events[0]) && AllFresh(Step(s, events[0]), events[1..]))
  }

  // ---------- The table itself ----------

  class TokenTable {
    var rows: map<Hash, Row>
    var exchanges: seq<Exchange>

    function View(): Store
      reads this
    {
      Store(rows, exchanges)
    }

    constructor ()
      ensures View() == EMPTY
    {
      rows, exchanges := map[], [];
    }

    method IssueTokens(user: User, hash: Hash, family: Family, expiresAt: int)
      modifies this
      ensures View() == Issue(old(View()), user, hash, family, expiresAt)
    {
      rows := rows[hash := Row(user, family, expiresAt, false)];
    }

    method RefreshToken(presented: Hash, signed: bool, userActive: bool, next: Hash, now: int, ttl: nat)
      returns (answer: Answer)
      modifies this
      ensures (View(), answer) == Refresh(old(View()), presented, signed, userActive, next, now, ttl)
    {
      if !signed {
        return InvalidToken;
      }
      if presented !in rows {
        return InvalidToken;
      }
      var stored := rows[presented];
      if stored.revoked {
        rows := map h | h in rows :: if rows[h].family == stored.family then rows[h].(revoked := true) else rows[h];
        return ReuseDetected;
      }
      if stored.expiresAt < now {
        return Expired;
      }
      if !userActive {
        return UserUnavailable;
      }
      rows := rows[presented := stored.(revoked := true)];
      exchanges := exchanges + [Exchange(presented, next)];
      IssueTokens(stored.user, next, stored.family, now + ttl);
      return Issued(next);
    }

    method LogoutUser(user: User, presented: Option<Hash>)
      modifies this
      ensures View() == Logout(old(View()), user, presented)
    {
      if presented.Some? && presented.value in rows && rows[presented.value].user == user {
        rows := rows[presented.value := rows[presented.value].(revoked := true)];
      }
    }

    method RevokeAllOf(user: User)
      modifies this
      ensures View() == Store(RevokeUser(old(rows), user), old(exchanges))
    {
      rows := map h | h in rows :: if rows[h].user == user then rows[h].(revoked := true) else rows[h];
    }

    /** Over a whole run the table does what the step functions say. */
    method Serve(events: seq<Event>)
      modifies this
      ensures View() == Run(old(View()), events)
    {
      hide Refresh;
      hide RevokeUser;
      var i := 0;
      while i < |events|
        invariant i <= |events|
        invariant Run(View(), events[i..]) == Run(old(View()), events)
      {
        assert events[i..][0] == events[i] && events[i..][1..] == events[i + 1..];
        ghost var before := View();
        match events[i] {
          case LoggedIn(user, hash, family, now, ttl) => IssueTokens(user, hash, family, now + ttl);
          case Refreshed(presented, signed, userActive, next, now, ttl) =>
            var answer := RefreshToken(presented, signed, userActive, next, now, ttl);
          case LoggedOut(user, token) => LogoutUser(user, token);
          case RevokedAll(user) => RevokeAllOf(user);
        }
        assert View() == Step(before, events[i]);
        i := i + 1;
      }
    }
  }

  // ---------- The invariant of every run ----------

  ghost predicate OneLivePerFamily(rows: map<Hash, Row>) {
    forall a, b :: a in rows && b in rows && !rows[a].revoked && !rows[b].revoked && rows[a].family == rows[b].family ==> a == b
  }

  ghost predicate OneUserPerFamily(rows: map<Hash, Row>) {
    forall a, b :: a in rows && b in rows && rows[a].family == rows[b].family ==> rows[a].user == rows[b].user
  }

  /** An exchanged token is spent, its successor is of the same family and user, and neither repeats. */
  ghost predicate Lineage(s: Store) {
    && (forall i :: 0 <= i < |s.exchanges| ==>
          var x := s.exchanges[i];
          && x.spent in s.rows && s.rows[x.spent].revoked
          && x.successor in s.rows && s.rows[x.successor].family == s.rows[x.spent].family)
    && (forall i, j :: 0 <= i < j < |s.exchanges| ==>
          s.exchanges[i].spent != s.exchanges[j].spent && s.exchanges[i].successor != s.exchanges[j].successor)
  }

  ghost predicate Inv(s: Store) {
    OneLivePerFamily(s.rows) && OneUserPerFamily(s.rows) && Lineage(s)
  }

  lemma {:induction false} RotationKeepsInv(s: Store, presented: Hash, next: Hash, expiresAt: int)
    requires Inv(s) && presented in s.rows && !s.rows[presented].revoked && next !in s.rows
    ensures var stored := s.rows[presented];
            var rotated := Store(s.rows[presented := stored.(revoked := true)], s.exchanges + [Exchange(presented, next)]);
            Inv(Issue(rotated, stored.user, next, stored.family, expiresAt))
  {
    var stored := s.rows[presented];
    var rotated := Store(s.rows[presented := stored.(revoked := true)], s.exchanges + [Exchange(presented, next)]);
    var s' := Issue(rotated, stored.user, next, stored.family, expiresAt);
    assert Lineage(s') by {
      hide OneLivePerFamily;
      hide OneUserPerFamily;
      assert forall i :: 0 <= i < |s.exchanges| ==>
        s'.exchanges[i] == s.exchanges[i] && s.exchanges[i].spent != presented && s.exchanges[i].successor != next;
    }
    assert OneUserPerFamily(s'.rows);
  }

  lemma {:induction false} StepKeepsInv(s: Store, e: Event)
    requires Inv(s) && Fresh(s, e)
    ensures Inv(Step(s, e))
  {
    if e.Refreshed? && Refresh(s, e.presented, e.signed, e.userActive, e.next, e.now, e.ttl).1.Issued? {
      RotationKeepsInv(s, e.presented, e.next, e.now + e.ttl);
    } else {
      OtherStepKeepsInv(s, e);
    }
  }

  lemma {:induction false} OtherStepKeepsInv(s: Store, e: Event)
    requires Inv(s) && Fresh(s, e)
    requires e.Refreshed? ==> !Refresh(s, e.presented, e.signed, e.userActive, e.next, e.now, e.ttl).1.Issued?
    ensures Inv(Step(s, e))
  {
  }

  lemma {:induction false} RunKeepsInv(s: Store, events: seq<Event>)
    requires Inv(s) && AllFresh(s, events)
    ensures Inv(Run(s, events))
    decreases |events|
  {
    hide Inv;
    hide Step;
    hide Fresh;
    if events != [] {
      StepKeepsInv(s, events[0]);
      RunKeepsInv(Step(s, events[0]), events[1..]);
    }
  }

  /** Over every run: one live token per family at most, and no token exchanged twice. */
  lemma {:induction false} RotationIsSafe(events: seq<Event>)
    requires AllFresh(EMPTY, events)
    ensures var s := Run(EMPTY, events);
            && OneLivePerFamily(s.rows)
            && OneUserPerFamily(s.rows)
            && (forall i, j :: 0 <= i < j < |s.exchanges| ==> s.exchanges[i].spent != s.exchanges[j].spent)
            && (forall i :: 0 <= i < |s.exchanges| ==> s.exchanges[i].spent in s.rows && s.rows[s.exchanges[i].spent].revoked)
  {
    RunKeepsInv(EMPTY, events);
  }

  // ---------- A burnt family ----------

  /** The family has tokens, and every one of them is revoked. */
  ghost predicate Dead(s: Store, family: Family) {
    && (exists h :: h in s.rows && s.rows[h].family == family)
    && (forall h :: h in s.rows && s.rows[h].family == family ==> s.rows[h].revoked)
  }

  lemma {:induction false} DeadStaysDead(s: Store, family: Family, events: seq<Event>)
    requires Dead(s, family) && AllFresh(s, events)
    ensures Dead(Run(s, events), family)
    decreases |events|
  {
    if events != [] {
      DeadStep(s, family, events[0]);
      DeadStaysDead(Step(s, events[0]), family, events[1..]);
    }
  }

  lemma {:induction false} DeadStep(s: Store, family: Family, e: Event)
    requires Dead(s, family) && Fresh(s, e)
    ensures Dead(Step(s, e), family)
  {
    var h :| h in s.rows && s.rows[h].family == family;
    var s' := Step(s, e);
    assert h in s'.rows && s'.rows[h].family == family;
  }

  /** Presenting a signed token that is already revoked burns its family and touches no other row. */
  lemma {:induction false} ReplayBurnsTheFamily(s: Store, presented: Hash, userActive: bool, next: Hash, now: int, ttl: nat)
    requires presented in s.rows && s.rows[presented].revoked
    ensures var (s', answer) := Refresh(s, presented, true, userActive, next, now, ttl);
            && answer == ReuseDetected
            && Dead(s', s.rows[presented].family)
            && s'.rows.Keys == s.rows.Keys
            && forall h :: h in s.rows && s.rows[h].family != s.rows[presented].family ==> s'.rows[h] == s.rows[h]
  {
    var s' := Refresh(s, presented, true, userActive, next, now, ttl).0;
    assert presented in s'.rows && s'.rows[presented].family == s.rows[presented].family;
  }

  /**
    After a replay nobody refreshes in that family again: not the thief, not the owner, whatever
    happens in between.
   */
  lemma {:induction false} NoRefreshAfterAReplay(before: seq<Event>, replay: Event, after: seq<Event>, token: Hash, userActive: bool, next: Hash, now: int, ttl: nat)
    requires AllFresh(EMPTY, before)
    requires var s := Run(EMPTY, before);
             && replay.Refreshed? && replay.signed && Fresh(s, replay)
             && replay.presented in s.rows && s.rows[replay.presented].revoked
             && AllFresh(Step(s, replay), after)
             && var t := Run(Step(s, replay), after);
                token in t.rows && t.rows[token].family == s.rows[replay.presented].family
    ensures var t := Run(Step(Run(EMPTY, before), replay), after);
            Refresh(t, token, true, userActive, next, now, ttl).1 == ReuseDetected
  {
    var s := Run(EMPTY, before);
    hide Run;
    hide AllFresh;
    ReplayBurnsTheFamily(s, replay.presented, replay.userActive, replay.next, replay.now, replay.ttl);
    DeadStaysDead(Step(s, replay), s.rows[replay.presented].family, after);
  }

  /** A token once exchanged can only be replayed: using it again is what kills its family. */
  lemma {:induction false} SpentTokenIsAReplay(events: seq<Event>, i: nat, userActive: bool, next: Hash, now: int, ttl: nat)
    requires AllFresh(EMPTY, events) && i < |Run(EMPTY, events).exchanges|
    ensures var s := Run(EMPTY, events);
            var spent := s.exchanges[i].spent;
            var (s', answer) := Refresh(s, spent, true, userActive, next, now, ttl);
            && spent in s.rows
            && answer == ReuseDetected
            && Dead(s', s.rows[spent].family)
  {
    hide Run;
    hide AllFresh;
    RotationIsSafe(events);
    var s := Run(EMPTY, events);
    ReplayBurnsTheFamily(s, s.exchanges[i].spent, userActive, next, now, ttl);
  }

  // ---------- What each operation ends, and what it leaves alone ----------

  /** The same tokens, with the same rows outside the given ones. */
  ghost predicate SameBut(s: Store, s': Store, touched: set<Hash>) {
    s'.rows.Keys == s.rows.Keys && forall h :: h in s.rows && h !in touched ==> s'.rows[h] == s.rows[h]
  }

  /**
    Logging out with one's own live token ends its family: nobody refreshes in it again, and no
    other token changes.
   */
  lemma {:induction false} LogoutEndsTheFamily(events: seq<Event>, user: User, token: Hash, later: seq<Event>, presented: Hash, next: Hash, now: int, ttl: nat)
    requires AllFresh(EMPTY, events)
    requires var s := Run(EMPTY, events);
             && token in s.rows && s.rows[token].user == user && !s.rows[token].revoked
             && AllFresh(Step(s, LoggedOut(user, Some(token))), later)
    ensures var s := Run(EMPTY, events);
            var s' := Step(s, LoggedOut(user, Some(token)));
            var t := Run(s', later);
            && SameBut(s, s', {token}) && Dead(s', s.rows[token].family)
            && (presented in t.rows && t.rows[presented].family == s.rows[token].family ==>
                  Refresh(t, presented, true, true, next, now, ttl).1 == ReuseDetected)
  {
    hide AllFresh;
    hide Run;
    RunKeepsInv(EMPTY, events);
    var s := Run(EMPTY, events);
    var s' := Step(s, LoggedOut(user, Some(token)));
    assert token in s'.rows && s'.rows[token].family == s.rows[token].family;
    DeadStaysDead(s', s.rows[token].family, later);
  }

  /** With nobody's token, an unknown one or somebody else's, a logout changes nothing. */
  lemma {:induction false} LogoutTouchesOnlyOnesOwn(s: Store, user: User, token: Option<Hash>)
    ensures Step(s, LoggedOut(user, token)) != s ==>
              token.Some? && token.value in s.rows && s.rows[token.value].user == user && !s.rows[token.value].revoked
  {
    if token.Some? && token.value in s.rows && s.rows[token.value].revoked {
      assert s.rows[token.value := s.rows[token.value].(revoked := true)] == s.rows;
    }
  }

  /** After a revocation of all, every family of the user is dead, and nobody else lost a token. */
  lemma {:induction false} RevokeAllEndsTheUser(events: seq<Event>, user: User, token: Hash)
    requires AllFresh(EMPTY, events) && token in Run(EMPTY, events).rows
    ensures var s := Run(EMPTY, events);
            var s' := Step(s, RevokedAll(user));
            && s'.rows.Keys == s.rows.Keys
            && (s.rows[token].user == user ==> Dead(s', s.rows[token].family))
            && (s.rows[token].user != user ==> s'.rows[token] == s.rows[token])
  {
    hide AllFresh;
    hide Run;
    RunKeepsInv(EMPTY, events);
    var s := Run(EMPTY, events);
    assert token in Step(s, RevokedAll(user)).rows;
  }

  /** A login adds one live token, of a family of its own, and changes no other. */
  lemma {:induction false} LoginStartsAFamily(s: Store, user: User, hash: Hash, family: Family, now: int, ttl: nat)
    requires Fresh(s, LoggedIn(user, hash, family, now, ttl))
    ensures var s' := Step(s, LoggedIn(user, hash, family, now, ttl));
            && s'.rows.Keys == s.rows.Keys + {hash} && s'.exchanges == s.exchanges
            && (forall h :: h in s.rows ==> s'.rows[h] == s.rows[h] && s'.rows[h].family != family)
            && s'.rows[hash].user == user && s'.rows[hash].family == family
            && !s'.rows[hash].revoked && s'.rows[hash].expiresAt == now + ttl
  {
  }

  /**
    Who gets a new token, and what it costs: only a signed, known, live, unexpired token of an
    active user is exchanged; it alone is revoked, and its successor is of the same user and family
    with a deadline of its own. Nobody else changes the table, except by a replay.
   */
  lemma {:induction false} RefreshExactly(s: Store, e: Event)
    requires e.Refreshed? && Fresh(s, e)
    ensures var (s', answer) := Refresh(s, e.presented, e.signed, e.userActive, e.next, e.now, e.ttl);
            var known := e.signed && e.presented in s.rows;
            && (answer == Issued(e.next) <==>
                  known && !s.rows[e.presented].revoked && e.now <= s.rows[e.presented].expiresAt && e.userActive)
            && (answer == ReuseDetected <==> known && s.rows[e.presented].revoked)
            && (answer == InvalidToken <==> !known)
            && (answer == Expired ==> e.now > s.rows[e.presented].expiresAt)
            && (answer == UserUnavailable ==> !e.userActive)
            && (answer != Issued(e.next) && answer != ReuseDetected ==> s' == s)
            && (answer == Issued(e.next) ==>
                  && s'.rows.Keys == s.rows.Keys + {e.next}
                  && (forall h :: h in s.rows && h != e.presented ==> s'.rows[h] == s.rows[h])
                  && s'.rows[e.presented].revoked && !s'.rows[e.next].revoked
                  && s'.rows[e.next].user == s.rows[e.presented].user == s'.rows[e.presented].user
                  && s'.rows[e.next].family == s.rows[e.presented].family == s'.rows[e.presented].family
                  && s'.rows[e.next].expiresAt == e.now + e.ttl
                  && s'.exchanges == s.exchanges + [Exchange(e.presented, e.next)])
  {
    hide RevokeFamily;
  }

  // ---------- A client that behaves ----------

  /** The event presents no token of this family and ends no session of its user. */
  predicate LeavesAlone(s: Store, e: Event, family: Family, user: User) {
    match e
    case LoggedIn(_, _, _, _, _) => true
    case Refreshed(presented, signed, _, _, _, _) => signed && presented in s.rows ==> s.rows[presented].family != family
    case LoggedOut(_, token) => token.Some? && token.value in s.rows ==> s.rows[token.value].family != family
    case RevokedAll(other) => other != user
  }

  /** What a client holding `token` holds after the event: an answered refresh replaces it. */
  function Held(s: Store, token: Hash, e: Event): Hash {
    if e.Refreshed? && e.presented == token && Refresh(s, token, e.signed, e.userActive, e.next, e.now, e.ttl).1.Issued?
    then e.next else token
  }

  function HeldAtLast(s: Store, token: Hash, events: seq<Event>): Hash
    decreases |events|
  {
    if events == [] then token else HeldAtLast(Step(s, events[0]), Held(s, token, events[0]), events[1..])
  }

  /** Among whatever else happens, the family is only touched by its client, with the token it holds. */
  ghost predicate Honest(s: Store, token: Hash, events: seq<Event>)
    decreases |events|
  {
    events == [] ||
    (var e := events[0];
     && Fresh(s, e) && token in s.rows
     && ((e.Refreshed? && e.presented == token) || LeavesAlone(s, e, s.rows[token].family, s.rows[token].user))
     && Honest(Step(s, e), Held(s, token, e), events[1..]))
  }

  /**
    A client that only ever presents the token it was last given is never locked out, whatever
    others do: that token stays live, and is exchanged whenever it is presented in time.
   */
  lemma {:induction false} HonestChainStaysLive(s: Store, first: Hash, events: seq<Event>)
    requires first in s.rows && !s.rows[first].revoked && Honest(s, first, events)
    ensures var t := Run(s, events);
            var last := HeldAtLast(s, first, events);
            && last in t.rows && !t.rows[last].revoked
            && t.rows[last].family == s.rows[first].family && t.rows[last].user == s.rows[first].user
            && forall next, now, ttl :: Refresh(t, last, true, true, next, now, ttl).1.Issued? <==> now <= t.rows[last].expiresAt
    decreases |events|
  {
    if events != [] {
      HonestStep(s, first, events[0]);
      HonestChainStaysLive(Step(s, events[0]), Held(s, first, events[0]), events[1..]);
    }
  }

  lemma {:induction false} HonestStep(s: Store, token: Hash, e: Event)
    requires token in s.rows && !s.rows[token].revoked && Fresh(s, e)
    requires (e.Refreshed? && e.presented == token) || LeavesAlone(s, e, s.rows[token].family, s.rows[token].user)
    ensures var s', held := Step(s, e), Held(s, token, e);
            && held in s'.rows && !s'.rows[held].revoked
            && s'.rows[held].family == s.rows[token].family && s'.rows[held].user == s.rows[token].user
  {
  }

  // ---------- A refresh in two database steps ----------

  /** What a refresh writes, given that its read found the token live. */
  function LateWrite(s: Store, presented: Hash, next: Hash, expiresAt: int): Store
    requires presented in s.rows
  {
    var stored := s.rows[presented];
    Issue(Store(s.rows[presented := stored.(revoked := true)], s.exchanges + [Exchange(presented, next)]),
          stored.user, next, stored.family, expiresAt)
  }

  /** A write that adds no second live token to a family and brings no dead family back. */
  ghost predicate KeepsThePromise(s: Store, s': Store, family: Family) {
    OneLivePerFamily(s'.rows) && (Dead(s, family) ==> Dead(s', family))
  }

  /**
    Against the real database others may act between the read and the write of a refresh. In any
    state they can lead to, the write does right exactly when the token is still live.
   */
  lemma {:induction false} LateWriteIsRight(events: seq<Event>, presented: Hash, next: Hash, expiresAt: int)
    requires AllFresh(EMPTY, events)
    requires presented in Run(EMPTY, events).rows && next !in Run(EMPTY, events).rows
    ensures var s := Run(EMPTY, events);
            KeepsThePromise(s, LateWrite(s, presented, next, expiresAt), s.rows[presented].family)
            <==> !s.rows[presented].revoked
  {
    hide AllFresh;
    hide Run;
    hide KeepsThePromise;
    RunKeepsInv(EMPTY, events);
    LateWriteFrom(Run(EMPTY, events), presented, next, expiresAt);
  }

  lemma {:induction false} LateWriteFrom(s: Store, presented: Hash, next: Hash, expiresAt: int)
    requires Inv(s) && presented in s.rows && next !in s.rows
    ensures KeepsThePromise(s, LateWrite(s, presented, next, expiresAt), s.rows[presented].family) <==> !s.rows[presented].revoked
  {
    var family := s.rows[presented].family;
    var s' := LateWrite(s, presented, next, expiresAt);
    assert next in s'.rows && !s'.rows[next].revoked && s'.rows[next].family == family;
    if s.rows[presented].revoked {
      if x :| x in s.rows && s.rows[x].family == family && !s.rows[x].revoked {
        assert x in s'.rows && x != next && !s'.rows[x].revoked && s'.rows[x].family == family;
      } else {
        assert Dead(s, family);
      }
    }
  }

  /** The atomic refresh is its read directly followed by its write, and then the write is right. */
  lemma {:induction false} RefreshIsReadThenWrite(events: seq<Event>, e: Event)
    requires AllFresh(EMPTY, events) && Fresh(Run(EMPTY, events), e) && e.Refreshed?
    requires Refresh(Run(EMPTY, events), e.presented, e.signed, e.userActive, e.next, e.now, e.ttl).1.Issued?
    ensures var s := Run(EMPTY, events);
            && e.presented in s.rows
            && Step(s, e) == LateWrite(s, e.presented, e.next, e.now + e.ttl)
            && KeepsThePromise(s, Step(s, e), s.rows[e.presented].family)
  {
    hide AllFresh;
    hide Run;
    hide KeepsThePromise;
    LateWriteIsRight(events, e.presented, e.next, e.now + e.ttl);
  }

  /** Two refreshes that both read the token before either writes leave the family two live tokens. */
  lemma {:induction false} TwoReadsBeforeAWrite() returns (login: Event, refresh: Event)
    ensures AllFresh(EMPTY, [login]) && Fresh(Step(EMPTY, login), refresh)
    ensures var read := Step(EMPTY, login);
            var s := Step(read, refresh);
            && "a" in s.rows
            && var s' := LateWrite(s, "a", "c", 11);
            && Refresh(read, "a", true, true, "c", 1, 10).1 == Issued("c")
            && "b" in s'.rows && "c" in s'.rows && !s'.rows["b"].revoked && !s'.rows["c"].revoked
            && s'.rows["b"].family == s'.rows["c"].family
            && !OneLivePerFamily(s'.rows)
  {
    login := LoggedIn("user", "a", "family", 0, 10);
    refresh := Refreshed("a", true, true, "b", 1, 10);
    var s := Step(Step(EMPTY, login), refresh);
    assert s.rows["b"] == Row("user", "family", 11, false);
  }

  // ---------- Refreshes whose reads and writes interleave ----------

  /** The table, and the token each refresh under way has read. */
  datatype Shared = Shared(store: Store, found: map<nat, Hash>)

  /** The half of a refresh that read a live token, the half that writes, or anything else as one step. */
  datatype Half =
    | Read(refresh: nat, presented: Hash, now: int)
    | Write(refresh: nat, next: Hash, expiresAt: int)
    | Whole(event: Event)

  function HalfStep(c: Shared, h: Half): Shared
    requires h.Write? ==> h.refresh in c.found
  {
    match h
    case Read(refresh, presented, now) =>
      if presented in c.store.rows && !c.store.rows[presented].revoked && c.store.rows[presented].expiresAt >= now
      then c.(found := c.found[refresh := presented]) else c
    case Write(refresh, next, expiresAt) =>
      Shared(if c.found[refresh] in c.store.rows then LateWrite(c.store, c.found[refresh], next, expiresAt) else c.store,
             c.found - {refresh})
    case Whole(event) => c.(store := Step(c.store, event))
  }

  ghost predicate AllPossible(c: Shared, halves: seq<Half>)
    decreases |halves|
  {
    halves == [] ||
    (var h := halves[0];
     && (h.Write? ==> h.refresh in c.found && h.next !in c.store.rows)
     && (h.Whole? ==> Fresh(c.store, h.event))
     && AllPossible(HalfStep(c, h), halves[1..]))
  }

  /** A step that leaves one live token per family at most, and every dead family dead. */
  ghost predicate Keeps(s: Store, s': Store) {
    OneLivePerFamily(s'.rows) && forall family :: Dead(s, family) ==> Dead(s', family)
  }

  ghost predicate KeptThroughout(c: Shared, halves: seq<Half>)
    requires AllPossible(c, halves)
    decreases |halves|
  {
    halves == [] ||
    (Keeps(c.store, HalfStep(c, halves[0]).store) && KeptThroughout(HalfStep(c, halves[0]), halves[1..]))
  }

  predicate FindsItLive(c: Shared, h: Half)
    requires h.Write? ==> h.refresh in c.found
  {
    h.Write? ==> c.found[h.refresh] in c.store.rows && !c.store.rows[c.found[h.refresh]].revoked
  }

  ghost predicate EveryWriteFindsItLive(c: Shared, halves: seq<Half>)
    requires AllPossible(c, halves)
    decreases |halves|
  {
    halves == [] || (FindsItLive(c, halves[0]) && EveryWriteFindsItLive(HalfStep(c, halves[0]), halves[1..]))
  }

  ghost predicate SharedInv(c: Shared) {
    Inv(c.store) && forall r :: r in c.found ==> c.found[r] in c.store.rows
  }

  lemma {:induction false} WriteExactly(s: Store, presented: Hash, next: Hash, expiresAt: int)
    requires Inv(s) && presented in s.rows && next !in s.rows
    ensures var s' := LateWrite(s, presented, next, expiresAt);
            && (Keeps(s, s') <==> !s.rows[presented].revoked)
            && (!s.rows[presented].revoked ==> Inv(s'))
  {
    LateWriteFrom(s, presented, next, expiresAt);
    if !s.rows[presented].revoked {
      RotationKeepsInv(s, presented, next, expiresAt);
      var s' := LateWrite(s, presented, next, expiresAt);
      forall family | Dead(s, family)
        ensures Dead(s', family)
      {
        var h :| h in s.rows && s.rows[h].family == family;
        assert h in s'.rows && s'.rows[h].family == family;
      }
    }
  }

  lemma {:induction false} WholeKeeps(s: Store, e: Event)
    requires Inv(s) && Fresh(s, e)
    ensures Inv(Step(s, e)) && Keeps(s, Step(s, e)) && s.rows.Keys <= Step(s, e).rows.Keys
  {
    StepKeepsInv(s, e);
    forall family | Dead(s, family)
      ensures Dead(Step(s, e), family)
    {
      DeadStep(s, family, e);
    }
    hide Dead;
  }

  lemma {:induction false} HalfStepExactly(c: Shared, h: Half)
    requires SharedInv(c) && (h.Write? ==> h.refresh in c.found && h.next !in c.store.rows)
    requires h.Whole? ==> Fresh(c.store, h.event)
    ensures Keeps(c.store, HalfStep(c, h).store) <==> FindsItLive(c, h)
    ensures FindsItLive(c, h) ==> SharedInv(HalfStep(c, h))
  {
    hide Step;
    if h.Write? {
      WriteExactly(c.store, c.found[h.refresh], h.next, h.expiresAt);
      hide Keeps;
      hide Inv;
    } else if h.Whole? {
      WholeKeeps(c.store, h.event);
      hide Keeps;
      hide Inv;
    }
  }

  /**
    With the reads and writes of any number of refreshes interleaved in any way: each family keeps
    at most one live token, and a dead one stays dead, throughout the run if and only if every
    write finds the token it read still live.
   */
  lemma {:induction false} InterleavedRefreshes(halves: seq<Half>)
    requires AllPossible(Shared(EMPTY, map[]), halves)
    ensures var c := Shared(EMPTY, map[]); KeptThroughout(c, halves) <==> EveryWriteFindsItLive(c, halves)
  {
    InterleavedFrom(Shared(EMPTY, map[]), halves);
  }

  lemma {:induction false} InterleavedFrom(c: Shared, halves: seq<Half>)
    requires SharedInv(c) && AllPossible(c, halves)
    ensures KeptThroughout(c, halves) <==> EveryWriteFindsItLive(c, halves)
    decreases |halves|
  {
    hide SharedInv;
    hide Keeps;
    hide FindsItLive;
    hide HalfStep;
    if halves != [] {
      HalfStepExactly(c, halves[0]);
      if FindsItLive(c, halves[0]) {
        InterleavedFrom(HalfStep(c, halves[0]), halves[1..]);
      }
    }
  }
}
