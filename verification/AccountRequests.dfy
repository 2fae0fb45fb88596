/**
  Self-service account requests. A review reads its request early and claims it later; the claim
  is one conditional update, so reviews interleave freely between the two. Submitting and removing
  are one step each. Ids are never reused.
 */
module AccountRequests {
  import opened Wrappers

  /** Default ceiling on unreviewed requests. */
  const MAX_PENDING: nat := 500

  type Id = nat

  datatype Status = PENDING | APPROVED | REJECTED

  datatype Request = Request(
    email: string,
    username: string,
    passwordHash: string,
    status: Status,
    createdUserId: Option<Id>)

  datatype User = User(email: string, username: string, secret: string)

  datatype Kind = Approve(username: string) | Reject

  /** A review between its early read and its claim, with what it read. */
  datatype Review = Review(kind: Kind, request: Id, email: string, passwordHash: string)

  /** What happened to requests, in order, with what was submitted, read, carried over and claimed. */
  datatype Entry =
    | Submitted(request: Id, email: string, username: string, hash: string)
    | Opened(review: Id, request: Id, read: Review)
    | Approved(review: Id, request: Id, user: Id, account: User, current: string)
    | Rejected(review: Id, request: Id)
    | Lost(review: Id, request: Id)
    | Removed(request: Id)

  /** `byEmail` is the unique index of the request table on the e-mail address. */
  datatype Desk = Desk(
    requests: map<Id, Request>,
    byEmail: map<string, Id>,
    users: map<Id, User>,
    reviews: map<Id, Review>,
    nextId: Id,
    log: seq<Entry>)

  const OPENING := Desk(map[], map[], map[], map[], 0, [])

  datatype Event =
    | Submit(email: string, username: string, passwordHash: string)
    | Open(kind: Kind, request: Id)
    | Claim(review: Id)
    | Remove(request: Id)
    | UserAppears(email: string, username: string)
    | UserDeleted(user: Id)

  // ---------- Steps ----------

  predicate EmailTaken(users: map<Id, User>, email: string) {
    exists u :: u in users && users[u].email == email
  }

  predicate NameTaken(users: map<Id, User>, username: string) {
    exists u :: u in users && users[u].username == username
  }

  function Pending(requests: map<Id, Request>): set<Id> {
    set q | q in requests && requests[q].status == PENDING
  }

  function PendingCount(requests: map<Id, Request>): nat {
    |Pending(requests)|
  }

  /** Always answered the same way; what it does depends on the address. */
  function DoSubmit(d: Desk, email: string, username: string, passwordHash: string): Desk
    requires email in d.byEmail ==> d.byEmail[email] in d.requests
  {
    if EmailTaken(d.users, email) then d
    else if email in d.byEmail then
      var q := d.byEmail[email];
      if d.requests[q].status != REJECTED then d
      else
        d.(requests := d.requests[q := d.requests[q].(username := username, passwordHash := passwordHash, status := PENDING)],
           log := d.log + [Submitted(q, email, username, passwordHash)])
    else if PendingCount(d.requests) >= MAX_PENDING then d
    else
      d.(requests := d.requests[d.nextId := Request(email, username, passwordHash, PENDING, None)],
         byEmail := d.byEmail[email := d.nextId],
         nextId := d.nextId + 1,
         log := d.log + [Submitted(d.nextId, email, username, passwordHash)])
  }

  /** The early read: only a pending request is reviewed, and only approved if its address is free. */
  function DoOpen(d: Desk, kind: Kind, q: Id): Desk {
    if q !in d.requests || d.requests[q].status != PENDING then d
    else if kind.Approve? && EmailTaken(d.users, d.requests[q].email) then d
    else
      var read := Review(kind, q, d.requests[q].email, d.requests[q].passwordHash);
      d.(reviews := d.reviews[d.nextId := read], nextId := d.nextId + 1, log := d.log + [Opened(d.nextId, q, read)])
  }

  /** The conditional claim, and for an approval the account with it, or nothing at all. */
  function DoClaim(d: Desk, v: Id): Desk
    requires v in d.reviews
  {
    var review := d.reviews[v];
    var q := review.request;
    var ended := d.(reviews := d.reviews - {v});
    if q !in d.requests || d.requests[q].status != PENDING then ended.(log := d.log + [Lost(v, q)])
    else if review.kind.Reject? then
      ended.(requests := d.requests[q := d.requests[q].(status := REJECTED, passwordHash := "")],
             log := d.log + [Rejected(v, q)])
    else if EmailTaken(d.users, review.email) || NameTaken(d.users, review.kind.username) then ended
    else
      var account := User(review.email, review.kind.username, review.passwordHash);
      ended.(requests := d.requests[q := d.requests[q].(status := APPROVED, createdUserId := Some(d.nextId))],
             users := d.users[d.nextId := account],
             nextId := d.nextId + 1,
             log := d.log + [Approved(v, q, d.nextId, account, d.requests[q].passwordHash)])
  }

  function DoRemove(d: Desk, q: Id): Desk {
    if q !in d.requests then d
    else
      d.(requests := d.requests - {q}, byEmail := d.byEmail - {d.requests[q].email}, log := d.log + [Removed(q)])
  }

  /** Accounts also come and go without this service. */
  function OtherUsers(d: Desk, e: Event): Desk
    requires e.UserAppears? || e.UserDeleted?
  {
    if e.UserDeleted? then d.(users := d.users - {e.user})
    else d.(users := d.users[d.nextId := User(e.email, e.username, "")], nextId := d.nextId + 1)
  }

  ghost predicate Linked(d: Desk) {
    forall email :: email in d.byEmail ==> d.byEmail[email] in d.requests
  }

  ghost function Step(d: Desk, e: Event): Desk
    requires Linked(d) && (e.Claim? ==> e.review in d.reviews)
  {
    match e
    case Submit(email, username, passwordHash) => DoSubmit(d, email, username, passwordHash)
    case Open(kind, request) => DoOpen(d, kind, request)
    case Claim(review) => DoClaim(d, review)
    case Remove(request) => DoRemove(d, request)
    case UserAppears(_, _) => OtherUsers(d, e)
    case UserDeleted(_) => OtherUsers(d, e)
  }

  // ---------- The service over its tables ----------

  class Service {
    var requests: map<Id, Request>
    var byEmail: map<string, Id>
    var users: map<Id, User>
    var reviews: map<Id, Review>
    var nextId: Id
    var log: seq<Entry>

    function View(): Desk
      reads this
    {
      Desk(requests, byEmail, users, reviews, nextId, log)
    }

    constructor ()
      ensures View() == OPENING
    {
      requests, byEmail, users, reviews, nextId, log := map[], map[], map[], map[], 0, [];
    }

    method SubmitRequest(email: string, username: string, passwordHash: string)
      requires Linked(View())
      modifies this
      ensures View() == DoSubmit(old(View()), email, username, passwordHash)
    {
      if EmailTaken(users, email) {
        return;
      }
      if email in byEmail {
        var prior := byEmail[email];
        if requests[prior].status == PENDING || requests[prior].status == APPROVED {
          return;
        }
        requests := requests[prior :=
          requests[prior].(username := username, passwordHash := passwordHash, status := PENDING)];
        log := log + [Submitted(prior, email, username, passwordHash)];
        return;
      }
      if PendingCount(requests) >= MAX_PENDING {
        return;
      }
      requests := requests[nextId := Request(email, username, passwordHash, PENDING, None)];
      byEmail := byEmail[email := nextId];
      log := log + [Submitted(nextId, email, username, passwordHash)];
      nextId := nextId + 1;
    }

    method OpenReview(kind: Kind, q: Id)
      modifies this
      ensures View() == DoOpen(old(View()), kind, q)
    {
      if q !in requests || requests[q].status != PENDING {
        return;
      }
      if kind.Approve? && EmailTaken(users, requests[q].email) {
        return;
      }
      var read := Review(kind, q, requests[q].email, requests[q].passwordHash);
      reviews := reviews[nextId := read];
      log := log + [Opened(nextId, q, read)];
      nextId := nextId + 1;
    }

    method ClaimRequest(v: Id)
      requires v in reviews
      modifies this
      ensures View() == DoClaim(old(View()), v)
    {
      var review := reviews[v];
      var q := review.request;
      reviews := reviews - {v};
      if q !in requests || requests[q].status != PENDING {
        log := log + [Lost(v, q)];
        return;
      }
      var current := requests[q].passwordHash;
      if review.kind.Reject? {
        requests := requests[q := requests[q].(status := REJECTED, passwordHash := "")];
        log := log + [Rejected(v, q)];
        return;
      }
      if EmailTaken(users, review.email) || NameTaken(users, review.kind.username) {
        return;
      }
      var account := User(review.email, review.kind.username, review.passwordHash);
      users := users[nextId := account];
      requests := requests[q := requests[q].(status := APPROVED, createdUserId := Some(nextId))];
      log := log + [Approved(v, q, nextId, account, current)];
      nextId := nextId + 1;
    }

    method RemoveRequest(q: Id)
      modifies this
      ensures View() == DoRemove(old(View()), q)
    {
      if q !in requests {
        return;
      }
      byEmail := byEmail - {requests[q].email};
      requests := requests - {q};
      log := log + [Removed(q)];
    }

    method ChangeUsers(e: Event)
      requires e.UserAppears? || e.UserDeleted?
      modifies this
      ensures View() == OtherUsers(old(View()), e)
    {
      if e.UserDeleted? {
        users := users - {e.user};
      } else {
        users := users[nextId := User(e.email, e.username, "")];
        nextId := nextId + 1;
      }
    }

    /** Over a whole run the service does what the step functions say. */
    method Serve(events: seq<Event>)
      requires Feasible(View(), events)
      modifies this
      ensures View() == Run(old(View()), events)
      decreases |events|
    {
      hide DoSubmit;
      hide DoOpen;
      hide DoClaim;
      hide DoRemove;
      hide OtherUsers;
      if events != [] {
        ghost var before := View();
        match events[0] {
          case Submit(email, username, passwordHash) => SubmitRequest(email, username, passwordHash);
          case Open(kind, request) => OpenReview(kind, request);
          case Claim(review) => ClaimRequest(review);
          case Remove(request) => RemoveRequest(request);
          case UserAppears(_, _) => ChangeUsers(events[0]);
          case UserDeleted(_) => ChangeUsers(events[0]);
        }
        assert View() == Step(before, events[0]);
        Serve(events[1..]);
      }
    }
  }

  // ---------- What the log says about a request ----------

  /** Waiting with what was last submitted. */
  datatype Verdict = Unknown | Waiting(email: string, username: string, hash: string) | Granted(user: Id) | Refused | Gone {
    predicate Settled() {
      Granted? || Refused? || Gone?
    }
  }

  function After(v: Verdict, q: Id, e: Entry): Verdict {
    if e.request != q then v
    else if e.Submitted? then Waiting(e.email, e.username, e.hash)
    else if e.Approved? then Granted(e.user)
    else if e.Rejected? then Refused
    else if e.Removed? then Gone
    else v
  }

  function VerdictOf(log: seq<Entry>, q: Id): Verdict {
    if log == [] then Unknown else After(VerdictOf(log[..|log| - 1], q), q, log[|log| - 1])
  }

  predicate Resubmits(e: Entry, q: Id) {
    e.Submitted? && e.request == q
  }

  /** Has this review read just this of the request, whatever came since? */
  predicate HasRead(log: seq<Entry>, v: Id, q: Id, read: Review) {
    Opened(v, q, read) in log
  }

  /** Is this what the request waited with? */
  predicate WaitsWith(v: Verdict, email: string, hash: string) {
    v.Waiting? && v.email == email && v.hash == hash
  }

  /** Has it, with nothing submitted anew since? */
  predicate ReadStands(log: seq<Entry>, v: Id, q: Id) {
    log != [] &&
    var e := log[|log| - 1];
    !Resubmits(e, q) && ((e.Opened? && e.review == v && e.request == q) || ReadStands(log[..|log| - 1], v, q))
  }

  predicate Justified(log: seq<Entry>, e: Entry) {
    match e
    case Submitted(q, _, _, _) => VerdictOf(log, q) == Unknown || VerdictOf(log, q) == Refused
    case Opened(_, q, read) => read.request == q && WaitsWith(VerdictOf(log, q), read.email, read.passwordHash)
    case Approved(v, q, _, account, current) =>
      && VerdictOf(log, q).Waiting? && VerdictOf(log, q).hash == current
      && HasRead(log, v, q, Review(Approve(account.username), q, account.email, account.secret))
      && (ReadStands(log, v, q) ==> account.secret == current)
    case Rejected(_, q) => VerdictOf(log, q).Waiting?
    case Lost(_, q) => VerdictOf(log, q).Settled()
    case Removed(q) => VerdictOf(log, q) != Unknown && VerdictOf(log, q) != Gone
  }

  predicate Sound(log: seq<Entry>) {
    forall i :: 0 <= i < |log| ==> Justified(log[..i], log[i])
  }

  lemma {:induction false} LogGrows(log: seq<Entry>, e: Entry)
    requires Sound(log) && Justified(log, e)
    ensures Sound(log + [e])
    ensures forall q :: VerdictOf(log + [e], q) == After(VerdictOf(log, q), q, e)
    ensures forall v, q :: ReadStands(log + [e], v, q) <==>
              !Resubmits(e, q) && ((e.Opened? && e.review == v && e.request == q) || ReadStands(log, v, q))
    ensures forall v, q, read :: HasRead(log, v, q, read) ==> HasRead(log + [e], v, q, read)
    ensures e.Opened? ==> HasRead(log + [e], e.review, e.request, e.read)
  {
    var longer := log + [e];
    assert longer[..|log|] == log;
    hide Justified;
    hide VerdictOf;
    hide ReadStands;
    forall i | 0 <= i < |longer|
      ensures Justified(longer[..i], longer[i])
    {
      assert longer[..i] == log[..i];
    }
    VerdictUnfold(longer);
  }

  lemma {:induction false} VerdictUnfold(log: seq<Entry>)
    requires log != []
    ensures var before, e := log[..|log| - 1], log[|log| - 1];
            && (forall q :: VerdictOf(log, q) == After(VerdictOf(before, q), q, e))
            && (forall v, q :: ReadStands(log, v, q) <==>
                  !Resubmits(e, q) && ((e.Opened? && e.review == v && e.request == q) || ReadStands(before, v, q)))
  {
  }

  // ---------- The invariant ----------

  /** The table says of a request what the log says. */
  predicate RowMatches(row: Request, v: Verdict) {
    match row.status
    case PENDING => v == Waiting(row.email, row.username, row.passwordHash) && row.createdUserId == None
    case APPROVED => v.Granted? && row.createdUserId == Some(v.user)
    case REJECTED => v == Refused && row.createdUserId == None && row.passwordHash == ""
  }

  ghost predicate RowsMatch(d: Desk) {
    && (forall q :: q in d.requests ==> q < d.nextId && RowMatches(d.requests[q], VerdictOf(d.log, q)))
    && (forall q: Id :: q !in d.requests ==>
          VerdictOf(d.log, q) == Unknown || (q < d.nextId && VerdictOf(d.log, q) == Gone))
  }

  ghost predicate IndexMatches(d: Desk) {
    && (forall email :: email in d.byEmail ==> d.byEmail[email] in d.requests && d.requests[d.byEmail[email]].email == email)
    && (forall q :: q in d.requests ==> d.requests[q].email in d.byEmail && d.byEmail[d.requests[q].email] == q)
  }

  /** A review under way has read a real request, and read its hash right if that still stands. */
  ghost predicate ReviewsMatch(d: Desk) {
    forall v :: v in d.reviews ==>
      var q := d.reviews[v].request;
      && v < d.nextId
      && VerdictOf(d.log, q) != Unknown
      && HasRead(d.log, v, q, d.reviews[v])
      && (ReadStands(d.log, v, q) && q in d.requests && d.requests[q].status == PENDING ==>
            d.requests[q].passwordHash == d.reviews[v].passwordHash)
  }

  /** A review has read the request's own address. */
  ghost predicate AddressesMatch(d: Desk) {
    forall v :: v in d.reviews ==>
      && v < d.nextId && d.reviews[v].request < d.nextId
      && (d.reviews[v].request in d.requests ==> d.requests[d.reviews[v].request].email == d.reviews[v].email)
  }

  /** A linked account is the requester's own, and no two requests link the same one. */
  ghost predicate LinksMatch(d: Desk) {
    && (forall q :: q in d.requests && d.requests[q].createdUserId.Some? ==>
          d.requests[q].createdUserId.value < d.nextId)
    && (forall q :: q in d.requests && d.requests[q].createdUserId.Some? && d.requests[q].createdUserId.value in d.users ==>
          d.users[d.requests[q].createdUserId.value].email == d.requests[q].email)
    && (forall p, q :: p in d.requests && q in d.requests && p != q && d.requests[p].createdUserId.Some? ==>
          d.requests[p].createdUserId != d.requests[q].createdUserId)
  }

  ghost predicate AccountsMatch(d: Desk) {
    AddressesMatch(d) && LinksMatch(d)
  }

  ghost predicate Core(d: Desk) {
    RowsMatch(d) && IndexMatches(d) && ReviewsMatch(d) && Sound(d.log)
  }

  ghost predicate Inv(d: Desk) {
    Core(d) && AccountsMatch(d)
  }

  ghost predicate LinksAreApproved(d: Desk) {
    forall q :: q in d.requests ==> q < d.nextId && (d.requests[q].createdUserId.Some? ==> d.requests[q].status == APPROVED)
  }

  lemma {:induction false} StepKeepsAccounts(d: Desk, e: Event)
    requires AccountsMatch(d) && Linked(d) && LinksAreApproved(d) && (e.Claim? ==> e.review in d.reviews)
    ensures AccountsMatch(Step(d, e))
  {
    if e.Claim? {
      ClaimKeepsAccounts(d, e.review);
    } else if e.Submit? {
      SubmitKeepsAccounts(d, e.email, e.username, e.passwordHash);
    } else {
      OtherKeepsAccounts(d, e);
    }
  }

  lemma {:induction false} ClaimKeepsAccounts(d: Desk, v: Id)
    requires AccountsMatch(d) && LinksAreApproved(d) && v in d.reviews
    ensures AccountsMatch(DoClaim(d, v))
  {
    ClaimKeepsLinks(d, v);
    hide LinksMatch;
    hide EmailTaken;
    hide NameTaken;
  }

  lemma {:induction false} ClaimKeepsLinks(d: Desk, v: Id)
    requires AddressesMatch(d) && LinksMatch(d) && LinksAreApproved(d) && v in d.reviews
    ensures LinksMatch(DoClaim(d, v))
  {
    hide EmailTaken;
    hide NameTaken;
  }

  lemma {:induction false} SubmitKeepsAccounts(d: Desk, email: string, username: string, passwordHash: string)
    requires AccountsMatch(d) && Linked(d) && LinksAreApproved(d)
    ensures AccountsMatch(DoSubmit(d, email, username, passwordHash))
  {
    hide *;
    SubmitKeepsPeople(d, email, username, passwordHash);
    AccountsCarry(d, DoSubmit(d, email, username, passwordHash));
  }

  /** The address, the account and the reviews of a request stay; a new request has no account. */
  ghost predicate SamePeople(d: Desk, d': Desk) {
    && d'.users == d.users && d'.reviews == d.reviews && d.nextId <= d'.nextId
    && (forall q :: q in d'.requests && q in d.requests ==>
          d'.requests[q].createdUserId == d.requests[q].createdUserId && d'.requests[q].email == d.requests[q].email)
    && (forall q :: q in d'.requests && q !in d.requests ==> q == d.nextId && d'.requests[q].createdUserId == None)
  }

  lemma {:induction false} SubmitKeepsPeople(d: Desk, email: string, username: string, passwordHash: string)
    requires Linked(d) && LinksAreApproved(d)
    ensures email in d.byEmail ==> d.byEmail[email] in d.requests
    ensures SamePeople(d, DoSubmit(d, email, username, passwordHash))
  {
    hide EmailTaken;
    hide PendingCount;
  }

  lemma {:induction false} AccountsCarry(d: Desk, d': Desk)
    requires AccountsMatch(d) && SamePeople(d, d')
    ensures AccountsMatch(d')
  {
  }

  lemma {:induction false} OtherKeepsAccounts(d: Desk, e: Event)
    requires AccountsMatch(d) && Linked(d) && LinksAreApproved(d) && !e.Claim? && !e.Submit?
    ensures AccountsMatch(Step(d, e))
  {
    hide EmailTaken;
    hide DoSubmit;
    hide DoClaim;
  }

  lemma {:induction false} SubmitKeepsCore(d: Desk, email: string, username: string, passwordHash: string)
    requires Core(d)
    ensures Core(DoSubmit(d, email, username, passwordHash))
  {
    var d' := DoSubmit(d, email, username, passwordHash);
    if |d'.log| > |d.log| {
      var q := if email in d.byEmail then d.byEmail[email] else d.nextId;
      LogGrows(d.log, Submitted(q, email, username, passwordHash));
      SubmitRows(d, d', q);
      SubmitReviews(d, d', q);
      SubmitIndex(d, email, username, passwordHash);
    }
  }

  lemma {:induction false} SubmitIndex(d: Desk, email: string, username: string, passwordHash: string)
    requires IndexMatches(d) && forall q :: q in d.requests ==> q < d.nextId
    ensures IndexMatches(DoSubmit(d, email, username, passwordHash))
  {
    hide EmailTaken;
    hide PendingCount;
  }

  lemma {:induction false} SubmitRows(d: Desk, d': Desk, q: Id)
    requires RowsMatch(d) && q in d'.requests && |d'.log| > |d.log|
    requires var row := d'.requests[q]; d'.log[|d.log|] == Submitted(q, row.email, row.username, row.passwordHash)
    requires forall p :: VerdictOf(d'.log, p) == After(VerdictOf(d.log, p), p, d'.log[|d.log|])
    requires d'.requests == d.requests[q := d'.requests[q]] && q < d'.nextId && d.nextId <= d'.nextId
    requires d'.requests[q].status == PENDING && d'.requests[q].createdUserId == None
    ensures RowsMatch(d')
  {
    hide VerdictOf;
  }

  lemma {:induction false} SubmitReviews(d: Desk, d': Desk, q: Id)
    requires ReviewsMatch(d) && d'.reviews == d.reviews && d.nextId <= d'.nextId
    requires forall p :: VerdictOf(d.log, p) != Unknown ==> VerdictOf(d'.log, p) != Unknown
    requires forall v, p, read :: HasRead(d.log, v, p, read) ==> HasRead(d'.log, v, p, read)
    requires forall v, p :: ReadStands(d'.log, v, p) ==> p != q && ReadStands(d.log, v, p)
    requires q in d'.requests && d'.requests == d.requests[q := d'.requests[q]]
    ensures ReviewsMatch(d')
  {
    hide VerdictOf;
    hide ReadStands;
  }

  lemma {:induction false} OpenKeepsCore(d: Desk, kind: Kind, q: Id)
    requires Core(d)
    ensures Core(DoOpen(d, kind, q))
  {
    hide EmailTaken;
    hide VerdictOf;
    hide ReadStands;
    hide Sound;
    var d' := DoOpen(d, kind, q);
    if |d'.log| > |d.log| {
      LogGrows(d.log, Opened(d.nextId, q, Review(kind, q, d.requests[q].email, d.requests[q].passwordHash)));
      OpenReviews(d, kind, q);
      assert IndexMatches(d');
      hide IndexMatches;
      hide ReviewsMatch;
    }
  }

  lemma {:induction false} OpenReviews(d: Desk, kind: Kind, q: Id)
    requires RowsMatch(d) && ReviewsMatch(d) && |DoOpen(d, kind, q).log| > |d.log|
    requires var d' := DoOpen(d, kind, q);
             && (forall p :: VerdictOf(d'.log, p) == VerdictOf(d.log, p))
             && (forall w, p :: ReadStands(d'.log, w, p) ==>
                   ReadStands(d.log, w, p) || (w == d.nextId && p == q))
             && (forall w, p, read :: HasRead(d.log, w, p, read) ==> HasRead(d'.log, w, p, read))
             && HasRead(d'.log, d.nextId, q, d'.log[|d.log|].read)
    ensures ReviewsMatch(DoOpen(d, kind, q))
  {
    hide EmailTaken;
    hide VerdictOf;
    hide ReadStands;
    hide HasRead;
  }

  lemma {:induction false} ClaimKeepsCore(d: Desk, v: Id)
    requires Core(d) && v in d.reviews
    ensures Core(DoClaim(d, v))
  {
    hide DoClaim;
    hide VerdictOf;
    hide ReadStands;
    hide Sound;
    hide RowsMatch;
    hide ReviewsMatch;
    hide IndexMatches;
    var d' := DoClaim(d, v);
    ClaimIndex(d, v);
    if |d'.log| > |d.log| {
      ClaimJustified(d, v);
      LogGrows(d.log, d'.log[|d.log|]);
      ClaimRows(d, v);
      ClaimReviews(d, v);
    } else {
      ClaimAborted(d, v);
    }
  }

  lemma {:induction false} ClaimAborted(d: Desk, v: Id)
    requires Core(d) && v in d.reviews && |DoClaim(d, v).log| <= |d.log|
    ensures Core(DoClaim(d, v))
  {
    hide VerdictOf;
    hide ReadStands;
    hide Sound;
  }

  lemma {:induction false} ClaimJustified(d: Desk, v: Id)
    requires RowsMatch(d) && ReviewsMatch(d) && v in d.reviews && |DoClaim(d, v).log| > |d.log|
    ensures var log := DoClaim(d, v).log;
            log == d.log + [log[|d.log|]] && Justified(d.log, log[|d.log|]) && !log[|d.log|].Opened?
  {
    hide EmailTaken;
    hide NameTaken;
    hide VerdictOf;
    hide ReadStands;
  }

  lemma {:induction false} ClaimIndex(d: Desk, v: Id)
    requires IndexMatches(d) && v in d.reviews
    ensures IndexMatches(DoClaim(d, v))
  {
    hide EmailTaken;
    hide NameTaken;
  }

  lemma {:induction false} ClaimRows(d: Desk, v: Id)
    requires RowsMatch(d) && v in d.reviews && |DoClaim(d, v).log| > |d.log|
    requires var d' := DoClaim(d, v);
             forall q :: VerdictOf(d'.log, q) == After(VerdictOf(d.log, q), q, d'.log[|d.log|])
    ensures RowsMatch(DoClaim(d, v))
  {
    hide EmailTaken;
    hide NameTaken;
    hide VerdictOf;
    hide RowMatches;
    ClaimedRow(d, v);
    RowsCarry(d, DoClaim(d, v), d.reviews[v].request);
  }

  lemma {:induction false} ClaimedRow(d: Desk, v: Id)
    requires v in d.reviews && |DoClaim(d, v).log| > |d.log|
    requires var q := d.reviews[v].request;
             q in d.requests ==> RowMatches(d.requests[q], VerdictOf(d.log, q))
    ensures var d', q := DoClaim(d, v), d.reviews[v].request;
            && d'.log[|d.log|].request == q && d'.requests.Keys == d.requests.Keys && d.nextId <= d'.nextId
            && (q in d'.requests ==> RowMatches(d'.requests[q], After(VerdictOf(d.log, q), q, d'.log[|d.log|])))
            && (q !in d'.requests ==> d'.log[|d.log|] == Lost(v, q))
            && forall p :: p in d.requests && p != q ==> d'.requests[p] == d.requests[p]
  {
    hide EmailTaken;
    hide NameTaken;
    hide VerdictOf;
  }

  /** A step that decides one request, or finds it gone, leaves the others as they are. */
  lemma {:induction false} RowsCarry(d: Desk, d': Desk, q: Id)
    requires RowsMatch(d) && |d'.log| > |d.log| && d'.log[|d.log|].request == q
    requires forall p :: VerdictOf(d'.log, p) == After(VerdictOf(d.log, p), p, d'.log[|d.log|])
    requires d'.requests.Keys == d.requests.Keys && d.nextId <= d'.nextId
    requires q in d'.requests ==> RowMatches(d'.requests[q], VerdictOf(d'.log, q))
    requires q !in d'.requests ==> d'.log[|d.log|].Lost?
    requires forall p :: p in d.requests && p != q ==> d'.requests[p] == d.requests[p]
    ensures RowsMatch(d')
  {
    hide VerdictOf;
    hide RowMatches;
  }

  lemma {:induction false} ClaimReviews(d: Desk, v: Id)
    requires RowsMatch(d) && ReviewsMatch(d) && v in d.reviews && |DoClaim(d, v).log| > |d.log|
    requires var d' := DoClaim(d, v);
             && (forall q :: VerdictOf(d'.log, q) == After(VerdictOf(d.log, q), q, d'.log[|d.log|]))
             && (forall w, q :: ReadStands(d'.log, w, q) ==> ReadStands(d.log, w, q))
             && (forall w, q, read :: HasRead(d.log, w, q, read) ==> HasRead(d'.log, w, q, read))
    ensures ReviewsMatch(DoClaim(d, v))
  {
    hide DoClaim;
    hide VerdictOf;
    hide ReadStands;
    hide HasRead;
    hide RowMatches;
    ClaimLeavesPending(d, v);
  }

  lemma {:induction false} ClaimLeavesPending(d: Desk, v: Id)
    requires v in d.reviews
    ensures var d' := DoClaim(d, v);
            && d'.reviews == d.reviews - {v} && d.nextId <= d'.nextId
            && (|d'.log| > |d.log| ==> !d'.log[|d.log|].Submitted?)
            && forall q :: q in d'.requests && d'.requests[q].status == PENDING ==> q in d.requests && d'.requests[q] == d.requests[q]
  {
    hide EmailTaken;
    hide NameTaken;
  }

  lemma {:induction false} RemoveKeepsCore(d: Desk, q: Id)
    requires Core(d)
    ensures Core(DoRemove(d, q))
  {
    hide VerdictOf;
    hide ReadStands;
    hide Sound;
    if q in d.requests {
      LogGrows(d.log, Removed(q));
      RemoveIndex(d, q);
      RemoveRows(d, q);
      hide IndexMatches;
      hide RowsMatch;
    }
  }

  lemma {:induction false} RemoveRows(d: Desk, q: Id)
    requires RowsMatch(d) && q in d.requests
    requires forall p :: VerdictOf(DoRemove(d, q).log, p) == After(VerdictOf(d.log, p), p, Removed(q))
    ensures RowsMatch(DoRemove(d, q))
  {
    hide VerdictOf;
  }

  lemma {:induction false} RemoveIndex(d: Desk, q: Id)
    requires IndexMatches(d) && q in d.requests
    ensures IndexMatches(DoRemove(d, q))
  {
  }

  lemma {:induction false} StepKeepsInv(d: Desk, e: Event)
    requires Inv(d) && (e.Claim? ==> e.review in d.reviews)
    ensures Linked(d) && Inv(Step(d, e))
  {
    hide Sound;
    StepKeepsAccounts(d, e);
    hide AccountsMatch;
    match e
    case Submit(email, username, passwordHash) => SubmitKeepsCore(d, email, username, passwordHash);
    case Open(kind, request) => OpenKeepsCore(d, kind, request);
    case Claim(review) => ClaimKeepsCore(d, review);
    case Remove(request) => RemoveKeepsCore(d, request);
    case UserAppears(_, _) => UsersKeepCore(d, e);
    case UserDeleted(_) => UsersKeepCore(d, e);
  }

  lemma {:induction false} UsersKeepCore(d: Desk, e: Event)
    requires Core(d) && (e.UserAppears? || e.UserDeleted?)
    ensures Core(OtherUsers(d, e))
  {
  }

  // ---------- Whole runs ----------

  ghost predicate Feasible(d: Desk, events: seq<Event>)
    decreases |events|
  {
    events == [] ||
    (Linked(d) && (events[0].Claim? ==> events[0].review in d.reviews) && Feasible(Step(d, events[0]), events[1..]))
  }

  ghost function Run(d: Desk, events: seq<Event>): Desk
    requires Feasible(d, events)
    decreases |events|
  {
    if events == [] then d else Run(Step(d, events[0]), events[1..])
  }

  lemma {:induction false} RunKeepsInv(d: Desk, events: seq<Event>)
    requires Inv(d) && Feasible(d, events)
    ensures Inv(Run(d, events))
    decreases |events|
  {
    hide Inv;
    hide Step;
    hide Linked;
    if events != [] {
      StepKeepsInv(d, events[0]);
      RunKeepsInv(Step(d, events[0]), events[1..]);
    }
  }

  lemma {:induction false} OpeningIsFine()
    ensures Inv(OPENING)
  {
  }

  /** In every reachable state the invariant holds; in particular the log is in order. */
  lemma {:induction false} ReachableInv(events: seq<Event>)
    requires Feasible(OPENING, events)
    ensures Inv(Run(OPENING, events))
  {
    hide *;
    OpeningIsFine();
    RunKeepsInv(OPENING, events);
  }

  /**
    In every reachable state: an approved row is exactly one that links a created user, and the
    log has the approval that created it, in the requester's name and for no other request; a
    rejected row links none and keeps no password hash.
   */
  lemma {:induction false} RowsTellTheTruth(events: seq<Event>, q: Id)
    requires Feasible(OPENING, events) && q in Run(OPENING, events).requests
    ensures var d := Run(OPENING, events);
            var row := d.requests[q];
            && (row.status == APPROVED <==> row.createdUserId.Some?)
            && (row.status == REJECTED ==> row.passwordHash == "" && row.createdUserId == None)
            && (row.createdUserId.Some? ==>
                  exists i :: 0 <= i < |d.log| && d.log[i].Approved? && d.log[i].request == q &&
                              d.log[i].user == row.createdUserId.value)
            && (row.createdUserId.Some? && row.createdUserId.value in d.users ==>
                  d.users[row.createdUserId.value].email == row.email)
            && (forall p :: p in d.requests && p != q && row.createdUserId.Some? ==>
                  d.requests[p].createdUserId != row.createdUserId)
  {
    hide VerdictOf;
    ReachableInv(events);
    var d := Run(OPENING, events);
    if d.requests[q].status == APPROVED {
      var i := GrantIsAnApproval(d.log, q);
    }
  }

  lemma {:induction false} GrantIsAnApproval(log: seq<Entry>, q: Id) returns (i: nat)
    requires VerdictOf(log, q).Granted?
    ensures i < |log| && log[i].Approved? && log[i].request == q && log[i].user == VerdictOf(log, q).user
  {
    i := |log| - 1;
    if !(log[i].Approved? && log[i].request == q) {
      i := GrantIsAnApproval(log[..i], q);
    }
  }

  predicate Decides(e: Entry, q: Id) {
    (e.Approved? || e.Rejected?) && e.request == q
  }

  /** Does the log, between the two places, hold what reopens a decided request? */
  predicate ReopenedBetween(log: seq<Entry>, q: Id, lo: int, hi: int) {
    exists k :: lo < k < hi && 0 <= k < |log| && Resubmits(log[k], q)
  }

  /** What is said of a request only changes by entries about it. */
  lemma {:induction false} VerdictBetween(log: seq<Entry>, q: Id, lo: nat, hi: nat)
    requires lo <= hi <= |log| && Sound(log)
    requires VerdictOf(log[..lo], q).Settled()
    requires !ReopenedBetween(log, q, lo - 1, hi)
    ensures VerdictOf(log[..hi], q) == VerdictOf(log[..lo], q) || VerdictOf(log[..hi], q) == Gone
    decreases hi - lo
  {
    hide VerdictOf;
    if lo < hi {
      VerdictBetween(log, q, lo, hi - 1);
      var e := log[hi - 1];
      assert log[..hi][..hi - 1] == log[..hi - 1];
      VerdictUnfold(log[..hi]);
      assert Justified(log[..hi - 1], e);
      assert !Resubmits(e, q);
    }
  }

  /**
    Two reviewers never both win: between two decisions of one request it was submitted again,
    and the first of them was a rejection.
   */
  lemma {:induction false} AtMostOneWinner(events: seq<Event>, q: Id, i: nat, j: nat)
    requires Feasible(OPENING, events)
    requires i < j < |Run(OPENING, events).log|
    requires Decides(Run(OPENING, events).log[i], q) && Decides(Run(OPENING, events).log[j], q)
    ensures Run(OPENING, events).log[i].Rejected?
    ensures ReopenedBetween(Run(OPENING, events).log, q, i, j)
  {
    hide Feasible;
    hide Run;
    hide VerdictOf;
    hide ReadStands;
    ReachableInv(events);
    var log := Run(OPENING, events).log;
    WinnerSettles(log, q, i);
    assert Justified(log[..j], log[j]);
    if !ReopenedBetween(log, q, i, j) {
      VerdictBetween(log, q, i + 1, j);
      assert false;
    }
    if log[i].Approved? {
      GrantedForGood(log, q, i + 1, j);
      assert false;
    }
  }

  lemma {:induction false} WinnerSettles(log: seq<Entry>, q: Id, i: nat)
    requires i < |log| && Decides(log[i], q)
    ensures VerdictOf(log[..i + 1], q) == if log[i].Approved? then Granted(log[i].user) else Refused
  {
    assert log[..i + 1][..i] == log[..i];
  }

  /** Once granted, a request is granted until it is removed. */
  lemma {:induction false} GrantedForGood(log: seq<Entry>, q: Id, lo: nat, hi: nat)
    requires lo <= hi <= |log| && Sound(log) && (VerdictOf(log[..lo], q).Granted? || VerdictOf(log[..lo], q) == Gone)
    ensures VerdictOf(log[..hi], q) == VerdictOf(log[..lo], q) || VerdictOf(log[..hi], q) == Gone
    decreases hi - lo
  {
    hide VerdictOf;
    if lo < hi {
      GrantedForGood(log, q, lo, hi - 1);
      assert log[..hi][..hi - 1] == log[..hi - 1];
      VerdictUnfold(log[..hi]);
      assert Justified(log[..hi - 1], log[hi - 1]);
    }
  }

  /** A request row mints at most one user, whatever is submitted, rejected and submitted again. */
  lemma {:induction false} OneUserPerRequest(events: seq<Event>, i: nat, j: nat)
    requires Feasible(OPENING, events)
    requires i < |Run(OPENING, events).log| && j < |Run(OPENING, events).log|
    requires Run(OPENING, events).log[i].Approved? && Run(OPENING, events).log[j].Approved?
    requires Run(OPENING, events).log[i].request == Run(OPENING, events).log[j].request
    ensures i == j
  {
    hide Feasible;
    hide Run;
    if i < j {
      AtMostOneWinner(events, Run(OPENING, events).log[i].request, i, j);
    } else if j < i {
      AtMostOneWinner(events, Run(OPENING, events).log[i].request, j, i);
    }
  }

  /**
    Of two reviewers of one request exactly one succeeds: when the first claim decides it, the
    second, whatever is done in between short of submitting the request anew, changes nothing
    but its own review.
   */
  lemma {:induction false} OneOfTwoClaims(before: seq<Event>, first: Id, between: seq<Event>, second: Id, q: Id)
    requires Feasible(OPENING, before) && first in Run(OPENING, before).reviews
    requires var once := DoClaim(Run(OPENING, before), first);
             && once.log != Run(OPENING, before).log && Decides(once.log[|once.log| - 1], q)
             && Feasible(once, between)
             && var d := Run(once, between);
             && second in d.reviews && d.reviews[second].request == q
             && !ReopenedBetween(d.log, q, |once.log| - 1, |d.log|)
    ensures var d := Run(DoClaim(Run(OPENING, before), first), between);
            DoClaim(d, second) == d.(reviews := d.reviews - {second}, log := d.log + [Lost(second, q)])
  {
    hide Feasible;
    hide Run;
    hide VerdictOf;
    hide ReadStands;
    hide ReviewsMatch;
    hide IndexMatches;
    hide AccountsMatch;
    hide Sound;
    ReachableInv(before);
    var once := DoClaim(Run(OPENING, before), first);
    StepKeepsInv(Run(OPENING, before), Claim(first));
    RunKeepsInv(once, between);
    RunExtendsLog(once, between);
    var d := Run(once, between);
    assert d.log[..|once.log|] == once.log && d.log[..|d.log|] == d.log;
    WinnerSettles(once.log, q, |once.log| - 1);
    assert once.log[..|once.log|] == once.log;
    VerdictBetween(d.log, q, |once.log|, |d.log|);
  }

  lemma {:induction false} RunExtendsLog(d: Desk, events: seq<Event>)
    requires Feasible(d, events)
    ensures d.log <= Run(d, events).log
    decreases |events|
  {
    hide Linked;
    hide EmailTaken;
    hide NameTaken;
    hide Pending;
    if events != [] {
      assert d.log <= Step(d, events[0]).log;
      RunExtendsLog(Step(d, events[0]), events[1..]);
    }
  }

  /**
    A reviewer who loses has lost to someone: the request was decided or removed before, and not
    submitted again since.
   */
  lemma {:induction false} LoserHasAWinner(events: seq<Event>, j: nat)
    requires Feasible(OPENING, events)
    requires j < |Run(OPENING, events).log| && Run(OPENING, events).log[j].Lost?
    ensures var log := Run(OPENING, events).log;
            var q := log[j].request;
            exists i :: 0 <= i < j && (Decides(log[i], q) || log[i] == Removed(q)) && !ReopenedBetween(log, q, i, j)
  {
    hide Feasible;
    ReachableInv(events);
    var log := Run(OPENING, events).log;
    assert Justified(log[..j], log[j]);
    var i := SettledBySomeone(log[..j], log[j].request);
    assert forall k :: i <= k < j ==> log[k] == log[..j][k];
  }

  lemma {:induction false} SettledBySomeone(log: seq<Entry>, q: Id) returns (i: nat)
    requires VerdictOf(log, q).Settled()
    ensures i < |log| && (Decides(log[i], q) || log[i] == Removed(q)) && !ReopenedBetween(log, q, i, |log|)
  {
    i := |log| - 1;
    if !(Decides(log[i], q) || log[i] == Removed(q)) {
      var n := i;
      i := SettledBySomeone(log[..n], q);
      assert forall k :: i <= k < n ==> log[k] == log[..n][k];
    }
  }

  // ---------- The account an approval creates ----------

  /** An account created by an approval is as that approval says, for as long as it exists. */
  ghost predicate AccountsAsApproved(d: Desk) {
    forall i :: 0 <= i < |d.log| && d.log[i].Approved? ==>
      d.log[i].user < d.nextId && (d.log[i].user in d.users ==> d.users[d.log[i].user] == d.log[i].account)
  }

  lemma {:induction false} StepKeepsApproved(d: Desk, e: Event)
    requires AccountsAsApproved(d) && Linked(d) && (e.Claim? ==> e.review in d.reviews)
    ensures AccountsAsApproved(Step(d, e))
  {
    hide EmailTaken;
    hide NameTaken;
    hide PendingCount;
  }

  lemma {:induction false} RunKeepsApproved(d: Desk, events: seq<Event>)
    requires AccountsAsApproved(d) && Feasible(d, events)
    ensures AccountsAsApproved(Run(d, events))
    decreases |events|
  {
    hide AccountsAsApproved;
    hide Step;
    hide Linked;
    if events != [] {
      StepKeepsApproved(d, events[0]);
      RunKeepsApproved(Step(d, events[0]), events[1..]);
    }
  }

  /**
    The account of an approval is, for as long as it exists, the one named by the reviewer, with
    the address and the password hash last submitted before its review read the request. The row
    has the hash last submitted before the claim; the two are the same unless the request was
    submitted anew in between.
   */
  lemma {:induction false} ApprovedWithTheCurrentHash(events: seq<Event>, i: nat)
    requires Feasible(OPENING, events)
    requires i < |Run(OPENING, events).log| && Run(OPENING, events).log[i].Approved?
    ensures var d := Run(OPENING, events);
            var (log, q, account) := (d.log, d.log[i].request, d.log[i].account);
            && (log[i].user in d.users ==> d.users[log[i].user] == account)
            && (exists k :: 0 <= k < i && log[k].Opened? && log[k].review == log[i].review && log[k].request == q &&
                            log[k].read.kind == Approve(account.username) &&
                            WaitsWith(VerdictOf(log[..k], q), account.email, account.secret))
            && VerdictOf(log[..i], q).Waiting? && VerdictOf(log[..i], q).hash == log[i].current
            && (ReadStands(log[..i], log[i].review, q) ==> account.secret == log[i].current)
  {
    RunKeepsApproved(OPENING, events);
    hide Feasible;
    hide VerdictOf;
    hide ReadStands;
    ReachableInv(events);
    var log := Run(OPENING, events).log;
    var (q, account) := (log[i].request, log[i].account);
    assert Justified(log[..i], log[i]);
    var k :| 0 <= k < i && log[..i][k] == Opened(log[i].review, q, Review(Approve(account.username), q, account.email, account.secret));
    assert Justified(log[..k], log[k]);
  }

  predicate DistinctHashes(log: seq<Entry>) {
    forall i, j :: 0 <= i < j < |log| && log[i].Submitted? && log[j].Submitted? ==> log[i].hash != log[j].hash
  }

  /**
    Where every submission has its own hash, as salted hashes do, an approval carries the row's
    current one if and only if the request was not submitted anew since its review read it.
   */
  lemma {:induction false} CurrentUnlessSubmittedAnew(events: seq<Event>, i: nat)
    requires Feasible(OPENING, events) && DistinctHashes(Run(OPENING, events).log)
    requires i < |Run(OPENING, events).log| && Run(OPENING, events).log[i].Approved?
    ensures var log := Run(OPENING, events).log;
            log[i].account.secret == log[i].current <==> ReadStands(log[..i], log[i].review, log[i].request)
  {
    hide Feasible;
    hide Run;
    hide VerdictOf;
    hide ReadStands;
    ApprovedWithTheCurrentHash(events, i);
    var log := Run(OPENING, events).log;
    var (q, account) := (log[i].request, log[i].account);
    if account.secret == log[i].current {
      var k :| 0 <= k < i && log[k].Opened? && log[k].review == log[i].review && log[k].request == q &&
               WaitsWith(VerdictOf(log[..k], q), account.email, account.secret);
      assert WaitsWith(VerdictOf(log[..k], q), account.email, account.secret);
      var m := LastSubmission(log, q, k);
      var n := LastSubmission(log, q, i);
      assert m == n;
      ReadStillStands(log, log[i].review, q, k, i);
    }
  }

  /** Where the hash a request waits with was submitted. */
  lemma {:induction false} LastSubmission(log: seq<Entry>, q: Id, end: nat) returns (m: nat)
    requires end <= |log| && VerdictOf(log[..end], q).Waiting?
    ensures m < end && log[m].Submitted? && log[m].request == q && log[m].hash == VerdictOf(log[..end], q).hash
    ensures forall k :: m < k < end ==> !Resubmits(log[k], q)
  {
    var e := log[end - 1];
    assert log[..end][..end - 1] == log[..end - 1];
    if Resubmits(e, q) {
      m := end - 1;
    } else {
      m := LastSubmission(log, q, end - 1);
    }
  }

  lemma {:induction false} ReadStillStands(log: seq<Entry>, v: Id, q: Id, k: nat, end: nat)
    requires k < end <= |log| && log[k].Opened? && log[k].review == v && log[k].request == q
    requires forall j :: k < j < end ==> !Resubmits(log[j], q)
    ensures ReadStands(log[..end], v, q)
  {
    assert log[..end][..end - 1] == log[..end - 1];
    if k < end - 1 {
      ReadStillStands(log, v, q, k, end - 1);
    }
  }

  /** A request read by two reviewers, neither of whom has claimed it. */
  const READ_TWICE := Desk(
    map[0 := Request("a@b", "a", "first", PENDING, None)], map["a@b" := 0], map[],
    map[1 := Review(Approve("a"), 0, "a@b", "first"), 2 := Review(Reject, 0, "a@b", "first")], 3,
    [Submitted(0, "a@b", "a", "first"), Opened(1, 0, Review(Approve("a"), 0, "a@b", "first")),
     Opened(2, 0, Review(Reject, 0, "a@b", "first"))])

  lemma {:induction false} ReadTwice(more: seq<Event>, end: Desk)
    requires Feasible(READ_TWICE, more) && Run(READ_TWICE, more) == end
    ensures var events := [Submit("a@b", "a", "first"), Open(Approve("a"), 0), Open(Reject, 0)] + more;
            Feasible(OPENING, events) && Run(OPENING, events) == end
  {
    NothingPending();
    var d1 := Step(OPENING, Submit("a@b", "a", "first"));
    assert d1 == Desk(map[0 := Request("a@b", "a", "first", PENDING, None)], map["a@b" := 0], map[], map[], 1,
                      [Submitted(0, "a@b", "a", "first")]);
    var d2 := Step(d1, Open(Approve("a"), 0));
    assert Step(d2, Open(Reject, 0)) == READ_TWICE;
    RunOne(d2, Open(Reject, 0), more, end);
    RunOne(d1, Open(Approve("a"), 0), [Open(Reject, 0)] + more, end);
    RunOne(OPENING, Submit("a@b", "a", "first"), [Open(Approve("a"), 0)] + ([Open(Reject, 0)] + more), end);
    assert [Submit("a@b", "a", "first")] + ([Open(Approve("a"), 0)] + ([Open(Reject, 0)] + more))
        == [Submit("a@b", "a", "first"), Open(Approve("a"), 0), Open(Reject, 0)] + more;
  }

  /** The second reviewer rejects it, and it is submitted again with another password. */
  const READ_STALE := Desk(
    map[0 := Request("a@b", "a", "second", PENDING, None)], map["a@b" := 0], map[],
    map[1 := Review(Approve("a"), 0, "a@b", "first")], 3,
    READ_TWICE.log + [Rejected(2, 0), Submitted(0, "a@b", "a", "second")])

  lemma {:induction false} RejectedThenSubmitted()
    ensures Linked(READ_TWICE) && Linked(Step(READ_TWICE, Claim(2)))
    ensures Step(Step(READ_TWICE, Claim(2)), Submit("a@b", "a", "second")) == READ_STALE
  {
    var rejected := Step(READ_TWICE, Claim(2));
    assert rejected.requests == map[0 := Request("a@b", "a", "", REJECTED, None)] && rejected.users == map[];
    assert rejected.reviews == map[1 := Review(Approve("a"), 0, "a@b", "first")];
  }

  lemma {:induction false} ApprovedStale()
    ensures Linked(READ_STALE)
    ensures Step(READ_STALE, Claim(1)).log == READ_STALE.log + [Approved(1, 0, 3, User("a@b", "a", "first"), "second")]
  {
  }

  /**
    The exception is real: rejected and submitted again with another password between the read
    and the claim, the request is approved with the password it no longer has.
   */
  lemma {:induction false} StaleHashApproved() returns (events: seq<Event>, i: nat)
    ensures Feasible(OPENING, events)
    ensures var log := Run(OPENING, events).log;
            i < |log| && log[i].Approved? && log[i].account.secret != log[i].current
  {
    hide DoClaim;
    hide DoSubmit;
    hide Feasible;
    hide Run;
    hide Linked;
    RejectedThenSubmitted();
    ApprovedStale();
    events := [Submit("a@b", "a", "first"), Open(Approve("a"), 0), Open(Reject, 0)] + [];
    RunNothing(READ_TWICE);
    ReadTwice([], READ_TWICE);
    events := OneStepMore(events, Claim(2));
    events := OneStepMore(events, Submit("a@b", "a", "second"));
    events := OneStepMore(events, Claim(1));
    i := 5;
  }

  lemma {:induction false} RunNothing(d: Desk)
    ensures Feasible(d, []) && Run(d, []) == d
  {
  }

  lemma {:induction false} NothingPending()
    ensures PendingCount(map[]) == 0
  {
    var none: map<Id, Request> := map[];
    assert Pending(none) == {};
  }

  lemma {:induction false} RunOne(d: Desk, e: Event, more: seq<Event>, end: Desk)
    requires Linked(d) && (e.Claim? ==> e.review in d.reviews)
    requires Feasible(Step(d, e), more) && Run(Step(d, e), more) == end
    ensures Feasible(d, [e] + more) && Run(d, [e] + more) == end
  {
    assert ([e] + more)[1..] == more;
  }

  // ---------- What each operation does, in its caller's terms ----------

  /** Nobody but the service makes accounts that repeat an address or a name. */
  ghost predicate Arrives(d: Desk, e: Event) {
    e.UserAppears? ==>
      forall u :: u in d.users ==> d.users[u].email != e.email && d.users[u].username != e.username
  }

  ghost predicate AllArrive(d: Desk, events: seq<Event>)
    requires Feasible(d, events)
    decreases |events|
  {
    events == [] || (Arrives(d, events[0]) && AllArrive(Step(d, events[0]), events[1..]))
  }

  ghost predicate AccountsAreDistinct(d: Desk) {
    forall u, v :: u in d.users && v in d.users && u != v ==>
      d.users[u].email != d.users[v].email && d.users[u].username != d.users[v].username
  }

  /** Then no two accounts share an address or a name, however reviews interleave. */
  lemma {:induction false} AccountsStayDistinct(d: Desk, events: seq<Event>)
    requires AccountsAreDistinct(d) && Feasible(d, events) && AllArrive(d, events)
    ensures AccountsAreDistinct(Run(d, events))
    decreases |events|
  {
    hide Linked;
    hide PendingCount;
    if events != [] {
      StepKeepsDistinct(d, events[0]);
      hide Step;
      AccountsStayDistinct(Step(d, events[0]), events[1..]);
    }
  }

  lemma {:induction false} StepKeepsDistinct(d: Desk, e: Event)
    requires AccountsAreDistinct(d) && Linked(d) && (e.Claim? ==> e.review in d.reviews) && Arrives(d, e)
    ensures AccountsAreDistinct(Step(d, e))
  {
    hide PendingCount;
  }

  /** The request there is for an address, if any. */
  ghost predicate HasRequest(d: Desk, email: string, q: Id) {
    q in d.requests && d.requests[q].email == email
  }

  /**
    A submit is for naught if the address has an account, if its request is waiting or approved,
    or if it has none and the queue is full. Otherwise the address has one request, waiting, with
    just what was submitted: the rejected one if there was one, and else a new one. Nothing else changes.
   */
  lemma {:induction false} SubmitExactly(events: seq<Event>, email: string, username: string, passwordHash: string)
    requires Feasible(OPENING, events)
    ensures Linked(Run(OPENING, events))
    ensures var d := Run(OPENING, events);
            var d' := DoSubmit(d, email, username, passwordHash);
            var known := exists q :: HasRequest(d, email, q);
            && (d' == d <==>
                  || (exists u :: u in d.users && d.users[u].email == email)
                  || (exists q :: HasRequest(d, email, q) && d.requests[q].status != REJECTED)
                  || (!known && PendingCount(d.requests) >= MAX_PENDING))
            && (d' != d ==>
                  && d'.users == d.users && d'.reviews == d.reviews
                  && exists q ::
                       && d'.requests == d.requests[q := Request(email, username, passwordHash, PENDING, None)]
                       && (if known then HasRequest(d, email, q) else q !in d.requests)
                       && d'.log == d.log + [Submitted(q, email, username, passwordHash)])
  {
    ReachableInv(events);
    var d := Run(OPENING, events);
    hide Feasible;
    hide Run;
    hide Sound;
    hide ReviewsMatch;
    hide AccountsMatch;
    hide VerdictOf;
    hide PendingCount;
    var d' := DoSubmit(d, email, username, passwordHash);
    if email in d.byEmail {
      assert HasRequest(d, email, d.byEmail[email]);
    }
    if d' != d {
      var q := if email in d.byEmail then d.byEmail[email] else d.nextId;
      assert d'.requests == d.requests[q := Request(email, username, passwordHash, PENDING, None)];
    }
  }

  /**
    A review begins exactly on a waiting request, and for an approval only if the address has no
    account; it holds what it read, and nothing else changes.
   */
  lemma {:induction false} OpenExactly(d: Desk, kind: Kind, q: Id)
    ensures var d' := DoOpen(d, kind, q);
            && d'.requests == d.requests && d'.byEmail == d.byEmail && d'.users == d.users
            && (d'.nextId != d.nextId <==>
                  && q in d.requests && d.requests[q].status == PENDING
                  && (kind.Approve? ==> forall u :: u in d.users ==> d.users[u].email != d.requests[q].email))
            && (d'.nextId == d.nextId ==> d' == d)
            && (d'.nextId != d.nextId ==>
                  d'.reviews == d.reviews[d.nextId := Review(kind, q, d.requests[q].email, d.requests[q].passwordHash)])
  {
  }

  /**
    A claim decides its request exactly if that is still waiting, and for an approval only if no
    account has the address or the name. A rejection drops the hash; an approval makes one account
    with the address, name and hash its review holds. Nothing else changes, and the review is over.
   */
  lemma {:induction false} ClaimExactly(d: Desk, v: Id)
    requires v in d.reviews
    ensures var d' := DoClaim(d, v);
            var review := d.reviews[v];
            var q := review.request;
            var waiting := q in d.requests && d.requests[q].status == PENDING;
            && d'.reviews == d.reviews - {v} && d'.byEmail == d.byEmail
            && (d'.requests != d.requests <==>
                  waiting && (review.kind.Approve? ==>
                    forall u :: u in d.users ==> d.users[u].email != review.email && d.users[u].username != review.kind.username))
            && (d'.requests == d.requests ==> d'.users == d.users && d'.log == if waiting then d.log else d.log + [Lost(v, q)])
            && (d'.requests != d.requests && review.kind.Reject? ==>
                  && d'.users == d.users && d'.log == d.log + [Rejected(v, q)]
                  && d'.requests == d.requests[q := d.requests[q].(status := REJECTED, passwordHash := "")])
            && (d'.requests != d.requests && review.kind.Approve? ==>
                  && d'.users == d.users[d.nextId := User(review.email, review.kind.username, review.passwordHash)]
                  && d'.requests == d.requests[q := d.requests[q].(status := APPROVED, createdUserId := Some(d.nextId))])
  {
    var d', q := DoClaim(d, v), d.reviews[v].request;
    if q in d.requests {
      assert d'.requests != d.requests <==> d'.requests[q] != d.requests[q];
    }
  }

  /** A removal takes the request and its address out, and nothing else. */
  lemma {:induction false} RemoveExactly(events: seq<Event>, q: Id, email: string)
    requires Feasible(OPENING, events)
    ensures var d := Run(OPENING, events);
            var d' := DoRemove(d, q);
            && d'.users == d.users && d'.reviews == d.reviews
            && d'.requests.Keys == d.requests.Keys - {q}
            && (forall p :: p in d'.requests ==> d'.requests[p] == d.requests[p])
            && (email in d'.byEmail <==> email in d.byEmail && d.byEmail[email] != q)
            && (q in d.requests ==> d'.log == d.log + [Removed(q)])
  {
    ReachableInv(events);
    hide Feasible;
    hide Run;
    hide RowsMatch;
    hide Sound;
    hide ReviewsMatch;
    hide AccountsMatch;
  }

  // ---------- The ceiling on the queue ----------

  /** The submit that skips the count: the address has a rejected request, and the queue is full. */
  predicate RevivesWhenFull(d: Desk, e: Event)
    requires Linked(d)
  {
    && e.Submit? && !EmailTaken(d.users, e.email)
    && e.email in d.byEmail && d.requests[d.byEmail[e.email]].status == REJECTED
    && PendingCount(d.requests) >= MAX_PENDING
  }

  /** How many submits of a run did so. */
  ghost function RevivedWhenFull(d: Desk, events: seq<Event>): nat
    requires Feasible(d, events)
    decreases |events|
  {
    if events == [] then 0
    else (if RevivesWhenFull(d, events[0]) then 1 else 0) + RevivedWhenFull(Step(d, events[0]), events[1..])
  }

  /** The ceiling holds now and after every event of the run. */
  ghost predicate AlwaysWithinCeiling(d: Desk, events: seq<Event>)
    requires Feasible(d, events)
    decreases |events|
  {
    PendingCount(d.requests) <= MAX_PENDING && (events == [] || AlwaysWithinCeiling(Step(d, events[0]), events[1..]))
  }

  lemma {:induction false} OneMorePending(requests: map<Id, Request>, q: Id, row: Request)
    requires row.status == PENDING && (q in requests ==> requests[q].status != PENDING)
    ensures PendingCount(requests[q := row]) == PendingCount(requests) + 1
  {
    assert Pending(requests[q := row]) == Pending(requests) + {q};
  }

  lemma {:induction false} OneFewerPending(requests: map<Id, Request>, q: Id, row: Request)
    requires row.status != PENDING && q in requests && requests[q].status == PENDING
    ensures PendingCount(requests[q := row]) == PendingCount(requests) - 1
  {
    assert Pending(requests[q := row]) == Pending(requests) - {q};
  }

  /** A new row is only added while the queue has room; a revived one adds no row. */
  lemma {:induction false} QueueHasRoom(d: Desk, email: string, username: string, passwordHash: string)
    requires Linked(d) && d.nextId !in d.requests
    requires DoSubmit(d, email, username, passwordHash).requests.Keys != d.requests.Keys
    ensures var after := DoSubmit(d, email, username, passwordHash).requests;
            && after.Keys == d.requests.Keys + {d.nextId}
            && PendingCount(after) == PendingCount(d.requests) + 1 <= MAX_PENDING
  {
    hide EmailTaken;
    hide PendingCount;
    OneMorePending(d.requests, d.nextId, Request(email, username, passwordHash, PENDING, None));
  }

  /** A submit adds one pending request or none, and past the ceiling only by reviving one. */
  lemma {:induction false} SubmitOutcome(d: Desk, e: Event)
    requires Inv(d) && Linked(d) && e.Submit?
    ensures var (before, after) := (PendingCount(d.requests), PendingCount(Step(d, e).requests));
            && (RevivesWhenFull(d, e) ==> after == before + 1)
            && (!RevivesWhenFull(d, e) ==> after == before || after == before + 1 <= MAX_PENDING)
  {
    hide EmailTaken;
    hide PendingCount;
    hide VerdictOf;
    hide Sound;
    hide ReviewsMatch;
    hide AccountsMatch;
    if e.email in d.byEmail {
      var q := d.byEmail[e.email];
      if d.requests[q].status == REJECTED {
        OneMorePending(d.requests, q, d.requests[q].(username := e.username, passwordHash := e.passwordHash, status := PENDING));
      }
    } else {
      OneMorePending(d.requests, d.nextId, Request(e.email, e.username, e.passwordHash, PENDING, None));
    }
  }

  /** From within the ceiling, a step leaves it exactly by reviving when full. */
  lemma {:induction false} CeilingStep(d: Desk, e: Event)
    requires Inv(d) && Linked(d) && (e.Claim? ==> e.review in d.reviews)
    ensures var (before, after) := (PendingCount(d.requests), PendingCount(Step(d, e).requests));
            && (RevivesWhenFull(d, e) ==> after == before + 1)
            && (!RevivesWhenFull(d, e) ==> after <= before || after <= MAX_PENDING)
            && (before <= MAX_PENDING ==> (after <= MAX_PENDING <==> !RevivesWhenFull(d, e)))
  {
    hide Inv;
    hide PendingCount;
    hide EmailTaken;
    if e.Submit? {
      SubmitOutcome(d, e);
      hide Step;
    } else {
      OtherStepPending(d, e);
      hide Step;
      FewerPending(d.requests, Step(d, e).requests);
    }
  }

  lemma {:induction false} OtherStepPending(d: Desk, e: Event)
    requires Linked(d) && !e.Submit? && (e.Claim? ==> e.review in d.reviews)
    ensures Pending(Step(d, e).requests) <= Pending(d.requests)
  {
    hide EmailTaken;
    hide NameTaken;
  }

  lemma {:induction false} FewerPending(before: map<Id, Request>, after: map<Id, Request>)
    requires Pending(after) <= Pending(before)
    ensures PendingCount(after) <= PendingCount(before)
  {
    assert Pending(before) == Pending(after) + (Pending(before) - Pending(after));
  }

  /** Over every run: at most the ceiling pending, and one more for each revival when full. */
  lemma {:induction false} PendingIsBounded(events: seq<Event>)
    requires Feasible(OPENING, events)
    ensures PendingCount(Run(OPENING, events).requests) <= MAX_PENDING + RevivedWhenFull(OPENING, events)
  {
    OpeningIsFine();
    NothingPending();
    CeilingOverRun(OPENING, events, 0);
  }

  /** Over every run: the ceiling holds throughout if and only if nothing is revived when full. */
  lemma {:induction false} CeilingHoldsExactly(events: seq<Event>)
    requires Feasible(OPENING, events)
    ensures AlwaysWithinCeiling(OPENING, events) <==> RevivedWhenFull(OPENING, events) == 0
  {
    OpeningIsFine();
    NothingPending();
    CeilingOverRun(OPENING, events, 0);
  }

  lemma {:induction false} CeilingOverRun(d: Desk, events: seq<Event>, beyond: nat)
    requires Inv(d) && PendingCount(d.requests) <= MAX_PENDING + beyond && Feasible(d, events)
    ensures PendingCount(Run(d, events).requests) <= MAX_PENDING + beyond + RevivedWhenFull(d, events)
    ensures beyond == 0 ==> (AlwaysWithinCeiling(d, events) <==> RevivedWhenFull(d, events) == 0)
    decreases |events|
  {
    hide Inv;
    hide PendingCount;
    hide RevivesWhenFull;
    hide Step;
    hide Linked;
    if events != [] {
      CeilingStep(d, events[0]);
      StepKeepsInv(d, events[0]);
      CeilingOverRun(Step(d, events[0]), events[1..], if RevivesWhenFull(d, events[0]) then beyond + 1 else beyond);
    }
  }

  lemma {:induction false} RunAppend(d: Desk, events: seq<Event>, e: Event)
    requires Feasible(d, events)
    requires Linked(Run(d, events)) && (e.Claim? ==> e.review in Run(d, events).reviews)
    ensures Feasible(d, events + [e]) && Run(d, events + [e]) == Step(Run(d, events), e)
    decreases |events|
  {
    hide Step;
    hide Linked;
    if events == [] {
      assert events + [e] == [e] && [e][1..] == [];
    } else {
      assert (events + [e])[0] == events[0] && (events + [e])[1..] == events[1..] + [e];
      RunAppend(Step(d, events[0]), events[1..], e);
    }
  }

  /** A queue with `n` pending requests, every address shorter than `n`, and nobody with an account. */
  ghost predicate Queued(d: Desk, n: nat) {
    && PendingCount(d.requests) == n && d.users == map[]
    && forall email :: email in d.byEmail ==> |email| < n
  }

  lemma {:induction false} FillQueue(n: nat) returns (events: seq<Event>)
    requires n <= MAX_PENDING
    ensures Feasible(OPENING, events) && Queued(Run(OPENING, events), n)
  {
    if n == 0 {
      events := [];
      NothingPending();
    } else {
      events := FillQueue(n - 1);
      var d := Run(OPENING, events);
      ReachableInv(events);
      var email := seq(n - 1, _ => 'a');
      SubmitOneMore(d, n - 1, email);
      events := OneStepMore(events, Submit(email, "a", "hash"));
    }
  }

  lemma {:induction false} SubmitOneMore(d: Desk, n: nat, email: string)
    requires Inv(d) && Queued(d, n) && n < MAX_PENDING && |email| == n
    ensures Queued(DoSubmit(d, email, "a", "hash"), n + 1)
  {
    hide Pending;
    hide RowMatches;
    hide Sound;
    hide ReviewsMatch;
    hide AccountsMatch;
    assert !EmailTaken(d.users, email) && email !in d.byEmail;
    assert d.nextId !in d.requests && d.nextId in DoSubmit(d, email, "a", "hash").requests;
    QueueHasRoom(d, email, "a", "hash");
  }

  /** Reject a request from a full queue, let another one in, and submit the rejected one again. */
  lemma {:induction false} RejectAndRevive(d: Desk, q: Id, late: string)
    requires Inv(d) && Queued(d, MAX_PENDING) && q in Pending(d.requests) && |late| == MAX_PENDING
    ensures var d1 := DoOpen(d, Reject, q);
            d.nextId in d1.reviews &&
            var d2 := DoClaim(d1, d.nextId);
            Linked(d2) &&
            var d3 := DoSubmit(d2, late, "a", "hash");
            Linked(d3) &&
            PendingCount(DoSubmit(d3, d.requests[q].email, "a", "hash").requests) == MAX_PENDING + 1
  {
    hide RowMatches;
    hide Sound;
    hide ReviewsMatch;
    hide AccountsMatch;
    hide PendingCount;
    hide VerdictOf;
    var email := d.requests[q].email;
    var d2 := DoClaim(DoOpen(d, Reject, q), d.nextId);
    var refused := d.requests[q].(status := REJECTED, passwordHash := "");
    assert d2.requests == d.requests[q := refused] && d2.byEmail == d.byEmail && d2.users == map[];
    OneFewerPending(d.requests, q, refused);
    var row := Request(late, "a", "hash", PENDING, None);
    var d3 := DoSubmit(d2, late, "a", "hash");
    assert d3.requests == d2.requests[d2.nextId := row] && d3.byEmail[email] == q && d3.users == map[];
    OneMorePending(d2.requests, d2.nextId, row);
    OneMorePending(d3.requests, q, refused.(username := "a", passwordHash := "hash", status := PENDING));
  }

  /** The ceiling itself can be passed. */
  lemma {:induction false} RevivalPassesTheCeiling() returns (events: seq<Event>)
    ensures Feasible(OPENING, events) && PendingCount(Run(OPENING, events).requests) == MAX_PENDING + 1
  {
    hide DoOpen;
    hide DoClaim;
    hide DoSubmit;
    hide Inv;
    hide Feasible;
    hide Run;
    hide Linked;
    events := FillQueue(MAX_PENDING);
    ReachableInv(events);
    var d := Run(OPENING, events);
    assert Pending(d.requests) != {};
    var q :| q in Pending(d.requests);
    var late := seq(MAX_PENDING, _ => 'a');
    var email := d.requests[q].email;
    RejectAndRevive(d, q, late);
    events := OneStepMore(events, Open(Reject, q));
    events := OneStepMore(events, Claim(d.nextId));
    events := OneStepMore(events, Submit(late, "a", "hash"));
    events := OneStepMore(events, Submit(email, "a", "hash"));
  }

  lemma {:induction false} OneStepMore(events: seq<Event>, e: Event) returns (longer: seq<Event>)
    requires Feasible(OPENING, events) && (e.Claim? ==> e.review in Run(OPENING, events).reviews)
    ensures Linked(Run(OPENING, events))
    ensures Feasible(OPENING, longer) && Run(OPENING, longer) == Step(Run(OPENING, events), e)
  {
    hide Feasible;
    hide Run;
    hide Step;
    ReachableInv(events);
    RunAppend(OPENING, events, e);
    longer := events + [e];
  }
}
