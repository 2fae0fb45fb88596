/**
  The live wall's ledger of the observation windows it opened. Insertion-ordered sets are
  sequences without repetition, so the order of requests is part of the model.
 */
module WindowLedger {
  type Id = string

  predicate Distinct(s: seq<Id>) {
    forall i, j :: 0 <= i < j < |s| ==> s[i] != s[j]
  }

  /** `new Set(s)`: first occurrences, in order. */
  function Dedup(s: seq<Id>): (r: seq<Id>)
    ensures Distinct(r) && forall id :: id in r <==> id in s
  {
    if s == [] then []
    else
      var before := Dedup(s[..|s| - 1]);
      var last := s[|s| - 1];
      assert s == s[..|s| - 1] + [last];
      if last in before then before else before + [last]
  }

  /** The elements that are, or are not, among others, in order. */
  function Select(s: seq<Id>, others: seq<Id>, among: bool): (r: seq<Id>)
    ensures forall id :: id in r <==> id in s && (id in others <==> among)
    ensures Distinct(s) ==> Distinct(r)
  {
    if s == [] then []
    else
      var before := Select(s[..|s| - 1], others, among);
      var last := s[|s| - 1];
      assert s == s[..|s| - 1] + [last];
      if (last in others) == among then before + [last] else before
  }

  datatype Entry = Opened(id: Id) | Closed(id: Id) | HandedOff(id: Id)

  /** The two sets, and every request made so far. */
  datatype Ledger = Ledger(ours: seq<Id>, handedOff: seq<Id>, log: seq<Entry>)

  const MOUNTED := Ledger([], [], [])

  datatype Event = Sync(wanted: seq<Id>) | Renew | HandOff(id: Id) | Release

  function Openings(ids: seq<Id>): seq<Entry> {
    seq(|ids|, i requires 0 <= i < |ids| => Opened(ids[i]))
  }

  function Closings(ids: seq<Id>): seq<Entry> {
    seq(|ids|, i requires 0 <= i < |ids| => Closed(ids[i]))
  }

  function ToClose(l: Ledger, wanted: seq<Id>): seq<Id> {
    Select(l.ours, wanted, false)
  }

  function ToOpen(l: Ledger, wanted: seq<Id>): seq<Id> {
    Select(Dedup(wanted), l.handedOff, false)
  }

  function DoSync(l: Ledger, wanted: seq<Id>): Ledger {
    var kept := Select(l.ours, wanted, true);
    var open := ToOpen(l, wanted);
    Ledger(kept + Select(open, kept, false), l.handedOff, l.log + Closings(ToClose(l, wanted)) + Openings(open))
  }

  function DoHandOff(l: Ledger, id: Id): Ledger {
    Ledger(Select(l.ours, [id], false), if id in l.handedOff then l.handedOff else l.handedOff + [id],
           l.log + [HandedOff(id)])
  }

  function DoRelease(l: Ledger): Ledger {
    l.(ours := [], log := l.log + Closings(l.ours))
  }

  function Step(l: Ledger, e: Event): Ledger {
    match e
    case Sync(wanted) => DoSync(l, wanted)
    case Renew => l
    case HandOff(id) => DoHandOff(l, id)
    case Release => DoRelease(l)
  }

  function Run(l: Ledger, events: seq<Event>): Ledger
    decreases |events|
  {
    if events == [] then l else Run(Step(l, events[0]), events[1..])
  }

  lemma {:induction false} SelectStep(s: seq<Id>, i: nat, others: seq<Id>, among: bool)
    requires i < |s|
    ensures Select(s[..i + 1], others, among) ==
            Select(s[..i], others, among) + if (s[i] in others) == among then [s[i]] else []
  {
    assert s[..i + 1][..i] == s[..i];
  }

  lemma {:induction false} SelectFromNothing(others: seq<Id>, more: seq<Id>, s: seq<Id>, t: seq<Id>)
    ensures Select(t[..0], others, false) == [] && Select([], more, false) == [] && s + [] == s
  {
  }

  lemma {:induction false} SelectEmpty(s: seq<Id>, others: seq<Id>)
    ensures Select(s[..0], others, true) == [] && Select(s[..0], others, false) == []
  {
  }

  lemma {:induction false} SelectAppend(s: seq<Id>, x: Id, others: seq<Id>)
    ensures Select(s + [x], others, false) == Select(s, others, false) + if x in others then [] else [x]
  {
    assert (s + [x])[..|s|] == s && (s + [x])[..|s| + 1] == s + [x];
    SelectStep(s + [x], |s|, others, false);
  }

  /** Adding to a set: an element that comes later in a distinct sequence is not in yet, unless it was before. */
  lemma {:induction false} NotYetSelected(next: seq<Id>, i: nat, handedOff: seq<Id>, ours: seq<Id>)
    requires i < |next| && Distinct(next)
    ensures next[i] in ours + Select(Select(next[..i], handedOff, false), ours, false) <==> next[i] in ours
  {
    hide Select;
    assert next[i] !in next[..i];
    assert next[i] !in Select(next[..i], handedOff, false);
    var added := Select(Select(next[..i], handedOff, false), ours, false);
    assert next[i] !in added;
    assert next[i] in ours + added <==> next[i] in ours || next[i] in added;
  }

  // ---------- The ledger object ----------

  class ObservationWindows {
    var ours: seq<Id>
    var handedOff: seq<Id>
    var log: seq<Entry>

    function View(): Ledger
      reads this
    {
      Ledger(ours, handedOff, log)
    }

    constructor ()
      ensures View() == MOUNTED
    {
      ours, handedOff, log := [], [], [];
    }

    method SyncWith(wanted: seq<Id>) returns (open: seq<Id>, close: seq<Id>)
      modifies this
      ensures View() == DoSync(old(View()), wanted)
      ensures open == ToOpen(old(View()), wanted) && close == ToClose(old(View()), wanted)
    {
      var next := SetOf(wanted);
      SelectSameMembers(ours, next, wanted, true);
      SelectSameMembers(ours, next, wanted, false);
      close := CloseUnwanted(next);
      open := OpenWanted(next);
      log := log + Closings(close) + Openings(open);
    }

    /** `new Set(wanted)` */
    method SetOf(wanted: seq<Id>) returns (next: seq<Id>)
      ensures next == Dedup(wanted)
    {
      next := [];
      var i := 0;
      while i < |wanted|
        invariant i <= |wanted| && next == Dedup(wanted[..i])
      {
        assert wanted[..i + 1][..i] == wanted[..i];
        if wanted[i] !in next {
          next := next + [wanted[i]];
        }
        i := i + 1;
      }
      assert wanted[..i] == wanted;
    }

    method CloseUnwanted(next: seq<Id>) returns (close: seq<Id>)
      modifies `ours
      ensures ours == Select(old(ours), next, true) && close == Select(old(ours), next, false)
    {
      hide Select;
      var kept: seq<Id> := [];
      close := [];
      var i := 0;
      SelectEmpty(ours, next);
      while i < |ours|
        invariant i <= |ours| && ours == old(ours)
        invariant kept == Select(ours[..i], next, true) && close == Select(ours[..i], next, false)
      {
        SelectStep(ours, i, next, true);
        SelectStep(ours, i, next, false);
        if ours[i] in next {
          kept := kept + [ours[i]];
        } else {
          close := close + [ours[i]];
        }
        i := i + 1;
      }
      assert ours[..i] == ours;
      ours := kept;
    }

    method OpenWanted(next: seq<Id>) returns (open: seq<Id>)
      requires Distinct(next)
      modifies `ours
      ensures open == Select(next, handedOff, false)
      ensures ours == old(ours) + Select(open, old(ours), false)
    {
      hide Select;
      open := [];
      var i := 0;
      SelectFromNothing(handedOff, old(ours), ours, next);
      while i < |next|
        invariant i <= |next| && open == Select(next[..i], handedOff, false)
        invariant ours == old(ours) + Select(open, old(ours), false)
      {
        SelectStep(next, i, handedOff, false);
        if next[i] !in handedOff {
          SelectAppend(open, next[i], old(ours));
          assert next[i] in ours <==> next[i] in old(ours) by {
            NotYetSelected(next, i, handedOff, old(ours));
          }
          if next[i] !in ours {
            ours := ours + [next[i]];
          }
          open := open + [next[i]];
        }
        i := i + 1;
      }
      assert next[..i] == next;
    }

    method RenewAll() returns (ids: seq<Id>)
      ensures ids == ours
    {
      ids := ours;
    }

    method HandOffTo(id: Id)
      modifies this
      ensures View() == DoHandOff(old(View()), id)
    {
      if id !in handedOff {
        handedOff := handedOff + [id];
      }
      ours := Select(ours, [id], false);
      log := log + [HandedOff(id)];
    }

    method ReleaseAll() returns (closing: seq<Id>)
      modifies this
      ensures View() == DoRelease(old(View()))
      ensures closing == old(ours)
    {
      closing := ours;
      ours := [];
      log := log + Closings(closing);
    }
  }

  lemma {:induction false} SelectSameMembers(s: seq<Id>, a: seq<Id>, b: seq<Id>, among: bool)
    requires forall id :: id in a <==> id in b
    ensures Select(s, a, among) == Select(s, b, among)
  {
    if s != [] {
      SelectSameMembers(s[..|s| - 1], a, b, among);
    }
  }

  // ---------- What has been said of a window ----------

  datatype Word = Nothing | IsOpen | IsClosed | IsGone

  function After(w: Word, id: Id, e: Entry): Word {
    if e == Opened(id) then IsOpen else if e == Closed(id) then IsClosed else if e == HandedOff(id) then IsGone else w
  }

  /** The last thing requested for a window. */
  function LastWord(log: seq<Entry>, id: Id): Word {
    if log == [] then Nothing else After(LastWord(log[..|log| - 1], id), id, log[|log| - 1])
  }

  /** Only an open window is closed, and nothing is requested for one that was handed off. */
  predicate Justified(log: seq<Entry>, e: Entry) {
    match e
    case Opened(id) => LastWord(log, id) != IsGone
    case Closed(id) => LastWord(log, id) == IsOpen
    case HandedOff(_) => true
  }

  predicate Sound(log: seq<Entry>) {
    forall i :: 0 <= i < |log| ==> Justified(log[..i], log[i])
  }

  lemma {:induction false} LogGrows(log: seq<Entry>, e: Entry)
    requires Sound(log) && Justified(log, e)
    ensures Sound(log + [e])
    ensures forall id :: LastWord(log + [e], id) == After(LastWord(log, id), id, e)
  {
    var longer := log + [e];
    assert longer[..|log|] == log;
    assert forall id :: LastWord(longer, id) == After(LastWord(log, id), id, e);
    hide Justified;
    forall i | 0 <= i < |longer|
      ensures Justified(longer[..i], longer[i])
    {
      assert longer[..i] == log[..i];
    }
  }

  lemma {:induction false} LogCloses(log: seq<Entry>, ids: seq<Id>)
    requires Sound(log) && Distinct(ids) && forall id :: id in ids ==> LastWord(log, id) == IsOpen
    ensures Sound(log + Closings(ids))
    ensures forall id :: LastWord(log + Closings(ids), id) == if id in ids then IsClosed else LastWord(log, id)
  {
    hide Sound;
    hide LastWord;
    if ids == [] {
      assert log + Closings(ids) == log;
    } else {
      var before, last := ids[..|ids| - 1], ids[|ids| - 1];
      assert ids == before + [last] && last !in before;
      LogCloses(log, before);
      assert log + Closings(ids) == log + Closings(before) + [Closed(last)];
      LogGrows(log + Closings(before), Closed(last));
    }
  }

  lemma {:induction false} LogOpens(log: seq<Entry>, ids: seq<Id>)
    requires Sound(log) && forall id :: id in ids ==> LastWord(log, id) != IsGone
    ensures Sound(log + Openings(ids))
    ensures forall id :: LastWord(log + Openings(ids), id) == if id in ids then IsOpen else LastWord(log, id)
  {
    hide Sound;
    hide LastWord;
    if ids == [] {
      assert log + Openings(ids) == log;
    } else {
      var before, last := ids[..|ids| - 1], ids[|ids| - 1];
      assert ids == before + [last];
      LogOpens(log, before);
      assert log + Openings(ids) == log + Openings(before) + [Opened(last)];
      LogGrows(log + Openings(before), Opened(last));
    }
  }

  // ---------- The invariant of every run ----------

  ghost predicate Inv(l: Ledger) {
    && Distinct(l.ours) && Distinct(l.handedOff)
    && Sound(l.log)
    && (forall id :: id in l.ours <==> LastWord(l.log, id) == IsOpen)
    && (forall id :: id in l.handedOff <==> LastWord(l.log, id) == IsGone)
  }

  lemma {:induction false} SyncKeepsInv(l: Ledger, wanted: seq<Id>)
    requires Inv(l)
    ensures Inv(DoSync(l, wanted))
    ensures forall id :: id in DoSync(l, wanted).ours <==> id in wanted && id !in l.handedOff
  {
    hide Sound;
    hide LastWord;
    hide Select;
    hide Dedup;
    hide Closings;
    hide Openings;
    var open, close := ToOpen(l, wanted), ToClose(l, wanted);
    var kept := Select(l.ours, wanted, true);
    LogCloses(l.log, close);
    LogOpens(l.log + Closings(close), open);
    var added := Select(open, kept, false);
    DistinctUnion(kept, added);
    var l' := DoSync(l, wanted);
    assert l'.ours == kept + added && l'.log == l.log + Closings(close) + Openings(open);
  }

  lemma {:induction false} DistinctUnion(a: seq<Id>, b: seq<Id>)
    requires Distinct(a) && Distinct(b) && forall id :: id in b ==> id !in a
    ensures Distinct(a + b)
    ensures forall id :: id in a + b <==> id in a || id in b
  {
    forall i, j | 0 <= i < j < |a + b|
      ensures (a + b)[i] != (a + b)[j]
    {
      if i < |a| <= j {
        assert b[j - |a|] in b;
      }
    }
  }

  lemma {:induction false} StepKeepsInv(l: Ledger, e: Event)
    requires Inv(l)
    ensures Inv(Step(l, e))
  {
    hide Sound;
    hide LastWord;
    match e
    case Sync(wanted) => SyncKeepsInv(l, wanted);
    case Renew =>
    case HandOff(id) => LogGrows(l.log, HandedOff(id));
    case Release => LogCloses(l.log, l.ours);
  }

  lemma {:induction false} RunKeepsInv(l: Ledger, events: seq<Event>)
    requires Inv(l)
    ensures Inv(Run(l, events))
    decreases |events|
  {
    hide Inv;
    hide Step;
    if events != [] {
      StepKeepsInv(l, events[0]);
      RunKeepsInv(Step(l, events[0]), events[1..]);
    }
  }

  /** The wall owns what it opened and has neither closed nor handed off since, and nothing it handed off. */
  lemma {:induction false} LedgerIsExact(events: seq<Event>, id: Id)
    ensures var l := Run(MOUNTED, events);
            && Distinct(l.ours) && Distinct(l.handedOff)
            && (id in l.ours <==> LastWord(l.log, id) == IsOpen)
            && (id in l.handedOff <==> LastWord(l.log, id) == IsGone)
            && !(id in l.ours && id in l.handedOff)
  {
    hide LastWord;
    RunKeepsInv(MOUNTED, events) by {
      assert LastWord([], id) == Nothing by {
        NothingSaid();
      }
      NothingSaid();
    }
  }

  lemma {:induction false} NothingSaid()
    ensures Inv(MOUNTED) && forall id :: LastWord([], id) == Nothing
  {
  }

  /** A window handed to the viewer is never opened or closed by the wall again. */
  lemma {:induction false} HandedOffForGood(events: seq<Event>, i: nat, j: nat)
    requires i < j < |Run(MOUNTED, events).log| && Run(MOUNTED, events).log[i].HandedOff?
    ensures var log := Run(MOUNTED, events).log;
            log[j] != Opened(log[i].id) && log[j] != Closed(log[i].id)
  {
    NothingSaid();
    RunKeepsInv(MOUNTED, events);
    var log := Run(MOUNTED, events).log;
    hide Run;
    GoneBetween(log, log[i].id, i, j);
    assert Justified(log[..j], log[j]);
  }

  lemma {:induction false} GoneBetween(log: seq<Entry>, id: Id, i: nat, j: nat)
    requires i < j <= |log| && Sound(log) && log[i] == HandedOff(id)
    ensures LastWord(log[..j], id) == IsGone
    decreases j
  {
    assert log[..j][..j - 1] == log[..j - 1];
    if j > i + 1 {
      GoneBetween(log, id, i, j - 1);
      assert Justified(log[..j - 1], log[j - 1]);
    }
  }

  // ---------- The ledger as a history of events ----------

  predicate HandedOver(events: seq<Event>, id: Id) {
    HandOff(id) in events
  }

  /** Wanted by the last sync, and neither handed over nor left behind since. */
  predicate Owned(events: seq<Event>, id: Id) {
    events != [] &&
    var before, last := events[..|events| - 1], events[|events| - 1];
    match last
    case Sync(wanted) => id in wanted && !HandedOver(before, id)
    case Renew => Owned(before, id)
    case HandOff(other) => other != id && Owned(before, id)
    case Release => false
  }

  lemma {:induction false} RunSnoc(l: Ledger, events: seq<Event>)
    requires events != []
    ensures Run(l, events) == Step(Run(l, events[..|events| - 1]), events[|events| - 1])
    decreases |events|
  {
    hide Step;
    if |events| > 1 {
      assert events[..|events| - 1][1..] == events[1..][..|events| - 2];
      RunSnoc(Step(l, events[0]), events[1..]);
    }
  }

  /** Over every run the two sets are what the events alone say. */
  lemma {:induction false} LedgerFollowsTheEvents(events: seq<Event>, id: Id)
    ensures var l := Run(MOUNTED, events);
            && (id in l.ours <==> Owned(events, id))
            && (id in l.handedOff <==> HandedOver(events, id))
    decreases |events|
  {
    hide Step;
    hide LastWord;
    if events != [] {
      var before := events[..|events| - 1];
      assert events == before + [events[|events| - 1]];
      RunSnoc(MOUNTED, events);
      LedgerFollowsTheEvents(before, id);
      LedgerIsExact(before, id);
      StepFollows(Run(MOUNTED, before), events[|events| - 1], id);
    }
  }

  lemma {:induction false} StepFollows(l: Ledger, e: Event, id: Id)
    requires !(id in l.ours && id in l.handedOff)
    ensures id in Step(l, e).handedOff <==> id in l.handedOff || e == HandOff(id)
    ensures id in Step(l, e).ours <==>
              match e
              case Sync(wanted) => id in wanted && id !in l.handedOff
              case Renew => id in l.ours
              case HandOff(other) => other != id && id in l.ours
              case Release => false
  {
    hide Select;
    hide Dedup;
  }

  /**
    From a hand-off on, whatever came before or comes after, the wall does not own the window and
    requests nothing for it.
   */
  lemma {:induction false} NothingAfterAHandOff(before: seq<Event>, id: Id, after: seq<Event>)
    ensures var l := Run(MOUNTED, before);
            var l' := Run(Step(l, HandOff(id)), after);
            && id !in l'.ours
            && l.log <= l'.log
            && forall i :: |l.log| <= i < |l'.log| ==> l'.log[i] != Opened(id) && l'.log[i] != Closed(id)
  {
    hide LastWord;
    hide Select;
    var l := Run(MOUNTED, before);
    NothingSaid();
    RunKeepsInv(MOUNTED, before);
    hide Run;
    LeftAlone(Step(l, HandOff(id)), id, after);
  }

  lemma {:induction false} LeftAlone(l: Ledger, id: Id, events: seq<Event>)
    requires id in l.handedOff && id !in l.ours
    ensures var l' := Run(l, events);
            && id in l'.handedOff && id !in l'.ours
            && l.log <= l'.log
            && forall i :: |l.log| <= i < |l'.log| ==> l'.log[i] != Opened(id) && l'.log[i] != Closed(id)
    decreases |events|
  {
    if events != [] {
      StepLeavesAlone(l, id, events[0]);
      hide Step;
      LeftAlone(Step(l, events[0]), id, events[1..]);
      var l1, l' := Step(l, events[0]), Run(l, events);
      assert forall i :: |l.log| <= i < |l1.log| ==> l'.log[i] == l1.log[i];
    }
  }

  lemma {:induction false} StepLeavesAlone(l: Ledger, id: Id, e: Event)
    requires id in l.handedOff && id !in l.ours
    ensures var l' := Step(l, e);
            && id in l'.handedOff && id !in l'.ours
            && l.log <= l'.log
            && forall i :: |l.log| <= i < |l'.log| ==> l'.log[i] != Opened(id) && l'.log[i] != Closed(id)
  {
    hide Select;
    hide Dedup;
  }

  /** How often this is requested. */
  function Times(log: seq<Entry>, e: Entry): nat {
    multiset(log)[e]
  }

  /** The requests a sync makes: one closing for each window left out, and one opening for each it may own. */
  lemma {:induction false} SyncRequestsExactly(events: seq<Event>, wanted: seq<Id>, id: Id)
    ensures var l, l' := Run(MOUNTED, events), Run(MOUNTED, events + [Sync(wanted)]);
            && l.log <= l'.log
            && var more := l'.log[|l.log|..];
            && Times(more, Closed(id)) == (if Owned(events, id) && id !in wanted then 1 else 0)
            && Times(more, Opened(id)) == (if id in wanted && !HandedOver(events, id) then 1 else 0)
            && Times(more, HandedOff(id)) == 0
  {
    var all := events + [Sync(wanted)];
    assert all[..|all| - 1] == events;
    RunSnoc(MOUNTED, all);
    LedgerFollowsTheEvents(events, id);
    NothingSaid();
    RunKeepsInv(MOUNTED, events);
    hide Run;
    hide Inv;
    hide Owned;
    hide HandedOver;
    var l := Run(MOUNTED, events);
    OursAreDistinct(l);
    hide Select;
    hide Dedup;
    var close, open := ToClose(l, wanted), ToOpen(l, wanted);
    hide ToClose;
    hide ToOpen;
    TimesClosed(close, id);
    TimesOpened(open, id);
    RequestsTogether(l.log, close, open, id);
  }

  lemma {:induction false} RequestsTogether(log: seq<Entry>, close: seq<Id>, open: seq<Id>, id: Id)
    ensures var longer := log + Closings(close) + Openings(open);
            && log <= longer
            && forall e :: Times(longer[|log|..], e) == Times(Closings(close), e) + Times(Openings(open), e)
  {
    hide Closings;
    hide Openings;
    var more := Closings(close) + Openings(open);
    assert log + Closings(close) + Openings(open) == log + more;
    assert (log + more)[|log|..] == more;
  }

  lemma {:induction false} OursAreDistinct(l: Ledger)
    requires Inv(l)
    ensures Distinct(l.ours)
  {
  }

  lemma {:induction false} TimesClosed(ids: seq<Id>, id: Id)
    requires Distinct(ids)
    ensures Times(Closings(ids), Closed(id)) == if id in ids then 1 else 0
    ensures Times(Closings(ids), Opened(id)) == Times(Closings(ids), HandedOff(id)) == 0
  {
    if ids == [] {
      assert Closings(ids) == [];
    } else {
      var before, last := ids[..|ids| - 1], ids[|ids| - 1];
      assert ids == before + [last] && last !in before;
      TimesClosed(before, id);
      assert Closings(ids) == Closings(before) + [Closed(last)];
    }
  }

  lemma {:induction false} TimesOpened(ids: seq<Id>, id: Id)
    requires Distinct(ids)
    ensures Times(Openings(ids), Opened(id)) == if id in ids then 1 else 0
    ensures Times(Openings(ids), Closed(id)) == Times(Openings(ids), HandedOff(id)) == 0
  {
    if ids == [] {
      assert Openings(ids) == [];
    } else {
      var before, last := ids[..|ids| - 1], ids[|ids| - 1];
      assert ids == before + [last] && last !in before;
      TimesOpened(before, id);
      assert Openings(ids) == Openings(before) + [Opened(last)];
    }
  }

  /** Where an id first stands. */
  function First(s: seq<Id>, id: Id): (i: nat)
    requires id in s
    ensures i < |s| && s[i] == id && id !in s[..i]
  {
    if s[0] == id then 0 else 1 + First(s[1..], id)
  }

  /** One after the other as they first stand in `s`. */
  predicate InOrderOf(r: seq<Id>, s: seq<Id>) {
    forall i, j :: 0 <= i < j < |r| ==> r[i] in s && r[j] in s && First(s, r[i]) < First(s, r[j])
  }

  lemma {:induction false} FirstUnique(s: seq<Id>, id: Id, i: nat)
    requires i < |s| && s[i] == id && id !in s[..i]
    ensures id in s && First(s, id) == i
  {
    if i > 0 {
      assert s[..i][0] == s[0] && s[1..][..i - 1] == s[..i][1..];
      FirstUnique(s[1..], id, i - 1);
    }
  }

  lemma {:induction false} FirstInLonger(s: seq<Id>, x: Id, id: Id)
    requires id in s
    ensures id in s + [x] && First(s + [x], id) == First(s, id)
  {
    var i := First(s, id);
    assert (s + [x])[..i] == s[..i];
    FirstUnique(s + [x], id, i);
  }

  lemma {:induction false} OrderInLonger(r: seq<Id>, s: seq<Id>, x: Id, taken: bool)
    requires InOrderOf(r, s) && (forall id :: id in r ==> id in s) && (taken ==> x !in s)
    ensures InOrderOf(if taken then r + [x] else r, s + [x])
  {
    hide First;
    var r' := if taken then r + [x] else r;
    forall i, j | 0 <= i < j < |r'|
      ensures r'[i] in s + [x] && r'[j] in s + [x] && First(s + [x], r'[i]) < First(s + [x], r'[j])
    {
      assert r[i] in s && r'[i] == r[i];
      FirstInLonger(s, x, r[i]);
      if j < |r| {
        assert r[j] in s && r'[j] == r[j];
        FirstInLonger(s, x, r[j]);
      } else {
        assert (s + [x])[..|s|] == s;
        FirstUnique(s + [x], x, |s|);
      }
    }
  }

  /** Sets keep the order of insertion. */
  lemma {:induction false} DedupKeepsOrder(s: seq<Id>)
    ensures InOrderOf(Dedup(s), s)
  {
    if s != [] {
      var before, last := s[..|s| - 1], s[|s| - 1];
      assert s == before + [last];
      DedupKeepsOrder(before);
      OrderInLonger(Dedup(before), before, last, last !in before);
    }
  }

  lemma {:induction false} SelectKeepsOrder(s: seq<Id>, others: seq<Id>, among: bool)
    requires Distinct(s)
    ensures InOrderOf(Select(s, others, among), s)
  {
    if s != [] {
      var before, last := s[..|s| - 1], s[|s| - 1];
      assert s == before + [last] && last !in before;
      SelectKeepsOrder(before, others, among);
      OrderInLonger(Select(before, others, among), before, last, (last in others) == among);
    }
  }

  /** After a sync, whatever came before it, the wall owns exactly what it wants and has not handed off. */
  lemma {:induction false} SyncSettles(events: seq<Event>, wanted: seq<Id>, id: Id)
    ensures var l := DoSync(Run(MOUNTED, events), wanted);
            id in l.ours <==> id in wanted && id !in l.handedOff
  {
    hide LastWord;
    hide Run;
    NothingSaid();
    RunKeepsInv(MOUNTED, events);
    SyncKeepsInv(Run(MOUNTED, events), wanted);
  }

  /** Leaving the wall closes each window it still owns exactly once, and no other. */
  lemma {:induction false} ReleaseClosesEachOnce(events: seq<Event>)
    ensures var l := Run(MOUNTED, events);
            var left := DoRelease(l);
            && left.ours == [] && left.log == l.log + Closings(l.ours) && Distinct(l.ours) && Sound(left.log)
            && forall id :: LastWord(left.log, id) != IsOpen
  {
    hide LastWord;
    hide Run;
    NothingSaid();
    RunKeepsInv(MOUNTED, events);
    StepKeepsInv(Run(MOUNTED, events), Release);
  }
}
