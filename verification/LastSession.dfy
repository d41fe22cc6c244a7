/** The table of first and last sessions (pam-daemon/psql-db.schema): an insert rule keeps it up to date,
    and last_session_import rebuilds it from the event log. */
module LastSession {
  import opened Options

  /** The open_session rows of the log, with the columns used here. */
  datatype Event = Event(uid: string, isOpen: bool, date: int)

  datatype Session = Session(first: int, last: int)

  /** pam.last_session, unique by uid. */
  type Sessions = map<string, Session>

  /** INSERT ... ON CONFLICT (uid) DO UPDATE SET last_event: the first date stays. */
  function Upsert(t: Sessions, uid: string, date: int): Sessions {
    t[uid := Session(if uid in t then t[uid].first else date, date)]
  }

  /** The effect of a sequence of events on the table, in that order. */
  function Replay(t: Sessions, events: seq<Event>): Sessions {
    if events == [] then t
    else
      var n := |events| - 1;
      var before := Replay(t, events[..n]);
      if events[n].isOpen then Upsert(before, events[n].uid, events[n].date) else before
  }

  /** The dates of a uid's open_session events, in order. */
  function DatesOf(events: seq<Event>, uid: string): seq<int> {
    if events == [] then []
    else
      var n := |events| - 1;
      DatesOf(events[..n], uid) + (if events[n].isOpen && events[n].uid == uid then [events[n].date] else [])
  }

  predicate ByDate(events: seq<Event>) {
    forall i, j :: 0 <= i < j < |events| ==> events[i].date <= events[j].date
  }

  /** An ORDER BY log_date ASC over the open_session rows: any such ordering. */
  predicate Orders(log: seq<Event>, rows: seq<Event>) {
    ByDate(rows) && (forall i :: 0 <= i < |rows| ==> rows[i].isOpen) && multiset(rows) == multiset(Opens(log))
  }

  function Opens(log: seq<Event>): seq<Event> {
    if log == [] then []
    else Opens(log[..|log| - 1]) + (if log[|log| - 1].isOpen then [log[|log| - 1]] else [])
  }

  /** The log and the table, changed by inserts (with the rule) and by the import. */
  class Database {
    var log: seq<Event>
    var sessions: Sessions

    constructor ()
      ensures log == [] && sessions == map[]
    {
      log, sessions := [], map[];
    }

    /** An insert into the log, and the rule update_pam_last_session. */
    method Insert(e: Event)
      modifies this
      ensures log == old(log) + [e]
      ensures sessions == if e.isOpen then Upsert(old(sessions), e.uid, e.date) else old(sessions)
    {
      log := log + [e];
      if e.isOpen {
        sessions := Upsert(sessions, e.uid, e.date);
      }
    }

    /** Inserts one after another. */
    method InsertAll(events: seq<Event>)
      modifies this
      ensures log == old(log) + events
      ensures sessions == Replay(old(sessions), events)
    {
      var n := 0;
      while n < |events|
        invariant 0 <= n <= |events|
        invariant log == old(log) + events[..n]
        invariant sessions == Replay(old(sessions), events[..n])
      {
        assert events[..n + 1] == events[..n] + [events[n]];
        RuleIsReplay(events[..n], events[n], old(sessions));
        Insert(events[n]);
        n := n + 1;
      }
      assert events[..n] == events;
    }

    /** last_session_import over the rows in the order the query yields them. */
    method Import(rows: seq<Event>) returns (nrecs: nat)
      requires Orders(log, rows)
      modifies this`sessions
      ensures sessions == Replay(old(sessions), rows)
      ensures nrecs == |Opens(log)|
    {
      nrecs := 0;
      while nrecs < |rows|
        invariant 0 <= nrecs <= |rows|
        invariant sessions == Replay(old(sessions), rows[..nrecs])
      {
        assert rows[..nrecs + 1][..nrecs] == rows[..nrecs];
        sessions := Upsert(sessions, rows[nrecs].uid, rows[nrecs].date);
        nrecs := nrecs + 1;
      }
      assert rows[..nrecs] == rows;
      assert |multiset(rows)| == |multiset(Opens(log))|;
    }
  }

  // ---------------------------------------------------------------- what the table holds

  /** After any events a uid's row holds its earlier first date, or the first of its new dates, and the last
      of its new dates. */
  lemma {:induction false} ReplayHolds(t: Sessions, events: seq<Event>, uid: string)
    ensures var dates := DatesOf(events, uid);
      if dates == [] then (uid in Replay(t, events) <==> uid in t) && (uid in t ==> Replay(t, events)[uid] == t[uid])
      else uid in Replay(t, events) && Replay(t, events)[uid] ==
             Session(if uid in t then t[uid].first else dates[0], dates[|dates| - 1])
  {
    if events != [] {
      ReplayHolds(t, events[..|events| - 1], uid);
    }
  }

  lemma {:induction false} DatesIn(events: seq<Event>, uid: string, d: int)
    ensures d in DatesOf(events, uid) <==> Event(uid, true, d) in events
  {
    if events != [] {
      var n := |events| - 1;
      DatesIn(events[..n], uid, d);
      assert events == events[..n] + [events[n]];
    }
  }

  predicate Sorted(dates: seq<int>) {
    forall i, j :: 0 <= i < j < |dates| ==> dates[i] <= dates[j]
  }

  lemma {:induction false} DatesSorted(events: seq<Event>, uid: string)
    requires ByDate(events)
    ensures Sorted(DatesOf(events, uid))
    ensures events != [] ==> forall d :: d in DatesOf(events, uid) ==> d <= events[|events| - 1].date
  {
    if events != [] {
      var n := |events| - 1;
      var before := DatesOf(events[..n], uid);
      DatesSorted(events[..n], uid);
      forall d | d in before
        ensures d <= events[n].date
      {
        assert n > 0 && d <= events[n - 1].date;
      }
      assert forall i :: 0 <= i < |before| ==> before[i] in before;
    }
  }

  lemma {:induction false} OpensAre(log: seq<Event>, e: Event)
    ensures e in Opens(log) <==> e in log && e.isOpen
  {
    if log != [] {
      var n := |log| - 1;
      OpensAre(log[..n], e);
      assert log == log[..n] + [log[n]];
    }
  }

  lemma OrderedMembers(log: seq<Event>, rows: seq<Event>, uid: string, d: int)
    requires Orders(log, rows)
    ensures d in DatesOf(rows, uid) <==> d in DatesOf(log, uid)
  {
    var e := Event(uid, true, d);
    DatesIn(rows, uid, d);
    DatesIn(log, uid, d);
    OpensAre(log, e);
    assert e in rows <==> e in multiset(rows);
    assert e in Opens(log) <==> e in multiset(Opens(log));
  }

  predicate Least(dates: seq<int>, d: int) {
    d in dates && forall x :: x in dates ==> d <= x
  }

  predicate Greatest(dates: seq<int>, d: int) {
    d in dates && forall x :: x in dates ==> x <= d
  }

  /** The import on an empty table gives each uid with an open_session event the least and the greatest of
      its dates, and no other uid a row. */
  lemma ImportIsMinMax(log: seq<Event>, rows: seq<Event>, uid: string)
    requires Orders(log, rows)
    ensures uid in Replay(map[], rows) <==> DatesOf(log, uid) != []
    ensures uid in Replay(map[], rows) ==>
      Least(DatesOf(log, uid), Replay(map[], rows)[uid].first) && Greatest(DatesOf(log, uid), Replay(map[], rows)[uid].last)
  {
    var dates, members := DatesOf(rows, uid), DatesOf(log, uid);
    ReplayHolds(map[], rows, uid);
    DatesSorted(rows, uid);
    forall d
      ensures d in dates <==> d in members
    {
      OrderedMembers(log, rows, uid, d);
    }
    hide Orders, DatesOf, Replay, Sorted;
    SameExtremes(dates, members);
  }

  lemma SameExtremes(dates: seq<int>, members: seq<int>)
    requires Sorted(dates) && forall d :: d in dates <==> d in members
    ensures dates == [] <==> members == []
    ensures dates != [] ==> Least(members, dates[0]) && Greatest(members, dates[|dates| - 1])
  {
    if members != [] {
      var d := members[0];
      assert d in members;
      assert d in dates;
    }
    if dates != [] {
      var low, high := dates[0], dates[|dates| - 1];
      assert low in dates && high in dates;
      assert low in members && high in members;
    }
  }

  /** The result does not depend on how rows of equal date are ordered. */
  lemma ImportIsUnique(log: seq<Event>, rows: seq<Event>, rows': seq<Event>)
    requires Orders(log, rows) && Orders(log, rows')
    ensures Replay(map[], rows) == Replay(map[], rows')
  {
    forall uid: string
      ensures uid in Replay(map[], rows) <==> uid in Replay(map[], rows')
      ensures uid in Replay(map[], rows) ==> Replay(map[], rows)[uid] == Replay(map[], rows')[uid]
    {
      ImportIsMinMax(log, rows, uid);
      ImportIsMinMax(log, rows', uid);
    }
  }

  /** Importing again changes nothing. */
  lemma ImportIsIdempotent(log: seq<Event>, rows: seq<Event>, rows': seq<Event>)
    requires Orders(log, rows) && Orders(log, rows')
    ensures Replay(Replay(map[], rows), rows') == Replay(map[], rows)
  {
    var t := Replay(map[], rows);
    ImportIsUnique(log, rows, rows');
    forall uid: string
      ensures uid in Replay(t, rows') <==> uid in t
      ensures uid in t ==> Replay(t, rows')[uid] == t[uid]
    {
      ReplayHolds(t, rows', uid);
      ReplayHolds(map[], rows', uid);
    }
  }

  /** The rule's table after a log has been inserted row by row. */
  lemma {:induction false} RuleIsReplay(log: seq<Event>, e: Event, t: Sessions)
    ensures Replay(t, log + [e]) == (if e.isOpen then Upsert(Replay(t, log), e.uid, e.date) else Replay(t, log))
  {
    assert (log + [e])[..|log|] == log;
  }

  /** For a uid the rule and the import agree exactly when the first of its events to arrive has the least
      date and the last the greatest. */
  lemma RuleAgreesIff(log: seq<Event>, rows: seq<Event>, uid: string)
    requires Orders(log, rows) && DatesOf(log, uid) != []
    ensures var dates := DatesOf(log, uid);
      && uid in Replay(map[], log) && uid in Replay(map[], rows)
      && (Replay(map[], log)[uid] == Replay(map[], rows)[uid] <==>
           (Least(dates, dates[0]) && Greatest(dates, dates[|dates| - 1])))
  {
    hide *;
    RuleRow(log, uid);
    ImportRow(log, rows, uid);
    ExtremesIff(DatesOf(log, uid), Replay(map[], rows)[uid]);
  }

  lemma RuleRow(log: seq<Event>, uid: string)
    requires DatesOf(log, uid) != []
    ensures uid in Replay(map[], log)
    ensures Replay(map[], log)[uid] == Session(DatesOf(log, uid)[0], DatesOf(log, uid)[|DatesOf(log, uid)| - 1])
  {
    ReplayHolds(map[], log, uid);
  }

  lemma ImportRow(log: seq<Event>, rows: seq<Event>, uid: string)
    requires Orders(log, rows) && DatesOf(log, uid) != []
    ensures uid in Replay(map[], rows)
    ensures Least(DatesOf(log, uid), Replay(map[], rows)[uid].first)
    ensures Greatest(DatesOf(log, uid), Replay(map[], rows)[uid].last)
  {
    hide Orders, DatesOf, Replay, Least, Greatest;
    ImportIsMinMax(log, rows, uid);
  }

  lemma ExtremesIff(dates: seq<int>, s: Session)
    requires dates != [] && Least(dates, s.first) && Greatest(dates, s.last)
    ensures Session(dates[0], dates[|dates| - 1]) == s <==>
              (Least(dates, dates[0]) && Greatest(dates, dates[|dates| - 1]))
  {
  }

  /** When events arrive in nondecreasing date order the rule's table is the import's. */
  lemma RuleAgreesInOrder(log: seq<Event>, rows: seq<Event>)
    requires Orders(log, rows) && ByDate(log)
    ensures Replay(map[], log) == Replay(map[], rows)
  {
    forall uid: string
      ensures uid in Replay(map[], log) <==> uid in Replay(map[], rows)
      ensures uid in Replay(map[], log) ==> Replay(map[], log)[uid] == Replay(map[], rows)[uid]
    {
      ReplayHolds(map[], log, uid);
      ImportIsMinMax(log, rows, uid);
      DatesSorted(log, uid);
      if DatesOf(log, uid) != [] {
        RuleAgreesIff(log, rows, uid);
      }
    }
  }
}
