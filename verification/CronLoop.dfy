/** The cron scheduler: its entries, the events of its loop, and what every run of it keeps. */
module CronLoop {
  import opened Wrappers
  import opened Words
  import opened CronSpec

  const SECOND := 1_000_000_000

  /** A fixed period in nanoseconds, kept to whole seconds. */
  datatype ConstantDelay = ConstantDelay(delay: nat)

  /** Periods below a second become a second; fractions of a second are dropped. */
  function Every(duration: int): (s: ConstantDelay)
    ensures s.delay >= SECOND && s.delay % SECOND == 0
    ensures duration >= SECOND ==> s.delay <= duration < s.delay + SECOND
  {
    var d := if duration < SECOND then SECOND else duration;
    ConstantDelay(d - d % SECOND)
  }

  datatype Schedule = Spec(spec: SpecSchedule) | Delay(delay: ConstantDelay)

  /** The next activation after `t`; None is the zero time. */
  function NextTime(s: Schedule, t: Time): Option<Time>
  {
    match s
    case Spec(spec) => SearchResult(spec, t)
    case Delay(d) => Some(AddNanos(t, d.delay - t.nano))
  }

  function AddNanos(t: Time, n: int): (r: Time)
    ensures r.Valid()
  {
    var total := t.sec * SECOND + t.nano + n;
    Time(total / SECOND, total % SECOND, t.zone)
  }

  predicate ValidSchedule(s: Schedule) { s.Delay? ==> s.delay.delay >= SECOND && s.delay.delay % SECOND == 0 }

  /** Every activation lies after the time asked about, on a whole second. */
  lemma NextTimeIsLater(s: Schedule, t: Time)
    requires ValidSchedule(s) && t.Valid()
    ensures NextTime(s, t).Some? ==> Before(t, NextTime(s, t).value) && NextTime(s, t).value.nano == 0
    ensures s.Delay? ==> NextTime(s, t) == Some(Time(t.sec + s.delay.delay / SECOND, 0, t.zone))
  {
    match s {
      case Spec(spec) => SearchResultIsLater(spec, t);
      case Delay(d) =>
        var q := d.delay / SECOND;
        assert t.sec * SECOND + t.nano + (d.delay - t.nano) == SECOND * (t.sec + q);
    }
  }

  datatype Entry = Entry(id: nat, schedule: Schedule, next: Option<Time>, prev: Option<Time>)

  /** The order of the entries: by activation, entries without one last. */
  predicate Less(a: Entry, b: Entry)
  {
    a.next.Some? && (b.next.None? || Before(a.next.value, b.next.value))
  }

  predicate Due(e: Entry, now: Time) { e.next.Some? && !Before(now, e.next.value) }

  function Advance(e: Entry, now: Time): Entry { e.(prev := e.next, next := NextTime(e.schedule, now)) }

  // ----- One event of the loop, on the entries by their ID

  datatype State = State(entries: map<nat, Entry>, nextID: nat, running: bool) {
    ghost predicate Valid()
    {
      forall id :: id in entries ==> 1 <= id <= nextID && entries[id].id == id && ValidSchedule(entries[id].schedule)
    }
  }

  datatype Event =
    | Add(schedule: Schedule, now: Time)
    | Remove(id: nat, now: Time)
    | Wake(now: Time)
    | Snapshot
    | Start(now: Time)
    | Stop

  function WakeAll(entries: map<nat, Entry>, now: Time): map<nat, Entry>
  {
    map id | id in entries :: if Due(entries[id], now) then Advance(entries[id], now) else entries[id]
  }

  function Scheduled(entries: map<nat, Entry>, now: Time): map<nat, Entry>
  {
    map id | id in entries :: entries[id].(next := NextTime(entries[id].schedule, now))
  }

  function Step(s: State, ev: Event): State
  {
    match ev
    case Add(schedule, now) =>
      var id := s.nextID + 1;
      var next := if s.running then NextTime(schedule, now) else None;
      State(s.entries[id := Entry(id, schedule, next, None)], id, s.running)
    case Remove(id, _) => s.(entries := s.entries - {id})
    case Wake(now) => if s.running then s.(entries := WakeAll(s.entries, now)) else s
    case Snapshot => s
    case Start(now) => if s.running then s else s.(entries := Scheduled(s.entries, now), running := true)
    case Stop => s.(running := false)
  }

  /** The entries whose job an event starts. */
  function StartedBy(s: State, ev: Event): set<nat>
  {
    if ev.Wake? && s.running then set id | id in s.entries && Due(s.entries[id], ev.now) else {}
  }

  /** The scheduler, one step at a time. Every method leaves the entries sorted, as the top of the loop does. */
  class Cron {
    var entries: seq<Entry>
    var nextID: nat
    var running: bool

    ghost predicate Valid()
      reads this
    {
      && UniqueIds(entries)
      && View().Valid()
      && (running ==> Sorted(entries))
    }

    ghost function View(): State
      reads this
      requires UniqueIds(entries)
    {
      State(ById(entries), nextID, running)
    }

    constructor ()
      ensures Valid() && View() == State(map[], 0, false)
    {
      entries, nextID, running := [], 0, false;
    }

    /** Adding an entry: at once when the loop is not running, and otherwise by the loop at `now`. */
    method Schedule(schedule: Schedule, now: Time) returns (id: nat)
      requires Valid() && ValidSchedule(schedule)
      modifies this
      ensures Valid() && View() == Step(old(View()), Add(schedule, now))
      ensures id == old(nextID) + 1 && id !in old(View()).entries
      ensures forall e :: e in entries <==>
                e in old(entries) || e == Entry(id, schedule, if running then NextTime(schedule, now) else None, None)
      ensures running == old(running)
    {
      hide NextTime, ValidSchedule, State.Valid, Sorted, ById;
      IdsBelow(View());
      StepKeepsValid(View(), Add(schedule, now));
      nextID := nextID + 1;
      id := nextID;
      var entry := Entry(id, schedule, None, None);
      if running {
        entry := entry.(next := NextTime(schedule, now));
      }
      Appended(entries, entry);
      entries := entries + [entry];
      if running { var _ := Sort(); }
    }

    method RemoveEntry(id: nat, now: Time)
      requires Valid()
      modifies this
      ensures Valid() && View() == Step(old(View()), Remove(id, now))
      ensures forall e :: e in entries <==> e in old(entries) && e.id != id
    {
      hide NextTime, ValidSchedule, State.Valid, Sorted, ById;
      StepKeepsValid(View(), Remove(id, now));
      var kept: seq<Entry> := [];
      for i := 0 to |entries|
        invariant forall e :: e in kept <==> e in entries[..i] && e.id != id
        invariant UniqueIds(kept)
      {
        assert entries[..i + 1] == entries[..i] + [entries[i]];
        assert forall e :: e in kept ==> e.id != entries[i].id;
        if entries[i].id != id { kept := kept + [entries[i]]; }
      }
      assert entries[..|entries|] == entries;
      Dropped(entries, kept, id);
      entries := kept;
      if running { var _ := Sort(); }
    }

    /** The timer fires: the loop stops at the first entry that is not due, because the entries are
        sorted. `started` are the IDs of the jobs started, in order. */
    method WakeUp(now: Time) returns (started: seq<nat>)
      requires Valid() && running
      modifies this
      ensures Valid() && View() == Step(old(View()), Wake(now))
      ensures forall id :: id in started <==> id in StartedBy(old(View()), Wake(now))
      ensures forall i, j :: 0 <= i < j < |started| ==> started[i] != started[j]
      ensures forall id :: id in started <==>
                exists e :: e in old(entries) && e.id == id && e.next.Some? && !Before(now, e.next.value)
    {
      hide NextTime, ValidSchedule, Before;
      ghost var was := entries;
      started := [];
      var i := 0;
      while i < |entries| && Due(entries[i], now)
        invariant 0 <= i <= |entries| == |was| && nextID == old(nextID) && running
        invariant forall k :: 0 <= k < i ==> Due(was[k], now) && entries[k] == Advance(was[k], now)
        invariant forall k :: i <= k < |was| ==> entries[k] == was[k]
        invariant |started| == i && forall k :: 0 <= k < i ==> started[k] == was[k].id
      {
        started := started + [entries[i].id];
        entries := entries[i := Advance(entries[i], now)];
        i := i + 1;
      }
      RestNotDue(was, i, now);
      Woken(was, entries, now);
      StartedAreDue(was, i, started, now);
      var _ := Sort();
    }

    method StartLoop(now: Time)
      requires Valid()
      modifies this
      ensures Valid() && View() == Step(old(View()), Start(now)) && running
      ensures old(running) ==> entries == old(entries)
      ensures !old(running) ==>
                && |entries| == |old(entries)|
                && forall e :: e in old(entries) ==>
                     Entry(e.id, e.schedule, NextTime(e.schedule, now), e.prev) in entries
    {
      hide NextTime, ValidSchedule, Before;
      if running { return; }
      ghost var was := entries;
      running := true;
      for i := 0 to |entries|
        invariant |entries| == |was| && nextID == old(nextID) && running
        invariant forall k :: 0 <= k < i ==> entries[k] == was[k].(next := NextTime(was[k].schedule, now))
        invariant forall k :: i <= k < |was| ==> entries[k] == was[k]
      {
        entries := entries[i := entries[i].(next := NextTime(entries[i].schedule, now))];
      }
      Restarted(was, entries, now);
      var _ := Sort();
    }

    method StopLoop()
      requires Valid()
      modifies this`running
      ensures Valid() && View() == Step(old(View()), Stop)
      ensures !running && entries == old(entries)
    {
      running := false;
    }

    /** A copy of the entries, as the snapshot channel answers. */
    method Entries() returns (r: seq<Entry>)
      requires Valid()
      ensures UniqueIds(r) && State(ById(r), nextID, running) == Step(View(), Snapshot)
    {
      r := entries;
    }

    /** The top of the loop: sort, and wake at the activation of the first entry, the earliest of all;
        without one the loop sleeps until the next event. */
    method Sort() returns (wake: Option<Time>)
      requires UniqueIds(entries)
      modifies this`entries
      ensures UniqueIds(entries) && Sorted(entries) && ById(entries) == old(ById(entries))
      ensures |entries| == |old(entries)| && forall e :: e in entries <==> e in old(entries)
      ensures wake.None? <==> forall e :: e in entries ==> e.next.None?
      ensures wake.Some? ==>
                && (exists e :: e in entries && e.next == wake)
                && forall e :: e in entries && e.next.Some? ==> !Before(e.next.value, wake.value)
    {
      entries := SortByTime(entries);
      wake := if entries == [] then None else entries[0].next;
      if entries != [] { FirstIsEarliest(entries); }
    }
  }

  /** The first of sorted entries has the earliest activation, or none has one. */
  lemma FirstIsEarliest(s: seq<Entry>)
    requires s != [] && Sorted(s)
    ensures s[0] in s
    ensures forall e :: e in s ==> match s[0].next
                                   case None => e.next.None?
                                   case Some(w) => e.next.Some? ==> !Before(e.next.value, w)
  {
    forall e | e in s ensures e == s[0] || !Less(e, s[0]) {
      var k :| 0 <= k < |s| && s[k] == e;
    }
  }

  ghost predicate UniqueIds(s: seq<Entry>)
  {
    forall i, j :: 0 <= i < |s| && 0 <= j < |s| && s[i].id == s[j].id ==> i == j
  }

  ghost predicate Sorted(s: seq<Entry>)
  {
    forall i, j :: 0 <= i < j < |s| ==> !Less(s[j], s[i])
  }

  ghost function ById(s: seq<Entry>): map<nat, Entry>
    requires UniqueIds(s)
  {
    map e | e in s :: e.id := e
  }

  lemma IdsBelow(s: State)
    requires s.Valid()
    ensures s.nextID + 1 !in s.entries
  {
  }

  lemma Dropped(s: seq<Entry>, kept: seq<Entry>, id: nat)
    requires UniqueIds(s) && UniqueIds(kept)
    requires forall e :: e in kept <==> e in s && e.id != id
    ensures ById(kept) == ById(s) - {id}
  {
  }

  lemma Appended(s: seq<Entry>, e: Entry)
    requires UniqueIds(s)
    requires forall x :: x in ById(s) ==> x != e.id
    ensures UniqueIds(s + [e]) && ById(s + [e]) == ById(s)[e.id := e]
  {
    forall i | 0 <= i < |s| ensures s[i].id != e.id { assert s[i] in s && s[i].id in ById(s); }
    assert forall x :: x in s + [e] <==> x in s || x == e;
  }

  lemma LookUp(s: seq<Entry>)
    requires UniqueIds(s)
    ensures forall k :: 0 <= k < |s| ==> s[k].id in ById(s) && ById(s)[s[k].id] == s[k]
    ensures forall id :: id in ById(s) ==> exists k :: 0 <= k < |s| && s[k].id == id
  {
    assert forall k :: 0 <= k < |s| ==> s[k] in s;
    forall id | id in ById(s) ensures exists k :: 0 <= k < |s| && s[k].id == id {
      var e :| e in s && e.id == id;
      var k :| 0 <= k < |s| && s[k] == e;
    }
  }

  /** Entries that keep their IDs keep their places in the map. */
  lemma Pointwise(a: seq<Entry>, b: seq<Entry>)
    requires UniqueIds(a) && |a| == |b|
    requires forall k :: 0 <= k < |a| ==> a[k].id == b[k].id
    ensures UniqueIds(b)
    ensures ById(a).Keys == ById(b).Keys
    ensures forall k :: 0 <= k < |a| ==> a[k].id in ById(a) && ById(a)[a[k].id] == a[k] && ById(b)[a[k].id] == b[k]
    ensures forall id :: id in ById(a) ==> exists k :: 0 <= k < |a| && a[k].id == id
  {
    LookUp(a);
    LookUp(b);
    hide ById;
    assert forall k :: 0 <= k < |a| ==> a[k].id in ById(a).Keys && a[k].id in ById(b).Keys;
    assert ById(a).Keys == ById(b).Keys;
  }

  lemma Woken(a: seq<Entry>, b: seq<Entry>, now: Time)
    requires UniqueIds(a) && |a| == |b|
    requires forall k :: 0 <= k < |a| ==> b[k] == if Due(a[k], now) then Advance(a[k], now) else a[k]
    ensures UniqueIds(b) && ById(b) == WakeAll(ById(a), now)
  {
    hide Due, NextTime;
    Pointwise(a, b);
  }

  lemma Restarted(a: seq<Entry>, b: seq<Entry>, now: Time)
    requires UniqueIds(a) && |a| == |b|
    requires forall k :: 0 <= k < |a| ==> b[k] == a[k].(next := NextTime(a[k].schedule, now))
    ensures UniqueIds(b) && ById(b) == Scheduled(ById(a), now)
    ensures forall e :: e in a ==> Entry(e.id, e.schedule, NextTime(e.schedule, now), e.prev) in b
  {
    hide NextTime;
    Pointwise(a, b);
    forall e | e in a ensures Entry(e.id, e.schedule, NextTime(e.schedule, now), e.prev) in b {
      var k :| 0 <= k < |a| && a[k] == e;
      assert b[k] == Entry(e.id, e.schedule, NextTime(e.schedule, now), e.prev);
    }
  }

  /** What stands after an entry that is not due is not due: the early exit skips nothing. */
  lemma LaterNotDue(a: Entry, b: Entry, now: Time)
    requires !Less(b, a) && !Due(a, now)
    ensures !Due(b, now)
  {
  }

  lemma RestNotDue(s: seq<Entry>, i: nat, now: Time)
    requires Sorted(s) && i <= |s| && (i < |s| ==> !Due(s[i], now))
    ensures forall k :: i <= k < |s| ==> !Due(s[k], now)
  {
    hide Due, Less;
    forall k | i < k < |s| ensures !Due(s[k], now) { LaterNotDue(s[i], s[k], now); }
  }

  /** The entries that are due are those at the front. */
  lemma StartedAreDue(s: seq<Entry>, i: nat, started: seq<nat>, now: Time)
    requires UniqueIds(s) && i <= |s| && |started| == i && forall k :: 0 <= k < i ==> started[k] == s[k].id
    requires forall k :: 0 <= k < |s| ==> (Due(s[k], now) <==> k < i)
    ensures forall id :: id in started <==> exists e :: e in s && e.id == id && Due(e, now)
    ensures forall id :: id in started <==> id in ById(s) && Due(ById(s)[id], now)
    ensures forall j, k :: 0 <= j < k < |started| ==> started[j] != started[k]
  {
    hide Due;
    LookUp(s);
    hide ById;
    forall id ensures id in started <==> exists e :: e in s && e.id == id && Due(e, now) {
      if id in started {
        var k :| 0 <= k < i && started[k] == id;
        assert s[k] in s;
      }
      if e :| e in s && e.id == id && Due(e, now) {
        var k :| 0 <= k < |s| && s[k] == e;
        assert started[k] == id;
      }
    }
  }

  lemma SameEntries(a: seq<Entry>, b: seq<Entry>)
    requires UniqueIds(a) && UniqueIds(b)
    requires forall e :: e in a <==> e in b
    ensures ById(a) == ById(b)
  {
  }

  /** `sort.Sort(byTime(...))`: some sorted arrangement of the entries. */
  method SortByTime(s: seq<Entry>) returns (r: seq<Entry>)
    requires UniqueIds(s)
    ensures UniqueIds(r) && Sorted(r) && ById(r) == ById(s)
    ensures |r| == |s| && forall e :: e in r <==> e in s
  {
    r := [];
    for i := 0 to |s|
      invariant UniqueIds(r) && Sorted(r) && |r| == i
      invariant forall e :: e in r <==> e in s[..i]
    {
      assert forall e :: e in s[..i] ==> e.id != s[i].id;
      assert forall e :: e in s[..i + 1] <==> e in s[..i] || e == s[i];
      r := Insert(r, s[i]);
    }
    assert s[..|s|] == s;
    SameEntries(r, s);
  }

  method Insert(s: seq<Entry>, e: Entry) returns (r: seq<Entry>)
    requires UniqueIds(s) && Sorted(s)
    requires forall x :: x in s ==> x.id != e.id
    ensures UniqueIds(r) && Sorted(r) && |r| == |s| + 1
    ensures forall x :: x in r <==> x in s || x == e
  {
    hide Before;
    var k := |s|;
    while k > 0 && Less(e, s[k - 1])
      invariant 0 <= k <= |s|
      invariant forall j :: k <= j < |s| ==> Less(e, s[j])
    {
      k := k - 1;
    }
    r := s[..k] + [e] + s[k..];
    InsertSorted(s, e, k);
    InsertUnique(s, e, k);
    assert s == s[..k] + s[k..];
  }

  lemma InsertSorted(s: seq<Entry>, e: Entry, k: nat)
    requires k <= |s| && Sorted(s)
    requires forall j :: k <= j < |s| ==> Less(e, s[j])
    requires k == 0 || !Less(e, s[k - 1])
    ensures Sorted(s[..k] + [e] + s[k..])
  {
    var r := s[..k] + [e] + s[k..];
    forall i, j | 0 <= i < j < |r| ensures !Less(r[j], r[i]) {
      if j < k {
        assert r[i] == s[i] && r[j] == s[j];
      } else if j == k {
        assert r[i] == s[i] && r[j] == e;
        assert i < k - 1 ==> !Less(s[k - 1], s[i]);
      } else if i < k {
        assert r[i] == s[i] && r[j] == s[j - 1];
      } else if i == k {
        assert r[i] == e && r[j] == s[j - 1];
      } else {
        assert r[i] == s[i - 1] && r[j] == s[j - 1];
      }
    }
  }

  lemma InsertUnique(s: seq<Entry>, e: Entry, k: nat)
    requires k <= |s| && UniqueIds(s)
    requires forall x :: x in s ==> x.id != e.id
    ensures UniqueIds(s[..k] + [e] + s[k..])
  {
    var r := s[..k] + [e] + s[k..];
    assert forall i :: 0 <= i < |r| ==> r[i] == if i < k then s[i] else if i == k then e else s[i - 1];
    assert forall i :: 0 <= i < |s| ==> s[i] in s;
  }

  // ----- Runs

  function RunFrom(s: State, evs: seq<Event>): State
    decreases |evs|
  {
    if evs == [] then s else RunFrom(Step(s, evs[0]), evs[1..])
  }

  /** Whether some event of the run starts the job of `id`. */
  predicate StartsIn(s: State, evs: seq<Event>, id: nat)
    decreases |evs|
  {
    evs != [] && (id in StartedBy(s, evs[0]) || StartsIn(Step(s, evs[0]), evs[1..], id))
  }

  lemma StepKeepsValid(s: State, ev: Event)
    requires s.Valid()
    requires ev.Add? ==> ValidSchedule(ev.schedule)
    ensures Step(s, ev).Valid()
  {
    hide NextTime, ValidSchedule, Due;
  }

  predicate ValidEvents(evs: seq<Event>)
  {
    forall i :: 0 <= i < |evs| && evs[i].Add? ==> ValidSchedule(evs[i].schedule)
  }

  /** A wake starts exactly the due entries, records when they were due, and leaves every activation
      in the future; no other event starts anything. */
  lemma WakeIsExact(s: State, now: Time, id: nat)
    requires s.Valid() && s.running && now.Valid() && id in s.entries
    ensures var e := s.entries[id];
            var e' := Step(s, Wake(now)).entries[id];
            && (id in StartedBy(s, Wake(now)) <==> e.next.Some? && !Before(now, e.next.value))
            && (id in StartedBy(s, Wake(now)) ==> e' == e.(prev := e.next, next := NextTime(e.schedule, now)))
            && (id !in StartedBy(s, Wake(now)) ==> e' == e)
            && (e'.next.Some? ==> Before(now, e'.next.value))
  {
    NextTimeIsLater(s.entries[id].schedule, now);
  }

  /** A stopped loop starts nothing and keeps its activations. */
  lemma StoppedIsQuiet(s: State, now: Time)
    ensures !s.running ==> Step(s, Wake(now)) == s && StartedBy(s, Wake(now)) == {}
    ensures s.running ==> Step(s, Start(now)) == s
  {
  }

  /** Events other than a wake that is due, a removal of the entry, and a restart. */
  predicate Undisturbed(ev: Event, id: nat, due: Time)
  {
    match ev
    case Wake(now) => Before(now, due)
    case Remove(x, _) => x != id
    case Start(_) => true
    case Stop => false
    case _ => true
  }

  /** A due activation is not lost: whatever else happens in a running loop, an entry keeps its
      activation and does not start before the first wake at or after it, and that wake starts it. */
  lemma {:induction false} NoActivationLost(s: State, evs: seq<Event>, id: nat, due: Time, now: Time)
    requires s.Valid() && ValidEvents(evs) && s.running
    requires id in s.entries && s.entries[id].next == Some(due)
    requires forall i :: 0 <= i < |evs| ==> Undisturbed(evs[i], id, due)
    requires !Before(now, due)
    ensures var r := RunFrom(s, evs);
            && r.running && id in r.entries && r.entries[id] == s.entries[id]
            && !StartsIn(s, evs, id)
            && id in StartedBy(r, Wake(now))
            && Step(r, Wake(now)).entries[id].prev == Some(due)
    decreases |evs|
  {
    if evs != [] {
      assert Undisturbed(evs[0], id, due);
      StepKeepsValid(s, evs[0]);
      NoActivationLost(Step(s, evs[0]), evs[1..], id, due, now);
    }
  }

  /** An added entry has its next activation after the start, or after the addition to a running loop. */
  lemma EntryIsScheduled(s: State, schedule: Schedule, added: Time, started: Time)
    requires s.Valid() && !s.running && ValidSchedule(schedule)
    ensures var id := s.nextID + 1;
            var late, early := Step(Step(s, Add(schedule, added)), Start(started)),
            Step(Step(s, Start(started)), Add(schedule, added));
            && late.Valid() && late.running && id in late.entries
            && late.entries[id] == Entry(id, schedule, NextTime(schedule, started), None)
            && early.Valid() && early.running && id in early.entries
            && early.entries[id] == Entry(id, schedule, NextTime(schedule, added), None)
  {
    hide NextTime, ValidSchedule;
    StepKeepsValid(s, Add(schedule, added));
    StepKeepsValid(s, Start(started));
    StepKeepsValid(Step(s, Add(schedule, added)), Start(started));
    StepKeepsValid(Step(s, Start(started)), Add(schedule, added));
  }

  /** A job runs when it is due: added to a stopped scheduler that is then started, whatever else
      happens, it does not start before its activation, and the first wake at or after it starts it. */
  lemma AddedEntryRuns(s: State, schedule: Schedule, added: Time, started: Time, evs: seq<Event>, due: Time, now: Time)
    requires s.Valid() && !s.running && ValidSchedule(schedule) && ValidEvents(evs)
    requires forall i :: 0 <= i < |evs| ==> Undisturbed(evs[i], s.nextID + 1, due)
    requires NextTime(schedule, started) == Some(due) && !Before(now, due)
    ensures var id, all := s.nextID + 1, [Add(schedule, added), Start(started)] + evs;
            var r := RunFrom(s, all);
            && id in r.entries && r.entries[id] == Entry(id, schedule, Some(due), None)
            && !StartsIn(s, all, id) && id in StartedBy(r, Wake(now))
  {
    hide NextTime, ValidSchedule, RunFrom, StartsIn, StartedBy, Step, Undisturbed, ValidEvents, State.Valid;
    EntryIsScheduled(s, schedule, added, started);
    TwoFirst(s, Add(schedule, added), Start(started), evs, s.nextID + 1);
    NoActivationLost(Step(Step(s, Add(schedule, added)), Start(started)), evs, s.nextID + 1, due, now);
  }

  /** The same for an entry added to a loop that is already running. */
  lemma LateEntryRuns(s: State, schedule: Schedule, added: Time, started: Time, evs: seq<Event>, due: Time, now: Time)
    requires s.Valid() && !s.running && ValidSchedule(schedule) && ValidEvents(evs)
    requires forall i :: 0 <= i < |evs| ==> Undisturbed(evs[i], s.nextID + 1, due)
    requires NextTime(schedule, added) == Some(due) && !Before(now, due)
    ensures var id, all := s.nextID + 1, [Start(started), Add(schedule, added)] + evs;
            var r := RunFrom(s, all);
            && id in r.entries && r.entries[id] == Entry(id, schedule, Some(due), None)
            && !StartsIn(s, all, id) && id in StartedBy(r, Wake(now))
  {
    hide NextTime, ValidSchedule, RunFrom, StartsIn, StartedBy, Step, Undisturbed, ValidEvents, State.Valid;
    EntryIsScheduled(s, schedule, added, started);
    TwoFirst(s, Start(started), Add(schedule, added), evs, s.nextID + 1);
    NoActivationLost(Step(Step(s, Start(started)), Add(schedule, added)), evs, s.nextID + 1, due, now);
  }

  /** A scheduler with one entry, added before the start or after it: the first wake starts the job
      exactly when its activation has come. */
  method FirstRun(schedule: Schedule, addFirst: bool, start: Time, added: Time, now: Time) returns (started: seq<nat>)
    requires ValidSchedule(schedule)
    ensures var due := NextTime(schedule, if addFirst then start else added);
            started == if due.Some? && !Before(now, due.value) then [1] else []
  {
    hide NextTime, ValidSchedule;
    var c := new Cron();
    var id: nat;
    if addFirst {
      id := c.Schedule(schedule, added);
      c.StartLoop(start);
    } else {
      c.StartLoop(start);
      id := c.Schedule(schedule, added);
    }
    ghost var all := c.entries;
    ghost var due := NextTime(schedule, if addFirst then start else added);
    assert ById(all).Keys == {1};
    assert all == [Entry(1, schedule, due, None)] by { OneEntry(all, Entry(1, schedule, due, None)); }
    started := c.WakeUp(now);
    assert all[0] in all;
    OnlyOne(started, due.Some? && !Before(now, due.value));
  }

  lemma OnlyOne(ids: seq<nat>, given: bool)
    requires forall i, j :: 0 <= i < j < |ids| ==> ids[i] != ids[j]
    requires forall id :: id in ids <==> given && id == 1
    ensures ids == if given then [1] else []
  {
    if |ids| > 1 { TwoOnes(ids); }
    assert ids != [] ==> ids[0] in ids;
    assert given ==> 1 in ids;
  }

  lemma TwoOnes(ids: seq<nat>)
    requires |ids| > 1 && forall id :: id in ids ==> id == 1
    ensures ids[0] == ids[1]
  {
    assert ids[0] in ids && ids[1] in ids;
  }

  lemma OneEntry(s: seq<Entry>, e: Entry)
    requires UniqueIds(s) && e in s && ById(s).Keys == {e.id}
    ensures s == [e]
  {
    LookUp(s);
    var k :| 0 <= k < |s| && s[k] == e;
    var j := if k == 0 then |s| - 1 else 0;
    assert s[j].id in ById(s).Keys;
    assert j == k;
  }

  lemma TwoFirst(s: State, a: Event, b: Event, evs: seq<Event>, id: nat)
    ensures RunFrom(s, [a, b] + evs) == RunFrom(Step(Step(s, a), b), evs)
    ensures !a.Wake? && !b.Wake? ==> (StartsIn(s, [a, b] + evs, id) <==> StartsIn(Step(Step(s, a), b), evs, id))
  {
    hide NextTime;
    assert ([a, b] + evs)[1..] == [b] + evs && ([b] + evs)[1..] == evs;
  }

  /** IDs only grow, and an ID that was given out and is gone never comes back. */
  lemma {:induction false} RemovedNeverStarts(s: State, evs: seq<Event>, id: nat)
    requires s.Valid() && ValidEvents(evs)
    requires id <= s.nextID && id !in s.entries
    ensures var r := RunFrom(s, evs);
            s.nextID <= r.nextID && r.Valid() && id !in r.entries && !StartsIn(s, evs, id)
    decreases |evs|
  {
    if evs != [] {
      StepKeepsValid(s, evs[0]);
      RemovedNeverStarts(Step(s, evs[0]), evs[1..], id);
    }
  }

  /** From the empty scheduler: an ID handed out by Add is new in the whole run before it, and after
      its removal the entry never starts again. */
  lemma IdsAreNeverReused(before: seq<Event>, schedule: Schedule, now: Time, between: seq<Event>, at: Time,
          after: seq<Event>)
    requires ValidEvents(before) && ValidSchedule(schedule) && ValidEvents(between) && ValidEvents(after)
    ensures var s0 := RunFrom(State(map[], 0, false), before);
            var id := s0.nextID + 1;
            var s1 := Step(s0, Add(schedule, now));
            var s2 := RunFrom(s1, between);
            var s3 := Step(s2, Remove(id, at));
            && id !in s0.entries && id in s1.entries
            && s1.nextID == id <= s2.nextID
            && !StartsIn(s3, after, id) && id !in RunFrom(s3, after).entries
  {
    hide NextTime, ValidSchedule, StartedBy, StartsIn, RunFrom;
    var s0 := RunFrom(State(map[], 0, false), before);
    RemovedNeverStarts(State(map[], 0, false), before, 0);
    var s1 := Step(s0, Add(schedule, now));
    StepKeepsValid(s0, Add(schedule, now));
    RemovedNeverStarts(s1, between, 0);
    var s2 := RunFrom(s1, between);
    StepKeepsValid(s2, Remove(s0.nextID + 1, at));
    RemovedNeverStarts(Step(s2, Remove(s0.nextID + 1, at)), after, s0.nextID + 1);
  }
}
