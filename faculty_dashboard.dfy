/** The faculty member's own dashboard: the timetable shown, its grouping by day, the order
    of the day headings, and sending a message to the administrator. */
module FacultyDashboard {
  import opened Basics
  import opened Types
  import opened Catalog
  import Tally
  import Generator

  /** The timetable the page shows: the one stored for the signed-in user, or none. */
  function ShownTimetable(stored: Option<Timetables>, user: Option<User>): (t: Timetable)
    ensures user.Some? && user.value.id in StoredTimetables(stored) ==>
              t == StoredTimetables(stored)[user.value.id]
    ensures user.None? || user.value.id !in StoredTimetables(stored) ==> t == []
  {
    if user.Some? then TimetableOf(StoredTimetables(stored), user.value.id) else []
  }

  /** The entries held on `day`, in timetable order. */
  function EntriesOn(t: Timetable, day: string): Timetable
  {
    if t == [] then []
    else
      var e := t[|t| - 1];
      EntriesOn(t[..|t| - 1], day) + (if e.day == day then [e] else [])
  }

  /** The object `timetableByDay`: for every day that occurs, its entries. */
  function Grouped(t: Timetable): map<string, Timetable>
  {
    map d | d in DaysOf(t) :: EntriesOn(t, d)
  }

  lemma GroupedStep(t: Timetable, e: ScheduleEntry)
    ensures Grouped(t + [e])
            == Grouped(t)[e.day := (if e.day in Grouped(t) then Grouped(t)[e.day] else []) + [e]]
  {
    var t' := t + [e];
    assert t'[..|t'| - 1] == t;
    assert DaysOf(t') == DaysOf(t) + [e.day];
    var g, g' := Grouped(t), Grouped(t');
    if e.day !in DaysOf(t) {
      EntriesOnAbsent(t, e.day);
    }
    assert g'[e.day] == (if e.day in g then g[e.day] else []) + [e];
    forall d | d in g' && d != e.day ensures d in g && g'[d] == g[d] {
      assert EntriesOn(t', d) == EntriesOn(t, d);
    }
  }

  lemma {:induction false} EntriesOnAbsent(t: Timetable, day: string)
    requires day !in DaysOf(t)
    ensures EntriesOn(t, day) == []
  {
    if t != [] {
      var p := t[..|t| - 1];
      assert forall i :: 0 <= i < |p| ==> DaysOf(p)[i] == DaysOf(t)[i];
      EntriesOnAbsent(p, day);
    }
  }

  /** The reduce that pushes each entry onto the array of its day. */
  method GroupByDay(t: Timetable) returns (groups: map<string, Timetable>)
    ensures groups == Grouped(t)
  {
    groups := map[];
    assert Grouped(t[..0]) == map[];
    for i := 0 to |t|
      invariant groups == Grouped(t[..i])
    {
      var entry := t[i];
      GroupedStep(t[..i], entry);
      assert t[..i + 1] == t[..i] + [entry];
      if entry.day !in groups {
        groups := groups[entry.day := []];
      }
      groups := groups[entry.day := groups[entry.day] + [entry]];
    }
    assert t[..|t|] == t;
  }

  /** A group holds exactly the entries of its day, in timetable order. */
  lemma {:induction false} EntriesOnExact(t: Timetable, day: string)
    ensures forall e :: e in EntriesOn(t, day) <==> e in t && e.day == day
    ensures IsSubsequence(EntriesOn(t, day), t)
  {
    if t != [] {
      var p, e := t[..|t| - 1], t[|t| - 1];
      EntriesOnExact(p, day);
      assert t == p + [e];
      var r := EntriesOn(p, day);
      if e.day == day {
        assert (r + [e])[..|r|] == r;
      } else if r != [] && r[|r| - 1] == e {
        assert false;
      } else {
        assert EntriesOn(t, day) == r;
        assert r != [] ==> IsSubsequence(r, t) == IsSubsequence(r, p);
      }
    }
  }

  /** Every entry sits in the group of its own day and in no other group. */
  lemma EntryInOneGroup(t: Timetable, i: nat)
    requires i < |t|
    ensures t[i].day in Grouped(t) && t[i] in Grouped(t)[t[i].day]
    ensures forall d :: d in Grouped(t) && t[i] in Grouped(t)[d] ==> d == t[i].day
  {
    assert DaysOf(t)[i] == t[i].day;
    EntriesOnExact(t, t[i].day);
    forall d | d in Grouped(t) && t[i] in Grouped(t)[d] ensures d == t[i].day {
      EntriesOnExact(t, d);
    }
  }

  /** A group is as large as the number of entries on its day. */
  lemma {:induction false} EntriesOnCount(t: Timetable, day: string)
    ensures |EntriesOn(t, day)| == Tally.Occurrences(DaysOf(t), day)
  {
    if t != [] {
      var p := t[..|t| - 1];
      EntriesOnCount(p, day);
      assert DaysOf(t)[..|t| - 1] == DaysOf(p);
    }
  }

  function GroupSizes(keys: seq<string>, groups: map<string, Timetable>): nat
  {
    if keys == [] then 0
    else (if keys[0] in groups then |groups[keys[0]]| else 0) + GroupSizes(keys[1..], groups)
  }

  lemma {:induction false} GroupSizesAreOccurrences(keys: seq<string>, t: Timetable)
    requires forall k :: k in keys ==> k in DaysOf(t)
    ensures GroupSizes(keys, Grouped(t)) == Tally.SumOccurrences(keys, DaysOf(t))
  {
    if keys != [] {
      EntriesOnCount(t, keys[0]);
      GroupSizesAreOccurrences(keys[1..], t);
    }
  }

  /** The groups, taken in key order, hold the whole timetable. */
  lemma GroupsPartitionTimetable(t: Timetable)
    ensures GroupSizes(Tally.FirstOccurrences(DaysOf(t)), Grouped(t)) == |t|
  {
    GroupSizesAreOccurrences(Tally.FirstOccurrences(DaysOf(t)), t);
    Tally.TallySum(DaysOf(t));
  }

  /** `dayOrder.indexOf(day)`: the day's position in the week, or -1. */
  function DayIndex(day: string): (i: int)
    ensures -1 <= i < |Days|
    ensures i >= 0 ==> Days[i] == day
    ensures i == -1 <==> day !in Days
  {
    match Generator.IndexOf(Days, day)
    case Some(k) => k
    case None => -1
  }

  lemma DayIndexOfDay(k: nat)
    requires k < |Days|
    ensures DayIndex(Days[k]) == k
  {
    DaysAndSlotsDistinct();
    Generator.IndexOfDistinct(Days, k);
  }

  /** The keys that are not days of the week, in their original order. */
  function UnknownDays(keys: seq<string>): seq<string>
  {
    if keys == [] then []
    else
      var k := keys[|keys| - 1];
      UnknownDays(keys[..|keys| - 1]) + (if k !in Days then [k] else [])
  }

  /** The days among the first `n` of the week that occur as keys, in week order. */
  function KnownDays(keys: seq<string>, n: nat): seq<string>
    requires n <= |Days|
  {
    if n == 0 then []
    else KnownDays(keys, n - 1) + (if Days[n - 1] in keys then [Days[n - 1]] else [])
  }

  /** `sortedDays`: the comparator `indexOf(a) - indexOf(b)` puts keys that are not days of
      the week (index -1) first, in their original order as a stable sort leaves them, and
      then the days that occur, Monday to Saturday. */
  function SortedDays(keys: seq<string>): seq<string>
  {
    UnknownDays(keys) + KnownDays(keys, |Days|)
  }

  lemma {:induction false} UnknownDaysShape(keys: seq<string>)
    ensures forall k :: k in UnknownDays(keys) <==> k in keys && k !in Days
    ensures IsSubsequence(UnknownDays(keys), keys)
    ensures NoDuplicates(keys) ==> NoDuplicates(UnknownDays(keys))
  {
    if keys != [] {
      var p, k := keys[..|keys| - 1], keys[|keys| - 1];
      UnknownDaysShape(p);
      assert keys == p + [k];
      var r := UnknownDays(p);
      if k !in Days {
        assert (r + [k])[..|r|] == r;
        if NoDuplicates(keys) {
          assert k !in p;
        }
      } else if r != [] && r[|r| - 1] == k {
        assert false;
      } else {
        assert UnknownDays(keys) == r;
        assert r != [] ==> IsSubsequence(r, keys) == IsSubsequence(r, p);
      }
    }
  }

  lemma {:induction false} KnownDaysShape(keys: seq<string>, n: nat)
    requires n <= |Days|
    ensures forall k :: k in KnownDays(keys, n) <==> k in keys && k in Days[..n]
    ensures forall i :: 0 <= i < |KnownDays(keys, n)| ==> 0 <= DayIndex(KnownDays(keys, n)[i]) < n
    ensures forall i, j :: 0 <= i < j < |KnownDays(keys, n)| ==>
              DayIndex(KnownDays(keys, n)[i]) < DayIndex(KnownDays(keys, n)[j])
  {
    if n > 0 {
      KnownDaysShape(keys, n - 1);
      DayIndexOfDay(n - 1);
      assert Days[..n] == Days[..n - 1] + [Days[n - 1]];
      var r, w := KnownDays(keys, n - 1), KnownDays(keys, n);
      if Days[n - 1] in keys {
        assert w == r + [Days[n - 1]];
        forall i | 0 <= i < |r| ensures w[i] == r[i] && DayIndex(w[i]) < n - 1 {
        }
      } else {
        assert w == r;
      }
    }
  }

  /** The headings list every day that occurs once, ordered by position in the week. */
  lemma SortedDaysOrdered(keys: seq<string>)
    requires NoDuplicates(keys)
    ensures forall k :: k in SortedDays(keys) <==> k in keys
    ensures NoDuplicates(SortedDays(keys))
    ensures forall i, j :: 0 <= i < j < |SortedDays(keys)| ==>
              DayIndex(SortedDays(keys)[i]) <= DayIndex(SortedDays(keys)[j])
    ensures IsSubsequence(UnknownDays(keys), keys)
  {
    UnknownDaysShape(keys);
    KnownDaysShape(keys, |Days|);
    assert Days[..|Days|] == Days;
    var u, w := UnknownDays(keys), KnownDays(keys, |Days|);
    forall i | 0 <= i < |u| ensures DayIndex(u[i]) == -1 {
      assert u[i] in u;
    }
    JoinOrdered(u, w);
  }

  /** The day headings of the dashboard itself: the keys of `timetableByDay`, in the order
      the reduce first met them, sorted by position in the week. Every day of an entry heads
      exactly one section, no other heading appears, and the headings run Monday to Saturday,
      any name that is not a day first. */
  lemma DashboardHeadings(t: Timetable)
    ensures var headings := SortedDays(Tally.FirstOccurrences(DaysOf(t)));
            && (forall d :: d in headings <==> d in Grouped(t))
            && NoDuplicates(headings)
            && forall i, j :: 0 <= i < j < |headings| ==> DayIndex(headings[i]) <= DayIndex(headings[j])
  {
    var keys := Tally.FirstOccurrences(DaysOf(t));
    SortedDaysOrdered(keys);
    forall d ensures d in Grouped(t) <==> d in keys {
      if d in keys {
        var i :| 0 <= i < |t| && DaysOf(t)[i] == d;
        EntryInOneGroup(t, i);
      }
    }
  }

  /** Keys off the week, distinct, followed by week days in strictly increasing order, make
      a duplicate-free sequence ordered by day index. */
  lemma JoinOrdered(u: seq<string>, w: seq<string>)
    requires NoDuplicates(u)
    requires forall i :: 0 <= i < |u| ==> DayIndex(u[i]) == -1
    requires forall i :: 0 <= i < |w| ==> 0 <= DayIndex(w[i])
    requires forall i, j :: 0 <= i < j < |w| ==> DayIndex(w[i]) < DayIndex(w[j])
    ensures NoDuplicates(u + w)
    ensures forall i, j :: 0 <= i < j < |u + w| ==> DayIndex((u + w)[i]) <= DayIndex((u + w)[j])
  {
    var s := u + w;
    forall i, j | 0 <= i < j < |s| ensures s[i] != s[j] && DayIndex(s[i]) <= DayIndex(s[j]) {
      if j < |u| {
        assert s[i] == u[i] && s[j] == u[j];
      } else if i >= |u| {
        assert s[i] == w[i - |u|] && s[j] == w[j - |u|];
      } else {
        assert s[i] == u[i] && s[j] == w[j - |u|];
      }
    }
  }

  /** The message a faculty member sends: `Date.now()` is `now`, and the sender fields are
      absent when no user is signed in. */
  function NewMessage(user: Option<User>, text: string, now: nat): (m: Message)
    ensures m.subject == "Timetable Concern" && m.message == text && !m.read
    ensures m.from == (if user.Some? then Some(user.value.id) else None)
    ensures m.id == "msg-" + Decimal(now) && m.timestamp == now
  {
    Message("msg-" + Decimal(now),
            if user.Some? then Some(user.value.id) else None,
            if user.Some? then Some(user.value.name) else None,
            "Timetable Concern", text, now, false)
  }

  /** `handleSendMessage`: a blank message is refused and storage is left alone; otherwise
      the new message is appended to the stored list. */
  function HandleSendMessage(storage: Storage, user: Option<User>, text: string, now: nat)
    : (r: (bool, Storage))
    ensures r.0 <==> Trim(text) != []
    ensures !r.0 ==> r.1 == storage
    ensures r.0 ==> r.1 == storage.(messageSystem := Some(MessageSystem(Some(
                      StoredMessages(storage.messageSystem) + [NewMessage(user, text, now)]))))
  {
    if Trim(text) == [] then (false, storage)
    else
      var messages := StoredMessages(storage.messageSystem);
      (true, storage.(messageSystem := Some(MessageSystem(Some(messages + [NewMessage(user, text, now)])))))
  }

  /** A message is refused exactly when it is empty or all white space, and a sent one
      leaves every earlier message where it was. */
  lemma SendMessageEffect(storage: Storage, user: Option<User>, text: string, now: nat)
    ensures HandleSendMessage(storage, user, text, now).0 <==> !IsBlank(text)
    ensures var after := StoredMessages(HandleSendMessage(storage, user, text, now).1.messageSystem);
            var before := StoredMessages(storage.messageSystem);
            && |after| == |before| + (if IsBlank(text) then 0 else 1)
            && after[..|before|] == before
            && (!IsBlank(text) ==> after[|before|] == NewMessage(user, text, now))
  {
    TrimEmptyIffBlank(text);
    var before := StoredMessages(storage.messageSystem);
    assert (before + [NewMessage(user, text, now)])[..|before|] == before;
  }
}
