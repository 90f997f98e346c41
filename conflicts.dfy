/** The conflict detector: one pass over every stored schedule, reporting each sighting of a
    (day, time slot, room) key that an earlier sighting already claimed. */
module Conflicts {
  import opened Basics
  import opened Types
  import Tally

  /** A value of the stored timetable object: an array of entries, or anything else. */
  datatype StoredSchedule = Entries(entries: seq<ScheduleEntry>) | NotAnArray

  datatype Conflict = Conflict(kind: string, detail: string, facultyIds: seq<string>,
                               day: string, timeSlot: string, room: string)

  /** What `slotUsage` records for the first occupant of a key. */
  datatype Occupant = Occupant(facultyId: string, subject: string)

  /** One entry as the detector meets it, with the faculty id whose schedule holds it. */
  type Sighting = (string, ScheduleEntry)

  /** `${entry.day}-${entry.timeSlot}-${entry.room}`. */
  function SlotKey(e: ScheduleEntry): string
  {
    e.day + "-" + e.timeSlot + "-" + e.room
  }

  function Detail(e: ScheduleEntry): string
  {
    "Room " + e.room + " double-booked on " + e.day + " at " + e.timeSlot
  }

  /** The conflict reported when `facultyId`'s entry `e` meets a key first taken by `firstId`. */
  function RoomConflict(facultyId: string, firstId: string, e: ScheduleEntry): Conflict
  {
    Conflict("room", Detail(e), [facultyId, firstId], e.day, e.timeSlot, e.room)
  }

  function Tagged(facultyId: string, es: seq<ScheduleEntry>): (s: seq<Sighting>)
    ensures |s| == |es| && forall k :: 0 <= k < |es| ==> s[k] == (facultyId, es[k])
  {
    seq(|es|, k requires 0 <= k < |es| => (facultyId, es[k]))
  }

  /** Every entry of every array-valued schedule, in iteration order; other values are skipped. */
  function Sightings(all: seq<(string, StoredSchedule)>): seq<Sighting>
  {
    if all == [] then []
    else
      var last := all[|all| - 1];
      Sightings(all[..|all| - 1]) + (if last.1.Entries? then Tagged(last.0, last.1.entries) else [])
  }

  function KeysOf(s: seq<Sighting>): (keys: seq<string>)
    ensures |keys| == |s| && forall k :: 0 <= k < |s| ==> keys[k] == SlotKey(s[k].1)
  {
    seq(|s|, k requires 0 <= k < |s| => SlotKey(s[k].1))
  }

  /** `slotUsage` after the given sightings: each key keeps its first occupant. */
  function Usage(s: seq<Sighting>): map<string, Occupant>
  {
    if s == [] then map[]
    else
      var u := Usage(s[..|s| - 1]);
      var x := s[|s| - 1];
      if SlotKey(x.1) in u then u else u[SlotKey(x.1) := Occupant(x.0, x.1.subject)]
  }

  /** The conflicts reported after the given sightings. */
  function Scan(s: seq<Sighting>): seq<Conflict>
  {
    if s == [] then []
    else
      var p, x := s[..|s| - 1], s[|s| - 1];
      var u := Usage(p);
      Scan(p) + (if SlotKey(x.1) in u then [RoomConflict(x.0, u[SlotKey(x.1)].facultyId, x.1)] else [])
  }

  /** The effect of one more sighting on `slotUsage` and the conflict list. */
  lemma ScanStep(seen: seq<Sighting>, x: Sighting)
    ensures var u := Usage(seen);
            && Usage(seen + [x]) == (if SlotKey(x.1) in u then u else u[SlotKey(x.1) := Occupant(x.0, x.1.subject)])
            && Scan(seen + [x]) == Scan(seen) + (if SlotKey(x.1) in u then [RoomConflict(x.0, u[SlotKey(x.1)].facultyId, x.1)] else [])
  {
    assert (seen + [x])[..|seen|] == seen;
  }

  lemma SightingsStep(all: seq<(string, StoredSchedule)>, i: nat)
    requires i < |all|
    ensures Sightings(all[..i + 1])
            == Sightings(all[..i]) + (if all[i].1.Entries? then Tagged(all[i].0, all[i].1.entries) else [])
  {
    assert all[..i + 1][..i] == all[..i];
  }

  lemma TaggedSnoc(before: seq<Sighting>, facultyId: string, es: seq<ScheduleEntry>, j: nat)
    requires j < |es|
    ensures before + Tagged(facultyId, es[..j + 1]) == before + Tagged(facultyId, es[..j]) + [(facultyId, es[j])]
  {
    assert Tagged(facultyId, es[..j + 1]) == Tagged(facultyId, es[..j]) + [(facultyId, es[j])];
  }

  /** `checkScheduleConflicts`, over the stored object's entries in iteration order. */
  method CheckScheduleConflicts(all: seq<(string, StoredSchedule)>) returns (conflicts: seq<Conflict>)
    ensures conflicts == Scan(Sightings(all))
  {
    conflicts := [];
    var slotUsage: map<string, Occupant> := map[];
    for i := 0 to |all|
      invariant conflicts == Scan(Sightings(all[..i]))
      invariant slotUsage == Usage(Sightings(all[..i]))
    {
      var facultyId := all[i].0;
      SightingsStep(all, i);
      if all[i].1.Entries? {
        var schedule := all[i].1.entries;
        assert Sightings(all[..i]) + Tagged(facultyId, schedule[..0]) == Sightings(all[..i]);
        for j := 0 to |schedule|
          invariant conflicts == Scan(Sightings(all[..i]) + Tagged(facultyId, schedule[..j]))
          invariant slotUsage == Usage(Sightings(all[..i]) + Tagged(facultyId, schedule[..j]))
        {
          ghost var seen := Sightings(all[..i]) + Tagged(facultyId, schedule[..j]);
          TaggedSnoc(Sightings(all[..i]), facultyId, schedule, j);
          ScanStep(seen, (facultyId, schedule[j]));
          var entry := schedule[j];
          var slotKey := SlotKey(entry);
          if slotKey in slotUsage {
            conflicts := conflicts + [RoomConflict(facultyId, slotUsage[slotKey].facultyId, entry)];
          } else {
            slotUsage := slotUsage[slotKey := Occupant(facultyId, entry.subject)];
          }
        }
        assert schedule[..|schedule|] == schedule;
        assert Sightings(all[..i + 1]) == Sightings(all[..i]) + Tagged(facultyId, schedule[..|schedule|]);
      } else {
        assert Sightings(all[..i + 1]) == Sightings(all[..i]);
      }
    }
    assert all[..|all|] == all;
  }

  /** `slotUsage` holds exactly the keys seen so far, each with the first sighting of it. */
  lemma {:induction false} UsageFirst(s: seq<Sighting>)
    ensures Usage(s).Keys == set k | k in KeysOf(s)
    ensures forall key :: key in Usage(s) ==>
              exists j :: 0 <= j < |s| && SlotKey(s[j].1) == key
                          && (forall i :: 0 <= i < j ==> SlotKey(s[i].1) != key)
                          && Usage(s)[key] == Occupant(s[j].0, s[j].1.subject)
  {
    if s != [] {
      var p, x := s[..|s| - 1], s[|s| - 1];
      UsageFirst(p);
      assert KeysOf(s) == KeysOf(p) + [SlotKey(x.1)];
      forall key | key in Usage(s)
        ensures exists j :: 0 <= j < |s| && SlotKey(s[j].1) == key
                            && (forall i :: 0 <= i < j ==> SlotKey(s[i].1) != key)
                            && Usage(s)[key] == Occupant(s[j].0, s[j].1.subject)
      {
        if key in Usage(p) {
          var j :| 0 <= j < |p| && SlotKey(p[j].1) == key
                   && (forall i :: 0 <= i < j ==> SlotKey(p[i].1) != key)
                   && Usage(p)[key] == Occupant(p[j].0, p[j].1.subject);
          assert s[j] == p[j];
          assert forall i :: 0 <= i < j ==> s[i] == p[i];
        } else {
          assert key == SlotKey(x.1);
          assert key !in KeysOf(p);
          assert forall i :: 0 <= i < |p| ==> s[i] == p[i] && KeysOf(p)[i] == SlotKey(p[i].1);
        }
      }
    }
  }

  /** One conflict per sighting of an already recorded key: the number of conflicts is the
      number of entries minus the number of distinct (day, time slot, room) keys. */
  lemma {:induction false} ConflictCount(s: seq<Sighting>)
    ensures |Scan(s)| == |s| - |Tally.FirstOccurrences(KeysOf(s))|
  {
    if s != [] {
      var p, x := s[..|s| - 1], s[|s| - 1];
      ConflictCount(p);
      UsageFirst(p);
      var keys := KeysOf(s);
      assert keys == KeysOf(p) + [SlotKey(x.1)];
      assert keys[..|keys| - 1] == KeysOf(p);
    }
  }

  /** Sighting `j` is the first one with its key. */
  predicate FirstOfKey(s: seq<Sighting>, j: nat)
    requires j < |s|
  {
    forall i :: 0 <= i < j ==> SlotKey(s[i].1) != SlotKey(s[j].1)
  }

  /** Conflict `c` is the one sighting `k` causes against the first occupant `j` of its key. */
  predicate ReportedAt(s: seq<Sighting>, c: Conflict, j: nat, k: nat)
  {
    && j < k < |s| && SlotKey(s[j].1) == SlotKey(s[k].1) && FirstOfKey(s, j)
    && c == RoomConflict(s[k].0, s[j].0, s[k].1)
  }

  lemma ReportedAtExtend(p: seq<Sighting>, x: Sighting, c: Conflict, j: nat, k: nat)
    requires ReportedAt(p, c, j, k)
    ensures ReportedAt(p + [x], c, j, k)
  {
    var s := p + [x];
    assert forall i :: 0 <= i < |p| ==> s[i] == p[i];
  }

  /** Every conflict is of type "room", copies day, slot and room from a sighting `k`, and
      names that sighting's faculty together with the faculty of the FIRST sighting `j` of the
      same key (a star around the first occupant, not every pair). */
  lemma {:induction false} ConflictShape(s: seq<Sighting>, c: Conflict)
    requires c in Scan(s)
    ensures c.kind == "room"
    ensures exists j, k :: ReportedAt(s, c, j, k)
  {
    var p, x := s[..|s| - 1], s[|s| - 1];
    assert s == p + [x];
    if c in Scan(p) {
      ConflictShape(p, c);
      var j, k :| ReportedAt(p, c, j, k);
      ReportedAtExtend(p, x, c, j, k);
    } else {
      var key := SlotKey(x.1);
      UsageFirst(p);
      var j :| 0 <= j < |p| && SlotKey(p[j].1) == key
               && (forall i :: 0 <= i < j ==> SlotKey(p[i].1) != key)
               && Usage(p)[key] == Occupant(p[j].0, p[j].1.subject);
      assert forall i :: 0 <= i < |p| ==> s[i] == p[i];
      assert ReportedAt(s, c, j, |s| - 1);
    }
  }

  /** An empty timetable object yields no conflicts. */
  lemma NoTimetablesNoConflicts()
    ensures Scan(Sightings([])) == []
  {
  }

  /** A value that is not an array contributes no sightings. */
  lemma NonArraySkipped(all: seq<(string, StoredSchedule)>, facultyId: string)
    ensures Sightings(all + [(facultyId, NotAnArray)]) == Sightings(all)
  {
    assert (all + [(facultyId, NotAnArray)])[..|all|] == all;
  }

  /** Three faculty holding the same (day, slot, room) give two conflicts, both naming the first. */
  lemma ThreeOccupantsStar(a: string, b: string, c: string, e: ScheduleEntry)
    ensures Scan(Sightings([(a, Entries([e])), (b, Entries([e])), (c, Entries([e]))]))
            == [RoomConflict(b, a, e), RoomConflict(c, a, e)]
  {
    ThreeSightings(a, b, c, e);
    var s0: seq<Sighting> := [];
    var s1, s2 := s0 + [(a, e)], s0 + [(a, e)] + [(b, e)];
    ScanStep(s0, (a, e));
    ScanStep(s1, (b, e));
    ScanStep(s2, (c, e));
    assert s2 + [(c, e)] == [(a, e), (b, e), (c, e)];
  }

  lemma ThreeSightings(a: string, b: string, c: string, e: ScheduleEntry)
    ensures Sightings([(a, Entries([e])), (b, Entries([e])), (c, Entries([e]))]) == [(a, e), (b, e), (c, e)]
  {
    var all := [(a, Entries([e])), (b, Entries([e])), (c, Entries([e]))];
    SightingsStep(all, 0);
    SightingsStep(all, 1);
    SightingsStep(all, 2);
    assert all[..0] == [] && all[..3] == all;
  }

  /** A key repeated inside one faculty's own schedule is reported, with both ids equal. */
  lemma RepeatWithinOneSchedule(a: string, e: ScheduleEntry)
    ensures Scan(Sightings([(a, Entries([e, e]))])) == [RoomConflict(a, a, e)]
  {
    var all := [(a, Entries([e, e]))];
    assert all[..0] == [];
    assert Sightings(all) == [(a, e), (a, e)];
    var s, s1 := [(a, e), (a, e)], [(a, e)];
    assert s[..1] == s1 && s1[..0] == [];
    assert Usage(s1) == map[SlotKey(e) := Occupant(a, e.subject)];
    assert Scan(s1) == [];
  }
}
