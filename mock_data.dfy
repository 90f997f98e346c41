/** The seed data: six faculty members, their initial timetables and the initial inbox. */
module MockData {
  import opened Basics
  import opened Types
  import opened Catalog
  import opened Generator

  const MockFaculty: seq<User> := [
    User("faculty-1", "Dr. John Smith", "john.smith@university.edu", Faculty,
         "Computer Science", "Artificial Intelligence"),
    User("faculty-2", "Dr. Emily Johnson", "emily.johnson@university.edu", Faculty,
         "Electrical Engineering", "Power Systems"),
    User("faculty-3", "Dr. Michael Chen", "michael.chen@university.edu", Faculty,
         "Electronics", "VLSI Design"),
    User("faculty-4", "Dr. Sarah Williams", "sarah.williams@university.edu", Faculty,
         "Civil Engineering", "Structural Engineering"),
    User("faculty-5", "Dr. James Wilson", "james.wilson@university.edu", Faculty,
         "Mechanical Engineering", "Thermodynamics"),
    User("faculty-6", "Dr. Lisa Kumar", "lisa.kumar@university.edu", Faculty,
         "Information Technology", "Cybersecurity")
  ]

  /** Six faculty with distinct ids `faculty-1`..`faculty-6`, all of role faculty, one per
      catalog department and in the catalog's department order. */
  lemma MockFacultyShape()
    ensures |MockFaculty| == 6
    ensures IdsOf(MockFaculty) == ["faculty-1", "faculty-2", "faculty-3", "faculty-4", "faculty-5", "faculty-6"]
    ensures NoDuplicates(IdsOf(MockFaculty))
    ensures forall i :: 0 <= i < |MockFaculty| ==> MockFaculty[i].role == Faculty
    ensures DepartmentsOf(MockFaculty) == DepartmentNames(SubjectTable)
  {
  }

  /** The first `n` faculty each hold a schedule generated for their department from their draws. */
  ghost predicate SeededUpTo(timetables: Timetables, faculty: seq<User>, draws: seq<seq<EntryDraws>>, n: nat)
    requires n <= |faculty| == |draws| && forall i :: 0 <= i < |draws| ==> ValidScheduleDraws(draws[i])
  {
    forall k :: 0 <= k < n ==>
      faculty[k].id in timetables
      && GeneratedSchedule(timetables[faculty[k].id], faculty[k].department, draws[k])
  }

  lemma SeededStep(timetables: Timetables, faculty: seq<User>, draws: seq<seq<EntryDraws>>, n: nat, schedule: Timetable)
    requires n < |faculty| == |draws| && forall i :: 0 <= i < |draws| ==> ValidScheduleDraws(draws[i])
    requires SeededUpTo(timetables, faculty, draws, n)
    requires forall k :: 0 <= k < n ==> faculty[k].id != faculty[n].id
    requires GeneratedSchedule(schedule, faculty[n].department, draws[n])
    ensures SeededUpTo(timetables[faculty[n].id := schedule], faculty, draws, n + 1)
  {
  }

  /** The `forEach` of `initializeMockTimetables`: each faculty's id gets a generated schedule. */
  method GenerateForEach(faculty: seq<User>, draws: seq<seq<EntryDraws>>) returns (timetables: Timetables)
    requires NoDuplicates(IdsOf(faculty))
    requires |draws| == |faculty| && forall i :: 0 <= i < |draws| ==> ValidScheduleDraws(draws[i])
    ensures forall id :: id in timetables <==> id in IdsOf(faculty)
    ensures SeededUpTo(timetables, faculty, draws, |faculty|)
  {
    timetables := map[];
    ghost var ids := IdsOf(faculty);
    for i := 0 to |faculty|
      invariant forall id :: id in timetables <==> id in ids[..i]
      invariant SeededUpTo(timetables, faculty, draws, i)
    {
      assert forall k :: 0 <= k < i ==> faculty[k].id != faculty[i].id by {
        assert forall k :: 0 <= k < i ==> ids[k] != ids[i];
      }
      var schedule := GenerateFacultySchedule(faculty[i], draws[i]);
      SeededStep(timetables, faculty, draws, i, schedule);
      timetables := timetables[faculty[i].id := schedule];
      assert ids[..i+1] == ids[..i] + [faculty[i].id];
    }
    assert ids[..|faculty|] == ids;
  }

  /** The seeded timetables: exactly the mock faculty ids, each holding a schedule generated
      for its department from that faculty member's draws. */
  ghost predicate MockSeeded(timetables: Timetables, draws: seq<seq<EntryDraws>>)
  {
    && |draws| == |MockFaculty|
    && (forall i :: 0 <= i < |draws| ==> ValidScheduleDraws(draws[i]))
    && (forall id :: id in timetables <==> id in IdsOf(MockFaculty))
    && SeededUpTo(timetables, MockFaculty, draws, |MockFaculty|)
  }

  /** `initializeMockTimetables`: one generated schedule per mock faculty id. */
  method InitializeMockTimetables(draws: seq<seq<EntryDraws>>) returns (timetables: Timetables)
    requires |draws| == |MockFaculty| && forall i :: 0 <= i < |draws| ==> ValidScheduleDraws(draws[i])
    ensures MockSeeded(timetables, draws)
  {
    MockFacultyShape();
    timetables := GenerateForEach(MockFaculty, draws);
  }

  function TotalEntries(timetables: Timetables, ids: seq<string>): nat
  {
    if ids == [] then 0 else |TimetableOf(timetables, ids[0])| + TotalEntries(timetables, ids[1..])
  }

  /** The seeded timetables hold 54 entries: nine for each of the six mock faculty. */
  lemma {:induction false} SeedHoldsFiftyFour(timetables: Timetables, draws: seq<seq<EntryDraws>>)
    requires MockSeeded(timetables, draws)
    ensures TotalEntries(timetables, IdsOf(MockFaculty)) == 54
  {
    var ids := IdsOf(MockFaculty);
    forall i | 0 <= i < 6 ensures |TimetableOf(timetables, ids[i])| == 9 {
      assert ids[i] == MockFaculty[i].id;
    }
    assert TotalEntries(timetables, ids[6..]) == 0;
    assert ids[5..][1..] == ids[6..] && TotalEntries(timetables, ids[5..]) == 9;
    assert ids[4..][1..] == ids[5..] && TotalEntries(timetables, ids[4..]) == 18;
    assert ids[3..][1..] == ids[4..] && TotalEntries(timetables, ids[3..]) == 27;
    assert ids[2..][1..] == ids[3..] && TotalEntries(timetables, ids[2..]) == 36;
    assert ids[1..][1..] == ids[2..] && TotalEntries(timetables, ids[1..]) == 45;
    assert ids[0..] == ids;
  }

  const FirstSeedMessage: Message :=
    Message("msg-1", Some("faculty-2"), Some("Dr. Emily Johnson"), "Schedule Conflict on Thursday",
            "I have a research meeting during my Thursday 2:00 PM class. Can we reschedule?",
            0, false)

  const SecondSeedMessage: Message :=
    Message("msg-2", Some("faculty-4"), Some("Dr. Sarah Williams"), "Request for Lab Session",
            "I need a lab for my Surveying class on Mondays. Is there availability?",
            0, true)

  /** `initializeMessageSystem`; `now` stands for `Date.now()`, and the two messages are one
      day and about two days old. */
  function InitializeMessageSystem(now: int): MessageSystem
  {
    MessageSystem(Some([FirstSeedMessage.(timestamp := now - 86400000),
                        SecondSeedMessage.(timestamp := now - 186400000)]))
  }

  /** The seed inbox holds two messages; `msg-1` alone is unread and it is the more recent. */
  lemma SeedInboxShape(now: int)
    ensures var ms := StoredMessages(Some(InitializeMessageSystem(now)));
            && |ms| == 2 && ms[0].id == "msg-1" && ms[1].id == "msg-2"
            && !ms[0].read && ms[1].read
            && ms[0].timestamp > ms[1].timestamp
  {
  }
}
