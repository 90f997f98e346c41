/** The administrator's dashboard: seeding storage on first visit and the three summary
    figures (classes, faculty by department, unread messages). */
module AdminDashboard {
  import opened Basics
  import opened Types
  import opened Catalog
  import opened Generator
  import Tally
  import MockData
  import AdminMessages

  /** The first visit stores the mock timetables and the seed inbox where storage has none,
      and leaves every stored value in place. */
  method SeedStorage(storage: Storage, draws: seq<seq<EntryDraws>>, now: int) returns (seeded: Storage)
    requires |draws| == |MockData.MockFaculty|
    requires forall i :: 0 <= i < |draws| ==> ValidScheduleDraws(draws[i])
    ensures seeded.currentUser == storage.currentUser
    ensures seeded.registeredUsers == storage.registeredUsers
    ensures storage.facultyTimetables.Some? ==> seeded.facultyTimetables == storage.facultyTimetables
    ensures storage.facultyTimetables.None? ==>
              seeded.facultyTimetables.Some? && MockData.MockSeeded(seeded.facultyTimetables.value, draws)
    ensures seeded.messageSystem == if storage.messageSystem.Some? then storage.messageSystem
                                    else Some(MockData.InitializeMessageSystem(now))
  {
    var timetables := storage.facultyTimetables;
    if timetables.None? {
      var mock := MockData.InitializeMockTimetables(draws);
      timetables := Some(mock);
    }
    var messageSystem := storage.messageSystem;
    if messageSystem.None? {
      messageSystem := Some(MockData.InitializeMessageSystem(now));
    }
    seeded := Storage(storage.currentUser, storage.registeredUsers, timetables, messageSystem);
  }

  /** What the dashboard shows, read from storage after seeding. */
  datatype Summary = Summary(registered: seq<User>, messageCount: nat)

  function LoadSummary(storage: Storage): (s: Summary)
    ensures s.registered == StoredUsers(storage.registeredUsers)
    ensures s.messageCount <= |StoredMessages(storage.messageSystem)|
    ensures s.messageCount == 0 <==>
              forall i :: 0 <= i < |StoredMessages(storage.messageSystem)| ==>
                StoredMessages(storage.messageSystem)[i].read
  {
    AdminMessages.UnreadCountZero(StoredMessages(storage.messageSystem));
    Summary(StoredUsers(storage.registeredUsers),
            AdminMessages.UnreadCount(StoredMessages(storage.messageSystem)))
  }

  /** Over the seed inbox the dashboard shows one unread message, `msg-1`. */
  lemma FirstVisitShowsOneUnread(seeded: Storage, now: int)
    requires seeded.messageSystem == Some(MockData.InitializeMessageSystem(now))
    ensures LoadSummary(seeded).messageCount == 1
  {
    var ms := StoredMessages(seeded.messageSystem);
    MockData.SeedInboxShape(now);
    assert ms[..1][..0] == [] && ms[..|ms| - 1] == ms[..1];
  }

  /** The mock faculty followed by the registered users. */
  function AllFaculty(registered: seq<User>): (all: seq<User>)
    ensures |all| == |MockData.MockFaculty| + |registered|
    ensures all[..|MockData.MockFaculty|] == MockData.MockFaculty
    ensures all[|MockData.MockFaculty|..] == registered
  {
    MockData.MockFaculty + registered
  }

  /** The "Total Classes" figure: nine classes per faculty member. */
  function TotalClasses(registered: seq<User>): nat
  {
    9 * |AllFaculty(registered)|
  }

  /** The figure counts what the generator stores: when every faculty member's timetable
      holds a generated week, the stored entries number exactly the total shown. */
  lemma {:induction false} TotalClassesCountsEntries(timetables: Timetables, all: seq<User>)
    requires forall u :: u in all ==> |TimetableOf(timetables, u.id)| == ClassesPerWeek
    ensures MockData.TotalEntries(timetables, IdsOf(all)) == 9 * |all|
  {
    if all != [] {
      TotalClassesCountsEntries(timetables, all[1..]);
      assert IdsOf(all)[1..] == IdsOf(all[1..]);
      assert all[0] in all;
    }
  }

  /** Right after seeding, with no one registered, the total is the 54 seeded entries. */
  lemma SeededTotal(timetables: Timetables, draws: seq<seq<EntryDraws>>)
    requires MockData.MockSeeded(timetables, draws)
    ensures TotalClasses([]) == MockData.TotalEntries(timetables, IdsOf(MockData.MockFaculty)) == 54
  {
    MockData.MockFacultyShape();
    MockData.SeedHoldsFiftyFour(timetables, draws);
  }

  /** `deptStats`: the number of faculty members in each department. */
  method DepartmentStats(all: seq<User>) returns (stats: map<string, nat>)
    ensures stats.Keys == set u | u in all :: u.department
    ensures forall d :: d in stats ==> stats[d] >= 1 && stats[d] == Tally.Occurrences(DepartmentsOf(all), d)
  {
    stats := Tally.CountOccurrences(DepartmentsOf(all));
    forall d | d in stats ensures stats[d] >= 1 {
      Tally.TallyPositive(DepartmentsOf(all), d);
    }
    DepartmentKeys(all);
  }

  lemma DepartmentKeys(all: seq<User>)
    ensures (set k | k in DepartmentsOf(all)) == set u | u in all :: u.department
  {
    var depts := DepartmentsOf(all);
    forall k | k in depts ensures exists u :: u in all && u.department == k {
      var i :| 0 <= i < |depts| && depts[i] == k;
      assert all[i] in all;
    }
    forall u | u in all ensures u.department in depts {
      var i :| 0 <= i < |all| && all[i] == u;
      assert depts[i] == u.department;
    }
  }

  /** The department counts, taken once per department, add up to the faculty shown. */
  lemma DepartmentStatsAddUp(all: seq<User>)
    ensures Tally.SumOccurrences(Tally.FirstOccurrences(DepartmentsOf(all)), DepartmentsOf(all)) == |all|
  {
    Tally.TallySum(DepartmentsOf(all));
  }
}
