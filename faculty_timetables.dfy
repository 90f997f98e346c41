/** The admin timetable page: choosing a faculty member, searching the directory, editing one
    class in the schedule and regenerating a schedule. Each handler is a function from the
    page state (and `localStorage`) to the next. */
module FacultyTimetables {
  import opened Basics
  import opened Types
  import opened Catalog
  import opened Generator

  /** The edit dialog's working copy: the entry's fields plus the (day, time) it started from. */
  datatype EditingEntry = EditingEntry(day: string, timeSlot: string, subject: string, room: string,
                                       classLabel: string, originalDay: string, originalTimeSlot: string)

  datatype PageState = PageState(allFaculty: seq<User>, selected: Option<User>, timetable: Timetable,
                                 facultyTimetables: Timetables, editing: Option<EditingEntry>)

  /** `handleEditEntry`: open the dialog on a copy of the entry. */
  function HandleEditEntry(entry: ScheduleEntry): (e: EditingEntry)
    ensures e.originalDay == entry.day && e.originalTimeSlot == entry.timeSlot
    ensures Edited(e) == entry
  {
    EditingEntry(entry.day, entry.timeSlot, entry.subject, entry.room, entry.classLabel,
                 entry.day, entry.timeSlot)
  }

  /** The entry the dialog writes back: its five edited fields. */
  function Edited(e: EditingEntry): ScheduleEntry
  {
    ScheduleEntry(e.day, e.timeSlot, e.subject, e.room, e.classLabel)
  }

  predicate Matches(entry: ScheduleEntry, e: EditingEntry)
  {
    entry.day == e.originalDay && entry.timeSlot == e.originalTimeSlot
  }

  /** The `timetable.map` of `handleUpdateEntry`. */
  function UpdateTimetable(timetable: Timetable, e: EditingEntry): (updated: Timetable)
    ensures |updated| == |timetable|
    ensures forall i :: 0 <= i < |timetable| && !Matches(timetable[i], e) ==> updated[i] == timetable[i]
    ensures forall i :: 0 <= i < |timetable| && Matches(timetable[i], e) ==> updated[i] == Edited(e)
  {
    seq(|timetable|, i requires 0 <= i < |timetable| =>
      if Matches(timetable[i], e) then Edited(e) else timetable[i])
  }

  /** An edit keeps the slots distinct when the new (day, time) is the original one or is free. */
  lemma UpdateKeepsSlotsDistinct(timetable: Timetable, e: EditingEntry)
    requires DistinctSlots(timetable)
    requires (e.day, e.timeSlot) == (e.originalDay, e.originalTimeSlot)
             || forall i :: 0 <= i < |timetable| ==> SlotOf(timetable[i]) != (e.day, e.timeSlot)
    ensures DistinctSlots(UpdateTimetable(timetable, e))
  {
  }

  /** Nothing checks that the new (day, time) is free: moving Monday's first class onto
      Tuesday's first slot leaves two classes in that slot. */
  lemma EditCanCollide(a: ScheduleEntry, b: ScheduleEntry)
    requires a.day == "Monday" && b.day == "Tuesday" && a.timeSlot == b.timeSlot
    ensures DistinctSlots([a, b])
    ensures var e := HandleEditEntry(a).(day := "Tuesday");
            !DistinctSlots(UpdateTimetable([a, b], e))
  {
    var e := HandleEditEntry(a).(day := "Tuesday");
    var u := UpdateTimetable([a, b], e);
    assert Matches(a, e) && !Matches(b, e);
    assert SlotOf(u[0]) == SlotOf(u[1]);
  }

  /** Saving the dialog without changing anything leaves a timetable with distinct slots as
      it was. */
  lemma UnchangedEditIsIdentity(timetable: Timetable, k: nat)
    requires DistinctSlots(timetable) && k < |timetable|
    ensures UpdateTimetable(timetable, HandleEditEntry(timetable[k])) == timetable
  {
    var e := HandleEditEntry(timetable[k]);
    var u := UpdateTimetable(timetable, e);
    assert forall i :: 0 <= i < |timetable| ==> u[i] == timetable[i];
  }

  /** `handleUpdateEntry`: without an open dialog or a selected faculty member nothing
      happens; otherwise the selected member's timetable is replaced by the edited one, in
      the page and in storage, and the dialog closes. */
  function HandleUpdateEntry(st: PageState, storage: Storage): (r: (PageState, Storage))
    ensures st.editing.None? || st.selected.None? ==> r == (st, storage)
    ensures st.editing.Some? && st.selected.Some? ==>
              var id := st.selected.value.id;
              var updated := UpdateTimetable(st.timetable, st.editing.value);
              && r.0.timetable == updated && r.0.editing.None?
              && r.0.facultyTimetables.Keys == st.facultyTimetables.Keys + {id}
              && r.0.facultyTimetables[id] == updated
              && (forall other :: other in st.facultyTimetables && other != id ==>
                    r.0.facultyTimetables[other] == st.facultyTimetables[other])
              && r.0.allFaculty == st.allFaculty && r.0.selected == st.selected
              && r.1 == storage.(facultyTimetables := Some(r.0.facultyTimetables))
  {
    match (st.editing, st.selected)
    case (Some(e), Some(f)) =>
      var updated := UpdateTimetable(st.timetable, e);
      var tts := st.facultyTimetables[f.id := updated];
      (st.(timetable := updated, facultyTimetables := tts, editing := None),
       storage.(facultyTimetables := Some(tts)))
    case _ => (st, storage)
  }

  /** `handleRegenerateTimetable`: nothing happens with no selection; otherwise a fresh
      schedule for the selected member replaces theirs, in the page and in storage. */
  method HandleRegenerateTimetable(st: PageState, storage: Storage, draws: seq<EntryDraws>)
    returns (st': PageState, storage': Storage)
    requires ValidScheduleDraws(draws)
    ensures st.selected.None? ==> st' == st && storage' == storage
    ensures st.selected.Some? ==>
              var id := st.selected.value.id;
              && GeneratedSchedule(st'.timetable, st.selected.value.department, draws)
              && st'.facultyTimetables == st.facultyTimetables[id := st'.timetable]
              && st'.allFaculty == st.allFaculty && st'.selected == st.selected
              && st'.editing == st.editing
              && storage' == storage.(facultyTimetables := Some(st'.facultyTimetables))
  {
    if st.selected.None? {
      return st, storage;
    }
    var f := st.selected.value;
    var newTimetable := RegenerateFacultyTimetable(f, draws);
    var updatedTimetables := st.facultyTimetables[f.id := newTimetable];
    st' := st.(timetable := newTimetable, facultyTimetables := updatedTimetables);
    storage' := storage.(facultyTimetables := Some(updatedTimetables));
  }

  /** The position of the first faculty member from `start` on with the id. */
  function FindFrom(faculty: seq<User>, id: string, start: nat): (r: Option<nat>)
    requires start <= |faculty|
    ensures r.None? ==> forall j :: start <= j < |faculty| ==> faculty[j].id != id
    ensures r.Some? ==> start <= r.value < |faculty| && faculty[r.value].id == id
                        && forall j :: start <= j < r.value ==> faculty[j].id != id
    decreases |faculty| - start
  {
    if start == |faculty| then None
    else if faculty[start].id == id then Some(start)
    else FindFrom(faculty, id, start + 1)
  }

  /** `allFaculty.find(f => f.id === id)`: the first faculty member with the id. */
  function FindById(faculty: seq<User>, id: string): (r: Option<User>)
    ensures r.None? <==> id !in IdsOf(faculty)
    ensures r.Some? ==> exists i :: 0 <= i < |faculty| && faculty[i] == r.value && r.value.id == id
                                      && forall j :: 0 <= j < i ==> faculty[j].id != id
  {
    match FindFrom(faculty, id, 0)
    case Some(i) =>
      assert IdsOf(faculty)[i] == id;
      Some(faculty[i])
    case None =>
      assert forall j :: 0 <= j < |faculty| ==> IdsOf(faculty)[j] != id;
      None
  }

  /** `handleFacultySelect`: select the first member with the id and show the timetable
      stored for it, or an empty one. */
  function HandleFacultySelect(st: PageState, facultyId: string): (st': PageState)
    ensures st'.selected == FindById(st.allFaculty, facultyId)
    ensures st'.selected.Some? && facultyId in st.facultyTimetables ==>
              st'.timetable == st.facultyTimetables[facultyId]
    ensures st'.selected.None? || facultyId !in st.facultyTimetables ==> st'.timetable == []
    ensures st'.allFaculty == st.allFaculty && st'.facultyTimetables == st.facultyTimetables
  {
    var faculty := FindById(st.allFaculty, facultyId);
    st.(selected := faculty,
        timetable := if faculty.Some? then TimetableOf(st.facultyTimetables, faculty.value.id) else [])
  }

  /** The search predicate: the query, lower-cased, occurs in the lower-cased name,
      department or specialization. */
  predicate MatchesQuery(f: User, query: string)
  {
    var q := ToLower(query);
    Includes(ToLower(f.name), q) || Includes(ToLower(f.department), q)
    || Includes(ToLower(f.specialization), q)
  }

  /** `filteredFaculty`. */
  function FilteredFaculty(all: seq<User>, query: string): seq<User>
  {
    if all == [] then []
    else
      var f := all[|all| - 1];
      FilteredFaculty(all[..|all| - 1], query) + (if MatchesQuery(f, query) then [f] else [])
  }

  /** The filter keeps exactly the matching faculty. */
  lemma {:induction false} FilterKeepsMatches(all: seq<User>, query: string)
    ensures forall f :: f in FilteredFaculty(all, query) <==> f in all && MatchesQuery(f, query)
  {
    if all != [] {
      var p, f := all[..|all| - 1], all[|all| - 1];
      FilterKeepsMatches(p, query);
      assert all == p + [f];
    }
  }

  /** The filter keeps the faculty in their original order. */
  lemma {:induction false} FilterKeepsOrder(all: seq<User>, query: string)
    ensures IsSubsequence(FilteredFaculty(all, query), all)
  {
    if all != [] {
      var p, f := all[..|all| - 1], all[|all| - 1];
      FilterKeepsOrder(p, query);
      FilterKeepsMatches(p, query);
      var r := FilteredFaculty(p, query);
      if MatchesQuery(f, query) {
        assert (r + [f])[..|r|] == r;
      } else if r != [] && r[|r| - 1] == f {
        assert false;
      } else {
        assert FilteredFaculty(all, query) == r;
        assert r != [] ==> IsSubsequence(r, all) == IsSubsequence(r, p);
      }
    }
  }

  /** The filter keeps every copy of a matching member and none of the others: each member
      occurs in the list as often as in `all` when it matches, and not at all otherwise. */
  lemma {:induction false} FilterKeepsCopies(all: seq<User>, query: string)
    ensures forall f :: multiset(FilteredFaculty(all, query))[f]
                        == if MatchesQuery(f, query) then multiset(all)[f] else 0
  {
    if all != [] {
      var p, g := all[..|all| - 1], all[|all| - 1];
      FilterKeepsCopies(p, query);
      assert all == p + [g];
    }
  }

  /** An empty search box lists everyone. */
  lemma {:induction false} EmptyQueryKeepsAll(all: seq<User>)
    ensures FilteredFaculty(all, "") == all
  {
    if all != [] {
      EmptyQueryKeepsAll(all[..|all| - 1]);
      IncludesEmpty(ToLower(all[|all| - 1].name));
    }
  }

  /** The subject table hard-coded in the edit dialog. */
  const DialogSubjects: seq<(string, seq<string>)> := [
    ("Computer Science", [
      "Data Structures and Algorithms",
      "Operating Systems",
      "Computer Networks",
      "Database Management Systems",
      "Object-Oriented Programming",
      "Machine Learning / AI",
      "Web Technologies",
      "Software Engineering",
      "Compiler Design"
    ]),
    ("Electrical Engineering", [
      "Electrical Circuits",
      "Control Systems",
      "Power Systems",
      "Electrical Machines",
      "Analog & Digital Electronics",
      "Power Electronics",
      "Signals and Systems",
      "Microprocessors and Microcontrollers"
    ]),
    ("Electronics", [
      "Analog & Digital Communication",
      "Signal Processing",
      "VLSI Design",
      "Embedded Systems",
      "Electromagnetic Theory",
      "Antennas and Wave Propagation",
      "Microcontrollers",
      "Network Theory"
    ]),
    ("Civil Engineering", [
      "Structural Analysis",
      "Construction Materials",
      "Concrete Technology",
      "Geotechnical Engineering",
      "Surveying",
      "Transportation Engineering",
      "Hydraulics & Water Resources",
      "Environmental Engineering"
    ]),
    ("Mechanical Engineering", [
      "Thermodynamics",
      "Fluid Mechanics",
      "Strength of Materials",
      "Theory of Machines",
      "Manufacturing Processes",
      "Heat Transfer",
      "Machine Design",
      "Dynamics of Machinery"
    ]),
    ("Information Technology", [
      "Computer Programming",
      "Data Mining",
      "Cloud Computing",
      "Cyber Security",
      "Natural Language Processing",
      "Deep Learning",
      "Big Data Analytics",
      "Blockchain Technology"
    ])
  ]

  /** `getSubjectOptions`: the dialog table's list for the selected member's department, and
      none with no selection or an unknown department. */
  function SubjectOptions(selected: Option<User>): (options: seq<string>)
    ensures selected.None? ==> options == []
    ensures selected.Some? && selected.value.department !in DepartmentNames(DialogSubjects) ==> options == []
    ensures selected.Some? && selected.value.department in DepartmentNames(DialogSubjects) ==>
              exists i :: 0 <= i < |DialogSubjects| && DialogSubjects[i] == (selected.value.department, options)
  {
    if selected.None? then []
    else match Lookup(DialogSubjects, selected.value.department)
      case Some(subjects) => subjects
      case None => []
  }

  /** The dialog's table is the generator's, department by department and in the same order. */
  lemma DialogTableIsCatalog()
    ensures DialogSubjects == SubjectTable
  {
  }

  /** For a department outside the table the dialog offers no subjects, while the generator
      falls back to the Computer Science list. */
  lemma NoFallbackInDialog(f: User)
    requires f.department !in DepartmentNames(SubjectTable)
    ensures SubjectOptions(Some(f)) == []
    ensures SubjectsForDepartment(f.department) == SubjectTable[0].1 != []
  {
    DialogTableIsCatalog();
    SubjectsFallback(f.department);
    CatalogShape();
  }

  const DayOptions: seq<string> := ["Monday", "Tuesday", "Wednesday", "Thursday", "Friday", "Saturday"]

  const TimeSlotOptions: seq<string> := [
    "9:00 AM - 10:00 AM",
    "10:00 AM - 11:00 AM",
    "11:00 AM - 12:00 PM",
    "12:00 PM - 1:00 PM",
    "2:00 PM - 3:00 PM",
    "3:00 PM - 4:00 PM",
    "4:00 PM - 5:00 PM"
  ]

  /** The dialog's day and time choices are the generator's days and time slots. */
  lemma OptionsAreCatalog()
    ensures DayOptions == Days && TimeSlotOptions == TimeSlots
  {
  }
}
