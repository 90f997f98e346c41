/** The schedule generator: rooms, class labels and a 9-class week without repeated slots. */
module Generator {
  import opened Basics
  import opened Types
  import opened Catalog

  /** The `Math.random()` draws one schedule entry makes besides its day and time slot. */
  datatype EntryDraws = EntryDraws(subject: real, building: real, floor: real, roomNumber: real,
                                   roomType: real, section: real, letter: real)

  predicate ValidDraws(d: EntryDraws)
  {
    IsUnit(d.subject) && IsUnit(d.building) && IsUnit(d.floor) && IsUnit(d.roomNumber)
    && IsUnit(d.roomType) && IsUnit(d.section) && IsUnit(d.letter)
  }

  /** The draws of one whole schedule: one set per entry. */
  predicate ValidScheduleDraws(ds: seq<EntryDraws>)
  {
    |ds| == ClassesPerWeek && forall i :: 0 <= i < |ds| ==> ValidDraws(ds[i])
  }

  // ---------------------------------------------------------------- rooms

  /** `${building}-${floor}${NN} (${roomType})` with the room number zero-padded to two digits. */
  function RoomName(building: nat, floor: nat, number: nat, roomType: nat): string
    requires building < |Buildings| && floor < |Floors| && 1 <= number <= 10 && roomType < |RoomTypes|
  {
    Buildings[building] + "-" + Decimal(Floors[floor])
      + (if number < 10 then "0" + Decimal(number) else Decimal(number))
      + " (" + RoomTypes[roomType] + ")"
  }

  /** `generateRoom`: four draws pick building, floor, number 1..10 and room type. */
  function GenerateRoom(d: EntryDraws): string
    requires ValidDraws(d)
  {
    RoomName(Pick(d.building, |Buildings|), Pick(d.floor, |Floors|),
             Pick(d.roomNumber, 10) + 1, Pick(d.roomType, |RoomTypes|))
  }

  datatype RoomParts = RoomParts(building: nat, floor: nat, number: nat, roomType: nat)

  function IndexOf(xs: seq<string>, x: string): (r: Option<nat>)
    ensures r.Some? ==> r.value < |xs| && xs[r.value] == x
    ensures r.None? ==> x !in xs
  {
    if xs == [] then None
    else if xs[0] == x then Some(0)
    else
      var r := IndexOf(xs[1..], x);
      if r.Some? then Some(r.value + 1) else None
  }

  /** Reads a room name back into the four choices that produced it. */
  function ParseRoom(r: string): (p: Option<RoomParts>)
    ensures p.Some? ==> p.value.building < |Buildings| && p.value.floor < |Floors|
                        && 1 <= p.value.number <= 10 && p.value.roomType < |RoomTypes|
  {
    if |r| < 8 || r[1] != '-' || r[5..7] != " (" || r[|r| - 1] != ')' then None
    else if !('1' <= r[2] <= '3' && '0' <= r[3] <= '9' && '0' <= r[4] <= '9') then None
    else
      var building := IndexOf(Buildings, [r[0]]);
      var roomType := IndexOf(RoomTypes, r[7..|r| - 1]);
      var number := 10 * (r[3] as int - '0' as int) + (r[4] as int - '0' as int);
      if building.None? || roomType.None? || !(1 <= number <= 10) then None
      else Some(RoomParts(building.value, r[2] as int - '1' as int, number, roomType.value))
  }

  /** The room name spelled out character by character. */
  lemma RoomNameChars(building: nat, floor: nat, number: nat, roomType: nat)
    requires building < |Buildings| && floor < |Floors| && 1 <= number <= 10 && roomType < |RoomTypes|
    ensures RoomName(building, floor, number, roomType)
            == [Buildings[building][0], '-', DigitChar(floor + 1), DigitChar(number / 10),
                DigitChar(number % 10), ' ', '('] + RoomTypes[roomType] + [')']
  {
    assert |Buildings[building]| == 1;
    assert Decimal(Floors[floor]) == [DigitChar(floor + 1)];
    if number < 10 {
      assert Decimal(number) == [DigitChar(number)];
    } else {
      assert Decimal(number) == Decimal(1) + [DigitChar(0)];
    }
  }

  lemma IndexOfDistinct(xs: seq<string>, i: nat)
    requires i < |xs| && NoDuplicates(xs)
    ensures IndexOf(xs, xs[i]) == Some(i)
  {
    if i > 0 {
      IndexOfDistinct(xs[1..], i - 1);
    }
  }

  /** A room name determines the building, floor, number and type it was built from. */
  lemma RoomRoundTrip(building: nat, floor: nat, number: nat, roomType: nat)
    requires building < |Buildings| && floor < |Floors| && 1 <= number <= 10 && roomType < |RoomTypes|
    ensures ParseRoom(RoomName(building, floor, number, roomType))
            == Some(RoomParts(building, floor, number, roomType))
  {
    RoomNameChars(building, floor, number, roomType);
    var r := RoomName(building, floor, number, roomType);
    var t := RoomTypes[roomType];
    assert r[5..7] == " (" && r[7..|r| - 1] == t;
    assert [r[0]] == Buildings[building];
    assert NoDuplicates(Buildings) && NoDuplicates(RoomTypes);
    IndexOfDistinct(Buildings, building);
    IndexOfDistinct(RoomTypes, roomType);
  }

  // ---------------------------------------------------------------- class labels

  /** The class label: the department's first three characters upper-cased, `-`, a section
      digit 1..4 and a letter A..C. */
  function ClassLabel(department: string, section: nat, letter: nat): (r: string)
    requires section < 4 && letter < 3
    ensures var n := |Prefix(department, 3)|;
            |r| == n + 3 && r[..n] == ToUpper(Prefix(department, 3)) && r[n] == '-'
            && '1' <= r[n + 1] <= '4' && r[n + 1] as int - '1' as int == section
            && 'A' <= r[n + 2] <= 'C' && r[n + 2] as int - 'A' as int == letter
  {
    ToUpper(Prefix(department, 3)) + "-" + Decimal(section + 1) + [(65 + letter) as char]
  }

  // ---------------------------------------------------------------- subjects

  /** `getSubjectsForDepartment`: the department's list, or the Computer Science list. */
  function SubjectsForDepartment(department: string): (subjects: seq<string>)
    ensures |subjects| > 0
  {
    TableListsNonEmpty(department);
    CatalogShape();
    match Lookup(SubjectTable, department)
    case Some(s) => s
    case None => SubjectTable[0].1
  }

  /** An unknown department gets exactly the Computer Science subjects; a known one its own. */
  lemma SubjectsFallback(department: string)
    ensures department !in DepartmentNames(SubjectTable)
            ==> SubjectsForDepartment(department) == SubjectsForDepartment(DefaultDepartment)
    ensures forall i :: 0 <= i < |SubjectTable| && SubjectTable[i].0 == department ==>
              SubjectsForDepartment(department) == SubjectTable[i].1
  {
    CatalogShape();
  }

  // ---------------------------------------------------------------- slots

  /** A (day, time slot) pair: the generator's `${day}-${timeSlot}` key, which is injective on
      catalog values because no day name contains `-`. */
  type Slot = (string, string)

  function SlotOf(e: ScheduleEntry): Slot
  {
    (e.day, e.timeSlot)
  }

  function AllSlotsInOrder(): (s: seq<Slot>)
    ensures |s| == |Days| * |TimeSlots|
  {
    seq(|Days| * |TimeSlots|, k requires 0 <= k < |Days| * |TimeSlots| => (Days[k / 7], TimeSlots[k % 7]))
  }

  function AllSlots(): set<Slot>
  {
    set s | s in AllSlotsInOrder()
  }

  lemma AllSlotsShape()
    ensures |AllSlots()| == 42
    ensures forall s :: s in AllSlots() <==> s.0 in Days && s.1 in TimeSlots
  {
    var all := AllSlotsInOrder();
    DaysAndSlotsDistinct();
    forall i, j | 0 <= i < j < |all| ensures all[i] != all[j] {
      assert i == 7 * (i / 7) + i % 7 && j == 7 * (j / 7) + j % 7;
    }
    DistinctCard(all);
    forall s: Slot | s.0 in Days && s.1 in TimeSlots ensures s in AllSlots() {
      var d :| 0 <= d < 6 && Days[d] == s.0;
      var t :| 0 <= t < 7 && TimeSlots[t] == s.1;
      assert all[7 * d + t] == s;
    }
  }

  /** While fewer than 42 slots are used, the do-while can still draw a free one. */
  lemma FreeSlotExists(used: set<Slot>)
    requires |used| < 42
    ensures exists s :: s in AllSlots() && s !in used
  {
    AllSlotsShape();
    if AllSlots() <= used {
      SubsetCard(AllSlots(), used);
    }
  }

  // ---------------------------------------------------------------- entries and schedules

  /** What one generated entry is: a catalog day and slot, the drawn subject of the
      department's list, the drawn room and the drawn class label. */
  predicate Generated(e: ScheduleEntry, department: string, d: EntryDraws)
    requires ValidDraws(d)
  {
    var subjects := SubjectsForDepartment(department);
    && e.day in Days && e.timeSlot in TimeSlots
    && e.subject == subjects[Pick(d.subject, |subjects|)]
    && e.room == GenerateRoom(d)
    && e.classLabel == ClassLabel(department, Pick(d.section, 4), Pick(d.letter, 3))
  }

  /** A generated entry's subject is one of its department's (or the fallback) subjects, and
      its room name parses back into catalog building, floor, number and type. */
  lemma GeneratedEntryWellFormed(e: ScheduleEntry, department: string, d: EntryDraws)
    requires ValidDraws(d) && Generated(e, department, d)
    ensures e.subject in SubjectsForDepartment(department)
    ensures ParseRoom(e.room) == Some(RoomParts(Pick(d.building, |Buildings|), Pick(d.floor, |Floors|),
                                                Pick(d.roomNumber, 10) + 1, Pick(d.roomType, |RoomTypes|)))
  {
    var b, f, n, t := Pick(d.building, |Buildings|), Pick(d.floor, |Floors|),
                      Pick(d.roomNumber, 10) + 1, Pick(d.roomType, |RoomTypes|);
    assert e.room == RoomName(b, f, n, t);
    RoomRoundTrip(b, f, n, t);
  }

  predicate DistinctSlots(t: Timetable)
  {
    forall i, j :: 0 <= i < j < |t| ==> SlotOf(t[i]) != SlotOf(t[j])
  }

  /** A schedule prefix whose entries were made from the matching draws, in distinct slots. */
  predicate GeneratedPrefix(t: Timetable, department: string, draws: seq<EntryDraws>)
    requires ValidScheduleDraws(draws)
  {
    && |t| <= |draws|
    && DistinctSlots(t)
    && forall i :: 0 <= i < |t| ==> Generated(t[i], department, draws[i])
  }

  lemma GeneratedPrefixSnoc(t: Timetable, e: ScheduleEntry, department: string, draws: seq<EntryDraws>)
    requires ValidScheduleDraws(draws) && GeneratedPrefix(t, department, draws) && |t| < |draws|
    requires Generated(e, department, draws[|t|])
    requires forall k :: 0 <= k < |t| ==> SlotOf(t[k]) != SlotOf(e)
    ensures GeneratedPrefix(t + [e], department, draws)
  {
    var t' := t + [e];
    forall i, j | 0 <= i < j < |t'| ensures SlotOf(t'[i]) != SlotOf(t'[j]) {
      assert t'[i] == t[i];
    }
    forall k | 0 <= k < |t'| ensures Generated(t'[k], department, draws[k]) {
      if k < |t| {
        assert t'[k] == t[k];
      }
    }
  }

  /** What `generateFacultySchedule` returns for a department and its draws: nine entries, no
      two in the same (day, time slot), entry `i` made from draw `i`. */
  predicate GeneratedSchedule(t: Timetable, department: string, draws: seq<EntryDraws>)
    requires ValidScheduleDraws(draws)
  {
    && |t| == ClassesPerWeek
    && DistinctSlots(t)
    && forall i :: 0 <= i < |t| ==> Generated(t[i], department, draws[i])
  }

  /** `generateScheduleEntry`: the do-while's accepted draw is any catalog slot not yet in
      `usedSlots`; the slot is then marked used. */
  method GenerateScheduleEntry(faculty: User, usedSlots: set<Slot>, d: EntryDraws)
      returns (entry: ScheduleEntry, used: set<Slot>)
    requires ValidDraws(d) && |usedSlots| < 42
    ensures SlotOf(entry) !in usedSlots
    ensures used == usedSlots + {SlotOf(entry)}
    ensures Generated(entry, faculty.department, d)
  {
    FreeSlotExists(usedSlots);
    var slot :| slot in AllSlots() && slot !in usedSlots;
    AllSlotsShape();
    used := usedSlots + {slot};
    var subjects := SubjectsForDepartment(faculty.department);
    var subject := subjects[Pick(d.subject, |subjects|)];
    entry := ScheduleEntry(slot.0, slot.1, subject, GenerateRoom(d),
                           ClassLabel(faculty.department, Pick(d.section, 4), Pick(d.letter, 3)));
  }

  /** `generateFacultySchedule`: nine entries, no two in the same (day, time slot). */
  method GenerateFacultySchedule(faculty: User, draws: seq<EntryDraws>) returns (schedule: Timetable)
    requires ValidScheduleDraws(draws)
    ensures GeneratedSchedule(schedule, faculty.department, draws)
  {
    schedule := [];
    var usedSlots: set<Slot> := {};
    for i := 0 to ClassesPerWeek
      invariant |schedule| == i && |usedSlots| == i
      invariant forall k :: 0 <= k < i ==> SlotOf(schedule[k]) in usedSlots
      invariant GeneratedPrefix(schedule, faculty.department, draws)
    {
      var entry;
      entry, usedSlots := GenerateScheduleEntry(faculty, usedSlots, draws[i]);
      GeneratedPrefixSnoc(schedule, entry, faculty.department, draws);
      schedule := schedule + [entry];
    }
  }

  /** `regenerateFacultyTimetable`: a fresh call of the generator, with no memory of the old schedule. */
  method RegenerateFacultyTimetable(faculty: User, draws: seq<EntryDraws>) returns (schedule: Timetable)
    requires ValidScheduleDraws(draws)
    ensures GeneratedSchedule(schedule, faculty.department, draws)
  {
    schedule := GenerateFacultySchedule(faculty, draws);
  }
}
