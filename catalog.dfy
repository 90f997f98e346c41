/** Static reference data: the department/subject table and the scheduling vocabulary. */
module Catalog {
  import opened Basics

  const Days: seq<string> := ["Monday", "Tuesday", "Wednesday", "Thursday", "Friday", "Saturday"]

  const TimeSlots: seq<string> := [
    "9:00 AM - 10:00 AM",
    "10:00 AM - 11:00 AM",
    "11:00 AM - 12:00 PM",
    "12:00 PM - 1:00 PM",
    "2:00 PM - 3:00 PM",
    "3:00 PM - 4:00 PM",
    "4:00 PM - 5:00 PM"
  ]

  const RoomTypes: seq<string> := ["Lecture Hall", "Lab", "Classroom", "Seminar Room"]
  const Buildings: seq<string> := ["A", "B", "C", "D"]
  const Floors: seq<nat> := [1, 2, 3]

  /** The number of classes a generated weekly schedule holds. */
  const ClassesPerWeek: nat := 9

  const DefaultDepartment: string := "Computer Science"

  /** `subjectsByDepartment`, as (department, subjects) pairs in the object's key order. */
  const SubjectTable: seq<(string, seq<string>)> := [
    ("Computer Science", [
      "Data Structures and Algorithms",
      "Operating Systems",
      "Computer Networks",
      "Database Management Systems",
      "Object-Oriented Programming",
      "Machine Learning / AI",
      "Web Technologies",
      "Software Engineering",
      "Compiler Design"
    ]),
    ("Electrical Engineering", [
      "Electrical Circuits",
      "Control Systems",
      "Power Systems",
      "Electrical Machines",
      "Analog & Digital Electronics",
      "Power Electronics",
      "Signals and Systems",
      "Microprocessors and Microcontrollers"
    ]),
    ("Electronics", [
      "Analog & Digital Communication",
      "Signal Processing",
      "VLSI Design",
      "Embedded Systems",
      "Electromagnetic Theory",
      "Antennas and Wave Propagation",
      "Microcontrollers",
      "Network Theory"
    ]),
    ("Civil Engineering", [
      "Structural Analysis",
      "Construction Materials",
      "Concrete Technology",
      "Geotechnical Engineering",
      "Surveying",
      "Transportation Engineering",
      "Hydraulics & Water Resources",
      "Environmental Engineering"
    ]),
    ("Mechanical Engineering", [
      "Thermodynamics",
      "Fluid Mechanics",
      "Strength of Materials",
      "Theory of Machines",
      "Manufacturing Processes",
      "Heat Transfer",
      "Machine Design",
      "Dynamics of Machinery"
    ]),
    ("Information Technology", [
      "Computer Programming",
      "Data Mining",
      "Cloud Computing",
      "Cyber Security",
      "Natural Language Processing",
      "Deep Learning",
      "Big Data Analytics",
      "Blockchain Technology"
    ])
  ]

  function DepartmentNames(table: seq<(string, seq<string>)>): (names: seq<string>)
    ensures |names| == |table| && forall i :: 0 <= i < |table| ==> names[i] == table[i].0
  {
    seq(|table|, i requires 0 <= i < |table| => table[i].0)
  }

  /** Property lookup `table[department]` on an object literal: the first pair with that key. */
  function Lookup(table: seq<(string, seq<string>)>, department: string): (r: Option<seq<string>>)
    ensures r.Some? <==> department in DepartmentNames(table)
    ensures r.Some? ==> exists i :: 0 <= i < |table| && table[i] == (department, r.value)
  {
    if table == [] then None
    else if table[0].0 == department then Some(table[0].1)
    else
      var r := Lookup(table[1..], department);
      assert DepartmentNames(table) == [table[0].0] + DepartmentNames(table[1..]);
      if r.Some? then
        var i :| 0 <= i < |table[1..]| && table[1..][i] == (department, r.value);
        assert table[i + 1] == (department, r.value);
        r
      else r
  }

  /** The catalog has six distinct departments; Computer Science lists 9 subjects and every
      other department 8. */
  lemma CatalogShape()
    ensures |SubjectTable| == 6 && NoDuplicates(DepartmentNames(SubjectTable))
    ensures SubjectTable[0].0 == DefaultDepartment && |SubjectTable[0].1| == 9
    ensures forall i :: 1 <= i < 6 ==> |SubjectTable[i].1| == 8
  {
  }

  /** Every department of the table lists at least one subject. */
  lemma TableListsNonEmpty(department: string)
    ensures Lookup(SubjectTable, department).Some? ==> |Lookup(SubjectTable, department).value| > 0
  {
    CatalogShape();
  }

  lemma DaysAndSlotsDistinct()
    ensures |Days| == 6 && NoDuplicates(Days)
    ensures |TimeSlots| == 7 && NoDuplicates(TimeSlots)
  {
  }
}
