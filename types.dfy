/** The records the application passes around and keeps in browser storage. */
module Types {
  import opened Basics

  datatype Role = Admin | Faculty

  /** A user account; faculty members are users whose role is `Faculty`. */
  datatype User = User(id: string, name: string, email: string, role: Role,
                       department: string, specialization: string)

  /** One weekly class session (`classLabel` is the source's `class` field). */
  datatype ScheduleEntry = ScheduleEntry(day: string, timeSlot: string, subject: string,
                                         room: string, classLabel: string)

  type Timetable = seq<ScheduleEntry>

  /** The stored `facultyTimetables` object: faculty id to timetable. */
  type Timetables = map<string, Timetable>

  /** A message; `timestamp` abstracts the ISO date string to its epoch milliseconds, and
      `from`/`fromName` are absent when the sender was unknown (`user?.id` gave undefined). */
  datatype Message = Message(id: string, from: Option<string>, fromName: Option<string>,
                             subject: string, message: string, timestamp: int, read: bool)

  /** The stored `messageSystem` object; its `messages` field may be missing. */
  datatype MessageSystem = MessageSystem(messages: Option<seq<Message>>)

  /** Browser storage, one optional value per key the application uses (None: key absent). */
  datatype Storage = Storage(currentUser: Option<User>,
                             registeredUsers: Option<seq<User>>,
                             facultyTimetables: Option<Timetables>,
                             messageSystem: Option<MessageSystem>)

  /** `JSON.parse(localStorage.getItem("facultyTimetables") || "{}")`. */
  function StoredTimetables(stored: Option<Timetables>): Timetables
  {
    if stored.Some? then stored.value else map[]
  }

  /** `storedUsers ? JSON.parse(storedUsers) : []`. */
  function StoredUsers(stored: Option<seq<User>>): seq<User>
  {
    if stored.Some? then stored.value else []
  }

  /** `messageSystem.messages || []`, where a missing system parses as `{}`. */
  function StoredMessages(stored: Option<MessageSystem>): seq<Message>
  {
    if stored.Some? && stored.value.messages.Some? then stored.value.messages.value else []
  }

  /** `timetables[id] || []`. */
  function TimetableOf(timetables: Timetables, id: string): Timetable
  {
    if id in timetables then timetables[id] else []
  }

  function DaysOf(t: Timetable): (days: seq<string>)
    ensures |days| == |t| && forall i :: 0 <= i < |t| ==> days[i] == t[i].day
  {
    seq(|t|, i requires 0 <= i < |t| => t[i].day)
  }

  function DepartmentsOf(users: seq<User>): (depts: seq<string>)
    ensures |depts| == |users| && forall i :: 0 <= i < |users| ==> depts[i] == users[i].department
  {
    seq(|users|, i requires 0 <= i < |users| => users[i].department)
  }

  function IdsOf(users: seq<User>): (ids: seq<string>)
    ensures |ids| == |users| && forall i :: 0 <= i < |users| ==> ids[i] == users[i].id
  {
    seq(|users|, i requires 0 <= i < |users| => users[i].id)
  }
}
