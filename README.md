# Faculty timetable hub: a Dafny model

This project models the scheduling core of a faculty timetable web application and proves properties of the model. In the application, an administrator and faculty members share one browser's storage. The model covers:

- the generator that builds a nine-class weekly timetable for a faculty member from random draws;
- the detector that reports rooms booked twice in the same day and time slot;
- the seed data: the department/subject catalogue, six mock faculty members, their timetables and a two-message inbox;
- the page logic built on these:
  - workload statistics and the balance score on the conflicts page;
  - entry editing, search and regeneration on the administrator's timetable page;
  - grouping by day, day ordering and sending a message on the faculty dashboard;
  - the administrator's inbox: newest first, mark read, unread count, reply validation;
  - seeding and the summary figures on the administrator's dashboard;
- sign-in, sign-out and registration;
- the role guard on protected routes.

Browser storage is the record `Types.Storage`, with one optional value per storage key; `None` means the key is absent. Randomness is explicit. Each draw of `Math.random()` is a parameter: a real in [0, 1), reduced to an index by `Basics.Pick`, which is `Math.floor(r * n)`. The one exception is the day and time-slot draw of the generator's rejection loop. That draw is modelled as a choice of any catalogue slot not yet used. `Date.now()` is an integer parameter, and message timestamps are integers (epoch milliseconds).

Modules follow the source files:

| module | file |
|---|---|
| `Basics`, `Types`, `Tally` | shared vocabulary: options, trimming, case mapping, records, counting by key |
| `Catalog`, `MockData` | `src/utils/mockData.ts` and the constants of `src/utils/timetableGenerator.ts` |
| `Generator`, `Conflicts` | `src/utils/timetableGenerator.ts` |
| `ConflictsPage` | `src/pages/admin/ConflictsPage.tsx` |
| `FacultyTimetables` | `src/pages/admin/FacultyTimetables.tsx` |
| `FacultyDashboard` | `src/pages/faculty/FacultyDashboard.tsx` |
| `AdminMessages` | `src/pages/admin/AdminMessages.tsx` |
| `AdminDashboard` | `src/pages/admin/AdminDashboard.tsx` |
| `Auth` | `src/contexts/AuthContext.tsx` (class `AuthProvider`) |
| `Routes` | `src/components/ProtectedRoute.tsx` and the route table of `src/App.tsx` |

The generator does random rejection sampling. It draws a (day, time slot) pair until it finds one not yet used. It has no per-day cap, and it does not sort its output. The model follows this code.

## Model

| member | source | states |
|---|---|---|
| Basics.Pick | src/utils/timetableGenerator.ts:24-27 | `Math.floor(r * n)` of a draw in [0, 1) is a valid index below `n` |
| Basics.TrimEmptyIffBlank | src/pages/faculty/FacultyDashboard.tsx:98 | a text trims to empty exactly when every character is white space |
| Basics.ToUpper | src/utils/timetableGenerator.ts:60 | upper-casing keeps the length and maps each character |
| Basics.Decimal | src/contexts/AuthContext.tsx:127 | the numeral of a number is a non-empty run of digits, one digit long exactly for numbers below ten |
| Catalog.CatalogShape | src/utils/mockData.ts:5-67 | six departments with distinct names; Computer Science comes first with 9 subjects; every other department has 8 |
| Catalog.Lookup | src/utils/timetableGenerator.ts:35 | a department's subject list is found exactly when the department is a key of the table, and it is that department's list |
| Catalog.TableListsNonEmpty | src/utils/mockData.ts:5-67 | every subject list in the table is non-empty |
| Catalog.DaysAndSlotsDistinct | src/utils/timetableGenerator.ts:4-15 | six distinct day names and seven distinct time-slot labels |
| Generator.ParseRoom | src/utils/timetableGenerator.ts:29 | a parsed room name gives a building, floor, room number (1 to 10) and room type within the catalogue |
| Generator.RoomNameChars | src/utils/timetableGenerator.ts:23-30 | the room name is the building letter, `-`, the floor digit, the zero-padded two-digit room number, then the room type in parentheses |
| Generator.RoomRoundTrip | src/utils/timetableGenerator.ts:23-30 | parsing a generated room name gives back the four draws it was built from, so distinct draws give distinct names |
| Generator.ClassLabel | src/utils/timetableGenerator.ts:60 | the class label is the department's first three characters upper-cased, `-`, a digit 1 to 4 and a letter A to C, each given by its draw |
| Generator.SubjectsForDepartment | src/utils/timetableGenerator.ts:33-36 | every department gets a non-empty subject list |
| Generator.SubjectsFallback | src/utils/timetableGenerator.ts:33-36 | a department in the table gets its own list; any other department gets the Computer Science list |
| Generator.AllSlotsShape | src/utils/timetableGenerator.ts:4-15 | there are exactly 42 (day, slot) pairs, and they are the catalogue's day/slot combinations |
| Generator.FreeSlotExists | src/utils/timetableGenerator.ts:44-47 | while fewer than 42 slots are used, a free one exists, so the rejection loop has something to accept |
| Generator.GeneratedEntryWellFormed | src/utils/timetableGenerator.ts:52-60 | a generated entry's subject is in its department's list, and its room parses back to the room draws |
| Generator.GeneratedPrefixSnoc | src/utils/timetableGenerator.ts:70-73 | pushing an entry generated in a free slot keeps the timetable built so far valid |
| Generator.GenerateScheduleEntry | src/utils/timetableGenerator.ts:40-62 | the accepted slot was not used before; it is then marked used; the entry is built from the draws |
| Generator.GenerateFacultySchedule | src/utils/timetableGenerator.ts:65-76 | the result has exactly 9 entries, no two sharing a (day, slot) pair, each generated for the department from its own draws |
| Generator.RegenerateFacultyTimetable | src/utils/timetableGenerator.ts:79-81 | regeneration promises exactly what generation promises |
| Conflicts.CheckScheduleConflicts | src/utils/timetableGenerator.ts:93-120 | the loops over faculty and entries return the conflicts of the one-pass scan over all tagged entries in map order |
| Conflicts.ScanStep | src/utils/timetableGenerator.ts:101-114 | an entry whose key is already recorded adds one conflict naming the current and first-recorded faculty, and changes no record; a new key is recorded with no conflict |
| Conflicts.UsageFirst | src/utils/timetableGenerator.ts:103-114 | the recorded keys are exactly the keys seen, and each records its first occupant |
| Conflicts.ConflictCount | src/utils/timetableGenerator.ts:95-115 | the number of conflicts is the number of entries minus the number of distinct keys |
| Conflicts.ConflictShape | src/utils/timetableGenerator.ts:104-111 | every conflict has type `room`, is reported at a repeated key, names the current and first faculty, and copies the entry's day, slot, room and detail text |
| Conflicts.ThreeOccupantsStar | src/utils/timetableGenerator.ts:103-111 | three occupants of one key give two conflicts, both naming the first occupant |
| Conflicts.NoTimetablesNoConflicts | src/utils/timetableGenerator.ts:93-119 | an empty map gives no conflicts |
| Conflicts.NonArraySkipped | src/utils/timetableGenerator.ts:99 | a stored value that is not an array contributes nothing |
| Conflicts.RepeatWithinOneSchedule | src/utils/timetableGenerator.ts:100-114 | a key repeated inside one faculty's schedule is reported with both ids equal |
| MockData.MockFacultyShape | src/utils/mockData.ts:70-119 | six faculty members with distinct ids `faculty-1` to `faculty-6`, all of faculty role, one per catalogue department in table order |
| MockData.GenerateForEach | src/utils/mockData.ts:125-127 | the forEach stores one generated schedule under each faculty id, and no other key |
| MockData.InitializeMockTimetables | src/utils/mockData.ts:122-130 | the keys are exactly the mock faculty ids, each holding a schedule generated for that member's department |
| MockData.SeedHoldsFiftyFour | src/utils/mockData.ts:122-130 | the seeded timetables hold 54 entries in all |
| MockData.SeedInboxShape | src/utils/mockData.ts:133-156 | the seed inbox holds two messages; `msg-1` alone is unread and is the more recent |
| Tally.CountOccurrences | src/pages/admin/ConflictsPage.tsx:94-100 | the counting reduce maps each key that occurs to its number of occurrences |
| Tally.TallySum | src/pages/admin/ConflictsPage.tsx:94-100 | the counts, taken once per distinct key, add up to the length of the input |
| ConflictsPage.Round | src/pages/admin/ConflictsPage.tsx:132 | `Math.round` gives the integer nearest to its argument, rounding halves up |
| ConflictsPage.WorkloadPercentage | src/pages/admin/ConflictsPage.tsx:88 | the percentage is the class count over nine, times 100 |
| ConflictsPage.WorkloadRating | src/pages/admin/ConflictsPage.tsx:167-171 | under 70 is Under-allocated, over 110 is Overloaded, and the range between is Balanced, each as an if-and-only-if |
| ConflictsPage.RatingByClassCount | src/pages/admin/ConflictsPage.tsx:88 | a timetable is Under-allocated with 6 classes or fewer, Balanced with 7 to 9, and Overloaded with 10 or more |
| ConflictsPage.ColorFollowsRating | src/pages/admin/ConflictsPage.tsx:173-177 | the workload colour is amber, red or green exactly when the rating is Under-allocated, Overloaded or Balanced |
| ConflictsPage.BalanceRatingColor | src/pages/admin/ConflictsPage.tsx:179-183 | the balance colour is red below 60, amber from 60 to 79, and green from 80 |
| ConflictsPage.TargetPerDay | src/pages/admin/ConflictsPage.tsx:354 | the displayed per-day target is the class count over six, rounded to nearest |
| ConflictsPage.MaxOf | src/pages/admin/ConflictsPage.tsx:104-106 | the maximum is at least every count and is one of them, or 0 when there are none |
| ConflictsPage.CatalogCounts | src/pages/admin/ConflictsPage.tsx:116-117 | the six counts are Monday to Saturday's counts, 0 for a day with no classes |
| ConflictsPage.TotalZero | src/pages/admin/ConflictsPage.tsx:119-121 | the total is zero exactly when every count is zero |
| ConflictsPage.SquaredDeviationsNonNegative | src/pages/admin/ConflictsPage.tsx:124-126 | the variance sum is never negative |
| ConflictsPage.AsWrittenGoesNegative | src/pages/admin/ConflictsPage.tsx:115-133 | the formula as written scores one class on Monday and none on other days at -20 |
| ConflictsPage.BalanceScoreAsWrittenRange | src/pages/admin/ConflictsPage.tsx:115-133 | the formula as written gives 0 to an empty week and never exceeds 100, but can go as low as -20, six fifths of its divisor |
| ConflictsPage.MaxVarianceRatio | src/pages/admin/ConflictsPage.tsx:128 | the variance of a week with every class on one day is 6/5 of the maximum the code divides by |
| ConflictsPage.VarianceAtMostMax | src/pages/admin/ConflictsPage.tsx:123-128 | no week with classes has a larger variance than the week with all of them on one day |
| ConflictsPage.MaxVariancePositive | src/pages/admin/ConflictsPage.tsx:128 | the corrected maximum variance is positive whenever there is a class |
| ConflictsPage.SquaredDeviationsExpand | src/pages/admin/ConflictsPage.tsx:124-126 | the variance sum equals the sum of squares minus twice the mean times the total plus six squared means |
| ConflictsPage.SumOfSquaresBound | src/pages/admin/ConflictsPage.tsx:124-128 | the sum of squared counts is at most the squared total, so all classes on one day is the worst case |
| ConflictsPage.ScoreRange | src/pages/admin/ConflictsPage.tsx:130-132 | a variance between 0 and the maximum gives a rounded score between 0 and 100 |
| ConflictsPage.BalanceScoreRange | src/pages/admin/ConflictsPage.tsx:115-133 | the corrected score lies in 0 to 100, and an empty week scores 0 |
| ConflictsPage.OneDayScoresZero | src/pages/admin/ConflictsPage.tsx:115-133 | the corrected score gives 0 to a week with all classes on one day |
| ConflictsPage.CalculateWorkloadStats | src/pages/admin/ConflictsPage.tsx:75-112 | the forEach builds, for every faculty member in order, the record of their stored timetable (or of none), with the balance score computed by the formula as written |
| ConflictsPage.StatsMapKeys | src/pages/admin/ConflictsPage.tsx:81-84 | there is one record per faculty id and none for any other id |
| ConflictsPage.StatsMapLastWins | src/pages/admin/ConflictsPage.tsx:81-92 | the record for an id is the one built for that id's last faculty entry, from that id's timetable |
| ConflictsPage.DayCountsAddUp | src/pages/admin/ConflictsPage.tsx:94-109 | the day counts add up to the class count; the busiest day has at most all classes and is zero only for an empty timetable; the recorded balance score lies in -20 to 100, and is 0 when no class falls on a catalogue day |
| FacultyTimetables.HandleEditEntry | src/pages/admin/FacultyTimetables.tsx:70-76 | the editing copy remembers the entry's day and slot, and editing nothing gives back the entry |
| FacultyTimetables.UpdateTimetable | src/pages/admin/FacultyTimetables.tsx:82-96 | the length is kept; entries at the original (day, slot) become the edited entry; all others are unchanged |
| FacultyTimetables.UpdateKeepsSlotsDistinct | src/pages/admin/FacultyTimetables.tsx:82-96 | an edit that keeps its slot or moves to a free slot keeps the slots distinct |
| FacultyTimetables.EditCanCollide | src/pages/admin/FacultyTimetables.tsx:82-96 | moving a Monday entry onto a Tuesday entry's slot leaves two entries in one slot, because the target is not checked |
| FacultyTimetables.UnchangedEditIsIdentity | src/pages/admin/FacultyTimetables.tsx:78-96 | saving an edit with nothing changed leaves the timetable as it was |
| FacultyTimetables.HandleUpdateEntry | src/pages/admin/FacultyTimetables.tsx:78-114 | nothing happens without an editing entry and a selected faculty member; otherwise the map changes only at the selected id, storage receives it, and editing ends |
| FacultyTimetables.HandleRegenerateTimetable | src/pages/admin/FacultyTimetables.tsx:52-68 | nothing happens without a selection; otherwise a generated schedule replaces the selected member's timetable, at that id only, and is stored |
| FacultyTimetables.FindById | src/pages/admin/FacultyTimetables.tsx:38 | `find` returns nothing exactly when no member has the id; otherwise it returns the first member with that id |
| FacultyTimetables.HandleFacultySelect | src/pages/admin/FacultyTimetables.tsx:37-46 | the found member becomes the selection, and the timetable shown is the stored one, or empty |
| FacultyTimetables.FilterKeepsMatches | src/pages/admin/FacultyTimetables.tsx:189-193 | the list keeps exactly the members whose name, department or specialization contains the query, ignoring case |
| FacultyTimetables.FilterKeepsOrder | src/pages/admin/FacultyTimetables.tsx:189-193 | the filtered list keeps the original order |
| FacultyTimetables.FilterKeepsCopies | src/pages/admin/FacultyTimetables.tsx:189-193 | a matching member appears as many times as in the full list, and any other member not at all |
| FacultyTimetables.EmptyQueryKeepsAll | src/pages/admin/FacultyTimetables.tsx:189-193 | an empty query keeps everyone |
| FacultyTimetables.SubjectOptions | src/pages/admin/FacultyTimetables.tsx:210-278 | no options without a selection or for an unknown department; otherwise the department's own list |
| FacultyTimetables.DialogTableIsCatalog | src/pages/admin/FacultyTimetables.tsx:213-275 | the dialog's subject table equals the catalogue, department by department and in order |
| FacultyTimetables.NoFallbackInDialog | src/pages/admin/FacultyTimetables.tsx:277 | an unknown department gets no dialog options, while the generator would give it the Computer Science list |
| FacultyTimetables.OptionsAreCatalog | src/pages/admin/FacultyTimetables.tsx:196-207 | the day and time option lists are the generator's days and time slots |
| FacultyDashboard.ShownTimetable | src/pages/faculty/FacultyDashboard.tsx:19-25 | the page shows the timetable stored for the signed-in user, or an empty one |
| FacultyDashboard.GroupByDay | src/pages/faculty/FacultyDashboard.tsx:138-144 | the reduce builds, for each day that occurs, the list of that day's entries |
| FacultyDashboard.GroupedStep | src/pages/faculty/FacultyDashboard.tsx:139-142 | one reduce step creates the entry's day group if missing and pushes the entry at its end |
| FacultyDashboard.EntriesOnExact | src/pages/faculty/FacultyDashboard.tsx:138-144 | a group holds exactly the entries of its day, in timetable order |
| FacultyDashboard.EntryInOneGroup | src/pages/faculty/FacultyDashboard.tsx:138-144 | every entry is in the group of its own day and in no other |
| FacultyDashboard.EntriesOnCount | src/pages/faculty/FacultyDashboard.tsx:138-144 | a group's size is the number of entries on that day |
| FacultyDashboard.GroupsPartitionTimetable | src/pages/faculty/FacultyDashboard.tsx:138-144 | the group sizes add up to the timetable's length |
| FacultyDashboard.DayIndex | src/pages/faculty/FacultyDashboard.tsx:147-150 | `indexOf` gives a day's position in the week, or -1 exactly for a name that is not a day |
| FacultyDashboard.SortedDaysOrdered | src/pages/faculty/FacultyDashboard.tsx:147-150 | each key appears once, ordered by position in the week; names that are not days come first, in their original order |
| FacultyDashboard.DashboardHeadings | src/pages/faculty/FacultyDashboard.tsx:138-150 | the headings are exactly the days of the grouped timetable, each once, Monday to Saturday |
| FacultyDashboard.HandleSendMessage | src/pages/faculty/FacultyDashboard.tsx:97-135 | a blank message is refused and storage is unchanged; otherwise the new message is appended to the stored list |
| FacultyDashboard.NewMessage | src/pages/faculty/FacultyDashboard.tsx:112-120 | the new message is unread, has subject "Timetable Concern" and carries the text, the sender's id and the time |
| FacultyDashboard.SendMessageEffect | src/pages/faculty/FacultyDashboard.tsx:97-126 | a message is accepted exactly when not blank; earlier messages stay in place, and the new one is last |
| AdminMessages.LoadMessages | src/pages/admin/AdminMessages.tsx:20-29 | the loaded inbox is newest first and is a permutation of the stored messages (none when absent) |
| AdminMessages.SortShape | src/pages/admin/AdminMessages.tsx:26-28 | sorting orders by non-increasing timestamp, loses and adds nothing, and keeps the unread count |
| AdminMessages.SortKeepsSorted | src/pages/admin/AdminMessages.tsx:26-28 | a list already newest first is left unchanged |
| AdminMessages.InsertOrder | src/pages/admin/AdminMessages.tsx:26-28 | inserting a message into a newest-first list keeps it newest first |
| AdminMessages.InsertContents | src/pages/admin/AdminMessages.tsx:26-28 | insertion adds exactly the message, and adds one to the unread count if it is unread |
| AdminMessages.UnreadCount | src/pages/admin/AdminMessages.tsx:114 | the unread count is at most the number of messages |
| AdminMessages.UnreadCountZero | src/pages/admin/AdminMessages.tsx:114 | the count is zero exactly when every message is read |
| AdminMessages.MarkRead | src/pages/admin/AdminMessages.tsx:38-40 | the length is kept; messages with the id become read; all others are unchanged |
| AdminMessages.MarkReadIdempotent | src/pages/admin/AdminMessages.tsx:37-40 | marking twice is marking once, and marking keeps a newest-first list newest first |
| AdminMessages.MarkReadCount | src/pages/admin/AdminMessages.tsx:38-40 | marking lowers the unread count by the number of unread messages with the id |
| AdminMessages.MarkReadLowersByOne | src/pages/admin/AdminMessages.tsx:38-40 | with distinct ids, opening an unread message lowers the count by exactly one |
| AdminMessages.HandleSelectMessage | src/pages/admin/AdminMessages.tsx:35-51 | an unread message is marked read in the list, and the list is written to storage; a read one changes neither; the message is selected either way |
| AdminMessages.SelectTwice | src/pages/admin/AdminMessages.tsx:35-51 | opening the same message again changes neither the list nor storage |
| AdminMessages.SelectThenReload | src/pages/admin/AdminMessages.tsx:20-51 | after opening a message, reloading the page shows the same list |
| AdminMessages.HandleSendReply | src/pages/admin/AdminMessages.tsx:57-76 | a blank reply, or one with no message open, is refused with nothing changed; otherwise the dialog closes and the text is cleared, with messages untouched |
| AdminDashboard.SeedStorage | src/pages/admin/AdminDashboard.tsx:46-53 | mock timetables and the seed inbox are written only where storage has none, and no stored value is overwritten |
| AdminDashboard.LoadSummary | src/pages/admin/AdminDashboard.tsx:55-61 | the registered list is the stored one (or empty), and the message figure counts unread messages: 0 with no list, 0 exactly when all are read |
| AdminDashboard.FirstVisitShowsOneUnread | src/pages/admin/AdminDashboard.tsx:51-61 | over the seed inbox the figure is 1 |
| AdminDashboard.AllFaculty | src/pages/admin/AdminDashboard.tsx:78 | the mock faculty come first, followed by the registered ones, in order |
| AdminDashboard.TotalClassesCountsEntries | src/pages/admin/AdminDashboard.tsx:80 | when every member holds a generated week, the stored entries number nine per member, the figure shown |
| AdminDashboard.SeededTotal | src/pages/admin/AdminDashboard.tsx:80 | right after seeding, with nobody registered, the figure is the 54 seeded entries |
| AdminDashboard.DepartmentStats | src/pages/admin/AdminDashboard.tsx:81-84 | every department of a member is a key, and each count is at least 1 and is that department's number of members |
| AdminDashboard.DepartmentStatsAddUp | src/pages/admin/AdminDashboard.tsx:81-84 | the counts, taken once per department, add up to the number of faculty |
| Auth.FindByEmail | src/contexts/AuthContext.tsx:85 | `find` returns nothing exactly when no account has the email; otherwise the first account with it |
| Auth.RegisteredCanSignIn | src/contexts/AuthContext.tsx:67-70 | a newly registered account signs in if its email was unused; with a used email, sign-in keeps reaching the earlier account |
| Auth.RegistrationIdsDistinct | src/contexts/AuthContext.tsx:127 | registrations at different instants get different ids, none equal to a seeded id once the clock reads 10 or more |
| Auth.AuthProvider.constructor | src/contexts/AuthContext.tsx:52-58 | the stored current user, if any, is restored and marked signed in |
| Auth.AuthProvider.Login | src/contexts/AuthContext.tsx:73-108 | the admin email signs in as administrator; otherwise the first account with the email signs in, getting a generated timetable only if it has none; an unknown email changes nothing; the password is ignored |
| Auth.AuthProvider.Logout | src/contexts/AuthContext.tsx:111-116 | the user, the flag and the stored current user are cleared, and the browser goes to the login page |
| Auth.AuthProvider.Register | src/contexts/AuthContext.tsx:119-149 | one faculty account is appended, a generated timetable is stored under its id, and nothing else changes |
| Auth.SignInLandsOnRenderedPage | src/contexts/AuthContext.tsx:79 | the page a successful sign-in goes to is rendered for the new user |
| Routes.Guard | src/components/ProtectedRoute.tsx:15-30 | no user gives the login page; a wrong role gives that role's own dashboard; the page renders exactly when signed in with the required role or none |
| Routes.HomeRenders | src/components/ProtectedRoute.tsx:21-27 | each role's dashboard renders for a user of that role |
| Routes.RedirectSettles | src/components/ProtectedRoute.tsx:17-27 | the page a redirect names always renders, so redirects never chain or loop |
| Routes.RolesSeparated | src/components/ProtectedRoute.tsx:21-27 | a page guarded for the other role sends the user to their own dashboard |

## Left out

- Probability and termination of the generator's rejection loop. The accepted (day, slot) is any unused slot. The loop ends only with probability 1, which the model does not express.
- `Math.random` itself. Every draw is a parameter.
- Floating point. Percentages, the balance score and `Math.round` are computed on exact reals; JavaScript's rounding error is not modelled.
- `ConflictsPage.BalanceScore`: the corrected formula stands beside the code and is proved in 0 to 100. The page's statistics record keeps the formula as written, `BalanceScoreAsWritten`, as the code does (see Findings).
- JSON (de)serialisation of storage, including stored values of the wrong shape. The one exception is a non-array timetable in the conflict check, which is modelled.
- Extra fields of a stored message system besides `messages`. The spread in the message append and the field assignment on select keep them in the source, and the model has no such fields.
- Object key order for keys that look like integers. Maps are modelled as key sets, and iteration order is given explicitly where it matters.
- Prototype keys such as `constructor` in lookups like `subjectsByDepartment[department]`.
- Unicode rules for `toLowerCase`, `toUpperCase` and `trim`. Case mapping is ASCII; white space is space, tab, newline, carriage return, form feed and vertical tab.
- `autoResolveConflicts`. The conflicts page calls it, but it is not defined in `src/utils/timetableGenerator.ts`, so it is not part of this model.
- Dates. ISO timestamp strings are epoch integers; `formatDate`, `toISOString` and invalid dates (NaN) in the inbox sort are not modelled.
- The per-day row sort on the faculty dashboard, which uses `localeCompare` and locale collation.
- `AdminMessages.LoadMessages`: the in-place `Array.prototype.sort` is modelled on values, as a stable insertion sort. Aliasing of the page's array is not captured.
- UI: rendering, toasts, dialogs opening, the print window, the reply text box after a send, and the message text box after sending.
- Navigation targets are returned as paths; the router itself is not modelled.
- `Index.tsx`, `Login.tsx`, `Layout.tsx`, `AddFacultyDialog.tsx` and `HolidayDialog.tsx` are not part of this model.

## Findings

| source | as written | input that shows it | evidently intended | confidence | as-written member | corrected member |
|---|---|---|---|---|---|---|
| src/pages/admin/ConflictsPage.tsx:128 | `maxVariance` is `(total - ideal)^2 / 6`, which counts only the deviation of the one busy day and leaves out the `ideal^2` of the other five | a timetable with one class, on Monday: counts `[1,0,0,0,0,0]` give variance 5/36 and maxVariance 25/216, so the score is `round(100 * (1 - 6/5)) = -20`, shown as "-20/100" | the score is out of 100 and all classes on one day is the worst case, so the maximum variance should be that case's full variance, `((total - ideal)^2 + 5 * ideal^2) / 6`, giving scores in 0..100 | not executed | ConflictsPage.AsWrittenGoesNegative | ConflictsPage.BalanceScoreRange |
