# Student dashboard — a verified model of its server logic

The system is a small school web application written with Express and SQLite. Students, teachers and
administrators sign up and sign in. The database holds four tables: users, the weekly timetable
(`schedules`), homework (`assignments`) and events. Every user gets a dashboard for a week they
navigate to:

- a student sees their group's timetable and the week's homework and events;
- a teacher sees the whole timetable, its groups and the homework they set;
- an administrator sees the whole timetable and the week's events.

Teachers create, edit and delete their own homework. Administrators edit the timetable and the events.

This project models that logic in Dafny over an in-memory store and proves what each handler promises.

- **Storage.** Each table is a sequence of rows in id order. Nullable columns are `Option`s, and
  AUTOINCREMENT counters hand out the ids. The declared constraints are predicates that every
  operation preserves: the role CHECK, UNIQUE login and e-mail, and the foreign keys of
  `assignments.scheduleId`, `assignments.createdByUserId` and `events.scheduleId`. The database
  enforces those foreign keys, so an insert or update that breaks one fails and the route answers 500. The `Store` class holds the tables and the column catalogue. Its methods create the
  schema, add optional columns and seed the timetable with nested loops.
- **Dates.** Due dates are millisecond timestamps. Event dates are day numbers counted from
  1 January 1970.
- **Handlers.** Each HTTP handler is a method that takes the store and the session user. It runs
  the role gate first and then does what a pure function (validation, merge, lookup) decides.
  The method's contract ties the new tables to that function, and the function's own contract
  states the 400/403/404 cases and the stored values.
- **Dashboard.** The dashboard is a pure function of the tables, the session user, the query
  and the current day.

Modules (one per file):

| module | file | what it holds |
|---|---|---|
| `Wrappers` | `wrappers.dfy` | `Option` and `Result` |
| `Text` | `text.dfy` | `.trim()`, JavaScript truthiness, the four-digit group format, SQLite text order |
| `Seqs` | `seqs.dfy` | filtering, sorting and de-duplicating rows |
| `Rows` | `rows.dfy` | a table keyed by id: `SELECT`/`UPDATE`/`DELETE … WHERE id = ?` |
| `Db` | `db.dfy` | records, constraints, inserts, the delete cascade, the seed, the `Store` class |
| `Order` | `order.dfy` | the `ORDER BY` clauses and the shared timetable queries |
| `Week` | `week.dfy` | the Monday computation, week navigation, the Monday–Sunday window |
| `Http` | `http.dfy` | handler outcomes: redirect, page, 400 with its reason, 403, 404, 500 |
| `Gate` | `gate.dfy` | the session and the `requireAuth` / `requireRole` guards |
| `Dashboard` | `dashboard.dfy` | `GET /dashboard` for the three roles |
| `Assignments` | `assignments.dfy` | the `/assignments` routes |
| `Schedule` | `schedule.dfy` | the `/schedule` routes |
| `Events` | `events.dfy` | the `/events` routes |
| `Auth` | `auth.dfy` | landing redirects, login, the three sign-ups, logout |

## Model

| member | source | states |
|---|---|---|
| Week.DaysSinceMonday | app/routes/dashboard.js:9-10 | `(dow + 6) % 7` lies in 0..6; it is 0 exactly for Monday and 6 for Sunday |
| Week.GetMonday | app/routes/dashboard.js:8-12 | the result is a Monday and `day` falls in the seven days starting there |
| Week.MondayUnique | app/routes/dashboard.js:8-12 | any Monday whose week contains `day` is the one `GetMonday` returns |
| Week.DayOfWeekPeriodic | app/routes/dashboard.js:44 | adding whole weeks keeps the weekday, so `add(offset, 'week')` stays on a Monday |
| Week.Amount | app/routes/dashboard.js:39 | the amount is at least 1; a positive input is kept, and a missing, zero or negative one becomes 1 |
| Week.NavigatedOffset | app/routes/dashboard.js:40-43 | `prev` subtracts the amount, `next` adds it, and any other direction keeps the current offset |
| Week.NavigateExample | app/routes/dashboard.js:39-43 | from offset 0, `next` with amount 2 gives offset 2 |
| Week.NavigateRoundTrip | app/routes/dashboard.js:39-43 | `next` followed by `prev` with the same amount returns to the starting offset |
| Week.WeekWindow | app/routes/dashboard.js:44-45 | the window starts on a Monday, ends six days later on a Sunday, and contains the day `offset` weeks from today |
| Week.SameWeek | app/routes/dashboard.js:47-50 | a timestamp lies between the first and last millisecond of the window exactly when its day lies in the window |
| Order.DayRank | app/routes/dashboard.js:17-19 | the CASE rank is the day's position in mon..sun; any other text ranks lowest |
| Order.TextOrder | app/routes/dashboard.js:102 | text order is total and transitive |
| Order.SlotOrder | app/routes/dashboard.js:17-19 | the timetable order (day rank, then start time) is total and transitive |
| Order.EventOrder | app/routes/events.js:15 | the event order (date, then start time) is total and transitive |
| Order.SortSlots | app/routes/dashboard.js:17-19 | the result is a permutation of the rows, and every row is in timetable order with every later one |
| Order.SortEvents | app/routes/events.js:15 | the result is a permutation of the rows, ordered by date and then start time |
| Order.SortAssignments | app/routes/dashboard.js:66 | the result is a permutation of the rows, ordered by due date |
| Order.ScheduleOfGroup | app/routes/dashboard.js:14-22 | each row of that group appears exactly as often as in the table and no other row appears, in timetable order; a NULL group gets none |
| Order.AllSchedule | app/routes/dashboard.js:24-32 | all rows, in timetable order |
| Order.AllEvents | app/routes/events.js:10-19 | all events, ordered by date and then start time |
| Dashboard.ScheduleIds | app/routes/dashboard.js:54 | the id list has one id per row and holds exactly the rows' ids |
| Dashboard.GroupIds | app/routes/dashboard.js:53-54 | the ids of the group's timetable are exactly the ids of that group's classes |
| Dashboard.StudentAssignments | app/routes/dashboard.js:55-69 | each assignment of the listed classes due within the window appears exactly as often as in the table, nothing else appears, ordered by due date; with no classes, none |
| Dashboard.StudentEvents | app/routes/dashboard.js:70-88 | an event appears, exactly as often as in the table, iff it is dated in the window and it is linked to one of the classes, has no group, or has the student's group; both query branches agree; ordered by date and start time |
| Dashboard.TeacherAssignments | app/routes/dashboard.js:103-115 | each of the teacher's own assignments on an existing class due within the window appears exactly as often as in the table, nothing else, ordered by due date |
| Dashboard.WeekEvents | app/routes/dashboard.js:116-123 | each event dated in the window appears exactly as often as in the table, whatever its group, nothing else, ordered by date and start time |
| Dashboard.Groups | app/routes/dashboard.js:102 | every group of the timetable appears once, nothing else appears, and the list is in text order |
| Dashboard.SameGroups | app/routes/dashboard.js:101-102 | reordering the timetable does not change the set of groups |
| Dashboard.Navigation | app/routes/dashboard.js:39-45 | the amount is the parsed one (at least 1), the offset is the navigated one, and the window runs Monday to Sunday around the day `offset` weeks from today |
| Dashboard.Dashboard | app/routes/dashboard.js:34-158 | no user goes to /login and an unknown role goes to /; each role gets its own page. The navigation carries the parsed amount and the navigated offset over a Monday–Sunday week. Every listing holds each qualifying row exactly as often as the table does and nothing else: the student's group's timetable, its homework in the window and the events it may see; the whole timetable, the teacher's homework and the week's events; for an admin the whole timetable and the week's events. The teacher's groups appear once each, in text order. Every list is ordered |
| Gate.RequireAuth | app/middleware/auth.js:1-6 | the request passes iff there is a session user; otherwise it goes to /login |
| Gate.RequireRole | app/middleware/auth.js:8-17 | no user goes to /login before any role check; a role outside the list gets 403; the request passes iff the role is in the list |
| Gate.RoleGateStronger | app/middleware/auth.js:8-17 | passing `requireRole` implies passing `requireAuth`, and enlarging the role list never rejects an accepted user |
| Assignments.ScheduleGroupMatches | app/routes/assignments.js:9-12 | true iff a timetable row with that id exists and belongs to that group |
| Assignments.List | app/routes/assignments.js:15-41 | a teacher gets each of their own assignments on an existing class, an admin each assignment on an existing class, exactly as often as in the table and nothing else, by due date; another role gets 403, no user /login, and no other refusal occurs |
| Assignments.ValidateCreate | app/routes/assignments.js:46-63 | 400 "missing" iff the class id is 0 or not a number, or a trimmed field is empty; then 400 when the group is not four digits; then 400 when the class is not in that group. The row it accepts is linked to a class of that group, holds the trimmed texts, has no extension, and records the acting teacher as author. A form passing all three checks is accepted |
| Assignments.Create | app/routes/assignments.js:44-65 | the gate runs first; a refused form changes nothing; an accepted row is inserted under the next id, and an author missing from the users table fails the foreign key with 500 and no change; validity is kept |
| Assignments.OwnedRow | app/routes/assignments.js:72-76 | 404 iff no row has that id; 403 iff the row's author is someone else; otherwise the stored row |
| Assignments.Merge | app/routes/assignments.js:77-86 | empty homework, due date or subject text keep the stored value; the extension date and penalty take what the form holds, and null when omitted; the class and the author never change |
| Assignments.MergeIdempotent | app/routes/assignments.js:77-86 | submitting the same edit twice has the effect of submitting it once |
| Assignments.MergeEmptyForm | app/routes/assignments.js:80-84 | an empty edit keeps the row but clears its extension |
| Assignments.Update | app/routes/assignments.js:68-88 | 404 and 403 change nothing; otherwise only that row is replaced by the merge. Any change implies the actor is the teacher who wrote the row |
| Assignments.Delete | app/routes/assignments.js:91-99 | 404 and 403 change nothing; otherwise exactly that row is removed. Any change implies the actor is its author |
| Schedule.List | app/routes/schedule.js:8-29 | with a group filter each row of that group appears exactly as often as in the table and nothing else; without one, a permutation of the table; in timetable order |
| Schedule.ValidateCreate | app/routes/schedule.js:33-49 | 400 iff one of the five required fields is empty after trimming, then 400 iff the group is not four digits, and every other form is accepted; the stored row holds the trimmed texts, with an empty room or teacher stored as NULL |
| Schedule.TrimmedOrNull | app/routes/schedule.js:38-39 | an optional field is NULL exactly when it is empty after trimming, else its trimmed text |
| Schedule.TrimIfSent | app/routes/schedule.js:61-65 | a sent field is trimmed and an absent one stays absent |
| Schedule.MergeSlot | app/routes/schedule.js:56-80 | 400 iff a group is sent that is non-empty but not four digits after trimming. Empty required fields keep the stored value. Room and teacher are stored trimmed whenever sent, even empty, and kept otherwise. A four-digit group stays four-digit |
| Schedule.MergeSlotEmptyForm | app/routes/schedule.js:69-80 | an edit that sends nothing leaves the row unchanged |
| Schedule.MergeSlotBlankRoom | app/routes/schedule.js:61-77 | a room sent empty is stored as the empty text, whereas creation stores NULL |
| Schedule.Create | app/routes/schedule.js:32-51 | non-admins are stopped by the gate; a refused form changes nothing; an accepted one inserts exactly that row |
| Schedule.Update | app/routes/schedule.js:54-82 | a missing row gives 404 before the group is checked; a bad group changes nothing; otherwise only that row is replaced by the merge |
| Schedule.Delete | app/routes/schedule.js:85-89 | the gate runs first; the delete cascade is applied, so a missing id changes nothing |
| Events.List | app/routes/events.js:10-19 | all events, ordered by date and start time |
| Events.ValidateCreate | app/routes/events.js:24-38 | 400 iff title, date, start or end time is missing or empty. The stored row keeps them as sent. An empty description or group becomes NULL, and the class link is kept as given |
| Events.MergeEvent | app/routes/events.js:48-58 | empty title, date, start and end keep the stored value. A sent description replaces the old one, even when empty. The class link and the group take what the form holds, so omitting them clears them |
| Events.MergeEventEmptyForm | app/routes/events.js:48-58 | an empty edit keeps the event but unlinks it from its class and group |
| Events.MergeEventIdempotent | app/routes/events.js:48-58 | submitting the same edit twice has the effect of submitting it once |
| Events.Create | app/routes/events.js:22-40 | the gate runs first; a refused form changes nothing; a link to a missing class fails the foreign key with 500 and no change; otherwise the row is inserted under the next id |
| Events.Update | app/routes/events.js:43-61 | 404 with no change for a missing event; a link to a missing class fails the foreign key with 500 and no change; otherwise only that row is replaced by the merge |
| Events.Delete | app/routes/events.js:64-68 | only the row with that id is removed; when there is none, nothing changes |
| Auth.Landing | app/routes/auth.js:9-16 | a signed-in user is redirected to the dashboard; anyone else gets the page |
| Auth.UserByLogin | app/routes/auth.js:22 | the row found has that login; none is found iff no user has it |
| Auth.UserByLoginAppend | app/routes/auth.js:72 | after inserting a user whose login is new, a lookup of that login finds the new row |
| Auth.SessionOf | app/routes/auth.js:30-36 | the session carries the user's id and role, so the role gate for that role lets it through |
| Auth.LoginResult | app/routes/auth.js:19-42 | success iff the login exists and the password matches its hash, and the session is {id, role, fullName, groupName, subject} of that row. An unknown login or a wrong password gives 400; a known login without a password gives 500 |
| Auth.Login | app/routes/auth.js:19-42 | the session user is set exactly on success; every failure leaves the session as it was |
| Auth.RoleOf | app/routes/auth.js:68-123 | each sign-up route inserts a role the CHECK constraint accepts |
| Auth.NewUser | app/routes/auth.js:67-123 | the row carries the route's role and the password hash. Only students store a group, and only teachers store a subject and a phone, with an empty phone stored as NULL |
| Auth.RegisterResult | app/routes/auth.js:61-137 | 400 iff a required field of that form is empty, then 400 "exists" iff the login or e-mail is taken, and every other sign-up succeeds. On success exactly one user row is appended under the next id, other tables are unchanged, and the session belongs to the new row with the route's role |
| Auth.RegisterThenLogin | app/routes/auth.js:19-85 | for every complete sign-up whose login and e-mail are free, signing in right after it with the same login and password yields the session the sign-up created |
| Auth.RegisterTwiceRefused | app/db.js:36-37 | after a valid sign-up, a second complete sign-up with the same login is refused as existing |
| Auth.Register | app/routes/auth.js:61-137 | a refused form changes neither tables nor session; an accepted one stores the new tables and signs the user in; the store stays valid |
| Auth.Logout | app/routes/auth.js:139-143 | the session user is cleared and the client goes to /login |
| Text.Trim | app/routes/assignments.js:47-50 | the result is the infix of the input left after removing the white space before and after it; it neither starts nor ends with white space, and it is empty iff the input is all white space |
| Text.TrimIdempotent | app/routes/schedule.js:33-39 | trimming twice equals trimming once |
| Text.OrNull | app/routes/events.js:32-37 | `x \|\| null` is NULL iff the field is absent or empty, else the field |
| Text.IsFourDigits | app/routes/assignments.js:54 | a four-digit code is non-empty and is its own trim |
| Text.LexLeTotal | app/routes/dashboard.js:19 | any two texts are comparable in text order |
| Text.LexLeTransitive | app/routes/dashboard.js:19 | text order is transitive |
| Text.LexLeAntisymmetric | app/routes/dashboard.js:19 | texts ordered both ways are equal |
| Text.FourDigitExamples | app/routes/assignments.js:54 | "3011" has the group format, "301" and "ABCD" do not |
| Seqs.Filter | app/routes/dashboard.js:64-65 | a row appears iff it is in the input and accepted, and an accepted row appears exactly as often as in the input |
| Seqs.FilterAppend | app/routes/dashboard.js:64-65 | filtering a concatenation is the concatenation of the filtered parts, so kept rows stay in their original order |
| Seqs.FilterSingle | app/routes/dashboard.js:64-65 | a single accepted row is kept and a rejected one dropped; with `FilterAppend` this fixes the result entirely |
| Seqs.FilterAll | app/routes/dashboard.js:64-65 | when every row is accepted the input comes back unchanged |
| Seqs.SortBy | app/routes/dashboard.js:66 | sorting yields an ordered permutation |
| Seqs.SortedPairwise | app/routes/dashboard.js:66 | in a sorted result every row is ordered with every later one |
| Seqs.PermutationNoDuplicates | app/routes/dashboard.js:102 | sorting a duplicate-free list keeps it duplicate-free |
| Seqs.Distinct | app/routes/dashboard.js:102 | `[...new Set(s)]` has no repeats and the same elements as `s` |
| Rows.Find | app/routes/assignments.js:72-75 | the row found has the id; none is found iff no row has it |
| Rows.FindUnique | app/routes/assignments.js:72-75 | with unique ids, the lookup returns the only row with that id |
| Rows.Replace | app/routes/assignments.js:77-86 | `UPDATE … WHERE id = ?` rewrites the rows with that id and leaves every other row as it was |
| Rows.FindAfterReplace | app/routes/assignments.js:77-86 | after the update the id reads back the new values and other ids read as before |
| Rows.Remove | app/routes/assignments.js:97 | `DELETE … WHERE id = ?` drops every row with that id and keeps each other row exactly as often as before, in id order; deleting a missing id changes nothing |
| Rows.FindAfterRemove | app/routes/assignments.js:97 | after the delete the id is gone and other ids read as before |
| Rows.AppendFresh | app/db.js:33 | an appended row adds its id; with a fresh, larger id the ids stay unique and increasing and the row reads back |
| Db.InsertUser | app/db.js:31-43 | the insert is refused by the role CHECK or by a taken login or e-mail, and succeeds exactly when neither applies; then exactly one row is appended under the next id, the id counter advances by one, and the constraints still hold |
| Db.InsertSlot | app/db.js:46-55 | the existing rows are kept and the new row is appended under the next id, which advances by one; the other tables are unchanged; on a valid store the row reads back and validity is kept |
| Db.InsertAssignment | app/db.js:61-73 | refused by the foreign keys iff the class or the author is missing; otherwise the existing rows are kept and the new row is appended under the next id, the other tables unchanged, reading back, with validity kept |
| Db.InsertEvent | app/db.js:78-90 | refused by the foreign key iff the event links to a missing class; otherwise the existing rows are kept and the new row is appended under the next id, the other tables unchanged, reading back, with validity kept |
| Db.ReplaceSlotValid | app/db.js:47-55 | updating a class keeps the ids, so the store stays valid |
| Db.ReplaceAssignmentValid | app/db.js:70-71 | updating an assignment whose class and author exist keeps the store valid |
| Db.ReplaceEventValid | app/db.js:88 | updating an event that links to nothing or to an existing class keeps the store valid |
| Db.RemoveEventValid | app/db.js:79-90 | deleting an event keeps the store valid |
| Db.RemoveAssignmentValid | app/db.js:61-73 | deleting an assignment keeps the store valid |
| Db.ClearScheduleRef | app/db.js:88 | `ON DELETE SET NULL`: events linked to the deleted class lose the link, all others are unchanged |
| Db.DeleteSlot | app/db.js:70-88 | a missing id changes nothing. Otherwise the class goes and every other class stays exactly as often as before; its assignments go (`ON DELETE CASCADE`) and the others stay; every event keeps its place, id and columns, and the ones linked to the class lose the link (`ON DELETE SET NULL`). The store stays valid |
| Db.SeedSlot | app/db.js:126-138 | a seeded row has its day, group and subject, a start time among the six slots and a room among the four |
| Db.SeedIndex | app/db.js:126-128 | the nested loops' position (day, group, subject) is row 16·day + 4·group + subject |
| Db.SeedOnePerCombination | app/db.js:126-128 | two seeded rows share day, group and subject iff they are the same row |
| Db.SeedDistinctTimes | app/db.js:129 | for a fixed day and group the four subjects get four different start times |
| Db.SlotIndexDistinct | app/db.js:129 | `(gi + si) % 6` differs for different subjects of one group |
| Db.SeedRowsWellFormed | app/db.js:100-137 | every seeded group has four digits and every seeded subject has a teacher |
| Db.TeacherFor | app/db.js:102-137 | a subject gets a teacher iff it is one of the seeded subjects, and that name is non-empty |
| Db.SeedStep | app/db.js:130-138 | inserting the next seeded row extends the seeded prefix by exactly that row and keeps the store valid |
| Db.Store.SeedDay | app/db.js:126-141 | one day's loop inserts the next 16 seeded rows (4 groups × 4 subjects) |
| Db.Store.SeedGroup | app/db.js:127-140 | one group's loop inserts the next 4 seeded rows, one per subject |
| Db.Store.ColumnExists | app/db.js:17-20 | true iff the table's column list holds the name |
| Db.Store.EnsureColumn | app/db.js:22-26 | adds the column only when missing, so a second call changes nothing; other tables are untouched |
| Db.Store.CreateTableIfNotExists | app/db.js:32-44 | the table is declared with its columns only when missing; an existing table keeps its columns and every other table is untouched |
| Db.AddMissingFacts | app/db.js:22-26 | a run of `ensureColumn` calls keeps the existing columns as a prefix, ends with exactly the old and the optional names, adds no repeat, and changes nothing when every optional column is already there |
| Db.WithTableFacts | app/db.js:31-91 | one `CREATE TABLE IF NOT EXISTS` plus its `ensureColumn` calls: an existing table keeps its columns as a prefix, a new one starts with its declared columns, every optional column ends up present, other tables are untouched, and a table that already has them all is left as it was |
| Db.ApplyDeclsFacts | app/db.js:31-91 | a run of table statements keeps every existing table with its columns as a prefix, adds only the declared tables, leaves the others as they were, and leaves every declared table with its optional columns |
| Db.ApplyDeclsIdle | app/db.js:31-91 | the statements change nothing in a catalogue that already holds every declared table and optional column |
| Db.SchemaIdempotent | app/db.js:28-91 | running the schema part a second time leaves the catalogue as the first run left it |
| Db.SchemaAdds | app/db.js:31-91 | after the schema part the four tables exist, with `room` and `teacherName` on schedules, `createdAt` and `subjectText` on assignments and `createdAt` on events |
| Db.SchemaOfEmpty | app/db.js:31-91 | on a new database file users get their declared columns, and each other table gets its declared columns followed by the added ones in statement order |
| Db.SchemaSteps | app/db.js:31-91 | the four table statements in source order compose to the schema part |
| Db.Store.CreateTableWithColumns | app/db.js:31-91 | the catalogue becomes exactly `WithTable` of the old one: an existing table keeps its column list and a missing one gets its declared list, then each optional column not yet present is appended in order; the table exists with every optional column and other tables are untouched |
| Db.Store.CreateSchema | app/db.js:31-91 | the catalogue becomes exactly `Schema` of the old one, so a second run changes nothing (`Db.SchemaIdempotent`); the four tables exist, with `room` and `teacherName` on schedules, `createdAt` and `subjectText` on assignments and `createdAt` on events |
| Db.Store.SeedScheduleIfEmpty | app/db.js:96-143 | a non-empty timetable is left alone, so re-running never duplicates rows. An empty one receives exactly the 80 seeded rows under consecutive ids. The store stays valid |
| Db.Store.InitializeDatabase | app/db.js:28-94 | the catalogue becomes exactly `Schema` of the old one, so the four tables and their optional columns exist (`room`, `teacherName`, `createdAt`, `subjectText`); a non-empty timetable leaves every table as it was; an empty one receives exactly the 80 seeded rows and every other table is left as it was |

## Left out

- Rendering, views, message texts and the JSON projections are not modelled. This covers `displaySubject`, the joined class columns, the teacher's e-mail and name, and the `e.*`/`s.*` column clash. Handlers return an `Outcome` or the rows they would list.
- Password hashing and comparison are not modelled. Registration receives the hash, and login receives the comparison as a function `matches(password, hash)`. A failure inside `bcrypt.hash` is not modelled.
- Parsing and formatting with dayjs and `parseInt`/`Number` is not modelled. The model receives parsed values, where `None` stands for a missing, blank or non-numeric input. Fractional numbers and NaN bound to SQLite are left out. So are unparsable dates: for assignments `toISOString` throws and the route answers 500, and for events `format` stores the text "Invalid Date". An `offset` that is not a number arrives as `None`, which the model reads as 0, as the source does.
- The current time is not read. It is a parameter (`today`, a day number), and local time is taken to be UTC. `Week.StartMs` and `Week.EndMs` therefore place the window on UTC day boundaries.
- Dashboard.Dashboard: the JavaScript `Date` range is not modelled. An `offset` or `amount` that moves the week more than about 1.43·10^7 weeks from today gives an invalid date, so `toISOString` (app/routes/dashboard.js:49-50) throws and the route answers 500. The model uses unbounded day numbers and returns a page for every integer offset. `Week.WeekWindow` and the navigation helpers share this limit.
- Due dates and event dates are integers, not ISO texts. The model assumes the text order of the ISO strings matches chronological order, which holds for four-digit years.
- JavaScript's default `sort()` compares UTF-16 code units. `Text.LexLe` compares characters; the two agree on the digit-only group names the timetable uses.
- The foreign keys are checked on insert and on the event update, the only update that can change a reference. The assignment update keeps both of its references as they were. `Schedule.Update` may change a class's group without touching its assignments, as the source does. The cascade on deleting a user is not modelled, because no route deletes users.
- Column types, `NOT NULL` checks on absent values and the `DEFAULT (CURRENT_TIMESTAMP)` of `createdAt` are not modelled. The column catalogue records column names only, and `Db.Store.EnsureColumn` takes the name rather than the column definition text.
- `getDb`'s memoized handle, `pathForDb`, the `.immediate()` transaction, the session store and cookie expiry, and concurrent requests are left out. Each handler runs atomically.
- The `catch` blocks are modelled only for the causes named above. The sign-up routes answer 400 from their `catch`: "already exists" for a taken login or e-mail, and the server-error text for any other constraint failure. Only the login route's `catch` answers 500, for a missing password.
- Process start-up (`app/index.js`: middleware wiring, static files, the 404 fallback, `listen`) and the browser theme script are not part of this model. The `requireAuth` mount in front of the dashboard and the listings appears as the `ToLogin` case of each listing and of `Dashboard.Dashboard`.
- `GET /register/student|teacher|admin` just render the form, and `GET /logout` always redirects; they have no logic beyond `Auth.Logout`.
