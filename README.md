# Mchacks mentorship platform — a verified model of its core

Mchacks connects students with mentors. Students find mentors, ask to connect and book their free time slots. Mentors publish availability and internship offers. Both sides exchange messages, receive notifications and see each other's presence live. This project models the logic under that glue and proves what it promises:

- **Presence registry and relay** (`Relay`, `ServerSocket`, `SocketConfig`, `SocketContext`).
  - The `connectedUsers` map is insertion-ordered, as a JavaScript `Map` is.
  - Each of the two socket relays is a class that holds the map, the room memberships and an outbox of emitted events. `ServerSocket` is the relay that backend/server.js:67-116 starts. `SocketConfig` models backend/config/socket.js as written, but no backend file requires that module or calls its `initializeSocket`, so nothing starts that relay.
  - The client mirrors presence as a set of online users and a `connected` flag.
- **Database** (`Store`). A class `Db` holds one map from id to record per collection, plus the next free id. Every controller step keeps its invariant, `ValidState`. It says:
  - every stored record passes its schema;
  - a booked slot names its student and appointment, and a free slot names neither;
  - a student applies at most once per internship;
  - the connection graph is symmetric and free of duplicates;
  - a mentor's pending requests are disjoint from their connections.
- **Records** (`UserModel`, `SlotModel`, `AppointmentModel`, `InternshipModel`): the schemas, with their validators, defaults and save hooks.
- **Controllers** (`Availability`, `Appointments`, `Users`, `Internships`, `Messages`, `Notifications`):
  - each HTTP handler is a method over the database;
  - it returns the status code and body kind the handler sends;
  - its guards run in the handler's order, and a failed guard changes nothing.
  - The `Availability` handlers and the assistant's handler are modelled as written but cannot be reached in this snapshot. backend/server.js:53-59 mounts neither backend/routes/availability.js nor a router for the assistant. frontend/src/services/api.js exports neither the `availabilityAPI` nor the `chatbotAPI` object that the pages call.
- **Scoring and the assistant** (`Matching`, `Chatbot`):
  - the match score as exact integer arithmetic;
  - the stable descending sort of mentors by score;
  - the assistant's history window and its keyword fallback.
- **Client pages** (`Calendar`, `MentorAvailability`, `StudentBooking`, `MyBookings`, `AvailabilityBadge`, `AvailabilityPreview`, `RegisterForm`, `ProfileForm`, `ConversationSync`):
  - the calendar-grid lookup and the week computation;
  - the booking and cancelling dialogs;
  - the upcoming/past partition and the badge and preview labels;
  - the registration checks and the comma-separated list fields;
  - the conversation copy kept in the browser's key-value store.
- **Shared vocabulary** (`Common`, `Base`, `Sorting`):
  - JavaScript `trim`, `split` and `toLowerCase` (the last for A-Z and Latin-1 only), plus `Math.ceil` and `Math.round` of a quotient;
  - the `find`/`sort`/`skip`/`limit` query shapes over the maps;
  - a stable insertion sort by an integer key.

Times are integer milliseconds of local time. A date is a whole day number, and two times show the same `toDateString` exactly when they fall on the same day. Ids are natural numbers handed out in increasing order, so listing documents "in insertion order" means listing them by increasing id.

## Model

| member | source | states |
|---|---|---|
| Common.TrimStart | backend/routes/auth.js:11 | the leading blanks removed: a suffix of the input after blanks only, not starting with a blank |
| Common.TrimEnd | backend/routes/auth.js:11 | the trailing blanks removed: a prefix of the input followed by blanks only, not ending with a blank |
| Common.Trim | frontend/src/components/Auth/Register.jsx:48 | `trim()` gives a text with no blank at either end: the window of the input between a run of leading and a run of trailing blanks |
| Common.TrimStartSpacePrefix | frontend/src/pages/Profile.jsx:166 | blanks before a text that does not start with one are all removed |
| Common.TrimSpacePrefix | frontend/src/pages/Profile.jsx:166 | blanks before a trimmed text are removed and the text is returned |
| Common.TrimUnchanged | frontend/src/components/Auth/Register.jsx:48 | trimming a trimmed text changes nothing |
| Common.TrimInside | frontend/src/components/Auth/Register.jsx:48 | trimming adds no character |
| Common.Split | frontend/src/components/Auth/Register.jsx:48 | `split(sep)` gives at least one piece, none holding the separator, and joining them back with it gives the input |
| Common.JoinConsHead | frontend/src/pages/Profile.jsx:160 | a character in front of the first entry is in front of the joined text |
| Common.SplitAfterHead | frontend/src/pages/Profile.jsx:166 | the text before the first separator is the first piece, and the rest splits on its own |
| Common.SplitNoSep | src/hooks/useConversationSync.ts:86 | a text without the separator is a single piece |
| Common.LowerChar | backend/controllers/chatbotController.js:136 | an upper-case letter of A-Z or of the Latin-1 range becomes the letter 32 code points on, every other character is kept |
| Common.Lower | backend/controllers/chatbotController.js:136 | `toLowerCase()`, restricted to A-Z and Latin-1, lower-cases each character in place |
| Common.CeilDiv | frontend/src/components/Availability/AvailabilityBadge.jsx:28 | `Math.ceil(a / b)` is the least whole number whose multiple of `b` reaches `a` |
| Common.RoundDiv | backend/controllers/availabilityController.js:22 | `Math.round(a / b)` is the whole number nearest `a / b`, halves rounding up |
| Base.Listing | backend/controllers/internshipController.js:30 | the stored documents below the next id, each once, in increasing id order |
| Base.Select | backend/controllers/internshipController.js:30 | `find(query)` lists exactly the stored documents that match, in increasing id order |
| Base.SelectSorted | backend/controllers/availabilityController.js:92-94 | `find(query).sort(key)` lists exactly the matching documents, each once and as a permutation of the id-order selection, sorted by the key |
| Base.SelectNone | backend/controllers/userController.js:263 | a query nothing matches finds nothing |
| Base.SelectSame | backend/controllers/notificationController.js:16 | two stores that agree on every matching document give the same result |
| Base.SelectLess | backend/controllers/notificationController.js:22 | a document that stops matching leaves the count one lower, and no other document changes count |
| Base.SelectStep | backend/controllers/notificationController.js:21 | counting up to the next id adds one exactly for a matching document stored there |
| Base.Where | backend/controllers/userController.js:18 | `filter(p)` keeps exactly the elements satisfying `p`, each as many times as in the input and none other |
| Base.WhereAppend | backend/controllers/userController.js:18 | filtering a concatenation is the concatenation of the filtered parts, so `filter` keeps the input order |
| Base.WhereAll | backend/controllers/userController.js:18 | filtering by a test every element passes changes nothing |
| Base.NoDupCons | backend/controllers/userController.js:197 | a list with a head has distinct elements exactly when its head is not in its tail and the tail is distinct |
| Base.WhereNoDup | backend/controllers/userController.js:197 | filtering keeps the elements distinct |
| Base.Remove | backend/controllers/userController.js:209-211 | removing every copy of `x` keeps everything else, is the identity when `x` is absent, and keeps the elements distinct |
| Base.RemoveFacts | backend/controllers/userController.js:209-211 | the `filter(v => v !== x)` form is the identity when `x` is absent and keeps the elements distinct |
| Base.AddOnce | backend/controllers/userController.js:214-215 | adding `x` when absent appends it and leaves the list otherwise as it was |
| Base.Count | backend/controllers/internshipController.js:112 | `filter(p).length` counts the elements satisfying `p` |
| Base.CountZero | backend/controllers/internshipController.js:112 | the count is zero exactly when no element passes |
| Base.SkipIsProduct | backend/controllers/notificationController.js:19 | the documents skipped are `(page - 1) * limit` |
| Base.Page | backend/controllers/notificationController.js:17-19 | `skip((page - 1) * limit).limit(limit)` takes at most `limit` consecutive rows starting after the skipped ones |
| Base.PageSorted | backend/controllers/notificationController.js:17-19 | a page of a sorted listing is sorted |
| Base.StoredPage | backend/controllers/userController.js:101-105 | every row of a page is a stored document that matches |
| Base.TotalPages | backend/controllers/notificationController.js:28 | `Math.ceil(total / limit)` pages are just enough to hold every row |
| Base.MulMono | backend/controllers/notificationController.js:28 | multiplying by a non-negative number keeps the order |
| Base.PageOfPosition | backend/controllers/notificationController.js:19 | the row at position `k` is on page `k / limit + 1` and on no other |
| Base.LastPageBound | backend/controllers/notificationController.js:28 | the page of every row is between 1 and the total number of pages |
| Base.RowOfPosition | backend/controllers/notificationController.js:17-19 | the row at position `k` is row `k % limit` of its page |
| Base.EveryRowOnAPage | backend/controllers/notificationController.js:17-28 | every row appears on a page that the page count reports, at its expected place |
| Base.OnSomePage | backend/controllers/internshipController.js:30-40 | every listed document appears on some reported page |
| Sorting.Insert | frontend/src/pages/MyBookings.jsx:40 | inserting into a sorted list keeps it sorted and adds exactly the one element |
| Sorting.ConsSorted | frontend/src/pages/MyBookings.jsx:40 | a head no greater than every element of a sorted tail gives a sorted list |
| Sorting.SortBy | frontend/src/pages/MyBookings.jsx:40 | the sort gives a list sorted by the key that is a permutation of the input |
| Sorting.InsertWithKey | frontend/src/pages/MyBookings.jsx:40 | inserting keeps the elements of every key in their order |
| Sorting.SortByStable | backend/utils/matching.js:24-29 | the sort is stable: the elements of one key keep their input order |
| Sorting.SortByMembers | frontend/src/pages/MyBookings.jsx:40 | the sort keeps exactly the input's elements |
| Relay.Keys | backend/server.js:67 | the user ids of the registry, one per entry, in iteration order |
| Relay.Get | backend/server.js:85 | `connectedUsers.get(u)` is absent exactly when `u` is not a key, and otherwise a socket stored under `u` |
| Relay.GetUnique | backend/server.js:67 | in a registry with distinct keys, looking up an entry's user gives that entry's socket |
| Relay.SetEntry | backend/server.js:74 | `Map.set` keeps an existing key in its place and appends a new key at the end |
| Relay.SetEntryGet | backend/server.js:74 | after `set(u, s)` the lookup of `u` gives `s` and every other lookup is unchanged |
| Relay.SetEntryUnique | backend/server.js:74 | `set` keeps the keys distinct |
| Relay.FirstWithSocket | backend/server.js:104-110 | the scan stops at the first entry holding the socket, or runs past the end when none does |
| Relay.UserOfSocket | backend/server.js:104-110 | the user found for a socket is none exactly when no entry holds it, and otherwise an entry pairs that user with the socket |
| Relay.WithoutSocket | backend/server.js:104-110 | the disconnect scan deletes one entry when some entry holds the socket and none otherwise |
| Relay.WithoutSocketGet | backend/server.js:104-110 | after the scan the keys stay distinct, the user found is no longer present, and every other lookup is unchanged |
| Relay.GetAfterDelete | backend/server.js:108 | deleting one entry removes that user's lookup and leaves every other one |
| Relay.ReRegisterSurvivesOldDisconnect | backend/server.js:73-110 | a user who registers again on a new socket stays registered to the new socket when the old socket disconnects |
| Relay.UserSocketMap.Set | backend/server.js:74 | the object's entries become `SetEntry` of the old ones and its keys stay distinct |
| Relay.UserSocketMap.RemoveFirstWithSocket | backend/server.js:104-110 | the loop returns the user of the first entry holding the socket and deletes exactly that entry |
| Relay.UserSocketMap.FindUserOfSocket | backend/config/socket.js:48 | the `find` returns none exactly when no entry holds the socket, and otherwise the user of the first such entry |
| Relay.LeaveAll | backend/server.js:102 | a disconnected socket leaves every room it had joined and no other membership changes |
| ServerSocket.ServerRelay.constructor | backend/server.js:67-69 | the relay starts with an empty registry, no rooms and nothing emitted |
| ServerSocket.ServerRelay.OnRegister | backend/server.js:73-80 | `register` stores the socket under the user, joins the user's room and announces the user online to every other socket |
| ServerSocket.ServerRelay.OnSendMessage | backend/server.js:83-90 | a message goes to the receiver's room only when the receiver is registered; nothing else changes |
| ServerSocket.ServerRelay.OnTyping | backend/server.js:93-99 | the typing state goes to the receiver's room whether or not the receiver is registered |
| ServerSocket.ServerRelay.OnDisconnect | backend/server.js:102-116 | the first entry holding the socket is deleted, the socket leaves its rooms, and the user found is announced offline unless none was found or its id is empty |
| ServerSocket.ServerRelay.Handle | backend/server.js:69-117 | each handled event gives the new registry, rooms and outbox of its handler: `register` sets the entry, joins and announces online; `send-message` emits only to a registered receiver; `typing` always emits; `disconnect` deletes the first entry on the socket, leaves its rooms and announces a non-empty user offline; the call events this server does not handle change nothing |
| SocketConfig.SocketRelay.constructor | backend/config/socket.js:2-6 | the relay starts with an empty registry, no rooms and nothing emitted |
| SocketConfig.SocketRelay.OnRegister | backend/config/socket.js:10-17 | `register` stores the socket under the user, joins the user's room and announces the user online to every other socket |
| SocketConfig.SocketRelay.OnSendMessage | backend/config/socket.js:20-25 | a message goes to the receiver's room unconditionally, registered or not |
| SocketConfig.SocketRelay.OnTyping | backend/config/socket.js:28-34 | the typing state goes to the receiver's room |
| SocketConfig.SocketRelay.OnDailyCallInvite | backend/config/socket.js:37-43 | the invite goes to the callee's room with the room URL and the caller's name |
| SocketConfig.SocketRelay.OnAcceptCall | backend/config/socket.js:45-50 | the acceptance goes to the caller's room, naming the user registered on the accepting socket, or nobody |
| SocketConfig.SocketRelay.OnRejectCall | backend/config/socket.js:52-55 | the refusal goes to the caller's room |
| SocketConfig.SocketRelay.OnEndCall | backend/config/socket.js:57-60 | the hang-up goes to the other party's room |
| SocketConfig.SocketRelay.OnDisconnect | backend/config/socket.js:63-77 | the first entry holding the socket is deleted, the socket leaves its rooms, and a found non-empty user is announced offline |
| SocketConfig.SocketRelay.Handle | backend/config/socket.js:6-78 | each handled event gives the new registry, rooms and outbox of its handler: `register` sets, joins and announces; `send-message`, `typing` and the four call events emit one event to the target's room (the acceptance naming the user on the socket); `disconnect` deletes, leaves and announces offline; an unknown event changes nothing |
| SocketContext.AddOnline | frontend/src/contexts/SocketContext.jsx:33-35 | `user-online` adds the user and leaves every other user's presence as it was |
| SocketContext.RemoveOnline | frontend/src/contexts/SocketContext.jsx:37-43 | `user-offline` removes the user and leaves every other user's presence as it was |
| SocketContext.ReplayAppend | frontend/src/contexts/SocketContext.jsx:24-43 | applying events one by one is the same as applying the last one to the state after the others |
| SocketContext.OnlineFollowsLastAnnouncement | frontend/src/contexts/SocketContext.jsx:33-55 | `isUserOnline(u)` holds after a run of events exactly when the last announcement about `u` was `user-online`, or, with none, when `u` was online before |
| SocketContext.ConnectedFollowsLastConnection | frontend/src/contexts/SocketContext.jsx:24-31 | `connected` is whatever the last connect or disconnect made it, or its earlier value |
| Relay.UserSocketMap.constructor | backend/server.js:67 | `new Map()` starts with no entries |
| Store.NewNotification | backend/controllers/availabilityController.js:267-275 | a new notification is unread, dated now, and names its recipient, its kind and the document it is about |
| Store.PutUserAccepted | backend/models/User.js:4-128 | storing a user that passes validation keeps every stored user valid |
| Store.PutInternshipValid | backend/models/Internship.js:3-65 | storing a valid offer with one application per student keeps the database valid |
| Store.Notified | backend/controllers/internshipController.js:128-135 | a notification stored under the next id, with the counter advanced and nothing else changed |
| Store.NotifiedValid | backend/controllers/internshipController.js:128-135 | storing a notification keeps the database valid |
| Store.PutMessageValid | backend/controllers/messageController.js:103-107 | storing a message keeps the database valid |
| Store.WithMessagesValid | backend/controllers/messageController.js:75-78 | rewriting existing messages keeps the database valid |
| Store.WithNotificationsValid | backend/controllers/notificationController.js:65-68 | rewriting or removing existing notifications keeps the database valid |
| Store.SameLinksGraph | backend/models/User.js:109-118 | replacing a user by one with the same role and connection lists keeps the connection graph |
| Store.PutUserValid | backend/controllers/userController.js:59 | saving a valid user with unchanged role and connection lists keeps the database valid |
| Store.Db.constructor | backend/server.js:17 | the database starts empty, with no id handed out, and valid |
| SlotModel.NewSlot | backend/models/AvailabilitySlot.js:3-79 | a new slot is stored exactly when the mentor, start, end, duration and a type from the enum are given; it starts unbooked with no student and no appointment, empty location, link and notes by default, and both dates at the time of creation |
| SlotModel.SlotTouched | backend/models/AvailabilitySlot.js:86-89 | every save sets `updatedAt` to the save time and changes nothing else |
| SlotModel.DurationMinutes | backend/controllers/availabilityController.js:22-24 | the duration is the number of minutes between start and end rounded half up, as `Math.round` does, and is not negative when start precedes end |
| AppointmentModel.NewAppointment | backend/models/Appointment.js:3-53 | a new appointment is stored exactly when student, mentor, date and a type are given and type and status are in their enums; defaults: 30 minutes, `confirmed`, empty location, link and notes |
| AppointmentModel.AppointmentTouched | backend/models/Appointment.js:59-62 | every save sets `updatedAt` to the save time and changes nothing else |
| Availability.SlotGuard | backend/controllers/availabilityController.js:110-122 | the checks in order: no such slot 404, not its mentor 403, booked 400, else 200 |
| Availability.CreateSlot | backend/controllers/availabilityController.js:7-48 | a missing start or end, or a start not before the end, gives 400 and creates nothing; a type outside the enum fails on save with 500; otherwise 201 and one new slot with the rounded duration |
| Availability.GetAvailableSlots | backend/controllers/availabilityController.js:68-101 | the result holds exactly the mentor's stored unbooked slots that start from now on, or on the requested day, each once, sorted by start |
| Availability.Edited | backend/controllers/availabilityController.js:125-137 | dates and type are overwritten only when given and truthy, location, link and notes whenever given; the duration is recomputed only when a date was given, and start before end is not re-checked |
| Availability.UpdateSlot | backend/controllers/availabilityController.js:104-150 | a failed check returns its status and changes nothing; an edited type outside the enum fails with 500; otherwise the slot becomes the edited one, re-dated |
| Availability.MoveSlot | backend/controllers/availabilityController.js:153-189 | a failed check returns its status and changes nothing; a missing date fails the save with 500 and changes nothing; otherwise the slot gets the new start and end and the duration recomputed from them; nothing else changes |
| Availability.DeleteSlot | backend/controllers/availabilityController.js:192-218 | after the checks, the slot and only the slot is removed |
| Availability.Booking | backend/controllers/availabilityController.js:238-250 | the appointment of a booking copies the slot's mentor, type, start, duration, location and link, takes the request's notes when truthy and the slot's otherwise, and is `confirmed` |
| Availability.BookedStateValid | backend/controllers/availabilityController.js:250-275 | booking a free slot keeps the database valid, both after the appointment and slot writes and after the mentor's notification |
| Availability.BookSlot | backend/controllers/availabilityController.js:221-293 | as written: no such slot 404, booked slot 400, both changing nothing; a free slot always ends in 500, never 200. The appointment and the booked slot pointing at it are stored first. Then either the requester has no user document and no notification is stored, or the mentor's notification is stored and the emit through the unassigned `global.io` throws |
| Availability.IntendedBookSlot | backend/controllers/availabilityController.js:221-293 | with an emitter that exists: the same checks and writes, 500 with no notification for a requester without a user document, otherwise 200 with the mentor's notification |
| Availability.CompleteBooking | backend/controllers/availabilityController.js:238-276 | the writes of a booking, and the mentor's notification exactly when the student has a user document; the database stays valid |
| Availability.TakeSlot | backend/controllers/availabilityController.js:236-256 | the appointment is stored under the next id and the slot is marked booked by the student for it, nothing else changes |
| Availability.UnbookedStateValid | backend/controllers/availabilityController.js:320-340 | cancelling a booked slot keeps the database valid, both after the appointment and slot writes and after the notification |
| Availability.CancelRecipient | backend/controllers/availabilityController.js:323-330 | the recipient is read after the student was cleared: the mentor when the student cancels, nobody when the mentor does |
| Availability.MentorCancelNotifiesNobody | backend/controllers/availabilityController.js:323-338 | a booked slot that the mentor cancels has a student, yet no one is notified |
| Availability.IntendedCancelNotifiesOtherParty | backend/controllers/availabilityController.js:330 | read before the reset, the recipient is always present and is the other party of the booking |
| Availability.CancelGuard | backend/controllers/availabilityController.js:301-317 | no such slot 404; a requester other than the mentor on a slot without student fails on the comparison (500); neither party 403; unbooked 400; else 200 |
| Availability.CancelBooking | backend/controllers/availabilityController.js:296-352 | as written: a refusal of the checks gives their status and changes nothing; a passed check always ends in 500, never 200. The appointment is deleted and the slot freed first. Then either the requester has no user document and no notification is stored, or one notification for the computed recipient is stored and the emit through the unassigned `global.io` throws |
| Availability.IntendedCancelBooking | backend/controllers/availabilityController.js:296-352 | with an emitter that exists: the same check and writes, 500 with no notification for a requester without a user document, otherwise 200 and one notification for the computed recipient |
| Availability.CompleteCancel | backend/controllers/availabilityController.js:319-340 | the writes of a cancel, and the notification exactly when the requester has a user document; the database stays valid |
| Availability.ResetSlot | backend/controllers/availabilityController.js:319-326 | the slot's appointment is deleted and the slot is free again, nothing else changes |
| Availability.GetStudentBookings | backend/controllers/availabilityController.js:355-372 | the result holds exactly the requester's booked slots, each once, sorted by start |
| Appointments.SessionInit | backend/controllers/appointmentController.js:37-54 | the link is non-empty exactly for a virtual session, the location is kept only for an in-person one, and the status is `confirmed` |
| Appointments.SessionBookedValid | backend/controllers/appointmentController.js:44-77 | storing the appointment and its two notifications keeps the database valid |
| Appointments.StoreSession | backend/controllers/appointmentController.js:44-77 | the appointment is stored under the next id, followed by one notification for the mentor and one for the student |
| Appointments.SessionGuard | backend/controllers/appointmentController.js:14-35 | the checks in order: target not a mentor 404, not among the student's connections 403, a non-cancelled appointment of that mentor at that exact time 400, else 200 |
| Appointments.BookAppointment | backend/controllers/appointmentController.js:9-83 | a failed check returns its status and changes nothing; an appointment that fails validation gives 500; otherwise 201 with the appointment and its two notifications stored |
| Appointments.GetMyAppointments | backend/controllers/appointmentController.js:88-114 | the result holds exactly the appointments where the requester is student or mentor that pass the status and upcoming filters, each once, by date |
| Appointments.CancelledStateValid | backend/controllers/appointmentController.js:135-154 | setting the status to cancelled and notifying keep the database valid |
| Appointments.CancelAppointment | backend/controllers/appointmentController.js:119-160 | no such appointment 404, not a party 403, both changing nothing; otherwise only the status becomes `cancelled`, repeatably, and the other party is notified |
| Appointments.GetMentorAvailability | backend/controllers/appointmentController.js:165-185 | not a mentor 404; otherwise available exactly when availability is enabled, with the two slot lists, or nothing |
| Appointments.NewAvailability | backend/controllers/appointmentController.js:200-204 | `enabled` keeps its old value when undefined, and each slot list keeps its old value when none is given; the stored lists are cast by the schema |
| UserModel.StrictVirtual | backend/models/User.js:80-89 | a virtual-coffee slot is stored without a location and otherwise as given |
| UserModel.StrictInPerson | backend/models/User.js:90-98 | an in-person slot is stored without a duration and otherwise as given |
| UserModel.StrictIdempotent | backend/models/User.js:80-98 | casting an already cast list again changes nothing |
| UserModel.StrictAvailability | backend/models/User.js:75-99 | the availability object as the schema stores it: `enabled` kept, both lists cast, and accepted exactly when the input is |
| Appointments.UpdateAvailability | backend/controllers/appointmentController.js:190-212 | a requester who is not a mentor gets 403; lists failing the `dayOfWeek` bounds fail on save with 500; otherwise the mentor's availability becomes the merged one and nothing else changes |
| Calendar.HourOf | frontend/src/pages/MentorAvailability.jsx:162-163 | `getHours()` is an hour of the day from 0 to 23 |
| Calendar.WeekDayOf | frontend/src/pages/MentorAvailability.jsx:140 | `getDay()` is a weekday from 0 (Sunday) to 6 |
| Calendar.AtFacts | frontend/src/pages/MentorAvailability.jsx:89-90 | `setHours(hour, 0, 0, 0)` on a date lands on that date at that hour |
| Calendar.NextDay | frontend/src/components/Availability/AvailabilityPreview.jsx:27-28 | adding a day's milliseconds moves to the next date |
| Calendar.FirstCovering | frontend/src/pages/MentorAvailability.jsx:155-166 | the scan from a position finds the first slot there or later that fills the cell, or shows that none does |
| Calendar.SlotAtTime | frontend/src/pages/MentorAvailability.jsx:155-166 | `getSlotAtTime` is none exactly when no slot fills the cell, and otherwise the first slot in list order that fills it |
| Calendar.SlotFillsItsHours | frontend/src/pages/StudentBookAvailability.jsx:80-91 | a slot from one whole hour to a later one of its date fills every cell from its first hour up to, not including, its last |
| Calendar.HoursAre | frontend/src/pages/MentorAvailability.jsx:152 | the grid rows are the ten hours 8 to 17 |
| Calendar.GetWeekDays | frontend/src/pages/MentorAvailability.jsx:137-149 | seven consecutive days from the computed week start |
| Calendar.WeekStartMonday | frontend/src/pages/StudentBookAvailability.jsx:64-76 | from Monday to Saturday the week shown starts on a Monday and week 0 holds today |
| Calendar.SundayShowsNextWeek | frontend/src/pages/MentorAvailability.jsx:140 | on a Sunday week 0 starts the next day, so today is not shown |
| Calendar.IntendedWeekStartMonday | frontend/src/pages/MentorAvailability.jsx:137-149 | the corrected week start is always a Monday, holds today in week 0, and differs from the computed one only on Sundays, by seven days |
| MentorAvailability.CellForm | frontend/src/pages/MentorAvailability.jsx:89-102 | the form for an empty cell spans one hour from the clicked hour of the clicked date, virtual, with every other field empty |
| MentorAvailability.Moved | frontend/src/pages/MentorAvailability.jsx:184-201 | a dropped slot starts at the target hour of the target date, keeps its id and other fields, and lasts the difference of its clock hours |
| MentorAvailability.MovedKeepsLength | frontend/src/pages/MentorAvailability.jsx:187-192 | a slot between two whole hours of one date keeps its length when moved |
| MentorAvailability.MovedWholeHours | frontend/src/pages/MentorAvailability.jsx:187-189 | minutes are dropped: a slot from 9:30 to 10:15 is moved as one full hour |
| MentorAvailability.MentorCalendar.constructor | frontend/src/pages/MentorAvailability.jsx:7-25 | the page starts with no slots, the empty form, no clicked cell, the dialog closed and nothing dragged |
| MentorAvailability.MentorCalendar.CellClick | frontend/src/pages/MentorAvailability.jsx:85-106 | a click on a cell a slot fills changes nothing; a click on an empty cell fills the form for that hour, records the cell and opens the dialog |
| MentorAvailability.MentorCalendar.DragStart | frontend/src/pages/MentorAvailability.jsx:169-172 | dragging records the slot and changes nothing else |
| MentorAvailability.MentorCalendar.Drop | frontend/src/pages/MentorAvailability.jsx:179-210 | without a dragged slot a drop sends nothing; otherwise it sends the moved slot; either way the dragged slot is cleared |
| StudentBooking.BookedNotSelectable | frontend/src/pages/StudentBookAvailability.jsx:217-230 | when every slot is booked, no cell can be chosen |
| StudentBooking.StudentCalendar.constructor | frontend/src/pages/StudentBookAvailability.jsx:13-19 | the page starts over the loaded slots with nothing selected, the dialog closed, no notes and no error |
| StudentBooking.StudentCalendar.CellClick | frontend/src/pages/StudentBookAvailability.jsx:217-230 | a click on a cell whose slot is free selects that slot and opens the dialog; any other click changes nothing |
| StudentBooking.StudentCalendar.EditNotes | frontend/src/pages/StudentBookAvailability.jsx:357 | typing in the notes field replaces the notes and nothing else |
| StudentBooking.StudentCalendar.Booking | frontend/src/pages/StudentBookAvailability.jsx:44-62 | with no slot selected nothing is sent; otherwise the slot id and the notes are sent, a success closes the dialog, clears the selection and notes and reloads, and a failure keeps the dialog and shows the error |
| StudentBooking.StudentCalendar.CloseModal | frontend/src/pages/StudentBookAvailability.jsx:305-309 | closing the dialog clears the selection and the notes |
| MyBookings.UpcomingAt | frontend/src/pages/MyBookings.jsx:35 | a booking is upcoming exactly when it starts now or later |
| MyBookings.PastAt | frontend/src/pages/MyBookings.jsx:37 | a booking is past exactly when it starts before now |
| MyBookings.FilteredBookings | frontend/src/pages/MyBookings.jsx:30-41 | the list shown is sorted by start and holds exactly the upcoming, the past or all bookings, as the filter says |
| MyBookings.UpcomingPastPartition | frontend/src/pages/MyBookings.jsx:30-41 | the upcoming and the past lists together hold every booking once, with no past booking among the upcoming and no upcoming one among the past |
| MyBookings.BookingsPage.constructor | frontend/src/pages/MyBookings.jsx:8-12 | the page starts over the loaded bookings with nothing selected and the dialog closed |
| MyBookings.BookingsPage.OfferCancel | frontend/src/pages/MyBookings.jsx:225-230 | the cancel button exists exactly for bookings that are not past, and pressing it selects the booking and opens the dialog |
| MyBookings.BookingsPage.CancelBooking | frontend/src/pages/MyBookings.jsx:43-56 | with nothing selected nothing is sent; otherwise the booking id is sent, and a success closes the dialog, clears the selection and reloads |
| AvailabilityBadge.DaysUntil | frontend/src/components/Availability/AvailabilityBadge.jsx:28 | the days until the start, rounded up |
| AvailabilityBadge.BadgeLabel | frontend/src/components/Availability/AvailabilityBadge.jsx:28-39 | the label by time ranges: "today" only for a start no later than now and less than a day ago, "tomorrow" for a start within the next 24 hours, a number of days up to six days ahead, and the date after that |
| AvailabilityBadge.LoadStatus | frontend/src/components/Availability/AvailabilityBadge.jsx:17-54 | a failed request shows no information, an empty list shows unavailable, and otherwise the first slot, its label and the number of slots |
| AvailabilityBadge.NotYetStartedNeverToday | frontend/src/components/Availability/AvailabilityBadge.jsx:25-34 | a first slot that has not yet begun never reads "today" |
| AvailabilityBadge.LaterTodayReadsTomorrow | frontend/src/components/Availability/AvailabilityBadge.jsx:28-34 | a slot at 10:00 seen at 8:00 the same day reads "tomorrow" |
| AvailabilityBadge.CalendarLabel | frontend/src/components/Availability/AvailabilityBadge.jsx:28-39 | the corrected label by calendar dates: today, tomorrow, a number of days up to six, then the date |
| AvailabilityBadge.CalendarLabelOfLaterToday | frontend/src/components/Availability/AvailabilityBadge.jsx:28-34 | with the corrected label, a later slot on today's date reads "today" and a slot on the next date reads "tomorrow", whatever the hours |
| AvailabilityPreview.EarliestThree | frontend/src/components/Availability/AvailabilityPreview.jsx:17-19 | at most three slots, sorted by start, drawn from the list |
| AvailabilityPreview.EarliestThreeAreEarliest | frontend/src/components/Availability/AvailabilityPreview.jsx:17-19 | the shown and the left-out slots are the whole list, and no left-out slot starts before a shown one |
| AvailabilityPreview.NextSlots | frontend/src/components/Availability/AvailabilityPreview.jsx:8-19 | a missing or empty list shows nothing; otherwise the caller's array is sorted by start in place and its first three are shown |
| AvailabilityPreview.PreviewLabel | frontend/src/components/Availability/AvailabilityPreview.jsx:26-39 | "today" exactly for a start on today's date, "tomorrow" exactly for the next date, and the start's date otherwise |
| AvailabilityPreview.SlotIcon | frontend/src/components/Availability/AvailabilityPreview.jsx:55 | the camera icon exactly for a virtual slot |
| AvailabilityPreview.PreviewLabelByDate | frontend/src/components/Availability/AvailabilityPreview.jsx:26-28 | the preview labels by date, whatever the hours of the slot and of now |
| RegisterForm.Step1Check | frontend/src/components/Auth/Register.jsx:83-97 | the first failing check decides: no role, then a missing email, password, first or last name, then a password under six characters; no error exactly when all pass |
| RegisterForm.BlankNamePassesStep1 | frontend/src/components/Auth/Register.jsx:83-97 | a first name of blanks passes step 1, yet the user it describes is refused when built |
| RegisterForm.ArrayInput | frontend/src/components/Auth/Register.jsx:48 | one trimmed, comma-free entry per comma-separated piece |
| RegisterForm.ArrayInputKeepsEmpty | frontend/src/components/Auth/Register.jsx:48 | two commas in a row give an empty entry |
| RegisterForm.WithArrayInput | frontend/src/components/Auth/Register.jsx:42-60 | the student role writes the interests and any other role the expertise |
| RegisterForm.Toggled | frontend/src/components/Auth/Register.jsx:459-461 | checking appends the option, unchecking removes every copy of it, and an absent list counts as empty |
| RegisterForm.ToggleOffClears | frontend/src/components/Auth/Register.jsx:452-462 | checking then unchecking leaves no copy of the option, and a check box change touches only its own list |
| RegisterForm.WithToggle | frontend/src/components/Auth/Register.jsx:452-462 | a check box writes the favourite list and leaves `communicationPreferences` as it was |
| RegisterForm.RegisterPage.constructor | frontend/src/components/Auth/Register.jsx:9-32 | the page starts on step 1 with the initial form and no error |
| RegisterForm.RegisterPage.NextStep | frontend/src/components/Auth/Register.jsx:83-100 | on step 1 a failing check shows its error and keeps the step; otherwise the error is cleared and the step advances |
| RegisterForm.RegisterPage.Submit | frontend/src/components/Auth/Register.jsx:62-81 | differing passwords show the mismatch and send nothing; otherwise the form is sent once, and the page navigates exactly on success or shows the server's message |
| RegisterForm.RegisterPage.ArrayField | frontend/src/components/Auth/Register.jsx:42-60 | a list field change stores the parsed list and nothing else |
| RegisterForm.RegisterPage.ToggleCommunication | frontend/src/components/Auth/Register.jsx:452-462 | a check box change stores the toggled list and nothing else |
| ProfileForm.TrimAll | frontend/src/pages/Profile.jsx:166 | each piece trimmed, in order |
| ProfileForm.ParseList | frontend/src/pages/Profile.jsx:166 | the entries are exactly the non-empty trimmed pieces, no more of them than pieces |
| ProfileForm.ParseListEntries | frontend/src/pages/Profile.jsx:214 | every parsed entry is trimmed, non-empty and free of commas |
| ProfileForm.Spaced | frontend/src/pages/Profile.jsx:160 | each entry behind one blank |
| ProfileForm.SplitBlank | frontend/src/pages/Profile.jsx:166 | a leading blank stays on the first piece |
| ProfileForm.SplitJoined | frontend/src/pages/Profile.jsx:160-166 | splitting the `", "`-joined entries gives the first entry and each later one behind a blank |
| ProfileForm.ParseDisplay | frontend/src/pages/Profile.jsx:160-166 | showing a list of clean entries and parsing the text back gives the same list |
| ProfileForm.TrimBlank | frontend/src/pages/Profile.jsx:166 | trimming a blank off a trimmed entry restores it |
| ProfileForm.TrimSpaced | frontend/src/pages/Profile.jsx:160-166 | trimming the pieces of the joined text restores the entries |
| ProfileForm.TrimPieceAt | frontend/src/pages/Profile.jsx:166 | each trimmed piece of the joined text is the entry at that position |
| ProfileForm.Edit | frontend/src/pages/Profile.jsx:95-99 | a field edit sets one key of one section and keeps the names and the other section |
| ProfileForm.EditLeavesOthers | frontend/src/pages/Profile.jsx:95-99 | an edit leaves every other key of every section as it was |
| ProfileForm.EditList | frontend/src/pages/Profile.jsx:160-214 | typing into a list field stores the parsed list, whose entries are all clean |
| UserModel.IndexOf | backend/models/User.js:13 | the position found is that of the first occurrence, or the length when there is none |
| UserModel.NoSpaceNorAtJoin | backend/models/User.js:13 | two runs without white space or `@`, joined by such a character, make one such run |
| UserModel.NoSpaceNorAtSlice | backend/models/User.js:13 | a slice of a run without white space or `@` is such a run |
| UserModel.IsEmailPattern | backend/models/User.js:13 | an address the scan accepts matches the pattern `^[^\s@]+@[^\s@]+\.[^\s@]+$` |
| UserModel.PatternIsEmail | backend/models/User.js:13 | every decomposition of the pattern is accepted by the scan |
| UserModel.IsEmailMatchesPattern | backend/models/User.js:11-16 | the scan accepts an address exactly when it matches the pattern |
| UserModel.NormalizeEmail | backend/models/User.js:9-10 | the stored address is trimmed and no longer than the given one |
| UserModel.NewUser | backend/models/User.js:4-128 | a new user is stored exactly when the normalised email is valid, the password has at least six characters, the role is in its enum, both trimmed names are non-empty and the mentor's communication types and `dayOfWeek` values are in range; it then holds the hashed password, the defaults (no connections, availability and `offersInternship` off) and both dates at the time of creation |
| UserModel.Saved | backend/models/User.js:131-150 | a save re-hashes the password only when it was modified and sets `updatedAt`; nothing else changes |
| UserModel.UserTouched | backend/models/User.js:147-150 | the `updatedAt` hook changes that date and nothing else |
| Users.WithoutPassword | backend/controllers/userController.js:9 | the profile sent out has no password and is otherwise the stored user |
| Users.Unconnected | backend/controllers/userController.js:18-20 | the cleaned pending list keeps exactly the pending ids that are not connections, and is no longer |
| Users.ProfileReadChangesNothing | backend/controllers/userController.js:15-26 | reading a profile in a valid database changes nothing, since no pending id is also a connection there |
| Users.ProfileRepairRemoves | backend/controllers/userController.js:16-25 | a read that saves happens only for a user with an id both pending and connected |
| Users.ProfileReadUnneeded | backend/controllers/userController.js:16-25 | in a valid database the cleaned pending list keeps its length, so the save is never attempted |
| Users.GetUserProfile | backend/controllers/userController.js:7-32 | an unknown id gives 404; 500 exactly when a mentor's cleaned pending list shrank and the save is rejected; in a valid database every known id gives 200 with nothing changed; otherwise the cleaned list is saved when it shrank and the profile is returned without password |
| Users.Override | backend/controllers/userController.js:52-56 | a key given in the patch wins; a missing one keeps the stored value |
| Users.MergeStudentInfo | backend/controllers/userController.js:52 | the student fields are a shallow merge in which the patch's keys win |
| Users.MergeMentorInfo | backend/controllers/userController.js:56 | the mentor fields are a shallow merge in which the patch's keys win; a given availability object is stored as the schema casts it |
| Users.MergeIdempotent | backend/controllers/userController.js:51-57 | merging the same patch twice is merging it once, and an empty patch changes nothing |
| Users.Edited | backend/controllers/userController.js:45-57 | an empty or missing name or picture keeps the old value, names are trimmed, and only the info of the user's own role is merged |
| Users.UpdateProfile | backend/controllers/userController.js:37-64 | an unknown user gives 404; an edit that fails validation gives 500; both change nothing; otherwise the user becomes the edited one, saved |
| Users.MentorFilter | backend/controllers/userController.js:73-99 | the query value accepts a user exactly when it is a mentor passing the search, industry, expertise and internship conditions |
| Users.Hidden | backend/controllers/userController.js:102 | each row is the stored user without password, in the same order |
| Users.UserPage | backend/controllers/userController.js:101-105 | a page holds at most `limit` matching users, without passwords, newest first |
| Users.SearchMentors | backend/controllers/userController.js:69-118 | the result is the requested page of the matching mentors, newest first and without passwords; `total` counts all matches and `totalPages` is its quotient by `limit` rounded up |
| Users.RequestGuard | backend/controllers/userController.js:125-140 | the checks in order: target not a mentor 404, requester unknown 500, already connected or already pending 400, else 200 |
| Users.RequestedStateValid | backend/controllers/userController.js:143-154 | a request adds the student to the mentor's pending list once, changes no other user and keeps the database valid |
| Users.RequestedGraph | backend/controllers/userController.js:143 | the appended pending list has no duplicates and stays disjoint from the connections |
| Users.RequestConnection | backend/controllers/userController.js:123-160 | the status is that of the checks; a refusal changes nothing; success stores the request and the mentor's notification |
| Users.AcceptGuard | backend/controllers/userController.js:171-194 | the checks in order: target not a student 404, requester unknown 500, already connected 400, else 200; no earlier request is needed |
| Users.AlreadyConnectedStateValid | backend/controllers/userController.js:194-201 | when already connected, only the student is stripped from the pending list, and the database stays valid |
| Users.LinkedShape | backend/controllers/userController.js:208-220 | the two saves of an accept add the mentor to the student's connections and the student to the mentor's, drop the student from the mentor's pending list, and keep roles and every other user |
| Users.NewEdgeLinksOk | backend/controllers/userController.js:208-220 | one new edge between a student and an unconnected user keeps each user's links valid |
| Users.NewEdgeGraph | backend/controllers/userController.js:208-220 | one new edge between a student and an unconnected user keeps the whole connection graph valid |
| Users.LinkedGraph | backend/controllers/userController.js:208-220 | after an accept each user is in the other's connections once, the student is no longer pending, no other user changes, and the graph has no duplicates and no pending id that is a connection |
| Users.LinkedUsersOk | backend/controllers/userController.js:222-223 | the two saved users still validate |
| Users.AcceptedStateValid | backend/controllers/userController.js:208-237 | an accepted connection and its notification keep the database valid |
| Users.AcceptConnection | backend/controllers/userController.js:165-247 | 404 and 500 change nothing; when already connected only the pending entry goes (400); otherwise the two users are linked and the student notified |
| Users.SelectById | backend/controllers/userController.js:263-270 | the rows are exactly the stored users passing the query, by ascending id |
| Users.RecommendFilter | backend/controllers/userController.js:263-270 | the query value accepts a user exactly when it is a mentor, neither the student nor a connection, whose expertise or industry meets one of the student's interests |
| Users.FirstTenRows | backend/controllers/userController.js:263-272 | at most ten rows, each a stored user passing the query, without password |
| Users.FirstTenOrder | backend/controllers/userController.js:263-272 | the rows come in natural (id) order |
| Users.FirstTenComplete | backend/controllers/userController.js:263-272 | fewer than ten rows means every matching user is among them |
| Users.FirstRows | backend/controllers/userController.js:272 | the first page is a prefix of the list, and the whole list when shorter than the limit |
| Users.AllRowsHidden | backend/controllers/userController.js:263-272 | every matching stored user is among the rows, without password |
| Users.GetRecommendations | backend/controllers/userController.js:252-278 | an unknown student gets no mentors; otherwise the first ten matching mentors in natural order, without passwords |
| InternshipModel.NewInternship | backend/models/Internship.js:3-64 | a new offer is stored exactly when the mentor and the six required strings are given, title and company non-empty after trimming; it then holds the trimmed title and company, `maxStudents` defaulting to 1, no applicants and both dates at the time of creation |
| InternshipModel.NewApplicant | backend/models/Internship.js:42-56 | an application is `pending` and dated at the moment it was made |
| InternshipModel.AcceptedCount | backend/controllers/internshipController.js:112 | the number of accepted applications is at most the number of applications, and zero exactly when none is accepted |
| InternshipModel.AcceptedCountAppendPending | backend/controllers/internshipController.js:112-121 | appending an application that is not accepted leaves the count of taken places unchanged |
| InternshipModel.AppendOneApplication | backend/controllers/internshipController.js:103-121 | appending the application of a student who has not applied keeps at most one application per student |
| InternshipModel.FirstApplication | backend/controllers/internshipController.js:161-163 | the position found is the first with that student, and the only one when each student applied once |
| InternshipModel.WithStatus | backend/controllers/internshipController.js:169 | only the status of the first application of that student changes; students, dates and length are kept |
| InternshipModel.WithStatusOneApplication | backend/controllers/internshipController.js:169 | changing one status keeps one application per student |
| InternshipModel.AcceptedCountSetStatus | backend/controllers/internshipController.js:112 | setting one status moves the accepted count by the one change: minus one if it was accepted, plus one if it becomes accepted |
| InternshipModel.InternshipTouched | backend/models/Internship.js:71-74 | the pre-save hook sets `updatedAt` to the save time and changes nothing else |
| Internships.InternshipFilter | backend/controllers/internshipController.js:12-28 | the query value accepts an offer exactly when it passes the industry, location and search conditions that were sent |
| Internships.InternshipPage | backend/controllers/internshipController.js:30-34 | a page of the newest-first matching list holds at most `limit` stored, matching offers, newest first |
| Internships.EveryInternshipListed | backend/controllers/internshipController.js:30-43 | every stored matching offer is on one of the pages from 1 to `totalPages` |
| Internships.GetInternships | backend/controllers/internshipController.js:8-47 | the result is the requested page of the matching offers sorted newest first; `total` counts all matches and `totalPages` is its quotient by `limit` rounded up |
| Internships.OwnedBy | backend/controllers/internshipController.js:54-73 | the offer is built from the body with the requester as its mentor, whatever the body says |
| Internships.CreateGuard | backend/controllers/internshipController.js:52-80 | the checks run in order: a requester who is not a stored mentor gets 403; otherwise a body that fails validation once owned by the requester gets 500; otherwise 201 |
| Internships.CreateInternship | backend/controllers/internshipController.js:52-82 | the status is the guard's; a refused request changes nothing and returns no id; on 201 the offer built from the body, owned by the requester, is stored under the next id and nothing else changes; the database stays valid |
| Internships.StoreInternship | backend/controllers/internshipController.js:63-73 | a valid offer without applicants is stored under the next id, the id counter advances, nothing else changes, and the database stays valid |
| Internships.ApplyGuard | backend/controllers/internshipController.js:89-115 | the checks in order: not a student 403, no such offer 404, already applied or offer full 400, else 200 |
| Internships.Applied | backend/controllers/internshipController.js:117-123 | the offer gains one pending application by the requester at the end and is re-dated; nothing else changes |
| Internships.AppliedFacts | backend/controllers/internshipController.js:103-123 | after applying, the student has exactly one application, the new last one, pending; the accepted count is unchanged and the offer still validates |
| Internships.AppliedStateValid | backend/controllers/internshipController.js:117-123 | an accepted application keeps the database valid |
| Internships.ApplyOnce | backend/controllers/internshipController.js:103-109 | applying a second time to the same offer is refused with 400 |
| Internships.ApplyToInternship | backend/controllers/internshipController.js:87-141 | the status is the outcome of the checks; a refusal changes nothing; success stores the offer with the new application |
| Internships.ManageGuard | backend/controllers/internshipController.js:151-167 | the checks in order: no such offer 404, not its mentor 403, no application by that student 404, else 200 |
| Internships.Managed | backend/controllers/internshipController.js:169-170 | the first application of the student gets the decision and the offer is re-dated; nothing else changes |
| Internships.ManagedOnly | backend/controllers/internshipController.js:161-170 | a decision changes the status of that student's application and of no other |
| Internships.ManagedCount | backend/controllers/internshipController.js:169 | a decision moves the accepted count by that one application's change |
| Internships.ManagedIdempotent | backend/controllers/internshipController.js:169-170 | taking the same decision twice gives the same applications as taking it once |
| Internships.ManageOverCapacity | backend/controllers/internshipController.js:146-170 | the decision is not checked against the capacity: on a full offer with one place, accepting a second student gives two accepted |
| Internships.ManagedValid | backend/models/Internship.js:47-51 | a decision within the status enum keeps the offer valid and one application per student |
| Internships.ManagedStateValid | backend/controllers/internshipController.js:169-170 | a valid decision keeps the database valid |
| Internships.ManageApplication | backend/controllers/internshipController.js:146-189 | a failed check returns its status and changes nothing; a decision outside the enum fails on save with 500 and changes nothing; otherwise 200 and the offer is stored with the decision |
| Messages.Involving | backend/controllers/messageController.js:13-15 | the query accepts exactly the messages the user sent or received |
| Messages.Peers | backend/controllers/messageController.js:24-26 | the peer of each message is its receiver when the user sent it and its sender otherwise |
| Messages.FirstSeen | backend/controllers/messageController.js:21-37 | every entry of the conversation map points at a message already scanned |
| Messages.FirstSeenOk | backend/controllers/messageController.js:23-37 | the map holds, for every peer met, the position where it was met first, in order of first meeting |
| Messages.FirstSeenDistinct | backend/controllers/messageController.js:28 | the map has exactly one entry per distinct peer |
| Messages.FirstIsNewest | backend/controllers/messageController.js:16-28 | on a newest-first list, each entry's message is the newest with that peer |
| Messages.SeenByRecency | backend/controllers/messageController.js:21-49 | the entries are ordered by the recency of their last message |
| Messages.UnreadFilter | backend/controllers/messageController.js:41-45 | the query accepts exactly the unread messages from the peer to the user |
| Messages.GroupByPeer | backend/controllers/messageController.js:21-37 | when every message has its users, one conversation per distinct peer in order of first meeting, each with the newest message; a missing user fails |
| Messages.CountUnread | backend/controllers/messageController.js:40-47 | each conversation gets the number of unread messages its peer sent to the user, and nothing else changes |
| Messages.GetConversations | backend/controllers/messageController.js:8-54 | 500 with nothing when a message lacks its users; otherwise one conversation per peer, newest first by last message, with its unread count |
| Messages.Between | backend/controllers/messageController.js:64-69 | the query accepts exactly the messages between the two users in either direction |
| Messages.MarkedRead | backend/controllers/messageController.js:75-78 | marking read keeps the set of messages |
| Messages.MarkedReadClears | backend/controllers/messageController.js:75-78 | afterwards no unread message from the peer to the user is left |
| Messages.MarkedReadKeepsOthers | backend/controllers/messageController.js:75-78 | the unread counts from any other peer are unchanged |
| Messages.MarkedReadChanges | backend/controllers/messageController.js:75-78 | only the `read` flag changes, and it is set exactly on the peer's messages to the user |
| Messages.GetMessages | backend/controllers/messageController.js:59-84 | the thread is both directions oldest first, read before marking; then the peer's messages to the user are marked read and nothing else changes |
| Messages.NewMessage | backend/controllers/messageController.js:103-107 | a new message is unread and dated now, with the given sender, receiver and content |
| Messages.SendMessage | backend/controllers/messageController.js:89-127 | an unknown receiver gives 404 and an unknown sender 500, both changing nothing; otherwise 201 with the message and the receiver's notification stored; no connection is required |
| Messages.ReadGuard | backend/controllers/messageController.js:134-142 | no such message 404, requester not its receiver 403, else 200 |
| Messages.ReadIdempotent | backend/controllers/messageController.js:144-145 | marking a message read twice is marking it once |
| Messages.MarkMessageRead | backend/controllers/messageController.js:132-151 | the status is that of the checks; a refusal changes nothing; success sets that message's `read` flag only |
| Notifications.NotificationFilter | backend/controllers/notificationController.js:10-14 | the query value accepts a notification exactly when it passes the owner and `read` conditions |
| Notifications.ReadParameter | backend/controllers/notificationController.js:12-14 | without `read` all of the caller's notifications match; `read=true` the read ones; any other value the unread ones |
| Notifications.UnreadOf | backend/controllers/notificationController.js:22 | the query accepts exactly the caller's unread notifications |
| Notifications.NotificationPage | backend/controllers/notificationController.js:16-19 | a page holds at most `limit` of the caller's matching notifications, newest first |
| Notifications.GetNotifications | backend/controllers/notificationController.js:6-34 | the requested page of the matching list, newest first; `total` counts the matches, `totalPages` is its quotient by `limit` rounded up, and `unreadCount` counts all of the caller's unread notifications whatever the filter |
| Notifications.OwnerGuard | backend/controllers/notificationController.js:41-49 | no such notification 404, one without recipient fails on the comparison (500), not the owner 403, else 200 |
| Notifications.ReadOneIdempotent | backend/controllers/notificationController.js:51-52 | marking a notification read twice is marking it once |
| Notifications.ReadOneCount | backend/controllers/notificationController.js:51-52 | marking one notification read lowers the caller's unread count by one when it was unread, and by nothing otherwise |
| Notifications.MarkNotificationRead | backend/controllers/notificationController.js:39-58 | the status is that of the checks; a refusal changes nothing; success marks that notification read only |
| Notifications.DeleteNotification | backend/controllers/notificationController.js:79-97 | the status is that of the checks; a refusal changes nothing; success removes that notification only |
| Notifications.AllRead | backend/controllers/notificationController.js:65-68 | marking all read keeps the set of notifications |
| Notifications.AllReadClears | backend/controllers/notificationController.js:65-68 | afterwards the caller has no unread notification |
| Notifications.AllReadKeepsOthers | backend/controllers/notificationController.js:65-68 | notifications of other users and their unread counts are unchanged |
| Notifications.MarkAllAsRead | backend/controllers/notificationController.js:63-74 | the status is 200 and only the caller's notifications are marked read |
| Matching.Shared | backend/utils/matching.js:12-14 | the number of shared interests is at most the number of interests; zero exactly when no interest is in the expertise, all exactly when every one is |
| Matching.SharedSameSubjects | backend/utils/matching.js:12-14 | the count depends only on which subjects the expertise lists, not on their order or repetition |
| Matching.MatchScore | backend/utils/matching.js:2-20 | a missing interest or expertise list gives 0; an empty interest list gives NaN; otherwise it is a number, namely 100 times the shared count over the number of interests rounded half up, i.e. `2n·s <= 200c + n < 2n·(s+1)`, and lies in 0..100 |
| Matching.ScoreRange | backend/utils/matching.js:17-19 | a rounded percentage of at most the whole lies in 0..100 |
| Matching.ScoreExtremes | backend/utils/matching.js:12-19 | with fewer than 200 interests, the score is 100 exactly when every interest is shared and 0 exactly when none is |
| Matching.MatchScoreSameSubjects | backend/utils/matching.js:12-14 | reordering or repeating the mentor's expertise leaves the score unchanged |
| Matching.Tagged | backend/utils/matching.js:24-28 | each mentor is paired with its own score, in input order |
| Matching.NaNOnlyBesideZero | backend/utils/matching.js:3-17 | when one mentor scores NaN, every mentor scores NaN or 0 |
| Matching.SortByMatchScore | backend/utils/matching.js:23-30 | the result is a permutation of the tagged mentors, each with its own score, in non-increasing score order |
| Matching.SortByMatchScoreStable | backend/utils/matching.js:29 | mentors whose scores compare equal keep their input order |
| Matching.WithKeyAll | backend/utils/matching.js:29 | when every entry compares equal, the entries with that key are the whole list |
| Matching.NoInterestsInputOrder | backend/utils/matching.js:3-29 | with an empty interest list the order is the input order |
| Chatbot.TurnOf | backend/controllers/chatbotController.js:74-84 | one entry gives at most one turn |
| Chatbot.Turns | backend/controllers/chatbotController.js:73-85 | the turns of a list are no more than its entries |
| Chatbot.TurnsRoles | backend/controllers/chatbotController.js:74-84 | every turn speaks as `user` or as `model` |
| Chatbot.TurnsOneEach | backend/controllers/chatbotController.js:74-84 | when every entry is from `user` or `bot`, each gives one turn at its own position: `user` stays `user`, `bot` becomes `model`, with its text |
| Chatbot.Window | backend/controllers/chatbotController.js:73 | the window is the last ten entries, or all of them when there are fewer |
| Chatbot.BuildHistory | backend/controllers/chatbotController.js:58-86 | without a null entry in the window, the history is the two fixed turns followed by the window's turns, between 2 and 12 turns long; a null entry fails |
| Chatbot.AppendTurns | backend/controllers/chatbotController.js:73-85 | the loop appends each entry's turn in order, and stops with a failure at a null entry |
| Chatbot.TurnsStep | backend/controllers/chatbotController.js:73-85 | one more entry adds its own turn at the end |
| Chatbot.FallbackTopic | backend/controllers/chatbotController.js:135-155 | the rules are tried on the lower-cased message in the fixed order mentor search, internship, appointment, messaging; the first that matches answers, and the menu greeting the user by first name answers when none does |
| Chatbot.LowerTwice | backend/controllers/chatbotController.js:136 | lower-casing twice is lower-casing once |
| Chatbot.FallbackIgnoresCase | backend/controllers/chatbotController.js:136 | a message and its lower-cased form get the same answer |
| Chatbot.Chat | backend/controllers/chatbotController.js:38-132 | a missing or empty message gives 400 and no model call; otherwise a successful reply: the model's text, the rule answer when only the model call fails, and the rule answer flagged `fallback` only when the handler itself fails |
| ConversationSync.StorageKeyInjective | src/hooks/useConversationSync.ts:63 | two conversations with the same storage key are the same conversation |
| ConversationSync.NewConversation | src/hooks/useConversationSync.ts:84-93 | a new conversation has the id, no messages, the part before the first `_` as first user, and the second part, if any, as second user |
| ConversationSync.NewConversationUsers | src/hooks/useConversationSync.ts:86 | the id `a_b` names `a` and `b` as the two users |
| ConversationSync.NewConversationOneUser | src/hooks/useConversationSync.ts:86 | an id without `_` gives a first user and no second user |
| ConversationSync.ConversationSync.constructor | src/hooks/useConversationSync.ts:25-26 | the hook starts with no messages over the given store |
| ConversationSync.ConversationSync.LoadMessages | src/hooks/useConversationSync.ts:62-75 | the messages become the stored ones; none when the key is missing, empty or unparsable; `undefined` when the value has no `messages` field; the store is only read |
| ConversationSync.ConversationSync.Poll | src/hooks/useConversationSync.ts:46-60 | one poll tick takes the stored messages when they parse, sets `undefined` for a value without `messages`, and otherwise keeps the current ones |
| ConversationSync.ConversationSync.AddMessage | src/hooks/useConversationSync.ts:77-100 | the message is appended to the stored conversation, or to a new one when the key is missing or empty, written back and shown; unparsable text, or a value without `messages` to push onto, makes the call fail with nothing changed |

## Findings

| source | as written | input that shows it | evidently intended | confidence | as-written member | corrected member |
|---|---|---|---|---|---|---|
| frontend/src/pages/MentorAvailability.jsx:137-149 | the week starts at `today - getDay() + 1`; `getDay()` is 0 on Sunday | any Sunday: the week shown starts the next day, so today is not in week 0 (the same code is at frontend/src/pages/StudentBookAvailability.jsx:64-76) | the Monday on or before today | not executed | Calendar.SundayShowsNextWeek | Calendar.IntendedWeekStartMonday |
| frontend/src/components/Availability/AvailabilityBadge.jsx:28-34 | the label comes from `Math.ceil` of the time left in days, so a day count of 0 needs a start no later than now | seen at 8:00, a slot at 10:00 the same day reads "Demain" (tomorrow) | a label by calendar date, as in frontend/src/components/Availability/AvailabilityPreview.jsx:26-28 | not executed | AvailabilityBadge.LaterTodayReadsTomorrow | AvailabilityBadge.CalendarLabelOfLaterToday |
| backend/controllers/availabilityController.js:278 | the booking handler emits through `global.io`, which no module assigns (backend/server.js:21 keeps `io` in a local constant) | booking any free slot as a student with a user document: the appointment, the booked slot and the notification are stored, then a TypeError gives 500 | 200 with the booking, after emitting through the server's `io` | not executed | Availability.BookSlot | Availability.IntendedBookSlot |
| backend/controllers/availabilityController.js:343 | the cancel handler emits through the same unassigned `global.io` | cancelling a booked slot as one of its parties with a user document: the appointment is deleted, the slot freed and the notification stored, then a TypeError gives 500 | 200 after emitting through the server's `io` | not executed | Availability.CancelBooking | Availability.IntendedCancelBooking |
| backend/controllers/availabilityController.js:323-330 | the recipient of the cancellation notice is computed after `studentId` has been set to null | a mentor cancels a booked slot: the recipient is null, so the student is not told | the other party: the student when the mentor cancels, the mentor otherwise | not executed | Availability.MentorCancelNotifiesNobody | Availability.IntendedCancelNotifiesOtherParty |

The controllers and pages keep the code's behaviour, since that is what runs. For each finding, the corrected definition and its proof stand next to the as-written one.

## Left out

- The HTTP and socket transports are not modelled: Express routing, CORS, authentication middleware, `server.listen` and the Socket.io room mechanics. Delivery is an outbox of emitted events with their target, and a room is a set of (socket, user) memberships.
- Common.Lower: models `toLowerCase()` for A-Z and the Latin-1 capitals only, with one character out per character in. JavaScript also lowers letters beyond Latin-1 (Œ, Σ, Ł and so on), and some of them change length (`"İ".toLowerCase()` has two code units). So `Common.Matches` (the case-insensitive `$regex` search) and the chatbot's keyword fallback are exact only on text in that range. Full Unicode case mapping is outside the model.
- Common.LowerChar: keeps every character outside A-Z and the Latin-1 capitals, for the same reason.
- The booking and cancelling handlers call `global.io.to(...)` after their writes (availabilityController.js:278 and :343). Nothing assigns `global.io`, so the call throws a TypeError before anything is emitted, and the handler answers 500; `Availability.BookSlot` and `Availability.CancelBooking` model that outcome, see "## Findings". Even with a `global.io`, the rooms named `user_<id>` would not match the rooms named `<id>` that backend/server.js:75 joins. No socket event of these handlers is modelled.
- `backend/models/Message.js` and `backend/models/Notification.js` are not part of this model. Their records are reconstructed from the fields the controllers use.
- The texts of notifications, error bodies and assistant replies are reduced to the kind of reply. `populate` is left out, since it only replaces ids by documents in the output.
- A Mongo regular-expression search (`$regex` with `$options: 'i'`) is modelled as case-insensitive substring containment. Regular-expression metacharacters typed by the user are not interpreted.
- A `page` or `limit` below 1, and ids that are not valid ObjectIds or dates that do not parse, are excluded by the callers' preconditions. The handlers do not check them, and Mongo's behaviour on them is outside the model.
- Time zones, daylight-saving time, `toISOString` and `toLocaleDateString` output are left out. Local time is a single integer clock.
- Floating point: `Math.round` and `Math.ceil` are exact integer formulas. The score 0/0 of an empty interest list is the separate value `NaN` of `Matching.Score`. The descending sort treats a comparison with NaN as equal, as the comparator's NaN result does.
- The call to the Gemini model is a parameter of `Chatbot.Chat` (its reply, or a failure). The network is not modelled.
- JWT issuing and bcrypt hashing are left out. The password hash is a function parameter, and the user making a request is an argument.
- A stored conversation whose `messages` field holds something other than a list of messages is not modelled: the stored value is a conversation, text that does not parse, or a value without that field.
- The `storage` event listener and the 500 ms timer of the conversation hook are left out. `ConversationSync.ConversationSync.Poll` models one tick of the timer, and `LoadMessages` models what the listener calls.
- The form submission, edit and delete handlers of the mentor's calendar page (`handleSubmit`, `handleEdit`, `handleDelete`) are not modelled. They only forward the form to the slot endpoints, which are modelled in `Availability`.
- The first and last name inputs of the profile page replace one field each; they are not modelled separately from `ProfileForm.Edit`.
- The `preferredCommunication` filter of the mentor search, `professionalHistory` and the other purely descriptive profile fields are carried as opaque values or left out.
- Interleavings across `await` are not modelled. An example is two students booking the same slot at once. Each handler is one atomic step.
- Password length is counted in characters, where JavaScript counts UTF-16 code units.
- `AvailabilityPreview.NextSlots` states what the array holds after the in-place sort, not the engine's sorting algorithm.
- `handleArrayInput` is modelled for its two call sites: the student's interests and the mentor's expertise.
- The clients emit `webrtc-offer`, `webrtc-answer`, `ice-candidate` and `call-user`, but neither socket server handles them. They are the `Unhandled` event, which changes nothing.
- The media and third-party call components (WebRTC, Daily, Jitsi) and the client service wrappers over axios and Socket.io are left out.
- Matching.ScoreExtremes: stated for fewer than 200 interests. With 200 interests, all but one shared already rounds to 100 (99.5 rounds up). With 201 or more, one shared interest rounds to 0.
- Internships.ManageOverCapacity: shows the code as written. Accepting an applicant performs no capacity check, so the accepted count can exceed `maxStudents`.
