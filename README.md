# Persistent reminder tool — Dafny model

The application keeps a list of reminder tasks. Each task has an assignee
address, a reminder interval, a status (pending or completed), the time of the
last reminder and a count of reminders sent. A timer tick picks the pending
tasks whose interval has elapsed. For each of them the tick asks a
text-generation service for a reminder email, puts the email at the front of
a simulated inbox, and updates the task's timestamp and count. If the service
call fails, a local template supplies the email. Completed tasks are never
reminded. A guard flag keeps a second tick from working while one is in
flight.

The project is made of four modules:

- `Types` (`types.dfy`): the task and email records and the status enum.
- `Schedule` (`schedule.dfy`): the due rule, the filter that picks the due
  tasks, and the countdown a task card shows.
- `Gemini` (`gemini.dfy`): `generateReminderEmail`. It chooses between the
  decoded reply, the default reply and the local fallback template, and it
  renders that template.
- `Store` (`store.dfy`): the class `ReminderStore`, which holds the `tasks`,
  `emails` and `isProcessing` state of the app. Its methods `AddTask`,
  `CompleteTask` and `Tick` model `addTask`, `completeTask` and
  `checkReminders`. Specification functions give the new state after a tick,
  and lemmas say what a tick does to each task and to the inbox.

Inputs the source takes from its environment are parameters:

- The time is `now`, the first `Date.now()` of a tick.
- The two later clock readings per due task are `clock(2k)`, the send time of
  the k-th email, and `clock(2k+1)`, the new `lastReminderAt` of the k-th due
  task.
- Fresh email ids are `ids(k)`, and the new task's id is an argument.
- The reminder generator is `gen`.
- In `Gemini`, the outcome of the service call and the JSON decoding of its
  text are parameters.

Intervals are whole milliseconds (`intervalMs`), standing in for
`intervalHours * 3600000`.

A task that was never reminded is due at once, even at the very time it is
created (App.tsx:295); see `Store.NewTaskIsDue`.

The datatypes of `Types` model the records of types.ts: `TaskStatus`
(types.ts:2-5), `Task` (types.ts:7-19), `SimulatedEmail` (types.ts:21-32),
and `Reply`, the `{ subject, content }` pair of services/geminiService.ts:12.
`Option` stands for `number | null` in `lastReminderAt`.

## Model

| member | source | states |
|---|---|---|
| Schedule.IsDue | App.tsx:291-297 | the due rule of the filter callback; its meaning is stated by the four lemmas below |
| Schedule.CompletedNeverDue | App.tsx:291-292 | a task that is not pending is never selected for a reminder |
| Schedule.NeverRemindedPendingDue | App.tsx:295 | a pending task with no truthy `lastReminderAt` (missing or 0) is due at any time |
| Schedule.DueIffIntervalElapsed | App.tsx:294-296 | a pending task that has been reminded is due exactly when `now - lastReminderAt >= interval` |
| Schedule.DueBoundary | App.tsx:296 | the comparison is inclusive: not due 1 ms before `last + interval`, due at `last + interval` |
| Schedule.DueTasks | App.tsx:291-297 | the filter returns no more tasks than the snapshot holds |
| Schedule.DueTasksMembers | App.tsx:291-297 | a task is in the filtered list exactly when it is in the snapshot and is due |
| Schedule.DueTasksAppend | App.tsx:291-297 | filtering distributes over concatenation, so store order is kept |
| Schedule.DueAtPosition | App.tsx:291-297 | a due task at store index j sits in the filtered list at index "number of due tasks before j" |
| Schedule.DueOrigin | App.tsx:291-297 | every entry of the filtered list is a due store task whose due position is that entry's index |
| Schedule.NextReminderIn | App.tsx:98-100 | the countdown is 0 for a never-reminded task; otherwise `now + r` reaches `last + interval`, and a positive countdown ends exactly there |
| Schedule.CountdownZeroIffDue | App.tsx:98-100 | for a pending task the countdown reads 0 exactly when the tick would remind it |
| Schedule.Hours | App.tsx:102 | whole hours of the countdown; bounded by `Schedule.SplitBounds` |
| Schedule.Minutes | App.tsx:103 | whole minutes left over after the hours; bounded by `Schedule.SplitBounds` |
| Schedule.SplitBounds | App.tsx:102-103 | the displayed minutes are below 60, and hours and minutes give the countdown rounded down to the whole minute |
| Gemini.LocalPart | services/geminiService.ts:40 | `split('@')[0]` is a prefix of the address with no '@'; it stops at the first '@' and is the whole address when there is none |
| Gemini.NatToString | services/geminiService.ts:40 | the interpolated count is a non-empty string of decimal digits with no leading zero (canonical decimal form) |
| Gemini.NatToStringRoundTrip | services/geminiService.ts:40 | the decimal text of the count reads back as the same number |
| Gemini.FallbackSubject | services/geminiService.ts:39 | the fallback subject template; its parts are stated by `Gemini.FallbackSubjectParts` |
| Gemini.FallbackContent | services/geminiService.ts:40 | the fallback content template; its shape is stated by `Gemini.FallbackContentShape` and `Gemini.FallbackContentCount` |
| Gemini.FallbackReply | services/geminiService.ts:38-41 | the subject and content pair returned from the catch branch |
| Gemini.Generate | services/geminiService.ts:13-42 | the try/catch body with its interpolated values given as text; its three outcomes are stated by `Gemini.GenerateReminderEmail` |
| Gemini.GenerateReminderEmail | services/geminiService.ts:6-42 | a thrown call gives the fallback template; a missing or empty text gives the default reply; non-empty text gives its decoded reply, or the fallback if decoding fails |
| Gemini.FallbackSubjectParts | services/geminiService.ts:39 | the fallback subject is "Urgent Reminder from " then the company, ": " and the title, each recoverable from its slice |
| Gemini.FallbackContentShape | services/geminiService.ts:40 | the fallback content starts with the greeting to the local part, holds the count text right after "You have received ", and ends with " previous notifications." and the reply instruction |
| Gemini.FallbackContentCount | services/geminiService.ts:40 | the count slot of the fallback content reads back as the count passed in |
| Gemini.ReminderAsCalled | App.tsx:303-308 | the four-argument call as written; what it produces on failure is stated by `Gemini.AsCalledFallbackMislabels` |
| Gemini.ReminderFor | App.tsx:303-308 | with the intended five-argument call, a thrown call or non-empty text that does not decode yields the fallback for the task's own title, address, company and count |
| Gemini.AsCalledFallbackMislabels | App.tsx:303-308 | with the four-argument call as written, the fallback subject names the count as the company, differs from the intended subject, and the count slot reads "undefined" |
| Gemini.ReminderForFallbackReportsTask | services/geminiService.ts:13-42 | with the intended call, a thrown call or undecodable text yields a subject naming the task's company and title, a greeting to the assignee, and content reporting the task's reminder count |
| Store.NewTask | App.tsx:267-274 | the record `addTask` builds; its status, count, timestamp and due behaviour are stated by `Store.NewTaskIsDue` |
| Store.NewTaskIsDue | App.tsx:266-274 | a new task is pending, never reminded, count 0, due at any later tick, and shows a zero countdown |
| Store.MarkCompleted | App.tsx:279-283 | every task with the id becomes completed; every other task and the order stay the same |
| Store.MarkCompletedIdempotent | App.tsx:279-283 | completing a task twice is the same as completing it once |
| Store.MarkCompletedStopsReminders | App.tsx:279-283 | a completed task is never due again |
| Store.RecordReminder | App.tsx:322-324 | the functional update after one reminder keeps the number of tasks; its entries are stated by `Store.RecordReminderAt` |
| Store.RecordReminderAt | App.tsx:322-324 | the per-reminder update bumps the count and sets `lastReminderAt` on tasks with the id, and leaves the others unchanged |
| Store.EmailFor | App.tsx:310-319 | the email record built for one due task; its fields in the inbox are stated by `Store.TickEmailsDueTasks` |
| Store.Deliver | App.tsx:302-321 | the inbox after the first n due tasks' emails are prepended holds n more entries; their order and content are stated by `Store.DeliverAt` |
| Store.Remind | App.tsx:302-324 | the tasks after the first n due tasks are remembered keep their number; what changes is stated by `Store.RemindKeepsRecords` and `Store.TickRemembersDueTasks` |
| Store.DeliverAt | App.tsx:310-321 | delivered emails are newest first: entry m is the email of due task n-1-m, and the older inbox follows unchanged |
| Store.RemindKeepsRecords | App.tsx:322-324 | reminding changes only `lastReminderAt` and `reminderCount`, keeps ids, and never lowers a count |
| Store.TickRemembersDueTasks | App.tsx:291-324 | with distinct ids, a tick bumps each due task's count by one and sets its `lastReminderAt` to the reading after its email; tasks that are not due are unchanged |
| Store.TickNeverLowersLast | App.tsx:294-323 | when every clock reading of the tick is at least `now` and the interval is not negative, a task already reminded keeps a `lastReminderAt` no smaller than before |
| Store.TickEmailsDueTasks | App.tsx:302-321 | a tick stores exactly one email per due task, at the index given by its due position, with the task's id, title and address, the generated reply, the send time and `isRead` false |
| Store.TickKeepsOldEmails | App.tsx:321 | the emails stored before a tick follow the new ones, unchanged and in order |
| Store.DeliverEmailsAbout | App.tsx:310-321 | delivering adds, for each id, as many emails about it as there are due tasks with that id |
| Store.DueTasksWithId | App.tsx:291-297 | with distinct ids, a store task's id occurs once in the due list if the task is due and never otherwise |
| Store.TickKeepsInvariant | App.tsx:286-337 | a tick keeps the store invariant: ids distinct and each task's count equal to the number of stored emails about it |
| Store.AddKeepsInvariant | App.tsx:266-276 | adding a task with a fresh id keeps the store invariant |
| Store.CompleteKeepsInvariant | App.tsx:279-283 | completing a task keeps the store invariant |
| Store.ReminderStore.constructor | App.tsx:246-249 | the store starts with no tasks, no emails, the guard clear and the invariant holding |
| Store.ReminderStore.AddTask | App.tsx:266-276 | the new task goes to the front and the old tasks follow in order; emails are unchanged; with a fresh id the invariant is kept |
| Store.ReminderStore.CompleteTask | App.tsx:279-283 | the tasks become `MarkCompleted` of the old tasks; emails are unchanged; the invariant is kept |
| Store.ReminderStore.Tick | App.tsx:286-337 | while the guard is set nothing changes; otherwise the new tasks and inbox are those of the due snapshot, the guard is clear after the tick, no due task means no change, one email is added per due task, and the invariant is kept |
| Store.ReminderStore.SendReminders | App.tsx:302-333 | the loop over the due tasks leaves the tasks as `Remind` and the inbox as `Deliver` of the due list, in order, and leaves the guard as it was |

## Left out

- The React rendering, views (`AppView`), forms and the inbox page are not modelled. They are user interface, not state logic. `isRead` is always `false`: the source never marks an email read.
- The form's non-blank check on title and assignee (App.tsx:16) is not modelled. It is a user-interface check made before `addTask` is called.
- Loading from and saving to `localStorage` (App.tsx:251-263) is not modelled, because it is I/O.
- The 5-second `setInterval` timer (App.tsx:339-340) is not modelled. Each call of `Tick` is one firing.
- Browser notifications (App.tsx:326-332) and the permission request are not modelled. The model takes a notification to have no effect on the state. In the source, `new Notification(...)` runs inside the loop with no try/catch, and `setIsProcessing(false)` (App.tsx:335) is not in a `finally`. If that constructor throws, the remaining due tasks get no email and no update, and the guard stays set. Every later tick then returns at App.tsx:289 until the page reloads. That path is not modelled.
- The `console.error` in the catch branch (services/geminiService.ts:37) is not modelled. It is logging, with no effect on the returned reply.
- `Store.ReminderStore.Tick` treats one tick as atomic. It does not model another tick or a user action interleaving at an `await`. It also does not model the closure's stale `isProcessing` and `tasks` snapshot across React renders. Because of this, the guard is clear in every state the model can reach: the constructor clears it, `AddTask` and `CompleteTask` keep it, and `Tick` always ends with it clear. So the clause of `Tick` for a set guard (nothing changes) describes App.tsx:289 but is not reachable in the model.
- The clock readings are unconstrained parameters. `lastReminderAt` is claimed not to decrease only under the assumption of `Store.TickNeverLowersLast`, that the readings do not go back past `now`.
- `uuidv4()` and `Date.now()` are parameters (`ids`, the task id, `now`, `clock`). Freshness of task ids is a precondition (`FreshId`) where the invariant needs it.
- The prompt text, the model name and the service SDK (services/geminiService.ts:4, 14-32) are not modelled. The call's outcome is the `ServiceResponse` parameter.
- `JSON.parse` is the `parse` parameter. A decoded value without string `subject` and `content` fields becomes `None` in the model, whereas the source would return that object as it is. If the text decodes to `null`, `generateReminderEmail` returns `null`, and `reminder.subject` (App.tsx:315) throws outside any try. The remaining due tasks then get no email and no update, and the guard stays set, as on the notification path above. That path is not modelled.
- `intervalHours` may be fractional in the source. The model uses a whole number of milliseconds (`intervalMs`).
- The form sets neither `senderEmail` nor `companyName`, and the email record literal omits both (App.tsx:17, 310-319). At run time they are `undefined`. The model gives them the empty string (`DefaultSender`, `DefaultCompany`).
- Checklist items, auto-completion when all items are done, reactivating a completed task and batch creation per contact do not exist in this version of App.tsx and types.ts, so they are not modelled.
- `Store.TickRemembersDueTasks` and `Store.TickKeepsInvariant` assume distinct task ids. When two tasks share an id, the source remembers both once per due copy, and the model's `Remind` does the same, but no lemma states that case.

## Findings

| source | as written | input that shows it | evidently intended | confidence | as-written member | corrected member |
|---|---|---|---|---|---|---|
| App.tsx:303-308 | `generateReminderEmail(task.title, task.description, task.assigneeEmail, task.reminderCount)` passes four arguments to a five-parameter function, so the count fills `companyName` and `reminderCount` is `undefined` | a task with company "Acme" reminded twice whose generation call throws: the subject reads "Urgent Reminder from 2: …" and the content "You have received undefined previous notifications." | pass `task.companyName` before `task.reminderCount`, so the fallback names the company and reports the count | not executed | Gemini.AsCalledFallbackMislabels | Gemini.ReminderForFallbackReportsTask |
