/** The task and email store of the application and its reminder tick. */
module Store {
  import opened Types
  import opened Schedule

  // ---------------------------------------------------------------------------
  // Adding and completing tasks

  /** The record `addTask` builds from the form's fields: a fresh id, the
      creation time, no reminder yet, count 0, Pending. */
  function NewTask(id: string, title: string, description: string, assigneeEmail: string,
                   intervalMs: int, now: int): Task
  {
    Task(id, title, description, assigneeEmail, DefaultSender, DefaultCompany,
         intervalMs, Pending, now, None, 0)
  }

  /** A newly added task is due at the next tick, whatever the clock reads,
      and its countdown reads zero. */
  lemma NewTaskIsDue(id: string, title: string, description: string, assigneeEmail: string,
                     intervalMs: int, now: int, later: int)
    ensures var t := NewTask(id, title, description, assigneeEmail, intervalMs, now);
      t.status == Pending && t.reminderCount == 0 && t.lastReminderAt == None &&
      IsDue(t, later) && NextReminderIn(t, later) == 0
  {
  }

  /** `completeTask`: every task with the given id becomes Completed; nothing else changes. */
  function MarkCompleted(ts: seq<Task>, id: string): (r: seq<Task>)
    ensures |r| == |ts|
    ensures forall j :: 0 <= j < |ts| ==>
      r[j] == if ts[j].id == id then ts[j].(status := Completed) else ts[j]
  {
    if ts == [] then []
    else [if ts[0].id == id then ts[0].(status := Completed) else ts[0]] + MarkCompleted(ts[1..], id)
  }

  lemma MarkCompletedIdempotent(ts: seq<Task>, id: string)
    ensures MarkCompleted(MarkCompleted(ts, id), id) == MarkCompleted(ts, id)
  {
  }

  /** Once completed, a task is not due at any time. */
  lemma MarkCompletedStopsReminders(ts: seq<Task>, id: string, now: int, j: nat)
    requires j < |ts| && ts[j].id == id
    ensures !IsDue(MarkCompleted(ts, id)[j], now)
  {
  }

  // ---------------------------------------------------------------------------
  // One step of the tick

  /** The task update after a reminder is sent at time `at`. */
  function Remember(t: Task, at: int): Task {
    t.(lastReminderAt := Some(at), reminderCount := t.reminderCount + 1)
  }

  /** The functional update of the tick: every task with the given id is remembered at `at`. */
  function RecordReminder(ts: seq<Task>, id: string, at: int): (r: seq<Task>)
    ensures |r| == |ts|
  {
    if ts == [] then []
    else [if ts[0].id == id then Remember(ts[0], at) else ts[0]] + RecordReminder(ts[1..], id, at)
  }

  lemma {:induction false} RecordReminderAt(ts: seq<Task>, id: string, at: int, j: nat)
    requires j < |ts|
    ensures RecordReminder(ts, id, at)[j] == if ts[j].id == id then Remember(ts[j], at) else ts[j]
  {
    if j > 0 {
      RecordReminderAt(ts[1..], id, at, j - 1);
    }
  }

  /** The email record the tick stores for `t`. The record literal of the
      source sets neither sender nor company; the defaults stand in. */
  function EmailFor(t: Task, reply: Reply, id: string, sentAt: int): SimulatedEmail {
    SimulatedEmail(id, t.id, t.title, t.assigneeEmail, DefaultSender, DefaultCompany,
                   reply.subject, reply.content, sentAt, false)
  }

  // ---------------------------------------------------------------------------
  // The whole tick, as functions of the snapshot
  //
  // The tick reads the clock once (`now`) before filtering, then twice per due
  // task: `clock(2 * k)` is the send time of the k-th email and `clock(2 * k + 1)`
  // the new `lastReminderAt` of the k-th due task. `ids(k)` is the k-th fresh
  // email id and `gen` the reminder generator.

  /** The inbox after the emails of the first `n` due tasks have each been
      put in front of `inbox`. */
  function Deliver(due: seq<Task>, gen: Task -> Reply, ids: nat -> string, clock: nat -> int, n: nat,
                   inbox: seq<SimulatedEmail>): (r: seq<SimulatedEmail>)
    requires n <= |due|
    ensures |r| == n + |inbox|
  {
    if n == 0 then inbox
    else [EmailFor(due[n - 1], gen(due[n - 1]), ids(n - 1), clock(2 * (n - 1)))] + Deliver(due, gen, ids, clock, n - 1, inbox)
  }

  /** Newest first: entry `m < n` is the email of due task `n - 1 - m`, and
      the earlier inbox follows unchanged. */
  lemma {:induction false} DeliverAt(due: seq<Task>, gen: Task -> Reply, ids: nat -> string, clock: nat -> int, n: nat,
                                     inbox: seq<SimulatedEmail>, m: nat)
    requires n <= |due| && m < n + |inbox|
    ensures Deliver(due, gen, ids, clock, n, inbox)[m] ==
      if m < n then EmailFor(due[n - 1 - m], gen(due[n - 1 - m]), ids(n - 1 - m), clock(2 * (n - 1 - m)))
      else inbox[m - n]
  {
    if n > 0 && m > 0 {
      DeliverAt(due, gen, ids, clock, n - 1, inbox, m - 1);
    }
  }

  /** Two records that agree on everything but the reminder bookkeeping. */
  predicate SameButReminders(a: Task, b: Task) {
    a.(lastReminderAt := b.lastReminderAt, reminderCount := b.reminderCount) == b
  }

  /** The tasks after the first `n` due tasks have been remembered. */
  function Remind(ts: seq<Task>, due: seq<Task>, clock: nat -> int, n: nat): (r: seq<Task>)
    requires n <= |due|
    ensures |r| == |ts|
  {
    if n == 0 then ts
    else RecordReminder(Remind(ts, due, clock, n - 1), due[n - 1].id, clock(2 * (n - 1) + 1))
  }

  /** Reminding changes only the reminder bookkeeping, and never lowers a count. */
  lemma {:induction false} RemindKeepsRecords(ts: seq<Task>, due: seq<Task>, clock: nat -> int, n: nat, j: nat)
    requires n <= |due| && j < |ts|
    ensures SameButReminders(Remind(ts, due, clock, n)[j], ts[j])
    ensures Remind(ts, due, clock, n)[j].id == ts[j].id
    ensures Remind(ts, due, clock, n)[j].reminderCount >= ts[j].reminderCount
  {
    if n > 0 {
      RemindKeepsRecords(ts, due, clock, n - 1, j);
      RecordReminderAt(Remind(ts, due, clock, n - 1), due[n - 1].id, clock(2 * (n - 1) + 1), j);
    }
  }

  function TickTasks(ts: seq<Task>, now: int, clock: nat -> int): seq<Task> {
    Remind(ts, DueTasks(ts, now), clock, |DueTasks(ts, now)|)
  }

  function TickInbox(ts: seq<Task>, es: seq<SimulatedEmail>, now: int,
                     gen: Task -> Reply, ids: nat -> string, clock: nat -> int): seq<SimulatedEmail> {
    Deliver(DueTasks(ts, now), gen, ids, clock, |DueTasks(ts, now)|, es)
  }

  // ---------------------------------------------------------------------------
  // What a tick does to each task and which email it stores for it

  predicate UniqueIds(ts: seq<Task>) {
    forall i, j :: 0 <= i < |ts| && 0 <= j < |ts| && ts[i].id == ts[j].id ==> i == j
  }

  lemma RemindStep(ts: seq<Task>, due: seq<Task>, clock: nat -> int, i: nat)
    requires i < |due|
    ensures Remind(ts, due, clock, i + 1) == RecordReminder(Remind(ts, due, clock, i), due[i].id, clock(2 * i + 1))
  {
  }

  lemma DeliverStep(due: seq<Task>, gen: Task -> Reply, ids: nat -> string, clock: nat -> int, i: nat,
                    inbox: seq<SimulatedEmail>)
    requires i < |due|
    ensures Deliver(due, gen, ids, clock, i + 1, inbox) ==
      [EmailFor(due[i], gen(due[i]), ids(i), clock(2 * i))] + Deliver(due, gen, ids, clock, i, inbox)
  {
  }

  /** With distinct ids, the n-th due task carries the id of store task `j`
      exactly when task `j` is due and has due position n. */
  lemma DueIdMatch(ts: seq<Task>, now: int, n: nat, j: nat)
    requires UniqueIds(ts) && n < |DueTasks(ts, now)| && j < |ts|
    ensures ts[j].id == DueTasks(ts, now)[n].id <==> IsDue(ts[j], now) && DuePosition(ts, now, j) == n
  {
    var k := DueOrigin(ts, now, n);
    if IsDue(ts[j], now) {
      DueAtPosition(ts, now, j);
    }
    if ts[j].id == DueTasks(ts, now)[n].id {
      assert ts[k].id == ts[j].id;
    }
  }

  /** Reminding the first `n` entries of a due list touches store task `j`
      exactly when its id occurs there, which is at most once, at `pos`. */
  lemma {:induction false} RemindOne(ts: seq<Task>, due: seq<Task>, clock: nat -> int, n: nat, j: nat,
                                     hit: bool, pos: nat)
    requires n <= |due| && j < |ts|
    requires forall k :: 0 <= k < |due| ==> (ts[j].id == due[k].id <==> hit && pos == k)
    ensures Remind(ts, due, clock, n)[j] ==
      if hit && pos < n then Remember(ts[j], clock(2 * pos + 1)) else ts[j]
  {
    if n > 0 {
      var m := n - 1;
      var prev, at := Remind(ts, due, clock, m), clock(2 * m + 1);
      RemindOne(ts, due, clock, m, j, hit, pos);
      RemindStep(ts, due, clock, m);
      RemindKeepsRecords(ts, due, clock, m, j);
      RecordReminderAt(prev, due[m].id, at, j);
    }
  }

  lemma RemindPrefix(ts: seq<Task>, now: int, clock: nat -> int, n: nat, j: nat)
    requires UniqueIds(ts) && n <= |DueTasks(ts, now)| && j < |ts|
    ensures Remind(ts, DueTasks(ts, now), clock, n)[j] ==
      if IsDue(ts[j], now) && DuePosition(ts, now, j) < n
      then Remember(ts[j], clock(2 * DuePosition(ts, now, j) + 1))
      else ts[j]
  {
    var due := DueTasks(ts, now);
    forall k | 0 <= k < |due|
      ensures ts[j].id == due[k].id <==> IsDue(ts[j], now) && DuePosition(ts, now, j) == k
    {
      DueIdMatch(ts, now, k, j);
    }
    RemindOne(ts, due, clock, n, j, IsDue(ts[j], now), DuePosition(ts, now, j));
  }

  /** With distinct ids, a tick bumps the count of each due task by one and
      sets its `lastReminderAt` to the clock reading taken after its email;
      a task that is not due is left as it was. */
  lemma TickRemembersDueTasks(ts: seq<Task>, now: int, clock: nat -> int, j: nat)
    requires UniqueIds(ts) && j < |ts|
    ensures |TickTasks(ts, now, clock)| == |ts|
    ensures TickTasks(ts, now, clock)[j] ==
      if IsDue(ts[j], now)
      then ts[j].(reminderCount := ts[j].reminderCount + 1,
                  lastReminderAt := Some(clock(2 * DuePosition(ts, now, j) + 1)))
      else ts[j]
  {
    if IsDue(ts[j], now) {
      DueAtPosition(ts, now, j);
    }
    RemindPrefix(ts, now, clock, |DueTasks(ts, now)|, j);
  }

  /** When every clock reading of the tick is at least `now` and intervals are
      not negative, a tick never moves a set `lastReminderAt` back. */
  lemma TickNeverLowersLast(ts: seq<Task>, now: int, clock: nat -> int, j: nat)
    requires UniqueIds(ts) && j < |ts| && !NeverReminded(ts[j]) && ts[j].intervalMs >= 0
    requires forall k :: clock(k) >= now
    ensures TickTasks(ts, now, clock)[j].lastReminderAt.Some?
    ensures TickTasks(ts, now, clock)[j].lastReminderAt.value >= ts[j].lastReminderAt.value
  {
    TickRemembersDueTasks(ts, now, clock, j);
  }

  /** A tick puts one email per due task in front of the inbox, newest
      first: the email for the due task at store index `j` sits at index
      `|due| - 1 - p`, where `p` is its position among the due tasks, and
      carries the task's id, title and address, the generated reply, and the
      send time read after generation. */
  lemma TickEmailsDueTasks(ts: seq<Task>, es: seq<SimulatedEmail>, now: int,
                           gen: Task -> Reply, ids: nat -> string, clock: nat -> int, j: nat)
    requires j < |ts| && IsDue(ts[j], now)
    ensures var inbox := TickInbox(ts, es, now, gen, ids, clock);
      var n, p := |DueTasks(ts, now)|, DuePosition(ts, now, j);
      |inbox| == n + |es| && p < n &&
      inbox[n - 1 - p] == SimulatedEmail(ids(p), ts[j].id, ts[j].title, ts[j].assigneeEmail,
        DefaultSender, DefaultCompany, gen(ts[j]).subject, gen(ts[j]).content, clock(2 * p), false)
  {
    DueAtPosition(ts, now, j);
    var p := DuePosition(ts, now, j);
    var n := |DueTasks(ts, now)|;
    DeliverAt(DueTasks(ts, now), gen, ids, clock, n, es, n - 1 - p);
  }

  /** The emails stored before the tick follow the new ones, unchanged and in order. */
  lemma TickKeepsOldEmails(ts: seq<Task>, es: seq<SimulatedEmail>, now: int,
                           gen: Task -> Reply, ids: nat -> string, clock: nat -> int)
    ensures var n := |DueTasks(ts, now)|;
      TickInbox(ts, es, now, gen, ids, clock)[n..] == es
  {
    var n := |DueTasks(ts, now)|;
    var inbox := TickInbox(ts, es, now, gen, ids, clock);
    forall m | 0 <= m < |es| ensures inbox[n..][m] == es[m] {
      DeliverAt(DueTasks(ts, now), gen, ids, clock, n, es, n + m);
    }
  }

  // ---------------------------------------------------------------------------
  // The store invariant: each task's count is the number of emails about it

  function EmailsAbout(es: seq<SimulatedEmail>, id: string): nat {
    if es == [] then 0 else (if es[0].taskId == id then 1 else 0) + EmailsAbout(es[1..], id)
  }

  function TasksWithId(ts: seq<Task>, id: string): nat {
    if ts == [] then 0 else (if ts[0].id == id then 1 else 0) + TasksWithId(ts[1..], id)
  }

  /** Task ids are distinct and every task's `reminderCount` equals the
      number of stored emails that refer to it. */
  predicate Invariant(ts: seq<Task>, es: seq<SimulatedEmail>) {
    UniqueIds(ts) &&
    forall j :: 0 <= j < |ts| ==> ts[j].reminderCount == EmailsAbout(es, ts[j].id)
  }

  /** An id that no task and no email uses yet. */
  predicate FreshId(ts: seq<Task>, es: seq<SimulatedEmail>, id: string) {
    (forall t :: t in ts ==> t.id != id) && EmailsAbout(es, id) == 0
  }

  lemma {:induction false} TasksWithIdAppend(a: seq<Task>, b: seq<Task>, id: string)
    ensures TasksWithId(a + b, id) == TasksWithId(a, id) + TasksWithId(b, id)
  {
    if a == [] {
      assert a + b == b;
    } else {
      assert (a + b)[1..] == a[1..] + b;
      TasksWithIdAppend(a[1..], b, id);
    }
  }

  /** Delivering the first `n` due tasks adds one email about an id per due task with that id. */
  lemma {:induction false} DeliverEmailsAbout(due: seq<Task>, gen: Task -> Reply, ids: nat -> string, clock: nat -> int,
                                              n: nat, inbox: seq<SimulatedEmail>, id: string)
    requires n <= |due|
    ensures EmailsAbout(Deliver(due, gen, ids, clock, n, inbox), id) == TasksWithId(due[..n], id) + EmailsAbout(inbox, id)
  {
    if n > 0 {
      var r := Deliver(due, gen, ids, clock, n, inbox);
      assert r[1..] == Deliver(due, gen, ids, clock, n - 1, inbox);
      DeliverEmailsAbout(due, gen, ids, clock, n - 1, inbox, id);
      assert due[..n] == due[..n - 1] + [due[n - 1]];
      TasksWithIdAppend(due[..n - 1], [due[n - 1]], id);
      assert [due[n - 1]][1..] == [];
    }
  }

  lemma {:induction false} DueTasksWithIdAbsent(ts: seq<Task>, now: int, id: string)
    requires forall i :: 0 <= i < |ts| ==> ts[i].id != id
    ensures TasksWithId(DueTasks(ts, now), id) == 0
  {
    if ts != [] {
      var head := if IsDue(ts[0], now) then [ts[0]] else [];
      assert DueTasks(ts, now) == head + DueTasks(ts[1..], now);
      TasksWithIdAppend(head, DueTasks(ts[1..], now), id);
      DueTasksWithIdAbsent(ts[1..], now, id);
    }
  }

  /** With distinct ids, the due list holds a store task's id once if it is due and never otherwise. */
  lemma {:induction false} DueTasksWithId(ts: seq<Task>, now: int, j: nat)
    requires UniqueIds(ts) && j < |ts|
    ensures TasksWithId(DueTasks(ts, now), ts[j].id) == if IsDue(ts[j], now) then 1 else 0
  {
    var id := ts[j].id;
    var head := if IsDue(ts[0], now) then [ts[0]] else [];
    assert DueTasks(ts, now) == head + DueTasks(ts[1..], now);
    TasksWithIdAppend(head, DueTasks(ts[1..], now), id);
    if head != [] {
      assert head[1..] == [];
    }
    if j == 0 {
      forall i | 0 <= i < |ts[1..]| ensures ts[1..][i].id != id {
        assert ts[1..][i] == ts[i + 1];
      }
      DueTasksWithIdAbsent(ts[1..], now, id);
    } else {
      assert ts[0].id != id;
      assert ts[1..][j - 1] == ts[j];
      DueTasksWithId(ts[1..], now, j - 1);
    }
  }

  /** A tick keeps the invariant: each due task gains one count and one email. */
  lemma TickKeepsInvariant(ts: seq<Task>, es: seq<SimulatedEmail>, now: int,
                           gen: Task -> Reply, ids: nat -> string, clock: nat -> int)
    ensures Invariant(ts, es) ==>
      Invariant(TickTasks(ts, now, clock), TickInbox(ts, es, now, gen, ids, clock))
  {
    if Invariant(ts, es) {
      var r := TickTasks(ts, now, clock);
      var inbox := TickInbox(ts, es, now, gen, ids, clock);
      var due := DueTasks(ts, now);
      forall j | 0 <= j < |ts| ensures r[j].id == ts[j].id {
        RemindKeepsRecords(ts, due, clock, |due|, j);
      }
      forall j | 0 <= j < |r| ensures r[j].reminderCount == EmailsAbout(inbox, r[j].id) {
        TickRemembersDueTasks(ts, now, clock, j);
        DeliverEmailsAbout(due, gen, ids, clock, |due|, es, ts[j].id);
        assert due[..|due|] == due;
        DueTasksWithId(ts, now, j);
      }
    }
  }


  lemma AddKeepsInvariant(ts: seq<Task>, es: seq<SimulatedEmail>, id: string, title: string,
                          description: string, assigneeEmail: string, intervalMs: int, now: int)
    requires Invariant(ts, es) && FreshId(ts, es, id)
    ensures Invariant([NewTask(id, title, description, assigneeEmail, intervalMs, now)] + ts, es)
  {
    var r := [NewTask(id, title, description, assigneeEmail, intervalMs, now)] + ts;
    forall i, j | 0 <= i < |r| && 0 <= j < |r| && r[i].id == r[j].id ensures i == j {
      if i > 0 { assert r[i] == ts[i - 1]; }
      if j > 0 { assert r[j] == ts[j - 1]; }
    }
  }

  lemma CompleteKeepsInvariant(ts: seq<Task>, es: seq<SimulatedEmail>, id: string)
    requires Invariant(ts, es)
    ensures Invariant(MarkCompleted(ts, id), es)
  {
  }

  // ---------------------------------------------------------------------------
  // The store

  class ReminderStore {
    var tasks: seq<Task>
    var emails: seq<SimulatedEmail>
    /** Set while a tick is sending reminders; a tick that finds it set does nothing. */
    var isProcessing: bool

    constructor ()
      ensures tasks == [] && emails == [] && !isProcessing
      ensures Invariant(tasks, emails)
    {
      tasks, emails, isProcessing := [], [], false;
    }

    /** `addTask`: the new task goes first, the old tasks follow in order. */
    method AddTask(id: string, title: string, description: string, assigneeEmail: string,
                   intervalMs: int, now: int)
      modifies this
      ensures tasks == [NewTask(id, title, description, assigneeEmail, intervalMs, now)] + old(tasks)
      ensures emails == old(emails) && isProcessing == old(isProcessing)
      ensures Invariant(old(tasks), old(emails)) && FreshId(old(tasks), old(emails), id) ==>
        Invariant(tasks, emails)
    {
      if Invariant(tasks, emails) && FreshId(tasks, emails, id) {
        AddKeepsInvariant(tasks, emails, id, title, description, assigneeEmail, intervalMs, now);
      }
      tasks := [NewTask(id, title, description, assigneeEmail, intervalMs, now)] + tasks;
    }

    /** `completeTask`. */
    method CompleteTask(id: string)
      modifies this
      ensures tasks == MarkCompleted(old(tasks), id)
      ensures emails == old(emails) && isProcessing == old(isProcessing)
      ensures Invariant(old(tasks), old(emails)) ==> Invariant(tasks, emails)
    {
      if Invariant(tasks, emails) {
        CompleteKeepsInvariant(tasks, emails, id);
      }
      tasks := MarkCompleted(tasks, id);
    }

    /** `checkReminders`: skipped while another tick is in flight; otherwise
        one generated email and one counter/timestamp update per due task of
        the snapshot, in store order, and the guard is clear afterwards. */
    method Tick(now: int, clock: nat -> int, ids: nat -> string, gen: Task -> Reply)
      modifies this
      ensures old(isProcessing) ==> tasks == old(tasks) && emails == old(emails) && isProcessing
      ensures !old(isProcessing) ==> !isProcessing
      ensures !old(isProcessing) ==> tasks == TickTasks(old(tasks), now, clock)
      ensures !old(isProcessing) ==> emails == TickInbox(old(tasks), old(emails), now, gen, ids, clock)
      ensures DueTasks(old(tasks), now) == [] ==> tasks == old(tasks) && emails == old(emails)
      ensures |emails| == |old(emails)| + (if old(isProcessing) then 0 else |DueTasks(old(tasks), now)|)
      ensures Invariant(old(tasks), old(emails)) ==> Invariant(tasks, emails)
    {
      if isProcessing {
        return;
      }
      ghost var before, inbox := tasks, emails;
      var due := DueTasks(tasks, now);
      if |due| > 0 {
        isProcessing := true;
        SendReminders(due, clock, ids, gen);
        isProcessing := false;
      }
      TickKeepsInvariant(before, inbox, now, gen, ids, clock);
    }

    /** The loop of `checkReminders` over the due tasks, in order: for each,
        the generated email goes to the front of the inbox and every task with
        its id is remembered. */
    method SendReminders(due: seq<Task>, clock: nat -> int, ids: nat -> string, gen: Task -> Reply)
      modifies this
      ensures tasks == Remind(old(tasks), due, clock, |due|)
      ensures emails == Deliver(due, gen, ids, clock, |due|, old(emails))
      ensures isProcessing == old(isProcessing)
    {
      var i := 0;
      while i < |due|
        invariant 0 <= i <= |due|
        invariant isProcessing == old(isProcessing)
        invariant tasks == Remind(old(tasks), due, clock, i)
        invariant emails == Deliver(due, gen, ids, clock, i, old(emails))
      {
        var task := due[i];
        var reply := gen(task);
        var email := EmailFor(task, reply, ids(i), clock(2 * i));
        DeliverStep(due, gen, ids, clock, i, old(emails));
        emails := [email] + emails;
        RemindStep(old(tasks), due, clock, i);
        tasks := RecordReminder(tasks, task.id, clock(2 * i + 1));
        i := i + 1;
      }
    }
  }
}
