/** The due-reminder rule of the scheduling tick and the countdown shown on a task card. */
module Schedule {
  import opened Types

  const MsPerHour: nat := 3600000
  const MsPerMinute: nat := 60000

  /** The source tests `!task.lastReminderAt`: a missing timestamp and the
      timestamp 0 are both falsy, so both read as "no reminder sent yet". */
  predicate NeverReminded(t: Task) {
    t.lastReminderAt == None || t.lastReminderAt == Some(0)
  }

  /** Whether the tick started at `now` sends a reminder for `t`. */
  predicate IsDue(t: Task, now: int) {
    if t.status != Pending then false
    else if NeverReminded(t) then true
    else now - t.lastReminderAt.value >= t.intervalMs
  }

  lemma CompletedNeverDue(t: Task, now: int)
    requires t.status == Completed
    ensures !IsDue(t, now)
  {
  }

  lemma NeverRemindedPendingDue(t: Task, now: int)
    requires t.status == Pending && NeverReminded(t)
    ensures IsDue(t, now)
  {
  }

  lemma DueIffIntervalElapsed(t: Task, now: int)
    requires t.status == Pending && !NeverReminded(t)
    ensures IsDue(t, now) <==> now - t.lastReminderAt.value >= t.intervalMs
  {
  }

  /** The comparison is inclusive: one millisecond before the boundary the task
      is not due, at the boundary it is. */
  lemma DueBoundary(t: Task, last: int)
    requires t.status == Pending && t.lastReminderAt == Some(last) && last != 0
    ensures !IsDue(t, last + t.intervalMs - 1)
    ensures IsDue(t, last + t.intervalMs)
  {
  }

  /** The snapshot filter: the due tasks, in store order. */
  function DueTasks(ts: seq<Task>, now: int): (r: seq<Task>)
    ensures |r| <= |ts|
  {
    if ts == [] then [] else Kept(ts[0], now) + DueTasks(ts[1..], now)
  }

  /** What the filter keeps of one task. */
  function Kept(t: Task, now: int): seq<Task> {
    if IsDue(t, now) then [t] else []
  }

  /** The filter keeps exactly the due tasks. */
  lemma {:induction false} DueTasksMembers(ts: seq<Task>, now: int, t: Task)
    ensures t in DueTasks(ts, now) <==> t in ts && IsDue(t, now)
  {
    if ts != [] {
      DueTasksMembers(ts[1..], now, t);
      assert ts == [ts[0]] + ts[1..];
    }
  }

  lemma {:induction false} DueTasksAppend(a: seq<Task>, b: seq<Task>, now: int)
    ensures DueTasks(a + b, now) == DueTasks(a, now) + DueTasks(b, now)
  {
    if a == [] {
      assert a + b == b;
    } else {
      var k, rest, tail := Kept(a[0], now), DueTasks(a[1..], now), DueTasks(b, now);
      assert DueTasks(a + b, now) == k + DueTasks(a[1..] + b, now) by {
        assert (a + b)[0] == a[0];
        assert (a + b)[1..] == a[1..] + b;
      }
      DueTasksAppend(a[1..], b, now);
      assert k + (rest + tail) == (k + rest) + tail;
    }
  }

  /** The position in the filtered list of the task at index `j` of the store,
      if it is due: the number of due tasks before it. */
  function DuePosition(ts: seq<Task>, now: int, j: nat): nat
    requires j <= |ts|
  {
    |DueTasks(ts[..j], now)|
  }

  /** A due task at store index `j` appears in the filtered list at its due position. */
  lemma DueAtPosition(ts: seq<Task>, now: int, j: nat)
    requires j < |ts| && IsDue(ts[j], now)
    ensures DuePosition(ts, now, j) < |DueTasks(ts, now)|
    ensures DueTasks(ts, now)[DuePosition(ts, now, j)] == ts[j]
  {
    assert ts == ts[..j] + ([ts[j]] + ts[j+1..]);
    DueTasksAppend(ts[..j], [ts[j]] + ts[j+1..], now);
    DueTasksAppend([ts[j]], ts[j+1..], now);
    assert DueTasks([ts[j]], now) == [ts[j]] by {
      assert [ts[j]][1..] == [];
    }
  }

  /** Every entry of the filtered list comes from a due task of the store whose
      due position is that entry's index. */
  lemma {:induction false} DueOrigin(ts: seq<Task>, now: int, n: nat) returns (j: nat)
    requires n < |DueTasks(ts, now)|
    ensures j < |ts| && ts[j] == DueTasks(ts, now)[n] && IsDue(ts[j], now)
    ensures DuePosition(ts, now, j) == n
  {
    if IsDue(ts[0], now) {
      assert Kept(ts[0], now) == [ts[0]];
      assert DueTasks(ts, now) == [ts[0]] + DueTasks(ts[1..], now);
      if n == 0 {
        j := 0;
        assert ts[..0] == [];
      } else {
        var k := DueOrigin(ts[1..], now, n - 1);
        j := k + 1;
        assert DueTasks(ts[..j], now) == [ts[0]] + DueTasks(ts[1..][..k], now) by {
          assert ts[..j][0] == ts[0];
          assert ts[..j][1..] == ts[1..][..k];
        }
      }
    } else {
      assert Kept(ts[0], now) == [];
      assert DueTasks(ts, now) == DueTasks(ts[1..], now);
      var k := DueOrigin(ts[1..], now, n);
      j := k + 1;
      assert DueTasks(ts[..j], now) == DueTasks(ts[1..][..k], now) by {
        assert ts[..j][0] == ts[0];
        assert ts[..j][1..] == ts[1..][..k];
      }
    }
  }

  /** Milliseconds until the next reminder, as the task card computes it;
      0 once due, and 0 for a task never reminded. */
  function NextReminderIn(t: Task, now: int): (r: nat)
    ensures NeverReminded(t) ==> r == 0
    ensures !NeverReminded(t) ==> now + r >= t.lastReminderAt.value + t.intervalMs
    ensures r > 0 ==> !NeverReminded(t) && now + r == t.lastReminderAt.value + t.intervalMs
  {
    if NeverReminded(t) then 0
    else
      var left := t.lastReminderAt.value + t.intervalMs - now;
      if left > 0 then left else 0
  }

  /** For a pending task the countdown reads zero exactly when the task is due. */
  lemma CountdownZeroIffDue(t: Task, now: int)
    requires t.status == Pending
    ensures NextReminderIn(t, now) == 0 <==> IsDue(t, now)
  {
  }

  function Hours(ms: nat): nat {
    ms / MsPerHour
  }

  function Minutes(ms: nat): nat {
    (ms % MsPerHour) / MsPerMinute
  }

  /** The hours/minutes split: minutes lie in 0..59 and the displayed time is
      the countdown rounded down to the whole minute. */
  lemma SplitBounds(ms: nat)
    ensures Minutes(ms) < 60
    ensures Hours(ms) * MsPerHour + Minutes(ms) * MsPerMinute <= ms
    ensures ms < Hours(ms) * MsPerHour + (Minutes(ms) + 1) * MsPerMinute
  {
    var h, rest := ms / MsPerHour, ms % MsPerHour;
    assert ms == h * MsPerHour + rest && rest < MsPerHour;
    var m, sec := rest / MsPerMinute, rest % MsPerMinute;
    assert rest == m * MsPerMinute + sec && sec < MsPerMinute;
  }
}
