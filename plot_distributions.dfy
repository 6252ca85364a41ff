// The helpers of the distribution-plotting script: file-name sanitising,
// reading CSV numbers, the back-off schedule of task polling, and the order in
// which the 101 x 101 parameter sweep is submitted and its rows recorded.

module PlotDistributions {
  import opened Text
  import opened Numbers
  import opened AnalyzeRun

  // ----------------------------------------------------------------- safe_name

  /** str.isalnum() on the ASCII letters and digits. */
  predicate IsAlnum(c: char) {
    ('a' <= c <= 'z') || ('A' <= c <= 'Z') || ('0' <= c <= '9')
  }

  /** The characters a file name keeps. */
  predicate Allowed(c: char) { IsAlnum(c) || c == '-' || c == '_' }

  /** `safe_name`: every character that is not alphanumeric, `-` or `_`
      becomes `_`. */
  function SafeName(name: string): (r: string)
    ensures |r| == |name|
    ensures forall k :: 0 <= k < |r| ==> Allowed(r[k])
  {
    seq(|name|, k requires 0 <= k < |name| => if Allowed(name[k]) then name[k] else '_')
  }

  /** A character is kept exactly when it is allowed; any other one is
      replaced by `_`. */
  lemma SafeNameKeeps(name: string)
    ensures forall k :: 0 <= k < |name| ==>
              (SafeName(name)[k] == name[k] <==> Allowed(name[k]))
              && (SafeName(name)[k] != name[k] ==> SafeName(name)[k] == '_')
  {
  }

  /** Sanitising twice is sanitising once, and a name is left alone exactly
      when it is already safe. */
  lemma SafeNameIdempotent(name: string)
    ensures SafeName(SafeName(name)) == SafeName(name)
    ensures SafeName(name) == name <==> forall k :: 0 <= k < |name| ==> Allowed(name[k])
  {
    if SafeName(name) == name {
      forall k | 0 <= k < |name| ensures Allowed(name[k]) {
        assert Allowed(SafeName(name)[k]);
      }
    }
  }

  // --------------------------------------------------------------- parse_float

  /** `parse_float` is the same code as `parse_optional_float`: no number for
      None, for a bool, for a cell that is blank or only double quotes, and
      for text float() rejects once unquoted. */
  lemma ParseFloatNone(b: bool, cell: string)
    ensures ParseOptionalFloat(PyNone).None?
    ensures ParseOptionalFloat(PyBool(b)).None?
    ensures AllSpaces(cell) ==> ParseOptionalFloat(PyStr(cell)).None?
    ensures ParseFloat(Unquoted(cell)).None? ==> ParseOptionalFloat(PyStr(cell)).None?
  {
    BoolNotNumber(b);
    if AllSpaces(cell) {
      assert cell + ([] + [] + []) + [] == cell;
      EmptyCellIsNone(cell, [], [], [], []);
    }
  }

  // ----------------------------------------------------------------- poll_task

  /** Times are whole milliseconds: the poll gives up after 600 s. */
  const PollTimeoutMs: nat := 600000

  /** The pause after a poll, by the time elapsed since polling began. */
  function SleepAfter(elapsed: nat): (ms: nat)
    ensures elapsed < 5000 ==> ms == 200
    ensures 5000 <= elapsed < 20000 ==> ms == 500
    ensures 20000 <= elapsed ==> ms == 1000
  {
    if elapsed < 5000 then 200 else if elapsed < 20000 then 500 else 1000
  }

  /** The pause never shrinks as time goes on. */
  lemma SleepMonotone(a: nat, b: nat)
    requires a <= b
    ensures SleepAfter(a) <= SleepAfter(b)
  {
  }

  /** What one status request returns: the `status` and `error` fields. */
  datatype Status = Status(status: Option<string>, error: Option<string>)

  datatype PollOutcome = Done | TaskFailed(error: string) | TimedOut

  /** The polls from the k-th on, started `t` ms after polling began, when
      every request takes `latency` ms and the k-th one returns `reply(k)`:
      how polling ends and the pauses it makes on the way. */
  function Polls(reply: nat -> Status, latency: nat, k: nat, t: nat): (PollOutcome, seq<nat>)
    decreases PollTimeoutMs - t
  {
    if t >= PollTimeoutMs then (TimedOut, [])
    else if reply(k).status == Some(Completed) then (Done, [])
    else if reply(k).status == Some(Failed) then
      (TaskFailed(if reply(k).error.Some? then reply(k).error.value else "Task failed"), [])
    else
      var elapsed := t + latency;
      var pause := SleepAfter(elapsed);
      var rest := Polls(reply, latency, k + 1, elapsed + pause);
      (rest.0, [pause] + rest.1)
  }

  const Completed := "completed"
  const Failed := "failed"

  /** Every pause from the k-th poll on is at least the pause due at t. */
  lemma {:induction false} PausesFrom(reply: nat -> Status, latency: nat, k: nat, t: nat)
    ensures forall i :: 0 <= i < |Polls(reply, latency, k, t).1| ==>
              SleepAfter(t) <= Polls(reply, latency, k, t).1[i]
    decreases PollTimeoutMs - t
  {
    var r := Polls(reply, latency, k, t);
    if t < PollTimeoutMs && reply(k).status != Some(Completed) && reply(k).status != Some(Failed) {
      var elapsed := t + latency;
      var next := elapsed + SleepAfter(elapsed);
      PausesFrom(reply, latency, k + 1, next);
      SleepMonotone(t, elapsed);
      SleepMonotone(elapsed, next);
      forall i | 0 <= i < |r.1| ensures SleepAfter(t) <= r.1[i] {
        if i > 0 {
          assert r.1[i] == Polls(reply, latency, k + 1, next).1[i - 1];
        }
      }
    }
  }

  /** The pauses of one polling run never decrease. */
  predicate NonDecreasing(xs: seq<nat>) {
    forall i, j :: 0 <= i <= j < |xs| ==> xs[i] <= xs[j]
  }

  lemma {:induction false} PausesSorted(reply: nat -> Status, latency: nat, k: nat, t: nat)
    ensures NonDecreasing(Polls(reply, latency, k, t).1)
    decreases PollTimeoutMs - t
  {
    var pauses := Polls(reply, latency, k, t).1;
    if t < PollTimeoutMs && reply(k).status != Some(Completed) && reply(k).status != Some(Failed) {
      var elapsed := t + latency;
      var next := elapsed + SleepAfter(elapsed);
      var rest := Polls(reply, latency, k + 1, next).1;
      PausesSorted(reply, latency, k + 1, next);
      PausesFrom(reply, latency, k + 1, next);
      SleepMonotone(elapsed, next);
      assert pauses == [SleepAfter(elapsed)] + rest;
      assert NonDecreasing(rest);
      forall i, j | 0 <= i <= j < |pauses| ensures pauses[i] <= pauses[j] {
        if i > 0 {
          assert pauses[i] == rest[i - 1] && pauses[j] == rest[j - 1];
        } else if j > 0 {
          assert pauses[j] == rest[j - 1];
          assert SleepAfter(next) <= rest[j - 1];
        }
      }
    }
  }

  /** A run started t ms in pauses at most once per 200 ms left before the
      deadline (plus the pause after the last poll). */
  lemma {:induction false} PauseCount(reply: nat -> Status, latency: nat, k: nat, t: nat)
    ensures var n := |Polls(reply, latency, k, t).1|;
            n > 0 ==> t < PollTimeoutMs && (n - 1) * 200 < PollTimeoutMs - t
    decreases PollTimeoutMs - t
  {
    if t < PollTimeoutMs && reply(k).status != Some(Completed) && reply(k).status != Some(Failed) {
      var elapsed := t + latency;
      var next := elapsed + SleepAfter(elapsed);
      PauseCount(reply, latency, k + 1, next);
      var n := |Polls(reply, latency, k + 1, next).1|;
      assert |Polls(reply, latency, k, t).1| == n + 1;
      assert next >= t + 200;
    }
  }

  /** `poll_task`: ask for the status until it is completed or failed, or
      the 600 s are up, pausing after each answer by the schedule. The clock
      advances by the request latency and by the pauses; the k-th status
      request returns `reply(k)`. */
  method PollTask(reply: nat -> Status, latency: nat) returns (outcome: PollOutcome, pauses: seq<nat>)
    ensures (outcome, pauses) == Polls(reply, latency, 0, 0)
  {
    var k, t := 0, 0;
    pauses := [];
    assert pauses + Polls(reply, latency, 0, 0).1 == Polls(reply, latency, 0, 0).1;
    while t < PollTimeoutMs
      invariant Polls(reply, latency, 0, 0).0 == Polls(reply, latency, k, t).0
      invariant Polls(reply, latency, 0, 0).1 == pauses + Polls(reply, latency, k, t).1
      decreases PollTimeoutMs - t
    {
      var status := reply(k);
      if status.status == Some(Completed) {
        assert pauses + [] == pauses;
        return Done, pauses;
      }
      if status.status == Some(Failed) {
        assert pauses + [] == pauses;
        var error := if status.error.Some? then status.error.value else "Task failed";
        return TaskFailed(error), pauses;
      }
      var elapsed := t + latency;
      var pause := SleepAfter(elapsed);
      PollsStep(pauses, reply, latency, k, t);
      pauses := pauses + [pause];
      k, t := k + 1, elapsed + pause;
    }
    assert pauses + [] == pauses;
    outcome := TimedOut;
  }

  /** One poll that neither finishes nor runs out of time: its pause, then
      the polls after it. */
  lemma PollsStep(pauses: seq<nat>, reply: nat -> Status, latency: nat, k: nat, t: nat)
    requires t < PollTimeoutMs && reply(k).status != Some(Completed) && reply(k).status != Some(Failed)
    ensures var next := t + latency + SleepAfter(t + latency);
            && Polls(reply, latency, k, t).0 == Polls(reply, latency, k + 1, next).0
            && pauses + Polls(reply, latency, k, t).1
               == (pauses + [SleepAfter(t + latency)]) + Polls(reply, latency, k + 1, next).1
  {
  }

  // ------------------------------------------------------------------ the sweep

  /** A sweep point (s, t). */
  type Pair = (nat, nat)

  /** Every value 0 ... 100 is swept for both parameters. */
  const Side: nat := 101

  /** `task_iter`: s in the outer loop and t in the inner one, so the i-th
      point yielded is (i / 101, i % 101). */
  function Sweep(): (w: seq<Pair>)
    ensures |w| == Side * Side
  {
    seq(Side * Side, i requires 0 <= i < Side * Side => (i / Side, i % Side))
  }

  /** Where (s, t) comes in the sweep. */
  function Position(s: nat, t: nat): nat { s * Side + t }

  /** Position 101 s + t holds (s, t). */
  lemma IndexOfPoint(s: nat, t: nat)
    requires s < Side && t < Side
    ensures s * Side + t < Side * Side
    ensures (s * Side + t) / Side == s && (s * Side + t) % Side == t
  {
  }

  lemma SplitIndex(i: nat)
    ensures i == (i / Side) * Side + i % Side && i % Side < Side
  {
  }

  /** Every (s, t) with s, t in 0 ... 100 comes exactly once, at position
      101 s + t, and the points come s-major: by s, then by t. */
  lemma SweepOrder()
    ensures forall s: nat, t: nat :: s < Side && t < Side ==>
              Position(s, t) < |Sweep()| && Sweep()[Position(s, t)] == (s, t)
    ensures forall i :: 0 <= i < |Sweep()| ==> Sweep()[i].0 < Side && Sweep()[i].1 < Side
    ensures forall i, j :: 0 <= i < j < |Sweep()| ==>
              Sweep()[i].0 < Sweep()[j].0 || (Sweep()[i].0 == Sweep()[j].0 && Sweep()[i].1 < Sweep()[j].1)
  {
    forall s: nat, t: nat | s < Side && t < Side
      ensures Position(s, t) < |Sweep()| && Sweep()[Position(s, t)] == (s, t)
    {
      SweepPosition(s, t);
    }
    SweepInRange();
    SweepSorted();
  }

  lemma SweepPosition(s: nat, t: nat)
    requires s < Side && t < Side
    ensures Position(s, t) < |Sweep()| && Sweep()[Position(s, t)] == (s, t)
  {
    IndexOfPoint(s, t);
  }

  lemma SweepInRange()
    ensures forall i :: 0 <= i < |Sweep()| ==> Sweep()[i].0 < Side && Sweep()[i].1 < Side
  {
    var w := Sweep();
    forall i | 0 <= i < |w| ensures w[i].0 < Side && w[i].1 < Side {
      SplitIndex(i);
    }
  }

  lemma SweepSorted()
    ensures forall i, j :: 0 <= i < j < |Sweep()| ==>
              Sweep()[i].0 < Sweep()[j].0 || (Sweep()[i].0 == Sweep()[j].0 && Sweep()[i].1 < Sweep()[j].1)
  {
    var w := Sweep();
    forall i, j | 0 <= i < j < |w|
      ensures w[i].0 < w[j].0 || (w[i].0 == w[j].0 && w[i].1 < w[j].1)
    {
      MajorOrder(i, j);
    }
  }

  lemma MajorOrder(i: nat, j: nat)
    requires i < j
    ensures i / Side < j / Side || (i / Side == j / Side && i % Side < j % Side)
  {
    SplitIndex(i);
    SplitIndex(j);
  }

  // ------------------------------------------------ recording the sweep's rows

  /** The rows recorded for completions i, i + 1, ... when completions come in
      submission order and the row for completion j names task
      min(j + lag, |tasks| - 1); a completion is recorded only when its own
      result is ok. */
  function Recorded(tasks: seq<Pair>, ok: Pair -> bool, lag: nat, i: nat): seq<Pair>
    decreases |tasks| - i
  {
    if i >= |tasks| then []
    else (if ok(tasks[i]) then [tasks[Named(i, lag, |tasks|)]] else []) + Recorded(tasks, ok, lag, i + 1)
  }

  /** The task whose point the row of completion i carries. */
  function Named(i: nat, lag: nat, n: nat): (k: nat)
    requires i < n
    ensures i <= k < n
  {
    if i + lag < n then i + lag else n - 1
  }

  /** After a refill, the last task drawn is the one completion i names
      with a lag of one less than the limit. */
  lemma LastDrawnIsNamed(i: nat, limit: nat, n: nat)
    requires i < n && limit >= 1
    ensures (if i + limit < n then i + limit else n) - 1 == Named(i, limit - 1, n)
  {
  }

  /** One completion further: the row of completion i, carrying v, then the
      rest. */
  lemma RecordedStep(before: seq<Pair>, after: seq<Pair>, tasks: seq<Pair>, ok: Pair -> bool,
                      lag: nat, i: nat, v: Pair, total: seq<Pair>)
    requires i < |tasks| && v == tasks[Named(i, lag, |tasks|)]
    requires after == before + (if ok(tasks[i]) then [v] else [])
    requires before + Recorded(tasks, ok, lag, i) == total
    ensures after + Recorded(tasks, ok, lag, i + 1) == total
  {
    var x := if ok(tasks[i]) then [v] else [];
    var rest := Recorded(tasks, ok, lag, i + 1);
    assert Recorded(tasks, ok, lag, i) == x + rest;
    AppendAssoc(before, x, rest);
  }

  /** One completion of the sweep as written: the row it appends is the one
      Recorded names with a lag of one less than the limit. */
  lemma AsWrittenStep(tasks: seq<Pair>, ok: Pair -> bool, limit: nat, done: nat, next: nat,
                       last: Pair, before: seq<Pair>, after: seq<Pair>)
    requires limit >= 1 && done < next <= |tasks|
    requires next == if done + limit < |tasks| then done + limit else |tasks|
    requires last == tasks[next - 1]
    requires after == before + (if ok(tasks[done]) then [last] else [])
    requires before + Recorded(tasks, ok, limit - 1, done) == Recorded(tasks, ok, limit - 1, 0)
    ensures after + Recorded(tasks, ok, limit - 1, done + 1) == Recorded(tasks, ok, limit - 1, 0)
  {
    LastDrawnIsNamed(done, limit, |tasks|);
    assert next - 1 == Named(done, limit - 1, |tasks|);
    RecordedStep(before, after, tasks, ok, limit - 1, done, last, Recorded(tasks, ok, limit - 1, 0));
  }

  lemma AppendAssoc<T>(a: seq<T>, b: seq<T>, c: seq<T>)
    ensures a + (b + c) == (a + b) + c
  {
  }

  /** The tasks whose result is ok, in order. */
  function OkTasks(tasks: seq<Pair>, ok: Pair -> bool): (r: seq<Pair>)
    ensures |r| <= |tasks|
  {
    if tasks == [] then []
    else (if ok(tasks[0]) then [tasks[0]] else []) + OkTasks(tasks[1..], ok)
  }

  /** With no lag, the recorded rows are exactly the ok tasks, in order. */
  lemma {:induction false} RecordedNoLag(tasks: seq<Pair>, ok: Pair -> bool, i: nat)
    requires i <= |tasks|
    ensures Recorded(tasks, ok, 0, i) == OkTasks(tasks[i..], ok)
    decreases |tasks| - i
  {
    if i < |tasks| {
      RecordedNoLag(tasks, ok, i + 1);
      assert tasks[i..][1..] == tasks[i + 1..];
    } else {
      assert tasks[i..] == [];
    }
  }

  /** The sequential branch: every task in turn, its row recorded when its
      result is ok. */
  method SweepSequential(tasks: seq<Pair>, ok: Pair -> bool) returns (rows: seq<Pair>)
    ensures rows == OkTasks(tasks, ok)
  {
    rows := [];
    var i := 0;
    while i < |tasks|
      invariant i <= |tasks|
      invariant rows + OkTasks(tasks[i..], ok) == OkTasks(tasks, ok)
    {
      assert tasks[i..][1..] == tasks[i + 1..];
      rows := rows + (if ok(tasks[i]) then [tasks[i]] else []);
      i := i + 1;
    }
    assert tasks[i..] == [];
    assert rows + [] == rows;
  }

  /** Draws tasks while fewer than `limit` are in flight; the last one drawn
      is what `s, t` hold afterwards. */
  method Refill(tasks: seq<Pair>, limit: nat, inFlight: seq<Pair>, next: nat, done: nat, last: Pair)
    returns (inFlight': seq<Pair>, next': nat, last': Pair)
    requires limit >= 1 && done <= next <= |tasks|
    requires inFlight == tasks[done..next] && next <= done + limit
    requires next > done ==> last == tasks[next - 1]
    ensures next' == if done + limit < |tasks| then done + limit else |tasks|
    ensures inFlight' == tasks[done..next']
    ensures next' > done ==> last' == tasks[next' - 1]
    ensures next' == next ==> last' == last
  {
    inFlight', next', last' := inFlight, next, last;
    while |inFlight'| < limit && next' < |tasks|
      invariant done <= next' <= |tasks| && next' <= done + limit
      invariant inFlight' == tasks[done..next']
      invariant next' > done ==> last' == tasks[next' - 1]
      invariant next' == next ==> last' == last
      decreases |tasks| - next'
    {
      last' := tasks[next'];
      assert tasks[done..next' + 1] == tasks[done..next'] + [last'];
      inFlight' := inFlight' + [last'];
      next' := next' + 1;
    }
  }

  /** The parallel branch as written, with results arriving in submission
      order: the row of a finished task is recorded under the `s, t` last
      drawn, not under the finished task's own point. */
  method SweepParallelAsWritten(tasks: seq<Pair>, limit: nat, ok: Pair -> bool) returns (rows: seq<Pair>)
    requires limit >= 1
    ensures rows == Recorded(tasks, ok, limit - 1, 0)
  {
    var inFlight, next, last := Refill(tasks, limit, [], 0, 0, (0, 0));
    var done := 0;
    rows := [];
    while inFlight != []
      invariant done <= next <= |tasks| && inFlight == tasks[done..next]
      invariant next == if done + limit < |tasks| then done + limit else |tasks|
      invariant next > done ==> last == tasks[next - 1]
      invariant rows + Recorded(tasks, ok, limit - 1, done) == Recorded(tasks, ok, limit - 1, 0)
      decreases |tasks| - done
    {
      var finished := inFlight[0];
      assert finished == tasks[done];
      inFlight := inFlight[1..];
      ghost var before := rows;
      if ok(finished) {
        rows := rows + [last];
      }
      AsWrittenStep(tasks, ok, limit, done, next, last, before, rows);
      done := done + 1;
      assert inFlight == tasks[done..next];
      inFlight, next, last := Refill(tasks, limit, inFlight, next, done, last);
    }
    assert rows + [] == rows;
  }

  /** The parallel branch recording each finished task under its own point,
      as the in-flight table keeps it. */
  method SweepParallel(tasks: seq<Pair>, limit: nat, ok: Pair -> bool) returns (rows: seq<Pair>)
    requires limit >= 1
    ensures rows == OkTasks(tasks, ok)
  {
    var inFlight, next, last := Refill(tasks, limit, [], 0, 0, (0, 0));
    var done := 0;
    rows := [];
    while inFlight != []
      invariant done <= next <= |tasks| && inFlight == tasks[done..next]
      invariant next == if done + limit < |tasks| then done + limit else |tasks|
      invariant next > done ==> last == tasks[next - 1]
      invariant rows + Recorded(tasks, ok, 0, done) == Recorded(tasks, ok, 0, 0)
      decreases |tasks| - done
    {
      var finished := inFlight[0];
      inFlight := inFlight[1..];
      ghost var before := rows;
      if ok(finished) {
        rows := rows + [finished];
      }
      assert rows == before + (if ok(tasks[done]) then [finished] else []);
      RecordedStep(before, rows, tasks, ok, 0, done, finished, Recorded(tasks, ok, 0, 0));
      assert rows + Recorded(tasks, ok, 0, done + 1) == Recorded(tasks, ok, 0, 0);
      done := done + 1;
      assert inFlight == tasks[done..next];
      inFlight, next, last := Refill(tasks, limit, inFlight, next, done, last);
    }
    assert rows + [] == rows;
    RecordedNoLag(tasks, ok, 0);
    assert tasks[0..] == tasks;
  }

  /** With two requests in flight and every result ok, the first two rows as
      written both carry (0, 1): the point (0, 0) is never recorded although
      its prediction is. With the default 6 workers and queue multiplier 4,
      24 requests are in flight, so a row carries the point drawn 23 places
      later. */
  lemma AsWrittenMisplacesRows()
    ensures Sweep()[..2] == [(0, 0), (0, 1)]
    ensures Recorded(Sweep()[..2], _ => true, 1, 0) == [(0, 1), (0, 1)]
    ensures OkTasks(Sweep()[..2], _ => true) == [(0, 0), (0, 1)]
  {
    var tasks := Sweep()[..2];
    assert tasks[0] == (0, 0) && tasks[1] == (0, 1);
    assert tasks == [(0, 0), (0, 1)];
    assert tasks[1..] == [(0, 1)];
  }
}
