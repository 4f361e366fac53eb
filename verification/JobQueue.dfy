/** The life of an EDA job: the API calls and the single worker of `EDAJobManager`, as the
    segments of code that run without an `await` between them. */
module JobQueue {
  import opened Basics

  datatype Status = Queued | Running | Completed | Failed

  /** What a stage reports, as far as the manager looks at it. */
  datatype Report = Report(errors: seq<string>)

  datatype Row = Row(status: Status, progress: int, report: Option<Report>, error: string)

  /** Where the worker is: which job it has taken, and at which `await` it is suspended.
      `Stopped` is the worker task after an exception nobody catches. */
  datatype Worker =
    | Idle
    | Popped(id: string)
    | Announcing(id: string)
    | Working(id: string, done: nat)
    | Reporting(id: string)
    | Apologising(id: string)
    | Stopped

  /** The table, the Redis queue and the worker; then the history: the ids ever created, those
      whose request is not yet enqueued, the ids in the order they were enqueued, how many have
      been popped, and which of these (by position) were started. */
  datatype State = State(rows: map<string, Row>, queue: seq<string>, worker: Worker,
                         created: set<string>, pending: set<string>, enqueued: seq<string>, popped: nat,
                         started: seq<int>)

  const INITIAL := State(map[], [], Idle, {}, {}, [], 0, [])

  predicate IsSpace(c: char) {
    9 <= c as int <= 13 || 28 <= c as int <= 32
  }

  /** Tab, newline, vertical tab, form feed, carriage return, the four separators, and the blank. */
  lemma SpacesAre(c: char)
    ensures IsSpace(c) <==> c == '\t' || c == '\n' || c == '\r' || c == ' ' || c as int in {11, 12, 28, 29, 30, 31}
  {
  }

  predicate Blank(s: string) {
    forall k :: 0 <= k < |s| ==> IsSpace(s[k])
  }

  /** `s.strip()` */
  function Strip(s: string): string {
    if s == [] then s
    else if IsSpace(s[0]) then Strip(s[1..])
    else if IsSpace(s[|s| - 1]) then Strip(s[..|s| - 1])
    else s
  }

  /** The errors that count, stripped: those that are not blank. */
  function NonBlank(errors: seq<string>): seq<string> {
    if errors == [] then []
    else (if Strip(errors[0]) == [] then [] else [Strip(errors[0])]) + NonBlank(errors[1..])
  }

  function StageErrors(report: Report): seq<string> {
    NonBlank(report.errors)
  }

  /** `"; ".join(texts)` */
  function Joined(texts: seq<string>): string {
    if texts == [] then []
    else if |texts| == 1 then texts[0]
    else texts[0] + "; " + Joined(texts[1..])
  }

  // ----- Segments

  datatype Step =
    | Create(id: string)
    | Enqueue(id: string)
    | Delete(id: string)
    | Pop
    | Begin
    | AwaitReturns
    | AwaitRaises(message: string)
    | Progress
    | Finish(report: Report)
    | StageRaises(message: string)

  const MARKS: seq<int> := [25, 55, 80]

  function WithRow(s: State, id: string, row: Row): State {
    s.(rows := s.rows[id := row])
  }

  /** The handler of the `try` block: a job that is still there becomes FAILED. */
  function Fail(s: State, id: string, message: string): State {
    if id !in s.rows then s.(worker := Idle)
    else WithRow(s, id, s.rows[id].(status := Failed, error := message, progress := 100)).(worker := Apologising(id))
  }

  /** A step that is not enabled changes nothing. Ids are drawn fresh (uuid4). */
  function Next(s: State, step: Step): State {
    match step
    case Create(id) =>
      if id in s.created then s
      else WithRow(s, id, Row(Queued, 0, None, "")).(created := s.created + {id}, pending := s.pending + {id})
    case Enqueue(id) =>
      if id !in s.pending then s
      else s.(pending := s.pending - {id}, queue := s.queue + [id], enqueued := s.enqueued + [id])
    case Delete(id) => s.(rows := s.rows - {id})
    case Pop =>
      if s.worker != Idle || s.queue == [] then s
      else s.(worker := Popped(s.queue[0]), queue := s.queue[1..], popped := s.popped + 1)
    case Begin =>
      if !s.worker.Popped? then s
      else if s.worker.id !in s.rows then s.(worker := Idle)
      else
        var id := s.worker.id;
        WithRow(s, id, s.rows[id].(status := Running, progress := 10))
          .(worker := Announcing(id), started := s.started + [s.popped - 1])
    case AwaitReturns =>
      (match s.worker
       case Announcing(id) => s.(worker := Working(id, 0))
       case Reporting(_) => s.(worker := Idle)
       case Apologising(_) => s.(worker := Idle)
       case _ => s)
    case AwaitRaises(message) =>
      (match s.worker
       case Announcing(_) => s.(worker := Stopped)
       case Working(id, _) => Fail(s, id, message)
       case Reporting(id) => Fail(s, id, message)
       case Apologising(_) => s.(worker := Stopped)
       case _ => s)
    case Progress =>
      if !s.worker.Working? || s.worker.done >= |MARKS| then s
      else
        var id, done := s.worker.id, s.worker.done;
        var t := s.(worker := Working(id, done + 1));
        if id in s.rows then WithRow(t, id, s.rows[id].(progress := MARKS[done])) else t
    case Finish(report) =>
      if !s.worker.Working? || s.worker.done < |MARKS| then s
      else if s.worker.id !in s.rows then s.(worker := Idle)
      else
        var id, errors := s.worker.id, StageErrors(report);
        var row := s.rows[id].(status := if errors != [] then Failed else Completed, progress := 100,
                               report := Some(report),
                               error := if errors != [] then Joined(errors) else s.rows[id].error);
        WithRow(s, id, row).(worker := Reporting(id))
    case StageRaises(message) =>
      if !s.worker.Working? || s.worker.done < |MARKS| then s else Fail(s, s.worker.id, message)
  }

  function Run(steps: seq<Step>): State {
    if steps == [] then INITIAL else Next(Run(steps[..|steps| - 1]), steps[|steps| - 1])
  }

  // ----- The manager, segment by segment

  class EDAJobManager {
    var rows: map<string, Row>
    var queue: seq<string>
    var worker: Worker
    ghost var created: set<string>
    ghost var pending: set<string>
    ghost var enqueued: seq<string>
    ghost var popped: nat
    ghost var started: seq<int>

    ghost function View(): State
      reads this
    {
      State(rows, queue, worker, created, pending, enqueued, popped, started)
    }

    constructor ()
      ensures View() == INITIAL
    {
      rows, queue, worker := map[], [], Idle;
      created, pending, enqueued, popped, started := {}, {}, [], 0, [];
    }

    method CreateJob(id: string)
      requires id !in created
      modifies this
      ensures View() == Next(old(View()), Create(id))
    {
      rows := rows[id := Row(Queued, 0, None, "")];
      created, pending := created + {id}, pending + {id};
    }

    method EnqueueJob(id: string)
      requires id in pending
      modifies this
      ensures View() == Next(old(View()), Enqueue(id))
    {
      queue := queue + [id];
      pending, enqueued := pending - {id}, enqueued + [id];
    }

    method DeleteJob(id: string) returns (deleted: bool)
      modifies this
      ensures View() == Next(old(View()), Delete(id)) && (deleted <==> id in old(rows))
    {
      if id !in rows {
        assert rows - {id} == rows;
        return false;
      }
      rows := rows - {id};
      deleted := true;
    }

    /** `blpop`; an empty queue leaves the worker where it is. */
    method PopJob()
      requires worker == Idle
      modifies this
      ensures View() == Next(old(View()), Pop)
    {
      if queue != [] {
        worker, queue := Popped(queue[0]), queue[1..];
        popped := popped + 1;
      }
    }

    method BeginJob()
      requires worker.Popped?
      requires popped > 0
      modifies this
      ensures View() == Next(old(View()), Begin)
    {
      var id := worker.id;
      if id !in rows {
        worker := Idle;
        return;
      }
      rows := rows[id := rows[id].(status := Running)];
      rows := rows[id := rows[id].(progress := 10)];
      worker := Announcing(id);
      started := started + [popped - 1];
    }

    /** One turn of the progress loop: `_update_progress` after its sleep. */
    method UpdateProgress()
      requires worker.Working? && worker.done < |MARKS|
      modifies this
      ensures View() == Next(old(View()), Progress)
    {
      var id, done := worker.id, worker.done;
      if id in rows {
        rows := rows[id := rows[id].(progress := MARKS[done])];
      }
      worker := Working(id, done + 1);
    }

    /** From the return of `run_stage` to the commit of its report. */
    method CommitReport(report: Report)
      requires worker.Working? && worker.done == |MARKS|
      modifies this
      ensures View() == Next(old(View()), Finish(report))
    {
      var id, errors := worker.id, StageErrors(report);
      if id !in rows {
        worker := Idle;
        return;
      }
      var row := rows[id];
      row := row.(status := if errors != [] then Failed else Completed);
      row := row.(progress := 100, report := Some(report));
      if errors != [] {
        row := row.(error := Joined(errors));
      }
      rows := rows[id := row];
      worker := Reporting(id);
    }

    /** The log and status messages of the current segment went out. */
    method Resume()
      requires worker.Announcing? || worker.Reporting? || worker.Apologising?
      modifies this
      ensures View() == Next(old(View()), AwaitReturns)
    {
      worker := if worker.Announcing? then Working(worker.id, 0) else Idle;
    }

    /** They did not, outside the `try`: the exception ends the worker loop. */
    method Die(message: string)
      requires worker.Announcing? || worker.Apologising?
      modifies this
      ensures View() == Next(old(View()), AwaitRaises(message))
    {
      worker := Stopped;
    }

    /** The handler: it also covers the logging and publishing that follow the commit. */
    method HandleException(message: string)
      requires worker.Working? || worker.Reporting?
      modifies this
      ensures View() == Next(old(View()), AwaitRaises(message))
      ensures old(worker).Working? && old(worker).done >= |MARKS| ==> View() == Next(old(View()), StageRaises(message))
    {
      var id := worker.id;
      if id !in rows {
        worker := Idle;
        return;
      }
      rows := rows[id := rows[id].(status := Failed, error := message, progress := 100)];
      worker := Apologising(id);
    }
  }

  // ----- What every state satisfies

  /** The queue is what has been enqueued and not popped; every id is enqueued once at most. */
  ghost predicate QueueOk(created: set<string>, pending: set<string>, enqueued: seq<string>, popped: nat,
                          queue: seq<string>) {
    && pending <= created && popped <= |enqueued| && queue == enqueued[popped..]
    && (forall i :: 0 <= i < |enqueued| ==> enqueued[i] in created && enqueued[i] !in pending)
    && (forall i, j :: 0 <= i < j < |enqueued| ==> enqueued[i] != enqueued[j])
  }

  ghost predicate HistoryOk(s: State) {
    s.rows.Keys <= s.created && QueueOk(s.created, s.pending, s.enqueued, s.popped, s.queue)
  }

  /** The job the worker has in hand is the one it popped last. */
  ghost predicate HandOk(s: State) {
    !s.worker.Idle? && !s.worker.Stopped? ==> 0 < s.popped <= |s.enqueued| && s.worker.id == s.enqueued[s.popped - 1]
  }

  /** Started jobs, by their position in the enqueue order; the last popped one may be among them. */
  ghost predicate OrderOk(s: State) {
    && (forall i :: 0 <= i < |s.started| ==> 0 <= s.started[i] < Taken(s))
    && (forall i, j :: 0 <= i < j < |s.started| ==> s.started[i] < s.started[j])
  }

  /** How many of the enqueued jobs the worker has begun with, or dropped. */
  ghost function Taken(s: State): int {
    s.popped - if s.worker.Popped? then 1 else 0
  }

  ghost predicate TakenYet(s: State, id: string) {
    0 <= Taken(s) <= |s.enqueued| && id in s.enqueued[..Taken(s)]
  }

  /** A row nobody has begun is untouched; a finished row is at 100, and completed only without errors. */
  ghost predicate RowOk(s: State, id: string, row: Row) {
    && (!TakenYet(s, id) ==> row == Row(Queued, 0, None, ""))
    && (row.status == Queued ==> !TakenYet(s, id))
    && (row.status == Completed ==> row.progress == 100 && row.report.Some? && StageErrors(row.report.value) == [])
    && (row.status == Failed ==> row.progress == 100)
  }

  /** The row of the job in hand is where the worker thinks it is. */
  ghost predicate HandRowOk(s: State) {
    match s.worker
    case Announcing(id) => id in s.rows ==> s.rows[id].status == Running && s.rows[id].progress == 10
    case Working(id, done) =>
      done <= |MARKS| &&
      (id in s.rows ==>
         s.rows[id].status == Running && s.rows[id].progress == if done == 0 then 10 else MARKS[done - 1])
    case Reporting(id) => id in s.rows ==> s.rows[id].status == Completed || s.rows[id].status == Failed
    case Apologising(id) => id in s.rows ==> s.rows[id].status == Failed
    case _ => true
  }

  ghost predicate RowsOk(s: State) {
    forall id :: id in s.rows ==> RowOk(s, id, s.rows[id])
  }

  ghost predicate Inv(s: State) {
    HistoryOk(s) && HandOk(s) && OrderOk(s) && RowsOk(s) && HandRowOk(s)
  }

  /** The moves a status may make in one step. */
  predicate MayBecome(a: Status, b: Status) {
    || a == b
    || (a == Queued && b == Running)
    || (a == Running && (b == Completed || b == Failed))
    || (a == Completed && b == Failed)
  }

  ghost predicate StepOk(s: State, t: State) {
    && s.created <= t.created
    && (forall id :: id in s.created && id !in s.rows ==> id !in t.rows)
    && (forall id :: id in s.rows && id in t.rows ==>
          s.rows[id].progress <= t.rows[id].progress && MayBecome(s.rows[id].status, t.rows[id].status))
    && s.started <= t.started && s.enqueued <= t.enqueued
  }

  lemma NextKeepsHistory(s: State, step: Step)
    requires HistoryOk(s)
    ensures HistoryOk(Next(s, step))
  {
    hide QueueOk;
    if step.Create? {
      CreateKeepsQueue(s.created, s.pending, s.enqueued, s.popped, s.queue, step.id);
    } else if step.Enqueue? && step.id in s.pending {
      EnqueueKeepsQueue(s.created, s.pending, s.enqueued, s.popped, s.queue, step.id);
    } else if step.Pop? && s.queue != [] {
      PopKeepsQueue(s.created, s.pending, s.enqueued, s.popped, s.queue);
    }
  }

  lemma CreateKeepsQueue(created: set<string>, pending: set<string>, enqueued: seq<string>, popped: nat,
                         queue: seq<string>, id: string)
    requires QueueOk(created, pending, enqueued, popped, queue)
    ensures id !in created ==> QueueOk(created + {id}, pending + {id}, enqueued, popped, queue)
  {
  }

  lemma EnqueueKeepsQueue(created: set<string>, pending: set<string>, enqueued: seq<string>, popped: nat,
                          queue: seq<string>, id: string)
    requires QueueOk(created, pending, enqueued, popped, queue) && id in pending
    ensures QueueOk(created, pending - {id}, enqueued + [id], popped, queue + [id])
  {
  }

  lemma PopKeepsQueue(created: set<string>, pending: set<string>, enqueued: seq<string>, popped: nat,
                      queue: seq<string>)
    requires QueueOk(created, pending, enqueued, popped, queue) && queue != []
    ensures QueueOk(created, pending, enqueued, popped + 1, queue[1..]) && queue[0] == enqueued[popped]
  {
  }

  lemma NextKeepsHand(s: State, step: Step)
    requires HistoryOk(s) && HandOk(s)
    ensures HandOk(Next(s, step))
  {
  }

  lemma NextKeepsOrder(s: State, step: Step)
    requires HistoryOk(s) && HandOk(s) && OrderOk(s)
    ensures OrderOk(Next(s, step))
  {
  }

  lemma NextKeepsHandRow(s: State, step: Step)
    requires HistoryOk(s) && HandOk(s) && HandRowOk(s)
    requires step.Create? ==> s.worker.Idle? || s.worker.Stopped? || s.worker.id in s.created
    ensures HandRowOk(Next(s, step))
  {
  }

  /** A job counts as taken from the moment the worker begins with it. */
  lemma TakenBegins(s: State, step: Step, id: string)
    requires HistoryOk(s) && HandOk(s)
    ensures TakenYet(Next(s, step), id) <==> TakenYet(s, id) || (step.Begin? && s.worker == Popped(id))
  {
    var t := Next(s, step);
    if step.Begin? && s.worker.Popped? {
      assert t.enqueued[..s.popped] == s.enqueued[..s.popped - 1] + [s.worker.id];
    } else {
      assert Taken(t) == Taken(s);
      assert t.enqueued[..Taken(s)] == s.enqueued[..Taken(s)];
    }
  }

  lemma NextKeepsRows(s: State, step: Step)
    requires HistoryOk(s) && HandOk(s) && RowsOk(s) && HandRowOk(s)
    ensures RowsOk(Next(s, step))
  {
    hide TakenYet;
    var t := Next(s, step);
    forall id | id in t.rows ensures RowOk(t, id, t.rows[id]) {
      TakenBegins(s, step, id);
      if id in s.rows {
        assert RowOk(s, id, s.rows[id]);
      } else {
        NotTaken(s, id);
      }
    }
  }

  lemma NotTaken(s: State, id: string)
    requires HistoryOk(s) && id !in s.created
    ensures !TakenYet(s, id)
  {
  }

  lemma PoppedIsNotTaken(s: State)
    requires HistoryOk(s) && HandOk(s) && s.worker.Popped?
    ensures !TakenYet(s, s.worker.id)
  {
  }

  lemma NextIsStep(s: State, step: Step)
    requires Inv(s)
    ensures StepOk(s, Next(s, step))
  {
    hide QueueOk, HandOk, OrderOk, TakenYet, StageErrors;
    if s.worker.Popped? {
      PoppedIsNotTaken(s);
    }
    var t := Next(s, step);
    forall id | id in s.rows && id in t.rows
      ensures s.rows[id].progress <= t.rows[id].progress && MayBecome(s.rows[id].status, t.rows[id].status)
    {
      assert RowOk(s, id, s.rows[id]);
    }
  }

  lemma {:induction false} RunIsOk(steps: seq<Step>)
    ensures Inv(Run(steps))
  {
    hide HistoryOk, HandOk, OrderOk, RowsOk, HandRowOk;
    if steps == [] {
      InitialIsOk();
    } else {
      var s, step := Run(steps[..|steps| - 1]), steps[|steps| - 1];
      RunIsOk(steps[..|steps| - 1]);
      NextKeepsHistory(s, step);
      NextKeepsHand(s, step);
      NextKeepsOrder(s, step);
      NextKeepsRows(s, step);
      HandIsCreated(s);
      NextKeepsHandRow(s, step);
    }
  }

  lemma InitialIsOk()
    ensures Inv(INITIAL)
  {
  }

  lemma HandIsCreated(s: State)
    requires HistoryOk(s) && HandOk(s)
    ensures s.worker.Idle? || s.worker.Stopped? || s.worker.id in s.created
  {
  }

  // ----- Over whole runs

  /** The moves a status may make over any number of steps: FAILED is final. */
  predicate Leads(a: Status, b: Status) {
    match a
    case Queued => true
    case Running => b != Queued
    case Completed => b == Completed || b == Failed
    case Failed => b == Failed
  }

  /** What can be said of a later state of the same run. */
  ghost predicate Evolves(s: State, t: State) {
    && s.created <= t.created
    && (forall id :: id in s.created && id !in s.rows ==> id !in t.rows)
    && (forall id :: id in s.rows && id in t.rows ==>
          s.rows[id].progress <= t.rows[id].progress && Leads(s.rows[id].status, t.rows[id].status))
    && s.started <= t.started && s.enqueued <= t.enqueued
  }

  lemma EvolvesOn(s: State, t: State, u: State)
    requires s.rows.Keys <= s.created && Evolves(s, t) && StepOk(t, u)
    ensures Evolves(s, u)
  {
    forall id | id in s.rows && id in u.rows
      ensures s.rows[id].progress <= u.rows[id].progress && Leads(s.rows[id].status, u.rows[id].status)
    {
      assert id in s.created && id in t.rows;
    }
  }

  /** In every interleaving: a deleted row never reappears, progress never decreases, statuses only
      move forward, FAILED is final and COMPLETED can only become FAILED. */
  lemma {:induction false} RunEvolves(steps: seq<Step>, i: nat)
    requires i <= |steps|
    ensures Evolves(Run(steps[..i]), Run(steps))
    decreases |steps|
  {
    if i == |steps| {
      assert steps[..i] == steps;
    } else {
      var front := steps[..|steps| - 1];
      RunEvolves(front, i);
      assert front[..i] == steps[..i];
      RunIsOk(front);
      RunIsOk(steps[..i]);
      NextIsStep(Run(front), steps[|steps| - 1]);
      EvolvesOn(Run(steps[..i]), Run(front), Run(steps));
    }
  }

  /** A row is COMPLETED only with a report that holds no error but blank ones. */
  lemma {:induction false} CompletedMeansNoErrors(steps: seq<Step>, id: string)
    requires id in Run(steps).rows && Run(steps).rows[id].status == Completed
    ensures var row := Run(steps).rows[id];
            row.progress == 100 && row.report.Some? && forall e :: e in row.report.value.errors ==> Blank(e)
  {
    RunIsOk(steps);
    assert RowOk(Run(steps), id, Run(steps).rows[id]);
    NonBlankKeeps(Run(steps).rows[id].report.value.errors);
  }

  /** `t` is `s` from `i` to `j`: what is cut off is blank, and `t` begins and ends with no blank. */
  ghost predicate CutAt(s: string, t: string, i: nat, j: nat) {
    && i <= j <= |s| && t == s[i..j]
    && (forall k :: 0 <= k < i ==> IsSpace(s[k])) && (forall k :: j <= k < |s| ==> IsSpace(s[k]))
    && (i < j ==> !IsSpace(s[i]) && !IsSpace(s[j - 1]))
  }

  ghost predicate Stripped(s: string, t: string) {
    exists i, j :: CutAt(s, t, i, j)
  }

  /** Stripping takes the blanks off both ends and nothing else. */
  lemma {:induction false} StripIs(s: string) returns (i: nat, j: nat)
    ensures CutAt(s, Strip(s), i, j)
    decreases |s|
  {
    hide IsSpace;
    if s == [] {
      i, j := 0, 0;
    } else if IsSpace(s[0]) {
      i, j := StripIs(s[1..]);
      CutBehind(s, Strip(s), i, j);
      i, j := i + 1, j + 1;
    } else if IsSpace(s[|s| - 1]) {
      i, j := StripIs(s[..|s| - 1]);
      CutInFront(s, Strip(s), i, j);
    } else {
      i, j := 0, |s|;
      assert s[0..|s|] == s;
    }
  }

  lemma CutBehind(s: string, t: string, i: nat, j: nat)
    requires s != [] && IsSpace(s[0]) && CutAt(s[1..], t, i, j)
    ensures CutAt(s, t, i + 1, j + 1)
  {
    hide IsSpace;
    var u := s[1..];
    assert forall k :: 0 < k < |s| ==> s[k] == u[k - 1];
    assert s[i + 1..j + 1] == u[i..j];
  }

  lemma CutInFront(s: string, t: string, i: nat, j: nat)
    requires s != [] && IsSpace(s[|s| - 1]) && CutAt(s[..|s| - 1], t, i, j)
    ensures CutAt(s, t, i, j)
  {
    hide IsSpace;
    var u := s[..|s| - 1];
    assert forall k :: 0 <= k < |u| ==> s[k] == u[k];
    assert s[i..j] == u[i..j];
  }

  lemma StripBlankIff(s: string)
    ensures Stripped(s, Strip(s)) && (Strip(s) == [] <==> Blank(s))
  {
    var i, j := StripIs(s);
  }

  /** `kept` are the errors at the places `at`, which are those of all that are not blank, stripped. */
  ghost predicate KeptAt(errors: seq<string>, kept: seq<string>, at: seq<nat>) {
    && |at| == |kept|
    && (forall k :: 0 <= k < |at| ==>
          at[k] < |errors| && !Blank(errors[at[k]]) && Stripped(errors[at[k]], kept[k]))
    && (forall k, l :: 0 <= k < l < |at| ==> at[k] < at[l])
    && (forall i: nat :: i < |errors| && !Blank(errors[i]) ==> i in at)
  }

  lemma {:induction false} NonBlankIs(errors: seq<string>) returns (at: seq<nat>)
    ensures KeptAt(errors, NonBlank(errors), at)
    decreases |errors|
  {
    hide Strip, Blank, Stripped, NonBlank, KeptAt;
    if errors == [] {
      at := [];
      NoneKept();
    } else {
      var front, last := errors[..|errors| - 1], errors[|errors| - 1];
      assert front + [last] == errors;
      at := NonBlankIs(front);
      NonBlankMore(front, last);
      StripBlankIff(last);
      KeptMore(front, NonBlank(front), at, last);
      if Strip(last) != [] {
        at := at + [|front|];
      } else {
        assert NonBlank(front) + [] == NonBlank(front);
      }
    }
  }

  lemma NoneKept()
    ensures KeptAt([], NonBlank([]), [])
  {
  }

  lemma {:induction false} NonBlankMore(errors: seq<string>, last: string)
    ensures NonBlank(errors + [last]) == NonBlank(errors) + if Strip(last) == [] then [] else [Strip(last)]
  {
    hide Strip;
    if errors == [] {
      assert [] + [last] == [last] && [last][1..] == [];
    } else {
      assert (errors + [last])[1..] == errors[1..] + [last];
      NonBlankMore(errors[1..], last);
    }
  }

  lemma {:induction false} KeptMore(errors: seq<string>, kept: seq<string>, at: seq<nat>, last: string)
    requires KeptAt(errors, kept, at) && Stripped(last, Strip(last))
    ensures if Blank(last) then KeptAt(errors + [last], kept, at)
            else KeptAt(errors + [last], kept + [Strip(last)], at + [|errors|])
  {
    hide Strip, Blank, Stripped;
    var all := errors + [last];
    assert forall i :: 0 <= i < |errors| ==> all[i] == errors[i];
    assert all[|errors|] == last;
  }

  lemma NonBlankKeeps(errors: seq<string>)
    ensures NonBlank(errors) == [] <==> forall e :: e in errors ==> Blank(e)
  {
    hide Blank, NonBlank;
    var at := NonBlankIs(errors);
    if NonBlank(errors) != [] {
      assert errors[at[0]] in errors;
    }
    if e :| e in errors && !Blank(e) {
      var i :| 0 <= i < |errors| && errors[i] == e;
      assert i in at;
    }
  }

  /** A stage that returns while its row is there: the row stores this very report, and becomes
      COMPLETED exactly when all its errors are blank, else FAILED with the others, stripped, joined
      in their order. */
  lemma FinishStores(steps: seq<Step>, report: Report) returns (at: seq<nat>)
    requires var s := Run(steps); s.worker.Working? && s.worker.done == 3 && s.worker.id in s.rows
    ensures var id := Run(steps).worker.id;
            var before, after := Run(steps).rows, Run(steps + [Finish(report)]).rows;
            && after.Keys == before.Keys && (forall x :: x in before && x != id ==> after[x] == before[x])
            && after[id].report == Some(report) && after[id].progress == 100
            && (after[id].status == Completed <==> forall e :: e in report.errors ==> Blank(e))
            && (after[id].status == Completed ==> after[id].error == before[id].error)
            && (after[id].status != Completed ==>
                  after[id].status == Failed && after[id].error == Joined(StageErrors(report)))
            && KeptAt(report.errors, StageErrors(report), at)
  {
    hide Run, NonBlank;
    RunMore(steps + [Finish(report)], |steps|);
    assert (steps + [Finish(report)])[..|steps|] == steps;
    assert (steps + [Finish(report)])[..|steps| + 1] == steps + [Finish(report)];
    at := NonBlankIs(report.errors);
    NonBlankKeeps(report.errors);
  }

  /** Joining puts "; " between each text and the next. */
  lemma {:induction false} JoinedMore(texts: seq<string>, last: string)
    ensures Joined([last]) == last
    ensures texts != [] ==> Joined(texts + [last]) == Joined(texts) + "; " + last
  {
    if |texts| > 1 {
      JoinedMore(texts[1..], last);
      assert (texts + [last])[1..] == texts[1..] + [last];
      assert texts[0] + "; " + (Joined(texts[1..]) + "; " + last)
          == (texts[0] + "; " + Joined(texts[1..])) + "; " + last;
    } else if |texts| == 1 {
      assert (texts + [last])[1..] == [last];
    }
  }

  /** The row a segment may change: that of its own id, or of the job in hand. */
  function Subject(s: State, step: Step): Option<string> {
    match step
    case Create(id) => Some(id)
    case Delete(id) => Some(id)
    case Enqueue(_) => None
    case Pop => None
    case _ => if s.worker.Idle? || s.worker.Stopped? then None else Some(s.worker.id)
  }

  /** What an enabled segment does to the row it may change, in the table's own terms. */
  ghost predicate RowMoves(step: Step, worker: Worker, before: Option<Row>, after: Option<Row>) {
    match step
    case Create(_) => after == Some(Row(Queued, 0, None, ""))
    case Delete(_) => after == None
    case Begin => after == if before.None? then None else Some(before.value.(status := Running, progress := 10))
    case Progress =>
      after == if before.None? || !worker.Working? then None
               else Some(before.value.(progress := if worker.done == 0 then 25
                                                   else if worker.done == 1 then 55 else 80))
    case AwaitRaises(message) =>
      after == if before.None? || worker.Announcing? || worker.Apologising? then before
               else Some(before.value.(status := Failed, error := message, progress := 100))
    case StageRaises(message) =>
      after == if before.None? then None
               else Some(before.value.(status := Failed, error := message, progress := 100))
    case Finish(report) =>
      before.Some? == after.Some? && (after.Some? ==> after.value.report == Some(report) && after.value.progress == 100)
    case _ => after == before
  }

  /** Enqueued ids go to the end, the worker takes from the front, and nothing else touches the queue. */
  ghost predicate QueueMoves(step: Step, before: seq<string>, after: seq<string>, worker: Worker) {
    match step
    case Enqueue(id) => after == before + [id]
    case Pop => if before == [] then after == [] else before == [before[0]] + after && worker == Popped(before[0])
    case _ => after == before
  }

  function RowOf(s: State, id: string): Option<Row> {
    if id in s.rows then Some(s.rows[id]) else None
  }

  /** Over every run: a segment changes no row but one, and that one as the source says. */
  lemma SegmentMoves(steps: seq<Step>, step: Step, id: string)
    requires Enabled(Run(steps), step)
    ensures var s, t := Run(steps), Run(steps + [step]);
            if Subject(s, step) == Some(id) then RowMoves(step, s.worker, RowOf(s, id), RowOf(t, id))
            else RowOf(t, id) == RowOf(s, id)
    ensures var s, t := Run(steps), Run(steps + [step]); QueueMoves(step, s.queue, t.queue, t.worker)
  {
    hide Run, Joined, NonBlank;
    RunMore(steps + [step], |steps|);
    assert (steps + [step])[..|steps|] == steps && (steps + [step])[..|steps| + 1] == steps + [step];
  }

  /** While a job is worked on, its row shows 10, 25, 55 or 80, by the marks that are done. */
  lemma ProgressShown(steps: seq<Step>)
    requires Run(steps).worker.Working?
    ensures var s := Run(steps); var id, done := s.worker.id, s.worker.done;
            && done <= 3
            && (id in s.rows ==>
                  s.rows[id].status == Running &&
                  s.rows[id].progress
                    == if done == 0 then 10 else if done == 1 then 25 else if done == 2 then 55 else 80)
  {
    RunIsOk(steps);
  }

  /** Jobs start in the order in which they were enqueued, each at most once. */
  lemma StartsInOrder(steps: seq<Step>, i: nat, j: nat)
    requires i < j < |Run(steps).started|
    ensures var s := Run(steps);
            0 <= s.started[i] < s.started[j] < |s.enqueued| && s.enqueued[s.started[i]] != s.enqueued[s.started[j]]
  {
    RunIsOk(steps);
  }

  /** A status moves by single steps only: QUEUED to RUNNING to a terminal state, COMPLETED to FAILED. */
  lemma RunStep(steps: seq<Step>, step: Step, id: string)
    requires id in Run(steps).rows && id in Run(steps + [step]).rows
    ensures MayBecome(Run(steps).rows[id].status, Run(steps + [step]).rows[id].status)
  {
    RunIsOk(steps);
    assert (steps + [step])[..|steps|] == steps;
    NextIsStep(Run(steps), step);
  }

  /** COMPLETED turns into FAILED exactly when logging or publishing fails after the commit. */
  lemma {:induction false} CompletedFailsIff(steps: seq<Step>, step: Step, id: string)
    requires id in Run(steps).rows && Run(steps).rows[id].status == Completed
    requires id in Run(steps + [step]).rows
    ensures Run(steps + [step]).rows[id].status == Failed <==>
              step.AwaitRaises? && Run(steps).worker == Reporting(id)
  {
    hide Run, Next, Inv;
    RunIsOk(steps);
    RunMore(steps + [step], |steps|);
    assert (steps + [step])[..|steps|] == steps && (steps + [step])[..|steps| + 1] == steps + [step];
    CompletedRowFailsIff(Run(steps), step, id);
  }

  lemma CompletedRowFailsIff(s: State, step: Step, id: string)
    requires Inv(s) && id in s.rows && s.rows[id].status == Completed && id in Next(s, step).rows
    ensures Next(s, step).rows[id].status == Failed <==> step.AwaitRaises? && s.worker == Reporting(id)
  {
    hide RowsOk, OrderOk, QueueOk, Run;
    CompletedIsTaken(s, id);
  }

  /** What a completed row excludes: it is not waiting, and it is not being worked on. */
  lemma CompletedIsTaken(s: State, id: string)
    requires Inv(s) && id in s.rows && s.rows[id].status == Completed
    ensures s.worker != Popped(id) && s.worker != Announcing(id) && (s.worker.Working? ==> s.worker.id != id)
    ensures id in s.created
  {
    if s.worker == Popped(id) {
      PoppedIsNotTaken(s);
    }
  }

  // ----- A run in which COMPLETED turns into FAILED

  ghost const COMPLETING := [Create("job"), Enqueue("job"), Pop, Begin, AwaitReturns, Progress, Progress, Progress,
                             Finish(Report([]))]

  lemma RunMore(steps: seq<Step>, k: nat)
    requires k < |steps|
    ensures Run(steps[..k + 1]) == Next(Run(steps[..k]), steps[k])
  {
    assert steps[..k + 1][..k] == steps[..k];
  }

  /** The job is the only one, its row is `row` and the worker is at `worker`. */
  ghost predicate At(s: State, row: Row, worker: Worker) {
    s.rows == map["job" := row] && s.worker == worker
  }

  lemma JobIsTaken()
    ensures var s := Next(Next(Next(INITIAL, Create("job")), Enqueue("job")), Pop);
            At(s, Row(Queued, 0, None, ""), Popped("job"))
  {
    var s := Next(INITIAL, Create("job"));
    assert s.rows == map["job" := Row(Queued, 0, None, "")] && "job" in s.pending;
    assert Next(s, Enqueue("job")).queue == ["job"];
  }

  lemma JobBegins(s: State)
    requires At(s, Row(Queued, 0, None, ""), Popped("job"))
    ensures At(Next(Next(s, Begin), AwaitReturns), Row(Running, 10, None, ""), Working("job", 0))
  {
    assert At(Next(s, Begin), Row(Running, 10, None, ""), Announcing("job"));
  }

  lemma JobProgresses(s: State, progress: int, done: nat)
    requires At(s, Row(Running, progress, None, ""), Working("job", done)) && done < |MARKS|
    ensures At(Next(s, Progress), Row(Running, MARKS[done], None, ""), Working("job", done + 1))
  {
  }

  lemma JobEnds(s: State, progress: int)
    requires At(s, Row(Running, progress, None, ""), Working("job", 3))
    ensures At(Next(s, Finish(Report([]))), Row(Completed, 100, Some(Report([])), ""), Reporting("job"))
  {
  }

  lemma JobCompletes()
    ensures At(Run(COMPLETING), Row(Completed, 100, Some(Report([])), ""), Reporting("job"))
  {
    hide Run, Next, At;
    forall k | 0 <= k < 9 ensures Run(COMPLETING[..k + 1]) == Next(Run(COMPLETING[..k]), COMPLETING[k]) {
      RunMore(COMPLETING, k);
    }
    RunStarts();
    assert COMPLETING[..0] == [] && COMPLETING[..9] == COMPLETING;
    JobIsTaken();
    assert Run(COMPLETING[..2]) == Next(Run(COMPLETING[..1]), Enqueue("job"));
    JobBegins(Run(COMPLETING[..3]));
    assert Run(COMPLETING[..5]) == Next(Run(COMPLETING[..4]), AwaitReturns);
    JobProgresses(Run(COMPLETING[..5]), 10, 0);
    JobProgresses(Run(COMPLETING[..6]), 25, 1);
    JobProgresses(Run(COMPLETING[..7]), 55, 2);
    JobEnds(Run(COMPLETING[..8]), 80);
  }

  lemma RunStarts()
    ensures Run([]) == INITIAL
  {
  }

  /** A job that completes without errors, and a message that does not go out. */
  lemma CompletedMayFail(message: string)
    ensures At(Run(COMPLETING), Row(Completed, 100, Some(Report([])), ""), Reporting("job"))
    ensures At(Run(COMPLETING + [AwaitRaises(message)]), Row(Failed, 100, Some(Report([])), message),
               Apologising("job"))
  {
    hide Run;
    JobCompletes();
    var steps := COMPLETING + [AwaitRaises(message)];
    RunMore(steps, 9);
    assert steps[..10] == steps && steps[..9] == COMPLETING;
  }

  // ----- The manager runs what the segments say

  /** The segment can run: its method may be called. */
  ghost predicate Enabled(s: State, step: Step) {
    match step
    case Create(id) => id !in s.created
    case Enqueue(id) => id in s.pending
    case Delete(_) => true
    case Pop => s.worker == Idle
    case Begin => s.worker.Popped?
    case AwaitReturns => s.worker.Announcing? || s.worker.Reporting? || s.worker.Apologising?
    case AwaitRaises(_) => s.worker.Announcing? || s.worker.Apologising? || s.worker.Working? || s.worker.Reporting?
    case Progress => s.worker.Working? && s.worker.done < |MARKS|
    case Finish(_) => s.worker.Working? && s.worker.done == |MARKS|
    case StageRaises(_) => s.worker.Working? && s.worker.done == |MARKS|
  }

  method Perform(manager: EDAJobManager, step: Step)
    requires Inv(manager.View()) && Enabled(manager.View(), step)
    modifies manager
    ensures manager.View() == Next(old(manager.View()), step)
  {
    match step
    case Create(id) => manager.CreateJob(id);
    case Enqueue(id) => manager.EnqueueJob(id);
    case Delete(id) => var _ := manager.DeleteJob(id);
    case Pop => manager.PopJob();
    case Begin => manager.BeginJob();
    case AwaitReturns => manager.Resume();
    case AwaitRaises(message) =>
      if manager.worker.Announcing? || manager.worker.Apologising? {
        manager.Die(message);
      } else {
        manager.HandleException(message);
      }
    case Progress => manager.UpdateProgress();
    case Finish(report) => manager.CommitReport(report);
    case StageRaises(message) => manager.HandleException(message);
  }

  /** Every interleaving of segments that can run takes the manager through the states of the run,
      of which the lemmas above speak. */
  method Interleave(steps: seq<Step>) returns (manager: EDAJobManager)
    requires forall k :: 0 <= k < |steps| ==> Enabled(Run(steps[..k]), steps[k])
    ensures fresh(manager) && manager.View() == Run(steps)
  {
    hide Inv, Enabled;
    manager := new EDAJobManager();
    RunStarts();
    for k := 0 to |steps|
      invariant fresh(manager) && manager.View() == Run(steps[..k])
    {
      RunIsOk(steps[..k]);
      RunMore(steps, k);
      Perform(manager, steps[k]);
    }
    assert steps[..|steps|] == steps;
  }
}
