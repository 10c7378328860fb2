/**
 * Background job records: the operations on the record store, every interleaving of their reads
 * and writes, and what the records keep through it.
 */
module Jobs {
  import opened Options

  datatype Status = Running | Done | Failed | Stopped

  datatype Record = Record(id: string, request: string, status: Status, pid: Option<nat>, startedAt: int,
                           endedAt: Option<int>, logPath: string, exitCode: Option<int>)

  predicate Terminal(rec: Record) { !rec.status.Running? }

  /** What every record satisfies: it has ended iff it is not running, it is done iff it exited
      with 0, and only a record that is done or failed has an exit code. */
  predicate Coherent(rec: Record) {
    && (rec.endedAt == None <==> rec.status == Running)
    && (rec.exitCode == Some(0) <==> rec.status == Done)
    && (rec.exitCode != None ==> rec.status == Done || rec.status == Failed)
  }

  // ---- Record updates --------------------------------------------------------------------

  function Submitted(id: string, request: string, logPath: string, now: int): Record {
    Record(id, request, Running, None, now, None, logPath, None)
  }

  function Spawned(rec: Record, pid: Option<nat>, now: int): Record {
    if pid.Some? then rec.(pid := pid) else rec.(status := Failed, endedAt := Some(now))
  }

  function Finished(rec: Record, exitCode: int, now: int): Record {
    rec.(status := if exitCode == 0 then Done else Failed, endedAt := Some(now), exitCode := Some(exitCode))
  }

  function Halted(rec: Record, status: Status, now: int): Record {
    rec.(status := status, endedAt := Some(now))
  }

  /** A recorded process counts as alive only if there is a nonzero pid; `alive` is the probe. */
  predicate SeenAlive(rec: Record, alive: bool) { rec.pid.Some? && rec.pid.value != 0 && alive }

  function Reconciled(rec: Record, alive: bool, now: int): Record {
    if rec.status.Running? && !SeenAlive(rec, alive) then Halted(rec, Failed, now) else rec
  }

  /** What each update does to a record, field by field. */
  lemma UpdatesAre(rec: Record, id: string, request: string, logPath: string, pid: Option<nat>, exitCode: int, status: Status, now: int)
    ensures Submitted(id, request, logPath, now) == Record(id, request, Running, None, now, None, logPath, None)
    ensures Spawned(rec, pid, now) ==
            if pid.Some? then rec.(pid := pid) else rec.(status := Failed, endedAt := Some(now))
    ensures Finished(rec, exitCode, now) ==
            if exitCode == 0 then rec.(status := Done, endedAt := Some(now), exitCode := Some(0))
            else rec.(status := Failed, endedAt := Some(now), exitCode := Some(exitCode))
    ensures Halted(rec, status, now) == rec.(status := status, endedAt := Some(now))
  {
  }

  /** A record read as running is failed unless it has a nonzero pid that the probe finds alive; any
      other is returned as it is. */
  lemma ReconciledIs(rec: Record, alive: bool, now: int)
    ensures Reconciled(rec, alive, now) ==
            if rec.status == Running && (rec.pid.None? || rec.pid == Some(0) || !alive)
            then rec.(status := Failed, endedAt := Some(now)) else rec
  {
  }

  // ---- The operations, one at a time -----------------------------------------------------

  datatype Kill = Kill(id: string, pid: nat)

  class JobStore {
    var records: map<string, Record>
    var killed: seq<Kill>

    constructor ()
      ensures records == map[] && killed == []
    {
      records, killed := map[], [];
    }

    /** The record is stored before the worker is spawned, and again with its outcome. */
    method SubmitJob(id: string, request: string, logPath: string, now: int, spawned: Option<nat>, later: int)
      returns (rec: Record)
      requires id !in records
      modifies this
      ensures rec == if spawned.Some? then Record(id, request, Running, spawned, now, None, logPath, None)
                     else Record(id, request, Failed, None, now, Some(later), logPath, None)
      ensures records == old(records)[id := rec] && killed == old(killed)
    {
      rec := Submitted(id, request, logPath, now);
      records := records[id := rec];
      if spawned.Some? {
        rec := rec.(pid := spawned);
      } else {
        rec := rec.(status := Failed, endedAt := Some(later));
      }
      records := records[id := rec];
    }

    method MarkFinished(id: string, exitCode: int, now: int)
      modifies this
      ensures killed == old(killed)
      ensures records == if id in old(records) then old(records)[id := Finished(old(records)[id], exitCode, now)]
                         else old(records)
    {
      if id !in records { return; }
      var rec := records[id];
      rec := rec.(status := if exitCode == 0 then Done else Failed, endedAt := Some(now), exitCode := Some(exitCode));
      records := records[id := rec];
    }

    method GetJob(id: string, alive: bool, now: int) returns (job: Option<Record>)
      modifies this
      ensures killed == old(killed)
      ensures id !in old(records) ==> job == None && records == old(records)
      ensures id in old(records) ==>
                && job == Some(Reconciled(old(records)[id], alive, now))
                && records == old(records)[id := job.value]
      ensures id in old(records) ==>
                var rec := old(records)[id];
                job == Some(if rec.status == Running && (rec.pid.None? || rec.pid == Some(0) || !alive)
                            then rec.(status := Failed, endedAt := Some(now)) else rec)
    {
      if id !in records { return None; }
      var rec := records[id];
      if rec.status.Running? && !SeenAlive(rec, alive) {
        rec := rec.(status := Failed, endedAt := Some(now));
        records := records[id := rec];
      }
      assert records == old(records)[id := rec];
      job := Some(rec);
    }

    /** Stopping kills exactly the recorded process of a job that is running and alive, and refuses
        every other job without a kill. */
    method StopJob(id: string, alive: bool, now: int, later: int) returns (ok: bool, job: Option<Record>)
      modifies this
      ensures ok <==> id in old(records) && old(records)[id].status == Running && alive
                      && old(records)[id].pid.Some? && old(records)[id].pid != Some(0)
      ensures ok ==> && killed == old(killed) + [Kill(id, old(records)[id].pid.value)]
                     && job == Some(old(records)[id].(status := Stopped, endedAt := Some(later)))
                     && records == old(records)[id := job.value]
      ensures !ok ==> && killed == old(killed)
                      && (id !in old(records) ==> job == None && records == old(records))
                      && (id in old(records) ==> && job == Some(Reconciled(old(records)[id], alive, now))
                                                 && records == old(records)[id := job.value])
    {
      job := GetJob(id, alive, now);
      if job.None? || !job.value.status.Running? { return false, job; }
      var rec := job.value;
      if rec.pid.Some? && rec.pid.value != 0 {
        killed := killed + [Kill(id, rec.pid.value)];
      }
      rec := rec.(status := Stopped, endedAt := Some(later));
      records := records[id := rec];
      ok, job := true, Some(rec);
    }
  }

  // ---- Every interleaving ----------------------------------------------------------------

  /** An operation in progress, between its reads and writes of the shared record. */
  datatype Task =
    | SubmitFirst(rec: Record) | SubmitSpawn(rec: Record) | SubmitSecond(rec: Record)
    | FinishRead(id: string, exitCode: int) | FinishWrite(rec: Record)
    | Look(id: string, stop: bool) | Downgrade(rec: Record) | StopKill(rec: Record) | StopWrite(rec: Record)
    | Over

  /** What the surroundings decide in one step: whether the file can be read or written, whether
      and as what the worker is spawned, whether the process is found alive, and the time. */
  datatype Input = Input(readable: bool, writable: bool, pid: Option<nat>, alive: bool, now: int)

  datatype Birth = Birth(request: string, logPath: string, startedAt: int)

  /** `births` and `spawned` remember what was submitted and which worker was spawned for it. */
  datatype System = System(births: map<string, Birth>, spawned: set<Kill>, finishing: set<string>,
                           store: map<string, Record>, tasks: seq<Task>, killed: seq<Kill>)

  datatype Event =
    | Submit(id: string, birth: Birth)
    | StartFinish(id: string, exitCode: int)
    | StartLook(id: string, stop: bool)
    | Advance(task: nat, input: Input)

  const INITIALLY := System(map[], {}, {}, map[], [], [])

  function Write(s: System, rec: Record, input: Input): System {
    if input.writable then s.(store := s.store[rec.id := rec]) else s
  }

  /** One read or write of a task, and what remains of it. */
  function Perform(s: System, t: Task, input: Input): (System, Task) {
    match t
    case SubmitFirst(rec) => (Write(s, rec, input), SubmitSpawn(rec))
    case SubmitSpawn(rec) =>
      (if input.pid.Some? then s.(spawned := s.spawned + {Kill(rec.id, input.pid.value)}) else s,
       SubmitSecond(Spawned(rec, input.pid, input.now)))
    case SubmitSecond(rec) => (Write(s, rec, input), Over)
    case FinishRead(id, exitCode) =>
      (s, if input.readable && id in s.store then FinishWrite(Finished(s.store[id], exitCode, input.now)) else Over)
    case FinishWrite(rec) => (Write(s, rec, input), Over)
    case Look(id, stop) => (s, AfterLook(s, id, stop, input))
    case Downgrade(rec) => (Write(s, rec, input), Over)
    case StopKill(rec) =>
      (if rec.pid.Some? && rec.pid.value != 0 then s.(killed := s.killed + [Kill(rec.id, rec.pid.value)]) else s,
       StopWrite(Halted(rec, Stopped, input.now)))
    case StopWrite(rec) => (Write(s, rec, input), Over)
    case Over => (s, Over)
  }

  function AfterLook(s: System, id: string, stop: bool, input: Input): Task {
    if !input.readable || id !in s.store || Terminal(s.store[id]) then Over
    else if !SeenAlive(s.store[id], input.alive) then Downgrade(Halted(s.store[id], Failed, input.now))
    else if stop then StopKill(s.store[id])
    else Over
  }

  /** Submissions get new ids; only the one worker of a spawned job reports its end, once. */
  function Apply(s: System, e: Event): System {
    match e
    case Submit(id, birth) =>
      if id in s.births then s
      else s.(births := s.births[id := birth],
              tasks := s.tasks + [SubmitFirst(Submitted(id, birth.request, birth.logPath, birth.startedAt))])
    case StartFinish(id, exitCode) =>
      if id in s.finishing || !exists k :: k in s.spawned && k.id == id then s
      else s.(finishing := s.finishing + {id}, tasks := s.tasks + [FinishRead(id, exitCode)])
    case StartLook(id, stop) => s.(tasks := s.tasks + [Look(id, stop)])
    case Advance(i, input) =>
      if i >= |s.tasks| then s
      else var (t, task) := Perform(s, s.tasks[i], input); t.(tasks := t.tasks[i := task])
  }

  function Run(s: System, events: seq<Event>): System {
    if events == [] then s else Apply(Run(s, events[..|events| - 1]), events[|events| - 1])
  }

  // ---- What every interleaving keeps -----------------------------------------------------

  /** A coherent record with the id, request, log and start time it was submitted with, and no pid
      but that of a worker spawned for it. */
  predicate Genuine(s: System, rec: Record) {
    && Coherent(rec) && rec.id in s.births
    && s.births[rec.id] == Birth(rec.request, rec.logPath, rec.startedAt)
    && (rec.pid.Some? ==> Kill(rec.id, rec.pid.value) in s.spawned)
  }

  predicate GenuineTask(s: System, t: Task) {
    match t
    case SubmitFirst(rec) => Genuine(s, rec) && rec.status.Running?
    case SubmitSpawn(rec) => Genuine(s, rec) && rec.status.Running?
    case SubmitSecond(rec) => Genuine(s, rec)
    case FinishWrite(rec) => Genuine(s, rec) && Terminal(rec)
    case Downgrade(rec) => Genuine(s, rec) && Terminal(rec)
    case StopKill(rec) => Genuine(s, rec) && rec.status.Running?
    case StopWrite(rec) => Genuine(s, rec) && Terminal(rec)
    case _ => true
  }

  predicate Invariant(s: System) {
    && (forall id :: id in s.store ==> s.store[id].id == id && Genuine(s, s.store[id]))
    && (forall t :: t in s.tasks ==> GenuineTask(s, t))
    && (forall k :: k in s.killed ==> k in s.spawned)
  }

  /** Later systems know all earlier submissions and workers. */
  predicate Extends(s: System, t: System) {
    && s.spawned <= t.spawned
    && forall id :: id in s.births ==> id in t.births && t.births[id] == s.births[id]
  }

  lemma PerformKeeps(s: System, t: Task, input: Input)
    requires Invariant(s) && GenuineTask(s, t)
    ensures var (u, task) := Perform(s, t, input);
            && Extends(s, u) && u.tasks == s.tasks && GenuineTask(u, task)
            && (forall id :: id in u.store ==> u.store[id].id == id && Genuine(u, u.store[id]))
            && (forall k :: k in u.killed ==> k in u.spawned)
  {
  }

  lemma GenuineExtends(s: System, u: System, t: Task)
    requires Extends(s, u) && GenuineTask(s, t)
    ensures GenuineTask(u, t)
  {
  }

  lemma AdvanceKeepsInvariant(s: System, i: nat, input: Input)
    requires Invariant(s) && i < |s.tasks|
    ensures var (u, task) := Perform(s, s.tasks[i], input);
            Invariant(u.(tasks := u.tasks[i := task])) && Extends(s, u)
  {
    var (u, task) := Perform(s, s.tasks[i], input);
    var v := u.(tasks := u.tasks[i := task]);
    PerformKeeps(s, s.tasks[i], input);
    GenuineExtends(u, v, task);
    forall t | t in s.tasks ensures GenuineTask(v, t) {
      GenuineExtends(s, v, t);
    }
  }

  lemma StepKeepsInvariant(s: System, e: Event)
    requires Invariant(s)
    ensures Invariant(Apply(s, e)) && Extends(s, Apply(s, e))
  {
    if e.Advance? {
      if e.task < |s.tasks| { AdvanceKeepsInvariant(s, e.task, e.input); }
    } else {
      forall t | t in s.tasks ensures GenuineTask(Apply(s, e), t) {
        GenuineExtends(s, Apply(s, e), t);
      }
    }
  }

  /** In every interleaving of submitters, workers, readers and stoppers, with any reads and writes
      failing: stored records are coherent, keep what they were submitted with, and only processes
      spawned for a job are killed for it. */
  lemma {:induction false} RecordsStayGenuine(events: seq<Event>)
    ensures Invariant(Run(INITIALLY, events))
    ensures var s := Run(INITIALLY, events);
            && (forall id :: id in s.store ==>
                 var rec := s.store[id];
                 && rec.id == id && id in s.births && s.births[id] == Birth(rec.request, rec.logPath, rec.startedAt)
                 && (rec.endedAt == None <==> rec.status == Running)
                 && (rec.exitCode == Some(0) <==> rec.status == Done)
                 && (rec.exitCode != None ==> rec.status == Done || rec.status == Failed)
                 && (rec.pid != None ==> Kill(id, rec.pid.value) in s.spawned))
            && (forall k :: k in s.killed ==> k in s.spawned)
  {
    if events != [] {
      RecordsStayGenuine(events[..|events| - 1]);
      StepKeepsInvariant(Run(INITIALLY, events[..|events| - 1]), events[|events| - 1]);
    }
  }

  lemma {:induction false} RunKeepsInvariant(s: System, events: seq<Event>)
    requires Invariant(s)
    ensures Invariant(Run(s, events)) && Extends(s, Run(s, events))
  {
    if events != [] {
      RunKeepsInvariant(s, events[..|events| - 1]);
      StepKeepsInvariant(Run(s, events[..|events| - 1]), events[|events| - 1]);
    }
  }

  /** Id, request, log and start of a stored record are the same at any two points of a run. */
  lemma BirthNeverChanges(s: System, events: seq<Event>, id: string)
    requires Invariant(s) && id in s.store && id in Run(s, events).store
    ensures var (a, b) := (s.store[id], Run(s, events).store[id]);
            a.id == b.id && a.request == b.request && a.logPath == b.logPath && a.startedAt == b.startedAt
  {
    RunKeepsInvariant(s, events);
  }

  /** A kill is only decided on a record just read as running, with the pid that record names. */
  lemma KillsOnlyWhatWasReadRunning(s: System, t: Task, input: Input)
    requires Perform(s, t, input).1.StopKill?
    ensures t.Look? && t.stop && t.id in s.store
    ensures Perform(s, t, input).1.rec == s.store[t.id]
    ensures s.store[t.id].status == Running && s.store[t.id].pid != None && s.store[t.id].pid != Some(0) && input.alive
  {
  }

  /** Only the step of a stopper that has decided to kill does so, once, and not without a nonzero pid; then
      the record it read is written as stopped. */
  lemma KillsAre(s: System, t: Task, input: Input)
    ensures var (u, task) := Perform(s, t, input);
            && u.killed == s.killed + (if t.StopKill? && t.rec.pid.Some? && t.rec.pid != Some(0)
                                       then [Kill(t.rec.id, t.rec.pid.value)] else [])
            && (t.StopKill? ==> task == StopWrite(t.rec.(status := Stopped, endedAt := Some(input.now))))
  {
  }

  /** A step writes the record it holds, if it can, and no other; what was spawned is remembered. */
  lemma WritesAre(s: System, t: Task, input: Input)
    ensures var (u, task) := Perform(s, t, input);
            && u.store == (if (t.SubmitFirst? || t.SubmitSecond? || t.FinishWrite? || t.Downgrade? || t.StopWrite?) && input.writable
                           then s.store[t.rec.id := t.rec] else s.store)
            && u.spawned == (if t.SubmitSpawn? && input.pid.Some? then s.spawned + {Kill(t.rec.id, input.pid.value)} else s.spawned)
            && (t.SubmitFirst? ==> task == SubmitSpawn(t.rec))
            && (t.SubmitSpawn? ==>
                  task == SubmitSecond(if input.pid.Some? then t.rec.(pid := input.pid)
                                       else t.rec.(status := Failed, endedAt := Some(input.now))))
            && (t.SubmitSecond? || t.FinishWrite? || t.Downgrade? || t.StopWrite? ==> task == Over)
  {
  }

  // ---- Are terminal records final? -------------------------------------------------------

  predicate IsSubmitter(t: Task, id: string) {
    (t.SubmitFirst? || t.SubmitSpawn? || t.SubmitSecond?) && t.rec.id == id
  }

  /** A terminal record becomes running again exactly when its own submitter writes the copy it
      took before the worker reported. */
  lemma RevivedIffStaleSubmit(s: System, e: Event, id: string)
    requires Invariant(s) && id in s.store && Terminal(s.store[id])
    ensures id in Apply(s, e).store
    ensures Apply(s, e).store[id].status.Running? <==>
              && e.Advance? && e.task < |s.tasks| && e.input.writable
              && (s.tasks[e.task].SubmitFirst? || s.tasks[e.task].SubmitSecond?)
              && s.tasks[e.task].rec.id == id && s.tasks[e.task].rec.status.Running?
  {
    if e.Advance? && e.task < |s.tasks| {
      assert GenuineTask(s, s.tasks[e.task]);
    }
  }

  predicate NoSubmitter(s: System, id: string) {
    id in s.births && forall t :: t in s.tasks ==> !IsSubmitter(t, id)
  }

  lemma SubmitterStaysAway(s: System, e: Event, id: string)
    requires NoSubmitter(s, id)
    ensures NoSubmitter(Apply(s, e), id)
  {
    if e.Advance? && e.task < |s.tasks| {
      var task := Perform(s, s.tasks[e.task], e.input).1;
      assert s.tasks[e.task] in s.tasks;
      assert !IsSubmitter(task, id);
    }
  }

  /** Once its submitter is through, a terminal record is terminal for good. */
  lemma {:induction false} TerminalAfterSubmission(s: System, events: seq<Event>, id: string)
    requires Invariant(s) && NoSubmitter(s, id) && id in s.store && Terminal(s.store[id])
    ensures NoSubmitter(Run(s, events), id)
    ensures id in Run(s, events).store && Terminal(Run(s, events).store[id])
  {
    if events != [] {
      var before, e := Run(s, events[..|events| - 1]), events[|events| - 1];
      TerminalAfterSubmission(s, events[..|events| - 1], id);
      RunKeepsInvariant(s, events[..|events| - 1]);
      SubmitterStaysAway(before, e, id);
      RevivedIffStaleSubmit(before, e, id);
      if e.Advance? && e.task < |before.tasks| {
        assert before.tasks[e.task] in before.tasks;
      }
    }
  }

  const FINE := Input(true, true, Some(7), true, 1)

  /** Before that it need not be: here the worker reports success between the spawn and the
      submitter's second write, and the job then reads as running again. */
  lemma DoneCanTurnRunning(id: string, birth: Birth)
    ensures var s3 := Apply(Apply(Apply(INITIALLY, Submit(id, birth)), Advance(0, FINE)), Advance(0, FINE));
            var reported := Apply(Apply(Apply(s3, StartFinish(id, 0)), Advance(1, FINE)), Advance(1, FINE));
            && id in reported.store && reported.store[id].status == Done
            && Apply(reported, Advance(0, FINE)).store[id].status == Running
  {
  }

  // ---- One operation at a time -----------------------------------------------------------

  /** An operation on the record of one job that nothing interrupts. */
  datatype Op = Finish(exitCode: int, now: int) | Get(alive: bool, now: int) | Stop(alive: bool, now: int, later: int)

  function Atomically(rec: Record, op: Op): Record {
    match op
    case Finish(exitCode, now) => Finished(rec, exitCode, now)
    case Get(alive, now) => Reconciled(rec, alive, now)
    case Stop(alive, now, later) =>
      if rec.status.Running? && SeenAlive(rec, alive) then Halted(rec, Stopped, later) else Reconciled(rec, alive, now)
  }

  function History(rec: Record, ops: seq<Op>): Record {
    if ops == [] then rec else Atomically(History(rec, ops[..|ops| - 1]), ops[|ops| - 1])
  }

  function StatusChanges(rec: Record, ops: seq<Op>): nat {
    if ops == [] then 0
    else
      var before := History(rec, ops[..|ops| - 1]);
      StatusChanges(rec, ops[..|ops| - 1])
      + (if Atomically(before, ops[|ops| - 1]).status != before.status then 1 else 0)
  }

  function Finishes(ops: seq<Op>): nat {
    if ops == [] then 0 else Finishes(ops[..|ops| - 1]) + (if ops[|ops| - 1].Finish? then 1 else 0)
  }

  /** Uninterrupted, a terminal record is changed by nothing but the worker's report. */
  lemma TerminalChangedOnlyByFinish(rec: Record, op: Op)
    requires Terminal(rec) && Atomically(rec, op) != rec
    ensures op.Finish? && Terminal(Atomically(rec, op))
  {
  }

  /** Uninterrupted, the status of a running job changes once, and again at most with each report:
      with the one report its worker makes, at most twice. */
  lemma {:induction false} StatusChangesBounded(rec: Record, ops: seq<Op>)
    ensures StatusChanges(rec, ops) <= Finishes(ops) + (if rec.status.Running? && Terminal(History(rec, ops)) then 1 else 0)
    ensures Finishes(ops) <= 1 ==> StatusChanges(rec, ops) <= 2
    ensures Terminal(rec) ==> Terminal(History(rec, ops))
  {
    if ops != [] {
      StatusChangesBounded(rec, ops[..|ops| - 1]);
    }
  }

  /** The steps of an operation, taken without interruption and with a file that can be read and
      written, are that operation. */
  lemma UninterruptedIsAtomic(s: System, id: string, stop: bool, exitCode: int, a: Input, b: Input, c: Input)
    requires Invariant(s) && id in s.store && a.readable && b.writable && c.writable
    ensures var (s1, t1) := Perform(s, Look(id, stop), a);
            var (s2, t2) := Perform(s1, t1, b);
            var (s3, t3) := Perform(s2, t2, c);
            var op := if stop then Stop(a.alive, a.now, b.now) else Get(a.alive, a.now);
            t3 == Over && s3.store == s.store[id := Atomically(s.store[id], op)]
    ensures var (s1, t1) := Perform(s, FinishRead(id, exitCode), a);
            var (s2, t2) := Perform(s1, t1, b);
            t2 == Over && s2.store == s.store[id := Atomically(s.store[id], Finish(exitCode, a.now))]
  {
  }
}
