/**
 * The injected-clock oracle: well-formed timelines, the driver that sets a clock cell before every
 * call, and what its verdict says about entities that do and do not read the clock, and about those
 * that print into its output.
 */
module Clock {
  import opened Decimals
  import opened Driving
  import opened ImportDriver
  import opened Options
  import opened PyText
  import opened Sequences

  datatype Expectation = Returns(value: Value) | Throws(exception: string) | Malformed

  datatype Backward = Allowed | Undeclared | NotABool

  /** A timeline step; `at` is absent when it is not an integer, and `argsOk` says that `args` and
      `kwargs` are a list and a dictionary when present. A name of the wrong type is empty. */
  datatype Step = Step(at: Option<int>, call: string, argsOk: bool, args: seq<string>,
                       expectation: Expectation, backward: Backward)

  datatype Keywords = NoKeywords | NotADict | Given(entries: map<string, Value>)

  datatype Entry = Entry(name: string, expected: Value)

  /** The declared final reads, in key order. */
  datatype Finals = NoFinals | Unusable | Entries(entries: seq<Entry>)

  datatype Spec = Spec(clockParam: string, constructArgsOk: bool, constructArgs: seq<string>,
                       keywords: Keywords, timeline: seq<Step>, finals: Finals)

  // ---- Well-formedness -------------------------------------------------------------------

  predicate ValidStep(step: Step) {
    && step.at.Some? && IsIdentifier(step.call) && step.argsOk && !step.backward.NotABool?
    && !step.expectation.Malformed? && (step.expectation.Throws? ==> IsIdentifier(step.expectation.exception))
  }

  function At(step: Step): int { if step.at.Some? then step.at.value else 0 }

  /** The clock goes back between neighbouring steps only where that is declared. */
  predicate NoHiddenJump(timeline: seq<Step>) {
    forall i :: 0 < i < |timeline| && !timeline[i].backward.Allowed? ==> At(timeline[i - 1]) <= At(timeline[i])
  }

  predicate ValidFinals(finals: Finals) {
    && !finals.Unusable?
    && (finals.Entries? ==> finals.entries != [] && forall e :: e in finals.entries ==> IsIdentifier(e.name))
  }

  predicate ValidSpec(spec: Spec) {
    && IsIdentifier(spec.clockParam) && spec.constructArgsOk
    && !spec.keywords.NotADict? && (spec.keywords.Given? ==> spec.clockParam !in spec.keywords.entries)
    && spec.timeline != [] && (forall s :: s in spec.timeline ==> ValidStep(s))
    && NoHiddenJump(spec.timeline) && ValidFinals(spec.finals)
  }

  method ValidateSpec(spec: Spec) returns (ok: bool)
    ensures ok <==> ValidSpec(spec)
  {
    if !IsIdentifier(spec.clockParam) || !spec.constructArgsOk || spec.keywords.NotADict? { return false; }
    if spec.keywords.Given? && spec.clockParam in spec.keywords.entries { return false; }
    if spec.timeline == [] { return false; }
    var prevAt: Option<int> := None;
    for i := 0 to |spec.timeline|
      invariant forall j :: 0 <= j < i ==> ValidStep(spec.timeline[j])
      invariant NoHiddenJump(spec.timeline[..i])
      invariant prevAt == if i == 0 then None else spec.timeline[i - 1].at
    {
      var step := spec.timeline[i];
      assert step in spec.timeline;
      if !ValidStep(step) { return false; }
      if prevAt.Some? && step.at.value < prevAt.value && !step.backward.Allowed? {
        assert At(spec.timeline[i - 1]) > At(spec.timeline[i]);
        return false;
      }
      prevAt := step.at;
    }
    assert spec.timeline[..|spec.timeline|] == spec.timeline;
    return ValidFinals(spec.finals);
  }

  /** Between declared backward jumps an accepted timeline never goes back. */
  lemma {:induction false} TimelineAscends(timeline: seq<Step>, i: nat, j: nat)
    requires NoHiddenJump(timeline) && i <= j < |timeline|
    requires forall m :: i < m <= j ==> !timeline[m].backward.Allowed?
    ensures At(timeline[i]) <= At(timeline[j])
  {
    if i < j {
      TimelineAscends(timeline, i, j - 1);
    }
  }

  // ---- The calls -------------------------------------------------------------------------

  /** What the driver asks for, and the clock reading it asks at. The constructor also gets the name of
      its clock parameter and the other keywords. */
  datatype Ask = Construct(args: seq<string>, clockParam: string, keywords: Keywords)
               | Invoke(now: int, name: string, args: seq<string>)

  const CONSTRUCT := "construct"

  function StepId(i: nat): string { "step" + Decimal(i) }

  function FinalId(name: string): string { "final_" + name }

  function FinalEntries(spec: Spec): seq<Entry> {
    if spec.finals.Entries? then spec.finals.entries else []
  }

  function ConstructCall(spec: Spec): Call<Ask> {
    Call(CONSTRUCT, Construct(spec.constructArgs, spec.clockParam, spec.keywords))
  }

  /** A step is called at exactly its own clock reading. */
  function StepCall(step: Step, i: nat): Call<Ask> {
    Call(StepId(i), Invoke(At(step), step.call, step.args))
  }

  function FinalCall(entry: Entry, now: int): Call<Ask> {
    Call(FinalId(entry.name), Invoke(now, entry.name, []))
  }

  /** Where the last step leaves the clock. */
  function LastAt(spec: Spec): int {
    if spec.timeline == [] then 0 else At(spec.timeline[|spec.timeline| - 1])
  }

  function Length(spec: Spec): nat { 1 + |spec.timeline| + |FinalEntries(spec)| }

  /** Call `i`: the constructor, then the steps, then the final reads. */
  function CallAt(spec: Spec, i: nat): Call<Ask>
    requires i < Length(spec)
  {
    var n := |spec.timeline|;
    if i == 0 then ConstructCall(spec)
    else if i <= n then StepCall(spec.timeline[i - 1], i - 1)
    else FinalCall(FinalEntries(spec)[i - 1 - n], LastAt(spec))
  }

  function Calls(spec: Spec): (calls: seq<Call<Ask>>)
    ensures |calls| == Length(spec)
  {
    seq(Length(spec), i requires 0 <= i < Length(spec) => CallAt(spec, i))
  }

  /** The calls: construction; each step by its own name with its own arguments, at its own reading; and
      each final read by its own name, at the reading of the last step. */
  lemma CallsAre(spec: Spec, i: nat)
    requires ValidSpec(spec)
    ensures var n, finals := |spec.timeline|, if spec.finals.Entries? then spec.finals.entries else [];
            && |Calls(spec)| == 1 + n + |finals|
            && Calls(spec)[0] == Call("construct", Construct(spec.constructArgs, spec.clockParam, spec.keywords))
            && (i < n ==> IsCall(Calls(spec)[1 + i], "step" + Decimal(i), spec.timeline[i].at,
                                 spec.timeline[i].call, spec.timeline[i].args))
            && (i < |finals| ==> IsCall(Calls(spec)[1 + n + i], "final_" + finals[i].name, spec.timeline[n - 1].at,
                                        finals[i].name, []))
  {
    if i < |spec.timeline| { StepCallIs(spec, i); }
    if i < |FinalEntries(spec)| { FinalCallIs(spec, i); }
  }

  ghost predicate IsCall(call: Call<Ask>, id: string, at: Option<int>, name: string, args: seq<string>) {
    call.id == id && call.what.Invoke? && Some(call.what.now) == at && call.what.name == name && call.what.args == args
  }

  lemma StepCallIs(spec: Spec, i: nat)
    requires ValidSpec(spec) && i < |spec.timeline|
    ensures IsCall(Calls(spec)[1 + i], "step" + Decimal(i), spec.timeline[i].at, spec.timeline[i].call, spec.timeline[i].args)
  {
    assert spec.timeline[i] in spec.timeline;
    assert Calls(spec)[1 + i] == StepCall(spec.timeline[i], i);
  }

  lemma FinalCallIs(spec: Spec, i: nat)
    requires ValidSpec(spec) && i < |FinalEntries(spec)|
    ensures var n := |spec.timeline|;
            IsCall(Calls(spec)[1 + n + i], "final_" + FinalEntries(spec)[i].name, spec.timeline[n - 1].at, FinalEntries(spec)[i].name, [])
  {
    assert spec.timeline[|spec.timeline| - 1] in spec.timeline;
    assert Calls(spec)[1 + |spec.timeline| + i] == FinalCall(FinalEntries(spec)[i], LastAt(spec));
  }

  /** What is wrong with a specification that is refused. */
  lemma InvalidIff(spec: Spec)
    ensures !ValidSpec(spec) <==>
              || !IsIdentifier(spec.clockParam) || !spec.constructArgsOk || spec.keywords.NotADict?
              || (spec.keywords.Given? && spec.clockParam in spec.keywords.entries)
              || spec.timeline == [] || (exists s :: s in spec.timeline && BadStep(s))
              || (exists i :: 0 < i < |spec.timeline| && spec.timeline[i].backward != Allowed
                              && At(spec.timeline[i]) < At(spec.timeline[i - 1]))
              || spec.finals.Unusable?
              || (spec.finals.Entries? && (spec.finals.entries == [] || exists e :: e in spec.finals.entries && !IsIdentifier(e.name)))
  {
    forall s | s in spec.timeline ensures ValidStep(s) <==> !BadStep(s) { StepInvalidIff(s); }
  }

  ghost predicate BadStep(step: Step) { !ValidStep(step) }

  /** What is wrong with a step that is refused: its reading is no integer, its name no identifier, its
      arguments no list and dictionary, its `backward` no bool, or its expectation is neither a value nor
      an exception name. */
  lemma StepInvalidIff(step: Step)
    ensures !ValidStep(step) <==>
              || step.at.None? || !IsIdentifier(step.call) || !step.argsOk || step.backward == NotABool
              || step.expectation == Malformed
              || (step.expectation.Throws? && !IsIdentifier(step.expectation.exception))
    ensures step.at.Some? ==> At(step) == step.at.value
  {
  }

  // ---- The driver ------------------------------------------------------------------------

  /** How construction ends: with an entity, with none, with an exception, or with the process. */
  datatype Built<S> = Alive(entity: S) | Absent | Failed(exception: string) | Exited

  /** The entity under test, and what it prints. It may read the injected clock whenever it runs, so
      every reaction is a function of the reading. A call without an outcome ends the process. */
  datatype Entity<!S> = Entity(banner: string,
                               construct: (seq<string>, string, Keywords, int) -> (Built<S>, string),
                               react: (S, int, string, seq<string>) -> (S, Option<Outcome>, string),
                               farewell: (Option<S>, int) -> string)

  /** The driven process: calls can still be made of the entity, or no more. */
  datatype Live<S> = Open(entity: S, clock: int) | Closed(last: Option<S>, clock: int)

  function EntityOf<S>(s: Live<S>): Option<S> { if s.Open? then Some(s.entity) else s.last }

  /** The process after a call has ended in this way. */
  function Now<S>(entity: S, outcome: Option<Outcome>, clock: int): Live<S> {
    if outcome.Some? then Open(entity, clock) else Closed(Some(entity), clock)
  }

  function FirstOutcome<S>(built: Built<S>): Option<Outcome> {
    match built
    case Alive(_) => Some(Returned(NULL))
    case Absent => Some(Returned(NULL))
    case Failed(exception) => Some(Raised(exception))
    case Exited => None
  }

  function FirstState<S>(built: Built<S>): Live<S> {
    if built.Alive? then Open(built.entity, 0) else Closed(None, 0)
  }

  /** The entity as a driven process: without an entity, or when the process has ended, no call is made
      any more. */
  function React<S>(e: Entity<S>, s: Live<S>, ask: Ask): Reaction<Live<S>> {
    match ask
    case Construct(args, clockParam, keywords) =>
      var (built, printed) := e.construct(args, clockParam, keywords, 0);
      Reaction(FirstState(built), FirstOutcome(built), printed)
    case Invoke(now, name, args) =>
      match s
      case Closed(_, _) => Reaction(s, None, "")
      case Open(entity, _) =>
        var (next, outcome, printed) := e.react(entity, now, name, args);
        Reaction(Now(next, outcome, now), outcome, printed)
  }

  /** Construction runs at clock 0 with all that is declared, and each call at its reading with its name and
      arguments; the process goes on exactly when there is an entity and the call ended. */
  lemma ReactIs<S>(e: Entity<S>, s: Live<S>, args: seq<string>, param: string, keywords: Keywords, now: int, name: string)
    ensures var (built, printed) := e.construct(args, param, keywords, 0); var r := React(e, s, Construct(args, param, keywords));
            && r.printed == printed
            && (built.Alive? ==> r.state == Open(built.entity, 0) && r.outcome == Some(Returned(Other("null"))))
            && (!built.Alive? ==> r.state == Closed(None, 0))
            && (built.Absent? ==> r.outcome == Some(Returned(Other("null"))))
            && (built.Failed? ==> r.outcome == Some(Raised(built.exception))) && (built.Exited? ==> r.outcome == None)
    ensures s.Closed? ==> React(e, s, Invoke(now, name, args)) == Reaction(s, None, "")
    ensures s.Open? ==>
              var (next, outcome, printed) := e.react(s.entity, now, name, args);
              React(e, s, Invoke(now, name, args)) ==
              Reaction(if outcome.Some? then Open(next, now) else Closed(Some(next), now), outcome, printed)
  {
  }

  function Start<S>(): Live<S> { Closed(None, 0) }

  function AsProcess<S>(e: Entity<S>): Process<Live<S>, Ask> {
    Process(Start(), e.banner, (s: Live<S>, ask: Ask) => React(e, s, ask),
            (s: Live<S>) => e.farewell(EntityOf(s), s.clock))
  }

  /** What the oracle reads. */
  function Printout<S>(codec: Codec, e: Entity<S>, spec: Spec): string {
    Stdout(codec, AsProcess(e), Calls(spec))
  }

  /** The state and the output so far. */
  datatype Progress<S> = Progress(state: Live<S>, stdout: string)

  function OneCall<S>(codec: Codec, e: Entity<S>, before: Progress<S>, call: Call<Ask>): Progress<S> {
    var r := React(e, before.state, call.what);
    Progress(r.state, before.stdout + (r.printed + Printed(codec, call.id, r.outcome)))
  }

  function Run<S>(codec: Codec, e: Entity<S>, before: Progress<S>, calls: seq<Call<Ask>>): Progress<S> {
    if calls == [] then before
    else OneCall(codec, e, Run(codec, e, before, calls[..|calls| - 1]), calls[|calls| - 1])
  }

  lemma RunOne<S>(codec: Codec, e: Entity<S>, before: Progress<S>, calls: seq<Call<Ask>>, i: nat)
    requires i < |calls|
    ensures Run(codec, e, before, calls[..i + 1]) == OneCall(codec, e, Run(codec, e, before, calls[..i]), calls[i])
  {
    assert calls[..i + 1][..i] == calls[..i];
  }

  lemma {:induction false} RunConcat<S>(codec: Codec, e: Entity<S>, before: Progress<S>, a: seq<Call<Ask>>, b: seq<Call<Ask>>)
    ensures Run(codec, e, before, a + b) == Run(codec, e, Run(codec, e, before, a), b)
  {
    if b == [] {
      assert a + b == a;
    } else {
      assert (a + b)[..|a + b| - 1] == a + b[..|b| - 1];
      RunConcat(codec, e, before, a, b[..|b| - 1]);
    }
  }

  lemma {:induction false} RunIs<S>(codec: Codec, e: Entity<S>, calls: seq<Call<Ask>>)
    ensures Run(codec, e, Progress(Start(), e.banner), calls)
            == Progress(After(AsProcess(e), calls), Output(codec, AsProcess(e), calls))
  {
    if calls != [] { RunIs(codec, e, calls[..|calls| - 1]); }
  }

  lemma ClosedCall<S>(codec: Codec, e: Entity<S>, before: Progress<S>, call: Call<Ask>)
    requires before.state.Closed? && call.what.Invoke?
    ensures OneCall(codec, e, before, call) == before
  {
    assert before.stdout + ("" + "") == before.stdout;
  }

  /** Nothing is called, nor printed, without an entity or once the process has ended. */
  lemma {:induction false} NothingWhenClosed<S>(codec: Codec, e: Entity<S>, before: Progress<S>, calls: seq<Call<Ask>>)
    requires before.state.Closed? && forall c :: c in calls ==> c.what.Invoke?
    ensures Run(codec, e, before, calls) == before
  {
    if calls != [] {
      var init, last := calls[..|calls| - 1], calls[|calls| - 1];
      assert last in calls && forall c :: c in init ==> c in calls;
      NothingWhenClosed(codec, e, before, init);
      ClosedCall(codec, e, before, last);
    }
  }

  function StepCalls(timeline: seq<Step>): seq<Call<Ask>> {
    seq(|timeline|, i requires 0 <= i < |timeline| => StepCall(timeline[i], i))
  }

  function FinalCalls(entries: seq<Entry>, now: int): seq<Call<Ask>> {
    seq(|entries|, i requires 0 <= i < |entries| => FinalCall(entries[i], now))
  }

  lemma PlanParts(spec: Spec)
    ensures Calls(spec) == [ConstructCall(spec)] + (StepCalls(spec.timeline) + FinalCalls(FinalEntries(spec), LastAt(spec)))
    ensures forall c :: c in StepCalls(spec.timeline) + FinalCalls(FinalEntries(spec), LastAt(spec)) ==> c.what.Invoke?
  {
  }

  /** The generated driver: one clock cell, which every reaction of the entity reads. */
  class ClockDriver {
    var clock: int

    constructor ()
      ensures clock == 0
    {
      clock := 0;
    }

    /** One call at the present clock reading, of an entity last called at `was`. */
    method Make<S>(codec: Codec, e: Entity<S>, entity: S, before: string, id: string, name: string, args: seq<string>, ghost was: int)
      returns (state: Live<S>, stdout: string)
      ensures Progress(state, stdout) == OneCall(codec, e, Progress(Open(entity, was), before), Call(id, Invoke(clock, name, args)))
      ensures state.clock == clock
    {
      var (next, outcome, text) := e.react(entity, clock, name, args);
      state, stdout := Now(next, outcome, clock), before + (text + Printed(codec, id, outcome));
    }

    /** The constructor runs with the clock at 0. */
    method Build<S>(codec: Codec, e: Entity<S>, spec: Spec) returns (state: Live<S>, stdout: string)
      requires clock == 0
      ensures Progress(state, stdout) == OneCall(codec, e, Progress(Start(), e.banner), ConstructCall(spec))
      ensures state.clock == clock
    {
      var (built, text) := e.construct(spec.constructArgs, spec.clockParam, spec.keywords, clock);
      stdout := e.banner + (text + Printed(codec, CONSTRUCT, FirstOutcome(built)));
      state := FirstState(built);
    }

    /** The timeline: the clock is set to the reading of each step before it is called; an entity that
        ends the process is not called any more. */
    method RunTimeline<S>(codec: Codec, e: Entity<S>, timeline: seq<Step>, s: Live<S>, before: string)
      returns (state: Live<S>, stdout: string)
      requires s.clock == clock
      modifies this
      ensures Progress(state, stdout) == Run(codec, e, Progress(s, before), StepCalls(timeline))
      ensures state.clock == clock
      ensures state.Open? && timeline != [] ==> clock == At(timeline[|timeline| - 1])
    {
      state, stdout := s, before;
      ghost var calls, start := StepCalls(timeline), Progress(s, before);
      ghost var now := start;
      for i := 0 to |timeline|
        invariant now == Run(codec, e, start, calls[..i]) && now == Progress(state, stdout)
        invariant state.clock == clock && (state.Open? && i > 0 ==> clock == At(timeline[i - 1]))
      {
        RunOne(codec, e, start, calls, i);
        now := OneCall(codec, e, now, StepCall(timeline[i], i));
        if state.Open? {
          clock := At(timeline[i]);
          state, stdout := Make(codec, e, state.entity, stdout, StepId(i), timeline[i].call, timeline[i].args, state.clock);
        } else {
          ClosedCall(codec, e, Progress(state, stdout), StepCall(timeline[i], i));
        }
      }
      assert calls[..|calls|] == calls;
    }

    /** The final reads, with the clock where the last step put it. */
    method RunFinals<S>(codec: Codec, e: Entity<S>, entries: seq<Entry>, s: Live<S>, before: string)
      returns (state: Live<S>, stdout: string)
      requires s.clock == clock
      ensures Progress(state, stdout) == Run(codec, e, Progress(s, before), FinalCalls(entries, clock))
      ensures state.clock == clock
    {
      state, stdout := s, before;
      ghost var calls, start := FinalCalls(entries, clock), Progress(s, before);
      ghost var now := start;
      for i := 0 to |entries|
        invariant now == Run(codec, e, start, calls[..i]) && now == Progress(state, stdout)
        invariant state.clock == clock
      {
        RunOne(codec, e, start, calls, i);
        now := OneCall(codec, e, now, FinalCall(entries[i], clock));
        if state.Open? {
          state, stdout := Make(codec, e, state.entity, stdout, FinalId(entries[i].name), entries[i].name, [], state.clock);
        } else {
          ClosedCall(codec, e, Progress(state, stdout), FinalCall(entries[i], clock));
        }
      }
      assert calls[..|calls|] == calls;
    }

    /** The timeline and the final reads; nothing is called without an entity. */
    method RunBuilt<S>(codec: Codec, e: Entity<S>, spec: Spec, built: Live<S>, before: string)
      returns (state: Live<S>, stdout: string)
      requires clock == 0 == built.clock
      modifies this
      ensures Progress(state, stdout) == Run(codec, e, Progress(built, before),
                                            StepCalls(spec.timeline) + FinalCalls(FinalEntries(spec), LastAt(spec)))
      ensures state.clock == clock && (state.Open? ==> clock == LastAt(spec))
    {
      ghost var steps, finals := StepCalls(spec.timeline), FinalCalls(FinalEntries(spec), LastAt(spec));
      PlanParts(spec);
      if built.Closed? {
        NothingWhenClosed(codec, e, Progress(built, before), steps + finals);
        return built, before;
      }
      RunConcat(codec, e, Progress(built, before), steps, finals);
      state, stdout := RunTimeline(codec, e, spec.timeline, built, before);
      if state.Closed? {
        NothingWhenClosed(codec, e, Progress(state, stdout), finals);
        return state, stdout;
      }
      state, stdout := RunFinals(codec, e, FinalEntries(spec), state, stdout);
    }

    /** The whole drive; what the entity prints as the process ends may depend on the clock again. */
    method Drive<S>(codec: Codec, e: Entity<S>, spec: Spec) returns (stdout: string)
      requires clock == 0
      modifies this
      ensures stdout == Printout(codec, e, spec)
      ensures clock == After(AsProcess(e), Calls(spec)).clock
      ensures After(AsProcess(e), Calls(spec)).Open? ==> clock == LastAt(spec)
    {
      ghost var first, rest := [ConstructCall(spec)], StepCalls(spec.timeline) + FinalCalls(FinalEntries(spec), LastAt(spec));
      PlanParts(spec);
      RunConcat(codec, e, Progress(Start(), e.banner), first, rest);
      RunIs(codec, e, first + rest);
      assert first[..0] == [];
      var state;
      state, stdout := Build(codec, e, spec);
      state, stdout := RunBuilt(codec, e, spec, state, stdout);
      stdout := stdout + e.farewell(EntityOf(state), clock);
    }
  }

  // ---- Checks and verdict ----------------------------------------------------------------

  function StepCheck(step: Step, i: nat): Check {
    match step.expectation
    case Throws(exception) => Raises(StepId(i), exception)
    case Returns(value) => ReturnsEquals(StepId(i), value)
    case Malformed => ReturnsEquals(StepId(i), NULL)
  }

  function FinalCheck(entry: Entry): Check { ReturnsEquals(FinalId(entry.name), entry.expected) }

  /** Check `i` is about call `i`. */
  function CheckAt(spec: Spec, i: nat): Check
    requires i < Length(spec)
  {
    var n := |spec.timeline|;
    if i == 0 then ReturnsEquals(CONSTRUCT, NULL)
    else if i <= n then StepCheck(spec.timeline[i - 1], i - 1)
    else FinalCheck(FinalEntries(spec)[i - 1 - n])
  }

  function Checks(spec: Spec): (checks: seq<Check>)
    ensures |checks| == Length(spec)
  {
    seq(Length(spec), i requires 0 <= i < Length(spec) => CheckAt(spec, i))
  }

  /** The checks: construction returns null, each step its value or raises its exception, and each final
      read returns its value. */
  lemma ChecksAre(spec: Spec, i: nat)
    requires ValidSpec(spec)
    ensures var n, finals := |spec.timeline|, if spec.finals.Entries? then spec.finals.entries else [];
            && |Checks(spec)| == 1 + n + |finals| && Checks(spec)[0] == ReturnsEquals("construct", Other("null"))
            && (i < n && spec.timeline[i].expectation.Returns? ==>
                  Checks(spec)[1 + i] == ReturnsEquals("step" + Decimal(i), spec.timeline[i].expectation.value))
            && (i < n && spec.timeline[i].expectation.Throws? ==>
                  Checks(spec)[1 + i] == Raises("step" + Decimal(i), spec.timeline[i].expectation.exception))
            && (i < |finals| ==> Checks(spec)[1 + n + i] == ReturnsEquals("final_" + finals[i].name, finals[i].expected))
  {
  }

  method BuildChecks(spec: Spec) returns (checks: seq<Check>)
    requires ValidSpec(spec)
    ensures checks == Checks(spec)
  {
    var n, entries := |spec.timeline|, FinalEntries(spec);
    checks := [ReturnsEquals(CONSTRUCT, NULL)];
    for i := 0 to n
      invariant checks == Checks(spec)[..1 + i]
    {
      assert spec.timeline[i] in spec.timeline;
      if spec.timeline[i].expectation.Returns? {
        checks := checks + [ReturnsEquals(StepId(i), spec.timeline[i].expectation.value)];
      } else {
        checks := checks + [Raises(StepId(i), spec.timeline[i].expectation.exception)];
      }
    }
    for i := 0 to |entries|
      invariant checks == Checks(spec)[..1 + n + i]
    {
      checks := checks + [ReturnsEquals(FinalId(entries[i].name), entries[i].expected)];
    }
  }

  predicate Accepts<S>(codec: Codec, e: Entity<S>, spec: Spec) {
    ValidSpec(spec) && Passed(Checks(spec), Parsed(codec, Printout(codec, e, spec)))
  }

  /** The oracle: validate, drive with a fresh clock cell, grade what is read back. */
  method GradeClock<S>(codec: Codec, e: Entity<S>, host: Host, entity: string, spec: Spec) returns (accepted: bool)
    ensures accepted <==>
              && host.rootIsDir && Strip(host.moduleName) != "" && host.launched && host.ended
              && IsIdentifier(entity) && Accepts(codec, e, spec)
  {
    if Strip(host.moduleName) == "" || !IsIdentifier(entity) { return false; }
    var valid := ValidateSpec(spec);
    if !valid || !host.rootIsDir || !host.launched || !host.ended { return false; }
    var checks := BuildChecks(spec);
    var driver := new ClockDriver();
    var stdout := driver.Drive(codec, e, spec);
    var report := ParseSentinels(codec, stdout);
    accepted := EvalChecks(checks, report);
  }

  // ---- What the verdict means ------------------------------------------------------------

  /** The keys of a dictionary are distinct. */
  predicate DistinctFinals(spec: Spec) {
    forall i, j :: 0 <= i < j < |FinalEntries(spec)| ==> FinalEntries(spec)[i].name != FinalEntries(spec)[j].name
  }

  /** How the `i`-th call of the drive ends. */
  function Ended<S>(e: Entity<S>, spec: Spec, i: nat): Option<Outcome>
    requires i < |Calls(spec)|
  {
    OutcomeAt(AsProcess(e), Calls(spec), i)
  }

  /** The declared value was returned, or the declared exception raised under a plain name. */
  predicate Meets(expectation: Expectation, outcome: Option<Outcome>) {
    match expectation
    case Returns(value) => outcome == Some(Returned(value))
    case Throws(exception) => outcome == Some(Raised(exception)) && PlainException(exception)
    case Malformed => false
  }

  /** A final read returned what is declared, under a name that does not break its report. */
  predicate ReadsAs(entry: Entry, outcome: Option<Outcome>) {
    IdChars(entry.name) && outcome == Some(Returned(entry.expected))
  }

  ghost predicate IsBuilt<S>(e: Entity<S>, spec: Spec) { Ended(e, spec, 0) == Some(Returned(NULL)) }

  /** Every step meets its expectation at that step's own clock reading. */
  ghost predicate StepsMeet<S>(e: Entity<S>, spec: Spec) {
    forall i :: 0 <= i < |spec.timeline| ==> Meets(spec.timeline[i].expectation, Ended(e, spec, 1 + i))
  }

  /** Every final read is as declared. */
  ghost predicate FinalsMeet<S>(e: Entity<S>, spec: Spec) {
    forall i :: 0 <= i < |FinalEntries(spec)| ==> ReadsAs(FinalEntries(spec)[i], Ended(e, spec, 1 + |spec.timeline| + i))
  }

  /** What an entity prints itself is whole lines about no checked call, its exceptions have one-line
      names, what it returns survives the encoding, and all the output is read back. */
  ghost predicate PlaysFair<S>(codec: Codec, e: Entity<S>, spec: Spec) {
    && DiscreetProcess(AsProcess(e), Calls(spec), CheckedIds(Checks(spec)))
    && FaithfulRun(codec, AsProcess(e), Calls(spec))
    && NamesExceptions(AsProcess(e), Calls(spec))
    && Fits(Printout(codec, e, spec))
  }

  lemma StepIdIs(i: nat)
    ensures IdReported(StepId(i)) && '_' !in StepId(i) && StepId(i)[0] == 's'
  {
    assert !IsDigit('_');
  }

  lemma StepIdsDiffer(i: nat, j: nat)
    requires i != j
    ensures StepId(i) != StepId(j)
  {
    assert StepId(i)[4..] == Decimal(i) && StepId(j)[4..] == Decimal(j);
    if Decimal(i) == Decimal(j) { DecimalInjective(i, j); }
  }

  lemma FinalIdIs(name: string)
    ensures IdReported(FinalId(name)) <==> IdChars(name)
    ensures FinalId(name)[0] == 'f' && FinalId(name)[6..] == name
  {
    assert FinalId(name)[6..] == name;
    assert IdChars("final_");
  }

  lemma AlignedIds(spec: Spec, i: nat)
    requires ValidSpec(spec) && i < Length(spec)
    ensures AlignedAt(CheckAt(spec, i), CallAt(spec, i))
  {
    if 1 <= i <= |spec.timeline| {
      assert spec.timeline[i - 1] in spec.timeline;
      StepIdIs(i - 1);
    }
  }

  lemma ChecksAligned(spec: Spec)
    requires ValidSpec(spec)
    ensures Aligned(Checks(spec), Calls(spec))
  {
    forall i | 0 <= i < Length(spec) ensures AlignedAt(CheckAt(spec, i), CallAt(spec, i)) {
      AlignedIds(spec, i);
    }
  }

  lemma CallIdsDiffer(spec: Spec, i: nat, j: nat)
    requires DistinctFinals(spec) && i < j < Length(spec)
    ensures CallAt(spec, i).id != CallAt(spec, j).id
  {
    var n := |spec.timeline|;
    if j <= n {
      StepIdIs(j - 1);
      if i > 0 { StepIdsDiffer(i - 1, j - 1); }
    } else {
      FinalIdIs(FinalEntries(spec)[j - 1 - n].name);
      if 1 <= i <= n { StepIdIs(i - 1); }
      if i > n { FinalIdIs(FinalEntries(spec)[i - 1 - n].name); }
    }
  }

  lemma CallIdsDistinct(spec: Spec)
    requires DistinctFinals(spec)
    ensures forall i, j :: 0 <= i < j < |Calls(spec)| ==> Calls(spec)[i].id != Calls(spec)[j].id
    ensures NoDup(Ids(Calls(spec)))
  {
    forall i, j | 0 <= i < j < Length(spec) ensures CallAt(spec, i).id != CallAt(spec, j).id {
      CallIdsDiffer(spec, i, j);
    }
    DistinctIds(Calls(spec));
  }

  lemma StepFulfils(step: Step, i: nat, outcome: Option<Outcome>)
    requires ValidStep(step)
    ensures Fulfils(StepCheck(step, i), outcome) <==> Meets(step.expectation, outcome)
  {
    StepIdIs(i);
  }

  lemma FinalFulfils(entry: Entry, outcome: Option<Outcome>)
    ensures Fulfils(FinalCheck(entry), outcome) <==> ReadsAs(entry, outcome)
  {
    FinalIdIs(entry.name);
  }

  /** What call `i` is to end with. */
  predicate MeetsAt(spec: Spec, i: nat, outcome: Option<Outcome>)
    requires i < Length(spec)
  {
    var n := |spec.timeline|;
    if i == 0 then outcome == Some(Returned(NULL))
    else if i <= n then Meets(spec.timeline[i - 1].expectation, outcome)
    else ReadsAs(FinalEntries(spec)[i - 1 - n], outcome)
  }

  lemma FulfilsIffMeets(spec: Spec, i: nat, outcome: Option<Outcome>)
    requires ValidSpec(spec) && i < Length(spec)
    ensures Fulfils(CheckAt(spec, i), outcome) <==> MeetsAt(spec, i, outcome)
  {
    var n := |spec.timeline|;
    if 1 <= i <= n {
      assert spec.timeline[i - 1] in spec.timeline;
      StepFulfils(spec.timeline[i - 1], i - 1, outcome);
    } else if i > n {
      FinalFulfils(FinalEntries(spec)[i - 1 - n], outcome);
    }
  }

  /** Calls that end as they are to, and steps and reads that are as declared. */
  lemma MeetsAtMeets<S>(e: Entity<S>, spec: Spec)
    requires forall i :: 0 <= i < Length(spec) ==> MeetsAt(spec, i, Ended(e, spec, i))
    ensures IsBuilt(e, spec) && StepsMeet(e, spec) && FinalsMeet(e, spec)
  {
    var n := |spec.timeline|;
    assert MeetsAt(spec, 0, Ended(e, spec, 0));
    forall i | 0 <= i < n ensures Meets(spec.timeline[i].expectation, Ended(e, spec, 1 + i)) {
      assert MeetsAt(spec, 1 + i, Ended(e, spec, 1 + i));
    }
    forall i | 0 <= i < |FinalEntries(spec)| ensures ReadsAs(FinalEntries(spec)[i], Ended(e, spec, 1 + n + i)) {
      assert MeetsAt(spec, 1 + n + i, Ended(e, spec, 1 + n + i));
    }
  }

  lemma MeetsMeetsAt<S>(e: Entity<S>, spec: Spec, i: nat)
    requires IsBuilt(e, spec) && StepsMeet(e, spec) && FinalsMeet(e, spec) && i < Length(spec)
    ensures MeetsAt(spec, i, Ended(e, spec, i))
  {
    var n := |spec.timeline|;
    if 1 <= i <= n {
      assert Meets(spec.timeline[i - 1].expectation, Ended(e, spec, 1 + (i - 1)));
    } else if i > n {
      assert ReadsAs(FinalEntries(spec)[i - 1 - n], Ended(e, spec, 1 + n + (i - 1 - n)));
    }
  }

  lemma MeetIsMeetsAt<S>(e: Entity<S>, spec: Spec)
    ensures (forall i :: 0 <= i < Length(spec) ==> MeetsAt(spec, i, Ended(e, spec, i)))
            <==> IsBuilt(e, spec) && StepsMeet(e, spec) && FinalsMeet(e, spec)
  {
    if forall i :: 0 <= i < Length(spec) ==> MeetsAt(spec, i, Ended(e, spec, i)) { MeetsAtMeets(e, spec); }
    if IsBuilt(e, spec) && StepsMeet(e, spec) && FinalsMeet(e, spec) {
      forall i | 0 <= i < Length(spec) ensures MeetsAt(spec, i, Ended(e, spec, i)) {
        MeetsMeetsAt(e, spec, i);
      }
    }
  }

  lemma AllFulfilledIffMeet<S>(e: Entity<S>, spec: Spec)
    requires ValidSpec(spec)
    ensures AllFulfilled(AsProcess(e), Calls(spec), Checks(spec))
            <==> IsBuilt(e, spec) && StepsMeet(e, spec) && FinalsMeet(e, spec)
  {
    forall i | 0 <= i < Length(spec)
      ensures Fulfils(Checks(spec)[i], Ended(e, spec, i)) <==> MeetsAt(spec, i, Ended(e, spec, i))
    {
      FulfilsIffMeets(spec, i, Ended(e, spec, i));
    }
    MeetIsMeetsAt(e, spec);
  }

  /** An entity that plays fair is accepted exactly when it is built, every step meets its expectation
      at its own clock reading and every final read is as declared. */
  lemma AcceptsIffEveryStepMeets<S>(codec: Codec, e: Entity<S>, spec: Spec)
    requires ValidSpec(spec) && DistinctFinals(spec) && PlaysFair(codec, e, spec)
    ensures Accepts(codec, e, spec) <==> IsBuilt(e, spec) && StepsMeet(e, spec) && FinalsMeet(e, spec)
  {
    ChecksAligned(spec);
    CallIdsDistinct(spec);
    AlignedVerdict(codec, AsProcess(e), Calls(spec), Checks(spec));
    AllFulfilledIffMeet(e, spec);
  }

  // ---- Entities that ignore the clock ----------------------------------------------------

  ghost predicate IgnoresClock<S(!new)>(e: Entity<S>) {
    && (forall args, param, keywords, now, later :: e.construct(args, param, keywords, now) == e.construct(args, param, keywords, later))
    && (forall s, now, later, name, args :: e.react(s, now, name, args) == e.react(s, later, name, args))
    && (forall s, now, later :: e.farewell(s, now) == e.farewell(s, later))
  }

  /** Two specifications that differ in clock readings and declared jumps at most. */
  predicate SameButForClock(a: Spec, b: Spec) {
    && a.clockParam == b.clockParam && a.keywords == b.keywords && a.constructArgs == b.constructArgs
    && a.finals == b.finals && |a.timeline| == |b.timeline|
    && forall i :: 0 <= i < |a.timeline| ==>
         && a.timeline[i].call == b.timeline[i].call && a.timeline[i].args == b.timeline[i].args
         && a.timeline[i].expectation == b.timeline[i].expectation
  }

  /** Two calls that differ in the clock reading at most. */
  predicate SameButForNow(a: Call<Ask>, b: Call<Ask>) {
    && a.id == b.id
    && (a.what == b.what
        || (a.what.Invoke? && b.what.Invoke? && a.what.name == b.what.name && a.what.args == b.what.args))
  }

  lemma SameCalls(a: Spec, b: Spec, i: nat)
    requires SameButForClock(a, b) && i < Length(a)
    ensures Length(a) == Length(b) && SameButForNow(CallAt(a, i), CallAt(b, i))
  {
  }

  /** Two processes that differ in the clock at most. */
  predicate Alike<S(==)>(s: Live<S>, t: Live<S>) {
    if s.Open? then t.Open? && s.entity == t.entity else t.Closed? && s.last == t.last
  }

  predicate SameReaction<S(==)>(x: Reaction<Live<S>>, y: Reaction<Live<S>>) {
    Alike(x.state, y.state) && x.outcome == y.outcome && x.printed == y.printed
  }

  lemma AlikeReact<S(!new)>(e: Entity<S>, s: Live<S>, t: Live<S>, a: Call<Ask>, b: Call<Ask>)
    requires IgnoresClock(e) && Alike(s, t) && SameButForNow(a, b)
    ensures SameReaction(React(e, s, a.what), React(e, t, b.what))
  {
  }

  lemma ReactsTo<S>(e: Entity<S>, calls: seq<Call<Ask>>)
    requires calls != []
    ensures LastReaction(AsProcess(e), calls) == React(e, After(AsProcess(e), calls[..|calls| - 1]), calls[|calls| - 1].what)
  {
  }

  lemma OutputAfter<S>(codec: Codec, p: Process<S, Ask>, calls: seq<Call<Ask>>, x: Reaction<S>, before: string)
    requires calls != [] && LastReaction(p, calls) == x && Output(codec, p, calls[..|calls| - 1]) == before
    ensures Output(codec, p, calls) == before + (x.printed + Printed(codec, calls[|calls| - 1].id, x.outcome))
    ensures After(p, calls) == x.state
  {
  }

  /** Processes alike in state that have printed the same so far. */
  ghost predicate SameSoFar<S>(codec: Codec, e: Entity<S>, a: seq<Call<Ask>>, b: seq<Call<Ask>>) {
    && Alike(After(AsProcess(e), a), After(AsProcess(e), b))
    && Output(codec, AsProcess(e), a) == Output(codec, AsProcess(e), b)
  }

  lemma SameAfterCall<S>(codec: Codec, e: Entity<S>, a: seq<Call<Ask>>, b: seq<Call<Ask>>, x: Reaction<Live<S>>, y: Reaction<Live<S>>)
    requires a != [] && b != [] && a[|a| - 1].id == b[|b| - 1].id
    requires SameSoFar(codec, e, a[..|a| - 1], b[..|b| - 1])
    requires LastReaction(AsProcess(e), a) == x && LastReaction(AsProcess(e), b) == y && SameReaction(x, y)
    ensures SameSoFar(codec, e, a, b)
  {
    OutputAfter(codec, AsProcess(e), a, x, Output(codec, AsProcess(e), a[..|a| - 1]));
    OutputAfter(codec, AsProcess(e), b, y, Output(codec, AsProcess(e), b[..|b| - 1]));
  }

  lemma {:induction false} SamePrintout<S(!new)>(codec: Codec, e: Entity<S>, a: seq<Call<Ask>>, b: seq<Call<Ask>>)
    requires IgnoresClock(e) && |a| == |b| && forall i :: 0 <= i < |a| ==> SameButForNow(a[i], b[i])
    ensures SameSoFar(codec, e, a, b)
  {
    if a != [] {
      var last := |a| - 1;
      SamePrintout(codec, e, a[..last], b[..last]);
      ReactsTo(e, a);
      ReactsTo(e, b);
      AlikeReact(e, After(AsProcess(e), a[..last]), After(AsProcess(e), b[..last]), a[last], b[last]);
      SameAfterCall(codec, e, a, b, LastReaction(AsProcess(e), a), LastReaction(AsProcess(e), b));
    }
  }

  lemma AlikeFarewell<S(!new)>(e: Entity<S>, s: Live<S>, t: Live<S>)
    requires IgnoresClock(e) && Alike(s, t)
    ensures e.farewell(EntityOf(s), s.clock) == e.farewell(EntityOf(t), t.clock)
  {
  }

  lemma PrintoutIs<S>(codec: Codec, e: Entity<S>, spec: Spec, end: Live<S>, output: string)
    requires After(AsProcess(e), Calls(spec)) == end && Output(codec, AsProcess(e), Calls(spec)) == output
    ensures Printout(codec, e, spec) == output + e.farewell(EntityOf(end), end.clock)
  {
  }

  lemma SamePrintouts<S(!new)>(codec: Codec, e: Entity<S>, a: Spec, b: Spec)
    requires IgnoresClock(e) && SameButForClock(a, b)
    ensures Printout(codec, e, a) == Printout(codec, e, b)
  {
    forall i | 0 <= i < Length(a) ensures Length(a) == Length(b) && SameButForNow(CallAt(a, i), CallAt(b, i)) {
      SameCalls(a, b, i);
    }
    var p := AsProcess(e);
    SamePrintout(codec, e, Calls(a), Calls(b));
    AlikeFarewell(e, After(p, Calls(a)), After(p, Calls(b)));
    PrintoutIs(codec, e, a, After(p, Calls(a)), Output(codec, p, Calls(a)));
    PrintoutIs(codec, e, b, After(p, Calls(b)), Output(codec, p, Calls(b)));
  }

  lemma SameChecks(a: Spec, b: Spec)
    requires SameButForClock(a, b)
    ensures Checks(a) == Checks(b)
  {
    forall i | 0 <= i < Length(a) ensures Length(a) == Length(b) && CheckAt(a, i) == CheckAt(b, i) {
    }
  }

  /** Whatever an entity prints: if it ignores the injected clock, the output and the verdict are the
      same for every valid choice of clock readings. */
  lemma ClockIgnoredVerdictInvariant<S(!new)>(codec: Codec, e: Entity<S>, a: Spec, b: Spec)
    requires IgnoresClock(e) && SameButForClock(a, b) && ValidSpec(a) && ValidSpec(b)
    ensures Printout(codec, e, a) == Printout(codec, e, b)
    ensures Accepts(codec, e, a) <==> Accepts(codec, e, b)
  {
    SamePrintouts(codec, e, a, b);
    SameChecks(a, b);
  }

  /** The call of a step leaves every state as it is, whatever the clock says. */
  ghost predicate ReadOnlyStep<S(!new)>(e: Entity<S>, step: Step) {
    forall s, now :: e.react(s, now, step.call, step.args).0 == s
  }

  function StateBefore<S>(e: Entity<S>, spec: Spec, i: nat): Live<S>
    requires i < |spec.timeline|
  {
    After(AsProcess(e), Calls(spec)[..1 + i])
  }

  lemma StepReaction<S>(e: Entity<S>, spec: Spec, i: nat)
    requires i < |spec.timeline|
    ensures var r := React(e, StateBefore(e, spec, i), StepCall(spec.timeline[i], i).what);
            Ended(e, spec, 1 + i) == r.outcome && After(AsProcess(e), Calls(spec)[..2 + i]) == r.state
  {
    assert Calls(spec)[..2 + i][..1 + i] == Calls(spec)[..1 + i];
  }

  lemma {:induction false} ReadOnlyStretch<S(!new)>(e: Entity<S>, spec: Spec, i: nat, j: nat)
    requires i <= j < |spec.timeline|
    requires forall m :: i <= m < j ==> ReadOnlyStep(e, spec.timeline[m])
    ensures EntityOf(StateBefore(e, spec, i)) == EntityOf(StateBefore(e, spec, j))
  {
    if i < j {
      ReadOnlyStretch(e, spec, i, j - 1);
      StepReaction(e, spec, j - 1);
      assert ReadOnlyStep(e, spec.timeline[j - 1]);
    }
  }

  /** Two equal calls of the same entity end alike, if both are made. */
  lemma SameAnswer<S(!new)>(e: Entity<S>, spec: Spec, i: nat, j: nat)
    requires IgnoresClock(e) && i < |spec.timeline| && j < |spec.timeline|
    requires spec.timeline[i].call == spec.timeline[j].call && spec.timeline[i].args == spec.timeline[j].args
    requires EntityOf(StateBefore(e, spec, i)) == EntityOf(StateBefore(e, spec, j))
    requires Ended(e, spec, 1 + i).Some? && Ended(e, spec, 1 + j).Some?
    ensures Ended(e, spec, 1 + i) == Ended(e, spec, 1 + j)
  {
    StepReaction(e, spec, i);
    StepReaction(e, spec, j);
    var s, t := StateBefore(e, spec, i), StateBefore(e, spec, j);
    AlikeReact(e, s, t, StepCall(spec.timeline[i], i), Call(StepId(i), StepCall(spec.timeline[j], j).what));
  }

  lemma MetOnce(x: Expectation, y: Expectation, outcome: Option<Outcome>)
    requires Meets(x, outcome) && Meets(y, outcome)
    ensures x == y && outcome.Some?
  {
  }

  lemma StepMet<S>(codec: Codec, e: Entity<S>, spec: Spec, i: nat)
    requires ValidSpec(spec) && DistinctFinals(spec) && PlaysFair(codec, e, spec)
    requires Accepts(codec, e, spec) && i < |spec.timeline|
    ensures Meets(spec.timeline[i].expectation, Ended(e, spec, 1 + i)) && Ended(e, spec, 1 + i).Some?
  {
    AcceptsIffEveryStepMeets(codec, e, spec);
    assert Meets(spec.timeline[i].expectation, Ended(e, spec, 1 + i));
    MetOnce(spec.timeline[i].expectation, spec.timeline[i].expectation, Ended(e, spec, 1 + i));
  }

  /** An entity that ignores the injected clock and plays fair never passes two identical calls, with
      nothing but read-only calls from the first to the second, that are expected to answer
      differently. */
  lemma ClockIgnorantNeverPasses<S(!new)>(codec: Codec, e: Entity<S>, spec: Spec, i: nat, j: nat)
    requires ValidSpec(spec) && DistinctFinals(spec) && PlaysFair(codec, e, spec)
    requires IgnoresClock(e) && i < j < |spec.timeline|
    requires spec.timeline[i].call == spec.timeline[j].call && spec.timeline[i].args == spec.timeline[j].args
    requires spec.timeline[i].expectation != spec.timeline[j].expectation
    requires forall m :: i <= m < j ==> ReadOnlyStep(e, spec.timeline[m])
    ensures !Accepts(codec, e, spec)
  {
    if Accepts(codec, e, spec) {
      StepMet(codec, e, spec, i);
      StepMet(codec, e, spec, j);
      ReadOnlyStretch(e, spec, i, j);
      SameAnswer(e, spec, i, j);
    }
  }

  // ---- An obedient entity ----------------------------------------------------------------

  /** Names and exceptions that can be reported. */
  predicate ReportableSpec(spec: Spec) {
    && (forall s :: s in spec.timeline && s.expectation.Throws? ==> PlainException(s.expectation.exception))
    && forall e :: e in FinalEntries(spec) ==> IdChars(e.name)
  }

  /** The entity that counts its calls and ends each as its check asks. */
  function ClockObedient(spec: Spec): Entity<int> {
    Entity("",
      (args: seq<string>, param: string, keywords: Keywords, now: int) => (Alive(1), ""),
      (k: int, now: int, name: string, args: seq<string>) => (k + 1, Some(AskedAt(spec, k)), ""),
      (k: Option<int>, now: int) => "")
  }

  function AskedAt(spec: Spec, k: int): Outcome {
    if 0 <= k < Length(spec) then Asked(CheckAt(spec, k)) else Returned(NULL)
  }

  lemma AskedMeets(spec: Spec, i: nat)
    requires ValidSpec(spec) && ReportableSpec(spec) && i < Length(spec)
    ensures MeetsAt(spec, i, Some(AskedAt(spec, i))) && Clean(Some(AskedAt(spec, i)))
  {
    var n := |spec.timeline|;
    if 1 <= i <= n {
      assert spec.timeline[i - 1] in spec.timeline && ValidStep(spec.timeline[i - 1]);
    } else if i > n {
      assert FinalEntries(spec)[i - 1 - n] in FinalEntries(spec);
    }
  }

  lemma ObedientCall(spec: Spec, s: Live<int>, k: nat)
    requires k < Length(spec) && (k > 0 ==> s.Open? && s.entity == k)
    ensures var r := React(ClockObedient(spec), s, CallAt(spec, k).what);
            && r.outcome == Some(if k == 0 then Returned(NULL) else AskedAt(spec, k)) && r.printed == ""
            && r.state.Open? && r.state.entity == k + 1
  {
  }

  /** The obedient entity is silent and clean, and has counted its calls. */
  ghost predicate ObeysUpTo(spec: Spec, calls: seq<Call<Ask>>) {
    var p := AsProcess(ClockObedient(spec));
    && SilentRun(p, calls) && CleanRun(p, calls)
    && (calls != [] ==> After(p, calls).Open? && After(p, calls).entity == |calls|)
  }

  lemma ObeysOneMore(spec: Spec, calls: seq<Call<Ask>>, k: nat)
    requires ValidSpec(spec) && ReportableSpec(spec) && k < Length(spec) && |calls| == k + 1
    requires ObeysUpTo(spec, calls[..k]) && calls[k] == CallAt(spec, k)
    ensures ObeysUpTo(spec, calls)
    ensures LastReaction(AsProcess(ClockObedient(spec)), calls).outcome == Some(AskedAt(spec, k))
  {
    ReactsTo(ClockObedient(spec), calls);
    ObedientCall(spec, After(AsProcess(ClockObedient(spec)), calls[..k]), k);
    AskedMeets(spec, k);
  }

  lemma {:induction false} ClockObedientRuns(spec: Spec, k: nat)
    requires ValidSpec(spec) && ReportableSpec(spec) && k <= Length(spec)
    ensures ObeysUpTo(spec, Calls(spec)[..k])
    ensures k > 0 ==> Ended(ClockObedient(spec), spec, k - 1) == Some(AskedAt(spec, k - 1))
  {
    if k > 0 {
      assert Calls(spec)[..k][..k - 1] == Calls(spec)[..k - 1];
      ClockObedientRuns(spec, k - 1);
      ObeysOneMore(spec, Calls(spec)[..k], k - 1);
    }
  }

  lemma ClockObedientMeets(spec: Spec)
    requires ValidSpec(spec) && ReportableSpec(spec)
    ensures IsBuilt(ClockObedient(spec), spec) && StepsMeet(ClockObedient(spec), spec) && FinalsMeet(ClockObedient(spec), spec)
  {
    forall i | 0 <= i < Length(spec) ensures MeetsAt(spec, i, Ended(ClockObedient(spec), spec, i)) {
      ObedientMeetsAt(spec, i);
    }
    MeetsAtMeets(ClockObedient(spec), spec);
  }

  lemma ObedientMeetsAt(spec: Spec, i: nat)
    requires ValidSpec(spec) && ReportableSpec(spec) && i < Length(spec)
    ensures MeetsAt(spec, i, Ended(ClockObedient(spec), spec, i))
  {
    ClockObedientRuns(spec, i + 1);
    AskedMeets(spec, i);
  }

  lemma ClockObedientIsFair(codec: Codec, spec: Spec)
    requires ValidSpec(spec) && ReportableSpec(spec) && Fits(Printout(codec, ClockObedient(spec), spec))
    requires FaithfulRun(codec, AsProcess(ClockObedient(spec)), Calls(spec))
    ensures PlaysFair(codec, ClockObedient(spec), spec)
  {
    var p, calls := AsProcess(ClockObedient(spec)), Calls(spec);
    assert calls[..|calls|] == calls;
    ClockObedientRuns(spec, |calls|);
    SilentIsDiscreet(p, calls, CheckedIds(Checks(spec)));
    CleanNamesExceptions(p, calls);
  }

  /** For every reportable specification there are an encoding and an entity that plays fair and is
      accepted, unless its report is too long to be read whole. */
  lemma SomeEntityIsAccepted(spec: Spec)
    requires ValidSpec(spec) && DistinctFinals(spec) && ReportableSpec(spec)
    ensures var e := ClockObedient(spec);
            var codec := TableCodec(RunValues(AsProcess(e), Calls(spec)));
            Fits(Printout(codec, e, spec)) ==> PlaysFair(codec, e, spec) && Accepts(codec, e, spec)
  {
    var e := ClockObedient(spec);
    var values := RunValues(AsProcess(e), Calls(spec));
    if Fits(Printout(TableCodec(values), e, spec)) {
      RunHasFaithfulCodec(AsProcess(e), Calls(spec), values);
      ClockObedientIsFair(TableCodec(values), spec);
      ClockObedientMeets(spec);
      AcceptsIffEveryStepMeets(TableCodec(values), e, spec);
    }
  }

  // ---- A forging entity ------------------------------------------------------------------

  /** The entity without any state that returns null to every call, whatever the clock says, and
      prints the expected report as it exits. */
  function ClockForger(codec: Codec, spec: Spec): Entity<()> {
    Entity("",
      (args: seq<string>, param: string, keywords: Keywords, now: int) => (Alive(()), ""),
      (s: (), now: int, name: string, args: seq<string>) => (s, Some(Returned(NULL)), ""),
      (s: Option<()>, now: int) => Output(codec, Obedient(Checks(spec), Calls(spec)), Calls(spec)))
  }

  lemma {:induction false} ForgerMimics(codec: Codec, spec: Spec, checks: seq<Check>, calls: seq<Call<Ask>>, k: nat)
    requires FaithfulTo(codec, NULL) && Unambiguous(checks) && Askable(checks) && k <= |calls|
    requires forall c :: c in checks ==> c.ReturnsEquals?
    requires forall i :: 0 <= i < |calls| ==> (calls[i].what.Construct? <==> i == 0)
    ensures var f := AsProcess(ClockForger(codec, spec));
            && SilentRun(f, calls[..k]) && Mimics(f, Obedient(checks, calls), calls[..k])
            && FaithfulRun(codec, f, calls[..k]) && (k > 0 ==> After(f, calls[..k]).Open?)
  {
    if k > 0 {
      assert calls[..k][..k - 1] == calls[..k - 1];
      ForgerMimics(codec, spec, checks, calls, k - 1);
      ObedientRuns(checks, calls, k);
      WantedReturns(checks, calls[k - 1].id);
    }
  }

  lemma {:induction false} WantedReturns(checks: seq<Check>, id: string)
    requires forall c :: c in checks ==> c.ReturnsEquals?
    ensures Wanted(checks, id).Returned?
  {
    if checks != [] {
      assert checks[|checks| - 1] in checks && forall c :: c in checks[..|checks| - 1] ==> c in checks;
      WantedReturns(checks[..|checks| - 1], id);
    }
  }

  lemma ForgerIgnoresClock(codec: Codec, spec: Spec)
    ensures IgnoresClock(ClockForger(codec, spec))
    ensures forall s :: s in spec.timeline ==> ReadOnlyStep(ClockForger(codec, spec), s)
  {
  }

  /** A specification without expected exceptions, whose names can be reported. */
  predicate ValuesOnly(spec: Spec) {
    && (forall s :: s in spec.timeline ==> s.expectation.Returns?)
    && forall e :: e in FinalEntries(spec) ==> IdChars(e.name)
  }

  /** Whatever values a specification expects, and at whatever readings: a stateless entity that never
      reads the clock and returns null throughout passes it, by what it prints. */
  lemma ClockForgerPasses(codec: Codec, spec: Spec)
    requires Expresses(codec, Checks(spec)) && ValidSpec(spec) && DistinctFinals(spec) && ValuesOnly(spec)
    requires Fits(Printout(codec, ClockForger(codec, spec), spec))
    ensures Accepts(codec, ClockForger(codec, spec), spec)
    ensures IgnoresClock(ClockForger(codec, spec))
    ensures forall s :: s in spec.timeline ==> ReadOnlyStep(ClockForger(codec, spec), s)
  {
    ForgeablePlan(spec);
    ForgerIgnoresClock(codec, spec);
    PlanParts(spec);
    ForgedPlanPasses(codec, spec, Checks(spec), Calls(spec));
  }

  lemma ForgedPlanPasses(codec: Codec, spec: Spec, checks: seq<Check>, calls: seq<Call<Ask>>)
    requires Expresses(codec, checks) && checks == Checks(spec) && calls == Calls(spec)
    requires GoodIds(calls) && Unambiguous(checks) && Askable(checks) && Covered(checks, calls)
    requires forall c :: c in checks ==> c.ReturnsEquals?
    requires forall i :: 0 <= i < |calls| ==> (calls[i].what.Construct? <==> i == 0)
    requires Fits(Stdout(codec, AsProcess(ClockForger(codec, spec)), calls))
    ensures Passed(checks, Parsed(codec, Stdout(codec, AsProcess(ClockForger(codec, spec)), calls)))
  {
    assert calls[..|calls|] == calls;
    ForgerMimics(codec, spec, checks, calls, |calls|);
    ObedientRuns(checks, calls, |calls|);
    ObedientFaithful(codec, checks, calls, |calls|);
    ObedientAllTrue(checks, calls);
    ReplayPasses(codec, AsProcess(ClockForger(codec, spec)), Obedient(checks, calls), calls, checks);
  }

  lemma ValueCheck(spec: Spec, i: nat)
    requires ValuesOnly(spec) && i < Length(spec)
    ensures IdReported(CheckAt(spec, i).id) && CheckAt(spec, i).ReturnsEquals?
  {
    var n := |spec.timeline|;
    if 1 <= i <= n {
      assert spec.timeline[i - 1] in spec.timeline;
      StepIdIs(i - 1);
    } else if i > n {
      assert FinalEntries(spec)[i - 1 - n] in FinalEntries(spec);
      FinalIdIs(FinalEntries(spec)[i - 1 - n].name);
    }
  }

  /** Checks of different calls differ in their ids. */
  lemma OneCheckPerCall<C>(checks: seq<Check>, calls: seq<Call<C>>)
    requires Aligned(checks, calls)
    requires forall i, j :: 0 <= i < j < |calls| ==> calls[i].id != calls[j].id
    ensures Unambiguous(checks)
  {
    forall c, d | c in checks && d in checks && c.id == d.id ensures c == d {
      var i :| 0 <= i < |checks| && checks[i] == c;
      var j :| 0 <= j < |checks| && checks[j] == d;
      assert AlignedAt(checks[i], calls[i]) && AlignedAt(checks[j], calls[j]);
    }
  }

  lemma CoveredWhenAligned<C>(checks: seq<Check>, calls: seq<Call<C>>)
    requires Aligned(checks, calls)
    ensures Covered(checks, calls)
  {
    forall c | c in checks ensures c.id in Ids(calls) {
      var i :| 0 <= i < |checks| && checks[i] == c;
      assert AlignedAt(checks[i], calls[i]);
      IdAt(calls, i);
    }
  }

  lemma ForgeablePlan(spec: Spec)
    requires ValidSpec(spec) && DistinctFinals(spec) && ValuesOnly(spec)
    ensures GoodIds(Calls(spec)) && Unambiguous(Checks(spec)) && Askable(Checks(spec)) && Covered(Checks(spec), Calls(spec))
    ensures forall c :: c in Checks(spec) ==> c.ReturnsEquals?
  {
    ChecksAligned(spec);
    CallIdsDistinct(spec);
    OneCheckPerCall(Checks(spec), Calls(spec));
    CoveredWhenAligned(Checks(spec), Calls(spec));
    forall i | 0 <= i < Length(spec) ensures IdReported(CheckAt(spec, i).id) && CheckAt(spec, i).ReturnsEquals? {
      ValueCheck(spec, i);
    }
    GoodIfReported(Checks(spec), Calls(spec));
  }
}
