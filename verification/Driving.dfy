/**
 * A process under test, driven call by call. It prints whatever it likes into the same output as
 * its driver; this is what the output read back says about what really happened, when it can be
 * believed, and how it can be forged.
 */
module Driving {
  import opened ImportDriver
  import opened Options
  import opened PyText
  import opened Sequences

  datatype Call<C> = Call(id: string, what: C)

  /** A reaction to a call: the new state, how the call ended (nothing when it is not made any more),
      and what was printed meanwhile. */
  datatype Reaction<S> = Reaction(state: S, outcome: Option<Outcome>, printed: string)

  /** The driven process: what it prints while it is imported, its reactions, and what it prints as
      it exits. */
  datatype Process<!S, !C> = Process(start: S, banner: string, step: (S, C) -> Reaction<S>, farewell: S -> string)

  /** Where the module is looked for under which name, and whether its driver could be launched and
      ended within the timeout. */
  datatype Host = Host(rootIsDir: bool, moduleName: string, launched: bool, ended: bool)

  function After<S, C>(p: Process<S, C>, calls: seq<Call<C>>): S
    decreases |calls|, 1
  {
    if calls == [] then p.start else LastReaction(p, calls).state
  }

  function LastReaction<S, C>(p: Process<S, C>, calls: seq<Call<C>>): Reaction<S>
    requires calls != []
    decreases |calls|, 0
  {
    p.step(After(p, calls[..|calls| - 1]), calls[|calls| - 1].what)
  }

  /** How call `i` ended. */
  function OutcomeAt<S, C>(p: Process<S, C>, calls: seq<Call<C>>, i: nat): Option<Outcome>
    requires i < |calls|
  {
    LastReaction(p, calls[..i + 1]).outcome
  }

  /** The truth once a call has ended in this way. */
  function Learnt(truth: map<string, Outcome>, id: string, outcome: Option<Outcome>): map<string, Outcome> {
    if outcome.Some? then truth[id := outcome.value] else truth
  }

  /** What really happened, by call id. */
  function Truth<S, C>(p: Process<S, C>, calls: seq<Call<C>>): map<string, Outcome> {
    if calls == [] then map[] else
      Learnt(Truth(p, calls[..|calls| - 1]), calls[|calls| - 1].id, LastReaction(p, calls).outcome)
  }

  /** Everything printed until the last call is reported. */
  function Output<S, C>(codec: Codec, p: Process<S, C>, calls: seq<Call<C>>): string {
    if calls == [] then p.banner
    else
      var r := LastReaction(p, calls);
      Output(codec, p, calls[..|calls| - 1]) + (r.printed + Printed(codec, calls[|calls| - 1].id, r.outcome))
  }

  function Stdout<S, C>(codec: Codec, p: Process<S, C>, calls: seq<Call<C>>): string {
    Output(codec, p, calls) + p.farewell(After(p, calls))
  }

  /** The driver: it makes the calls in order and prints a line for each. */
  method Drive<S, C>(codec: Codec, p: Process<S, C>, calls: seq<Call<C>>) returns (stdout: string)
    ensures stdout == Stdout(codec, p, calls)
  {
    var state := p.start;
    stdout := p.banner;
    for i := 0 to |calls|
      invariant state == After(p, calls[..i]) && stdout == Output(codec, p, calls[..i])
    {
      assert calls[..i + 1][..i] == calls[..i];
      var r := p.step(state, calls[i].what);
      state, stdout := r.state, stdout + (r.printed + Printed(codec, calls[i].id, r.outcome));
    }
    assert calls[..|calls|] == calls;
    stdout := stdout + p.farewell(state);
  }

  // ---------------------------------------------------------------- call ids

  function Ids<C>(calls: seq<Call<C>>): seq<string> {
    if calls == [] then [] else Ids(calls[..|calls| - 1]) + [calls[|calls| - 1].id]
  }

  lemma {:induction false} IdsConcat<C>(a: seq<Call<C>>, b: seq<Call<C>>)
    ensures Ids(a + b) == Ids(a) + Ids(b)
  {
    if b == [] {
      assert a + b == a;
    } else {
      assert (a + b)[..|a + b| - 1] == a + b[..|b| - 1];
      IdsConcat(a, b[..|b| - 1]);
    }
  }

  lemma SingleId<C>(c: Call<C>)
    ensures Ids([c]) == [c.id] && NoDup([c.id])
  {
    assert [c][..0] == [];
    assert [c.id][..0] == [];
  }

  lemma {:induction false} IdAt<C>(calls: seq<Call<C>>, i: nat)
    requires i < |calls|
    ensures |Ids(calls)| == |calls| && Ids(calls)[i] == calls[i].id
  {
    var init := calls[..|calls| - 1];
    if i < |init| {
      IdAt(init, i);
    } else if init != [] {
      IdAt(init, 0);
    }
  }

  lemma {:induction false} DistinctIds<C>(calls: seq<Call<C>>)
    requires forall i, j :: 0 <= i < j < |calls| ==> calls[i].id != calls[j].id
    ensures NoDup(Ids(calls))
  {
    if calls != [] {
      var init, last := calls[..|calls| - 1], calls[|calls| - 1];
      DistinctIds(init);
      if last.id in Ids(init) {
        var i := IdIndex(init, last.id);
      }
      assert Ids(calls)[..|Ids(calls)| - 1] == Ids(init);
    }
  }

  lemma {:induction false} NoDupJoin(a: seq<string>, b: seq<string>)
    requires NoDup(a) && NoDup(b)
    requires forall x :: x in b ==> x !in a
    ensures NoDup(a + b)
  {
    if b == [] {
      assert a + b == a;
    } else {
      assert (a + b)[..|a + b| - 1] == a + b[..|b| - 1];
      NoDupJoin(a, b[..|b| - 1]);
    }
  }

  /** Ids that reports can carry, each once. */
  ghost predicate GoodIds<C>(calls: seq<Call<C>>) {
    NoDup(Ids(calls)) && forall c :: c in calls ==> c.id != "" && IdChars(c.id)
  }

  lemma GoodIdsPrefix<C>(calls: seq<Call<C>>)
    requires calls != [] && GoodIds(calls)
    ensures GoodIds(calls[..|calls| - 1]) && calls[|calls| - 1].id !in Ids(calls[..|calls| - 1])
    ensures calls[|calls| - 1].id != "" && IdChars(calls[|calls| - 1].id)
  {
    var init, last := calls[..|calls| - 1], calls[|calls| - 1];
    assert Ids(calls)[..|Ids(calls)| - 1] == Ids(init) && last in calls;
  }

  // ---------------------------------------------------------------- what really happened

  lemma {:induction false} TruthKeys<S, C>(p: Process<S, C>, calls: seq<Call<C>>)
    ensures forall id :: id in Truth(p, calls) ==> id in Ids(calls)
  {
    if calls != [] { TruthKeys(p, calls[..|calls| - 1]); }
  }

  /** How call `i` ended is what is true of its id. */
  ghost predicate TrueAt<S, C>(p: Process<S, C>, calls: seq<Call<C>>, i: nat, truth: map<string, Outcome>)
    requires i < |calls|
  {
    && (calls[i].id in truth <==> OutcomeAt(p, calls, i).Some?)
    && (calls[i].id in truth ==> Some(truth[calls[i].id]) == OutcomeAt(p, calls, i))
  }

  lemma TruthAtLast<S, C>(p: Process<S, C>, calls: seq<Call<C>>)
    requires calls != [] && calls[|calls| - 1].id !in Ids(calls[..|calls| - 1])
    ensures TrueAt(p, calls, |calls| - 1, Truth(p, calls))
  {
    TruthKeys(p, calls[..|calls| - 1]);
    assert calls[..|calls| - 1 + 1] == calls;
  }

  lemma {:induction false} TruthAt<S, C>(p: Process<S, C>, calls: seq<Call<C>>, i: nat)
    requires i < |calls| && NoDup(Ids(calls))
    ensures TrueAt(p, calls, i, Truth(p, calls))
  {
    var init, last := calls[..|calls| - 1], calls[|calls| - 1];
    assert Ids(calls)[..|Ids(calls)| - 1] == Ids(init) && last.id !in Ids(init);
    if i < |init| {
      TruthAt(p, init, i);
      assert init[..i + 1] == calls[..i + 1];
      IdAt(init, i);
      assert calls[i].id != last.id;
    } else {
      TruthAtLast(p, calls);
    }
  }

  predicate HeldBy(check: Check, truth: map<string, Outcome>) {
    check.id in truth
    && match check
       case ReturnsEquals(id, expected) => truth[id] == Returned(expected)
       case Raises(id, exception) => truth[id] == Raised(exception)
  }

  /** What the checks ask for really happened. */
  predicate AllTrue(checks: seq<Check>, truth: map<string, Outcome>) {
    forall c :: c in checks ==> HeldBy(c, truth)
  }

  // ---------------------------------------------------------------- the driver's lines alone

  /** What the driver's own lines say. */
  function Own<S, C>(codec: Codec, p: Process<S, C>, calls: seq<Call<C>>): Report {
    if calls == [] then NOTHING
    else AbsorbText(codec, Own(codec, p, calls[..|calls| - 1]),
                    Printed(codec, calls[|calls| - 1].id, LastReaction(p, calls).outcome))
  }

  /** An outcome that is reported exactly. */
  predicate Clean(outcome: Option<Outcome>) {
    outcome.Some? && outcome.value.Raised? ==> PlainException(outcome.value.exception)
  }

  ghost predicate CleanRun<S, C>(p: Process<S, C>, calls: seq<Call<C>>) {
    calls == [] || (CleanRun(p, calls[..|calls| - 1]) && Clean(LastReaction(p, calls).outcome))
  }

  /** Exception names are names at all: not empty and without line breaks. */
  ghost predicate NamesExceptions<S, C>(p: Process<S, C>, calls: seq<Call<C>>) {
    calls == []
    || (NamesExceptions(p, calls[..|calls| - 1])
        && var outcome := LastReaction(p, calls).outcome;
           outcome.Some? && outcome.value.Raised? ==>
             outcome.value.exception != "" && OneLine(outcome.value.exception))
  }

  /** A returned value that the encoding brings through. */
  predicate Conveys(codec: Codec, outcome: Option<Outcome>) {
    outcome.Some? && outcome.value.Returned? ==> FaithfulTo(codec, outcome.value.value)
  }

  /** The encoding brings through whatever is returned in this run. */
  ghost predicate FaithfulRun<S, C>(codec: Codec, p: Process<S, C>, calls: seq<Call<C>>) {
    calls == [] || (FaithfulRun(codec, p, calls[..|calls| - 1]) && Conveys(codec, LastReaction(p, calls).outcome))
  }

  function ValueOf(outcome: Option<Outcome>): seq<Value> {
    if outcome.Some? && outcome.value.Returned? then [outcome.value.value] else []
  }

  /** Everything that is returned in a run. */
  function RunValues<S, C>(p: Process<S, C>, calls: seq<Call<C>>): seq<Value> {
    if calls == [] then []
    else RunValues(p, calls[..|calls| - 1]) + ValueOf(LastReaction(p, calls).outcome)
  }

  /** For every run there is an encoding that brings through whatever is returned in it. */
  lemma {:induction false} RunHasFaithfulCodec<S, C>(p: Process<S, C>, calls: seq<Call<C>>, values: seq<Value>)
    requires forall v :: v in RunValues(p, calls) ==> v in values
    ensures FaithfulRun(TableCodec(values), p, calls)
  {
    if calls != [] {
      var outcome := LastReaction(p, calls).outcome;
      RunHasFaithfulCodec(p, calls[..|calls| - 1], values);
      if outcome.Some? && outcome.value.Returned? {
        assert outcome.value.value in RunValues(p, calls);
        TableCodecFaithful(values, outcome.value.value);
      }
    }
  }

  /** One more call. */
  lemma OneMore<S, C>(p: Process<S, C>, calls: seq<Call<C>>, c: Call<C>)
    ensures var r := p.step(After(p, calls), c.what);
            && LastReaction(p, calls + [c]) == r && After(p, calls + [c]) == r.state
            && Truth(p, calls + [c]) == Learnt(Truth(p, calls), c.id, r.outcome)
            && (CleanRun(p, calls + [c]) <==> CleanRun(p, calls) && Clean(r.outcome))
  {
    assert (calls + [c])[..|calls|] == calls;
  }

  /** A report that says exactly what happened. */
  ghost predicate Says(r: Report, truth: map<string, Outcome>) {
    && !r.importError
    && (forall id :: id in r.results <==> id in truth && truth[id].Returned?)
    && (forall id :: id in r.results ==> truth[id] == Returned(r.results[id]))
    && (forall id :: id in r.raised <==> id in truth && truth[id].Raised?)
    && (forall id :: id in r.raised ==> truth[id] == Raised(r.raised[id]))
  }

  lemma AbsorbNothing(codec: Codec, r: Report)
    ensures AbsorbText(codec, r, "") == r
  {
  }

  lemma SaysReturned(r: Report, truth: map<string, Outcome>, id: string, v: Value)
    requires Says(r, truth) && id !in truth
    ensures Says(r.(results := r.results[id := v]), truth[id := Returned(v)])
  {
    var after, now := r.(results := r.results[id := v]), truth[id := Returned(v)];
    assert after.raised == r.raised && id !in r.raised;
  }

  lemma SaysRaised(r: Report, truth: map<string, Outcome>, id: string, x: string)
    requires Says(r, truth) && id !in truth
    ensures Says(r.(raised := r.raised[id := x]), truth[id := Raised(x)])
  {
    var after, now := r.(raised := r.raised[id := x]), truth[id := Raised(x)];
    assert after.results == r.results && id !in r.results;
  }

  lemma SaysMore(codec: Codec, r: Report, truth: map<string, Outcome>, id: string, outcome: Option<Outcome>)
    requires Conveys(codec, outcome) && Says(r, truth) && id !in truth && id != "" && IdChars(id) && Clean(outcome)
    ensures Says(AbsorbText(codec, r, Printed(codec, id, outcome)), Learnt(truth, id, outcome))
  {
    if outcome.None? {
      AbsorbNothing(codec, r);
    } else if outcome.value.Returned? {
      HeardResult(codec, r, id, outcome.value.value);
      SaysReturned(r, truth, id, outcome.value.value);
    } else {
      HeardRaise(codec, r, id, outcome.value.exception);
      SaysRaised(r, truth, id, outcome.value.exception);
    }
  }

  /** When every outcome is clean, the driver's lines say exactly what happened. */
  lemma {:induction false} OwnSaysTruth<S, C>(codec: Codec, p: Process<S, C>, calls: seq<Call<C>>)
    requires FaithfulRun(codec, p, calls) && GoodIds(calls) && CleanRun(p, calls)
    ensures Says(Own(codec, p, calls), Truth(p, calls))
  {
    if calls != [] {
      var init := calls[..|calls| - 1];
      GoodIdsPrefix(calls);
      OwnSaysTruth(codec, p, init);
      TruthKeys(p, init);
      SaysMore(codec, Own(codec, p, init), Truth(p, init), calls[|calls| - 1].id, LastReaction(p, calls).outcome);
    }
  }

  lemma SaysDecides(r: Report, truth: map<string, Outcome>, checks: seq<Check>)
    requires Says(r, truth)
    ensures Passed(checks, r) <==> AllTrue(checks, truth)
  {
    forall c | c in checks ensures Holds(c, r) <==> HeldBy(c, truth) {
    }
  }

  /** A report that says nothing false about returned values, nor about exceptions under ids without
      an underscore. */
  ghost predicate SaysNoLie(r: Report, truth: map<string, Outcome>) {
    && !r.importError
    && (forall id :: id in r.results ==> id in truth && truth[id] == Returned(r.results[id]))
    && (forall id :: id in r.raised && '_' !in id ==> id in truth && truth[id] == Raised(r.raised[id]))
  }

  lemma NoLieAdded(codec: Codec, r: Report, truth: map<string, Outcome>, id: string, outcome: Option<Outcome>)
    requires Conveys(codec, outcome) && SaysNoLie(r, truth) && id !in truth && id != "" && IdChars(id)
    requires outcome.Some? && outcome.value.Raised? ==> outcome.value.exception != "" && OneLine(outcome.value.exception)
    ensures SaysNoLie(AbsorbText(codec, r, Printed(codec, id, outcome)), Learnt(truth, id, outcome))
  {
    if outcome.None? {
      AbsorbNothing(codec, r);
    } else if outcome.value.Returned? {
      HeardResult(codec, r, id, outcome.value.value);
    } else {
      HeardSomehow(codec, r, id, outcome.value.exception);
    }
  }

  /** Whatever the exceptions are called, the driver's lines never lie in this sense. */
  lemma {:induction false} OwnNeverLies<S, C>(codec: Codec, p: Process<S, C>, calls: seq<Call<C>>)
    requires FaithfulRun(codec, p, calls) && GoodIds(calls) && NamesExceptions(p, calls)
    ensures SaysNoLie(Own(codec, p, calls), Truth(p, calls))
  {
    if calls != [] {
      var init := calls[..|calls| - 1];
      GoodIdsPrefix(calls);
      OwnNeverLies(codec, p, init);
      TruthKeys(p, init);
      NoLieAdded(codec, Own(codec, p, init), Truth(p, init), calls[|calls| - 1].id, LastReaction(p, calls).outcome);
    }
  }

  // ---------------------------------------------------------------- a discreet process

  ghost predicate AllIrrelevant(lines: seq<string>, ids: set<string>) {
    forall line :: line in lines ==> Irrelevant(line, ids)
  }

  /** Whole lines, none of which is a report for one of these ids or of a failed import. */
  ghost predicate Discreet(text: string, ids: set<string>) {
    WholeLines(text) && AllIrrelevant(Lines(text), ids)
  }

  predicate Irrelevant(line: string, ids: set<string>) {
    match Classify(Strip(line))
    case Result(id, _) => id !in ids
    case Raise(id, _) => id !in ids
    case ImportError => false
    case Noise => true
  }

  ghost predicate DiscreetRun<S, C>(p: Process<S, C>, calls: seq<Call<C>>, ids: set<string>) {
    if calls == [] then Discreet(p.banner, ids)
    else DiscreetRun(p, calls[..|calls| - 1], ids) && Discreet(LastReaction(p, calls).printed, ids)
  }

  /** Everything the process itself prints is discreet about these ids. */
  ghost predicate DiscreetProcess<S, C>(p: Process<S, C>, calls: seq<Call<C>>, ids: set<string>) {
    DiscreetRun(p, calls, ids) && AllIrrelevant(Lines(p.farewell(After(p, calls))), ids)
  }

  function CheckedIds(checks: seq<Check>): set<string> {
    set c | c in checks :: c.id
  }

  /** Two reports that agree on these ids. */
  ghost predicate AgreeOn(a: Report, b: Report, ids: set<string>) {
    && a.importError == b.importError
    && forall id :: id in ids ==> AgreeAt(a, b, id)
  }

  predicate AgreeAt(a: Report, b: Report, id: string) {
    && (id in a.results <==> id in b.results) && (id in a.results ==> a.results[id] == b.results[id])
    && (id in a.raised <==> id in b.raised) && (id in a.raised ==> a.raised[id] == b.raised[id])
  }

  lemma AgreeAtLine(codec: Codec, a: Report, b: Report, line: string, id: string)
    requires AgreeAt(a, b, id)
    ensures AgreeAt(Absorb(codec, a, line), Absorb(codec, b, line), id)
  {
    match Classify(Strip(line))
    case Result(other, payload) => assert Absorb(codec, a, line).raised == a.raised;
    case Raise(other, name) => assert Absorb(codec, a, line).results == a.results;
    case ImportError =>
    case Noise =>
  }

  lemma IrrelevantAt(codec: Codec, a: Report, b: Report, line: string, ids: set<string>, id: string)
    requires AgreeAt(a, b, id) && Irrelevant(line, ids) && id in ids
    ensures AgreeAt(a, Absorb(codec, b, line), id)
  {
  }

  lemma AgreeOnLine(codec: Codec, a: Report, b: Report, line: string, ids: set<string>)
    requires AgreeOn(a, b, ids)
    ensures AgreeOn(Absorb(codec, a, line), Absorb(codec, b, line), ids)
  {
    forall id | id in ids ensures AgreeAt(Absorb(codec, a, line), Absorb(codec, b, line), id) {
      AgreeAtLine(codec, a, b, line, id);
    }
  }

  lemma AgreeOnIrrelevant(codec: Codec, a: Report, b: Report, line: string, ids: set<string>)
    requires AgreeOn(a, b, ids) && Irrelevant(line, ids)
    ensures AgreeOn(a, Absorb(codec, b, line), ids)
  {
    forall id | id in ids ensures AgreeAt(a, Absorb(codec, b, line), id) {
      IrrelevantAt(codec, a, b, line, ids, id);
    }
  }

  lemma {:induction false} AgreeOnLines(codec: Codec, a: Report, b: Report, lines: seq<string>, ids: set<string>)
    requires AgreeOn(a, b, ids)
    ensures AgreeOn(AbsorbLines(codec, a, lines), AbsorbLines(codec, b, lines), ids)
  {
    if lines != [] {
      var init := lines[..|lines| - 1];
      AgreeOnLines(codec, a, b, init, ids);
      AgreeOnLine(codec, AbsorbLines(codec, a, init), AbsorbLines(codec, b, init), lines[|lines| - 1], ids);
    }
  }

  lemma {:induction false} IrrelevantLines(codec: Codec, a: Report, b: Report, lines: seq<string>, ids: set<string>)
    requires AgreeOn(a, b, ids) && AllIrrelevant(lines, ids)
    ensures AgreeOn(a, AbsorbLines(codec, b, lines), ids)
  {
    if lines != [] {
      var init, last := lines[..|lines| - 1], lines[|lines| - 1];
      assert last in lines && forall line :: line in init ==> line in lines;
      IrrelevantLines(codec, a, b, init, ids);
      AgreeOnIrrelevant(codec, a, AbsorbLines(codec, b, init), last, ids);
    }
  }

  lemma PrintedWholeLines(codec: Codec, id: string, outcome: Option<Outcome>)
    ensures WholeLines(Printed(codec, id, outcome))
  {
  }

  lemma WholeLinesConcat(a: string, b: string)
    requires WholeLines(a) && WholeLines(b)
    ensures WholeLines(a + b)
  {
    if b != "" { assert (a + b)[|a + b| - 1] == b[|b| - 1]; }
  }

  /** Printing discreetly before a report leaves what it says. */
  lemma DiscreetStep(codec: Codec, own: Report, heard: Report, printed: string, report: string, ids: set<string>)
    requires AgreeOn(own, heard, ids) && Discreet(printed, ids)
    ensures AgreeOn(AbsorbText(codec, own, report), AbsorbText(codec, heard, printed + report), ids)
  {
    AbsorbTextConcat(codec, heard, printed, report);
    IrrelevantLines(codec, own, heard, Lines(printed), ids);
    AgreeOnLines(codec, own, AbsorbText(codec, heard, printed), Lines(report), ids);
  }

  /** What is read of a discreet output agrees with the driver's own lines. */
  lemma {:induction false} OutputAgrees<S, C>(codec: Codec, p: Process<S, C>, calls: seq<Call<C>>, ids: set<string>)
    requires DiscreetRun(p, calls, ids)
    ensures WholeLines(Output(codec, p, calls))
    ensures AgreeOn(Own(codec, p, calls), AbsorbText(codec, NOTHING, Output(codec, p, calls)), ids)
  {
    if calls == [] {
      IrrelevantLines(codec, NOTHING, NOTHING, Lines(p.banner), ids);
    } else {
      var init, r := calls[..|calls| - 1], LastReaction(p, calls);
      var report := Printed(codec, calls[|calls| - 1].id, r.outcome);
      OutputAgrees(codec, p, init, ids);
      PrintedWholeLines(codec, calls[|calls| - 1].id, r.outcome);
      WholeLinesConcat(r.printed, report);
      WholeLinesConcat(Output(codec, p, init), r.printed + report);
      AbsorbTextConcat(codec, NOTHING, Output(codec, p, init), r.printed + report);
      DiscreetStep(codec, Own(codec, p, init), AbsorbText(codec, NOTHING, Output(codec, p, init)), r.printed, report, ids);
    }
  }

  lemma AgreeingVerdict(a: Report, b: Report, checks: seq<Check>)
    requires AgreeOn(a, b, CheckedIds(checks))
    ensures Passed(checks, a) <==> Passed(checks, b)
  {
    forall c | c in checks ensures Holds(c, a) <==> Holds(c, b) {
      assert AgreeAt(a, b, c.id);
    }
  }

  predicate Fits(stdout: string) { |stdout| <= OUTPUT_LIMIT }

  /** For a process that is discreet about the checked ids, and an output that is read whole, the
      verdict is that on the driver's own lines. */
  lemma DiscreetVerdict<S, C>(codec: Codec, p: Process<S, C>, calls: seq<Call<C>>, checks: seq<Check>)
    requires DiscreetProcess(p, calls, CheckedIds(checks)) && Fits(Stdout(codec, p, calls))
    ensures Passed(checks, Parsed(codec, Stdout(codec, p, calls))) <==> Passed(checks, Own(codec, p, calls))
  {
    var output, farewell, ids := Output(codec, p, calls), p.farewell(After(p, calls)), CheckedIds(checks);
    OutputAgrees(codec, p, calls, ids);
    AbsorbTextConcat(codec, NOTHING, output, farewell);
    IrrelevantLines(codec, Own(codec, p, calls), AbsorbText(codec, NOTHING, output), Lines(farewell), ids);
    AgreeingVerdict(Own(codec, p, calls), Parsed(codec, Stdout(codec, p, calls)), checks);
  }

  /** A clean run that is discreet and read whole passes exactly the checks that are true. */
  lemma DiscreetPassesIffTrue<S, C>(codec: Codec, p: Process<S, C>, calls: seq<Call<C>>, checks: seq<Check>)
    requires FaithfulRun(codec, p, calls) && GoodIds(calls) && CleanRun(p, calls)
    requires DiscreetProcess(p, calls, CheckedIds(checks)) && Fits(Stdout(codec, p, calls))
    ensures Passed(checks, Parsed(codec, Stdout(codec, p, calls))) <==> AllTrue(checks, Truth(p, calls))
  {
    DiscreetVerdict(codec, p, calls, checks);
    OwnSaysTruth(codec, p, calls);
    SaysDecides(Own(codec, p, calls), Truth(p, calls), checks);
  }

  /** An id once read as raised stays so. */
  lemma {:induction false} RaisedStays<S, C>(codec: Codec, p: Process<S, C>, a: seq<Call<C>>, b: seq<Call<C>>, id: string)
    requires id in Own(codec, p, a).raised
    ensures id in Own(codec, p, a + b).raised
  {
    if b == [] {
      assert a + b == a;
    } else {
      var init, last := b[..|b| - 1], b[|b| - 1];
      assert (a + b)[..|a + b| - 1] == a + init;
      RaisedStays(codec, p, a, init, id);
      RaisedInLines(codec, Own(codec, p, a + init), Lines(Printed(codec, last.id, LastReaction(p, a + b).outcome)), id);
    }
  }

  lemma RaisedStaysUpTo<S, C>(codec: Codec, p: Process<S, C>, done: seq<Call<C>>, calls: seq<Call<C>>, id: string)
    requires done <= calls && id in Own(codec, p, done).raised
    ensures id in Own(codec, p, calls).raised
  {
    assert done + calls[|done|..] == calls;
    RaisedStays(codec, p, done, calls[|done|..], id);
  }

  lemma {:induction false} RaisedInLines(codec: Codec, r: Report, lines: seq<string>, id: string)
    requires id in r.raised
    ensures id in AbsorbLines(codec, r, lines).raised
  {
    if lines != [] { RaisedInLines(codec, r, lines[..|lines| - 1], id); }
  }

  /** Such a verdict is the truth: a passed check of a returned value, or of an exception under an id
      without an underscore, really happened. */
  lemma DiscreetPassIsTrue<S, C>(codec: Codec, p: Process<S, C>, calls: seq<Call<C>>, checks: seq<Check>, c: Check)
    requires FaithfulRun(codec, p, calls) && GoodIds(calls) && NamesExceptions(p, calls)
    requires DiscreetProcess(p, calls, CheckedIds(checks)) && Fits(Stdout(codec, p, calls))
    requires c in checks && (c.Raises? ==> '_' !in c.id)
    requires Passed(checks, Parsed(codec, Stdout(codec, p, calls)))
    ensures HeldBy(c, Truth(p, calls))
  {
    DiscreetVerdict(codec, p, calls, checks);
    OwnNeverLies(codec, p, calls);
    assert Holds(c, Own(codec, p, calls));
  }

  /** The last value returned is so long that the cut falls inside its own report, where no report can
      be recognised. */
  predicate Overlong(payload: string) {
    var cut := |payload| - (OUTPUT_LIMIT - |END + "\n"|);
    cut >= 0 && payload[cut] != '_' && !IsSpace(payload[cut])
  }

  lemma CutConcat(output: string, printed: string, prefix: string, id: string, x: string, y: string, end: string, feed: string)
    ensures output + (printed + (prefix + (id + (x + y)) + end + feed)) + ""
            == output + (printed + prefix + (id + x)) + (y + end + feed)
  {
  }

  /** After such a value nothing at all is read back, however faithfully it was returned. */
  lemma OverlongReportLosesAll<S, C>(codec: Codec, p: Process<S, C>, calls: seq<Call<C>>, checks: seq<Check>, v: Value)
    requires JsonLike(codec.dumps(v)) && Overlong(codec.dumps(v)) && calls != [] && checks != []
    requires LastReaction(p, calls).outcome == Some(Returned(v))
    requires p.farewell(After(p, calls)) == ""
    ensures !Passed(checks, Parsed(codec, Stdout(codec, p, calls)))
  {
    var payload, id, r := codec.dumps(v), calls[|calls| - 1].id, LastReaction(p, calls);
    var cut := |payload| - (OUTPUT_LIMIT - |END + "\n"|);
    var output, x, y := Output(codec, p, calls[..|calls| - 1]), payload[..cut], payload[cut..];
    assert OneLine(y) && payload == x + y;
    CutConcat(output, r.printed, RESULT, id + "__", x, y, END, "\n");
    CutReportLost(codec, output + (r.printed + RESULT + (id + "__" + x)), y);
    assert !Holds(checks[0], NOTHING);
  }

  // ---------------------------------------------------------------- a check for every call

  /** Check `i` is about call `i`, and a raised exception is asked for only under an id without an
      underscore. */
  ghost predicate Aligned<C>(checks: seq<Check>, calls: seq<Call<C>>) {
    |checks| == |calls|
    && forall i :: 0 <= i < |checks| ==> AlignedAt(checks[i], calls[i])
  }

  predicate AlignedAt<C>(check: Check, call: Call<C>) {
    check.id == call.id && (check.Raises? ==> '_' !in check.id && IsIdentifier(check.exception))
  }

  /** A call ended as its check asks, and this can be reported. */
  predicate Fulfils(c: Check, outcome: Option<Outcome>) {
    && IdReported(c.id) && outcome == Some(Asked(c))
    && (c.Raises? ==> PlainException(c.exception))
  }

  ghost predicate AllFulfilled<S, C>(p: Process<S, C>, calls: seq<Call<C>>, checks: seq<Check>)
    requires |checks| == |calls|
  {
    forall i :: 0 <= i < |calls| ==> Fulfils(checks[i], OutcomeAt(p, calls, i))
  }

  lemma {:induction false} CleanIfFulfilled<S, C>(p: Process<S, C>, calls: seq<Call<C>>, checks: seq<Check>, k: nat)
    requires |checks| == |calls| && AllFulfilled(p, calls, checks) && k <= |calls|
    ensures CleanRun(p, calls[..k])
  {
    if k > 0 {
      CleanIfFulfilled(p, calls, checks, k - 1);
      assert calls[..k][..k - 1] == calls[..k - 1];
      assert Fulfils(checks[k - 1], OutcomeAt(p, calls, k - 1));
    }
  }

  lemma GoodIfReported<C>(checks: seq<Check>, calls: seq<Call<C>>)
    requires Aligned(checks, calls) && NoDup(Ids(calls))
    requires forall i :: 0 <= i < |checks| ==> IdReported(checks[i].id)
    ensures GoodIds(calls)
  {
    forall c | c in calls ensures c.id != "" && IdChars(c.id) {
      var i :| 0 <= i < |calls| && calls[i] == c;
      assert AlignedAt(checks[i], calls[i]) && IdReported(checks[i].id);
    }
  }

  lemma FulfilledIsTrue<S, C>(p: Process<S, C>, calls: seq<Call<C>>, checks: seq<Check>)
    requires Aligned(checks, calls) && NoDup(Ids(calls)) && AllFulfilled(p, calls, checks)
    ensures AllTrue(checks, Truth(p, calls))
  {
    forall c | c in checks ensures HeldBy(c, Truth(p, calls)) {
      var i :| 0 <= i < |checks| && checks[i] == c;
      assert AlignedAt(checks[i], calls[i]) && Fulfils(checks[i], OutcomeAt(p, calls, i));
      TruthAt(p, calls, i);
    }
  }

  lemma FulfilledPasses<S, C>(codec: Codec, p: Process<S, C>, calls: seq<Call<C>>, checks: seq<Check>)
    requires FaithfulRun(codec, p, calls) && Aligned(checks, calls) && NoDup(Ids(calls)) && AllFulfilled(p, calls, checks)
    requires DiscreetProcess(p, calls, CheckedIds(checks)) && Fits(Stdout(codec, p, calls))
    ensures Passed(checks, Parsed(codec, Stdout(codec, p, calls)))
  {
    CleanIfFulfilled(p, calls, checks, |calls|);
    assert calls[..|calls|] == calls;
    forall i | 0 <= i < |checks| ensures IdReported(checks[i].id) {
      assert Fulfils(checks[i], OutcomeAt(p, calls, i));
    }
    GoodIfReported(checks, calls);
    FulfilledIsTrue(p, calls, checks);
    DiscreetPassesIffTrue(codec, p, calls, checks);
  }

  lemma PassedIsFulfilled<S, C>(codec: Codec, p: Process<S, C>, calls: seq<Call<C>>, checks: seq<Check>, i: nat)
    requires FaithfulRun(codec, p, calls) && Aligned(checks, calls) && GoodIds(calls) && NamesExceptions(p, calls)
    requires DiscreetProcess(p, calls, CheckedIds(checks)) && Fits(Stdout(codec, p, calls))
    requires Passed(checks, Parsed(codec, Stdout(codec, p, calls))) && i < |calls|
    ensures Fulfils(checks[i], OutcomeAt(p, calls, i))
  {
    var c := checks[i];
    assert c in checks && AlignedAt(c, calls[i]);
    HeldIsReportable(codec, Stdout(codec, p, calls), c);
    if c.Raises? { ReportedIdentifier(c.exception); }
    DiscreetPassIsTrue(codec, p, calls, checks, c);
    TruthAt(p, calls, i);
  }

  /** When every call has its check, a discreet process that is read whole passes exactly when every
      call ends as asked, under an id and a name that can be reported. */
  lemma AlignedVerdict<S, C>(codec: Codec, p: Process<S, C>, calls: seq<Call<C>>, checks: seq<Check>)
    requires FaithfulRun(codec, p, calls) && Aligned(checks, calls) && NoDup(Ids(calls)) && NamesExceptions(p, calls)
    requires DiscreetProcess(p, calls, CheckedIds(checks)) && Fits(Stdout(codec, p, calls))
    ensures Passed(checks, Parsed(codec, Stdout(codec, p, calls))) <==> AllFulfilled(p, calls, checks)
  {
    var stdout := Stdout(codec, p, calls);
    if Passed(checks, Parsed(codec, stdout)) {
      forall i | 0 <= i < |checks| ensures IdReported(checks[i].id) {
        HeldIsReportable(codec, stdout, checks[i]);
      }
      GoodIfReported(checks, calls);
      forall i | 0 <= i < |calls| ensures Fulfils(checks[i], OutcomeAt(p, calls, i)) {
        PassedIsFulfilled(codec, p, calls, checks, i);
      }
    }
    if AllFulfilled(p, calls, checks) { FulfilledPasses(codec, p, calls, checks); }
  }

  // ---------------------------------------------------------------- any process

  /** Every line read for this id reports what really happened. */
  ghost predicate Truthful(codec: Codec, stdout: string, truth: map<string, Outcome>, id: string) {
    forall line :: line in Lines(Tail(stdout, OUTPUT_LIMIT)) ==>
      match Classify(Strip(line))
      case Result(other, payload) => other == id ==> id in truth && truth[id] == Returned(codec.loads(payload))
      case Raise(other, name) => other == id ==> id in truth && truth[id] == Raised(name)
      case _ => true
  }

  /** However much is printed, and whatever else: a passed check whose id is only reported truthfully
      really happened. */
  lemma TruthfulPassIsTrue(codec: Codec, stdout: string, truth: map<string, Outcome>, c: Check)
    requires Holds(c, Parsed(codec, stdout)) && Truthful(codec, stdout, truth, c.id)
    ensures HeldBy(c, truth)
  {
    var lines := Lines(Tail(stdout, OUTPUT_LIMIT));
    ReadFromLine(codec, lines, c.id);
    if c.ReturnsEquals? {
      var line :| line in lines && ResultLine(codec, line, c.id, c.expected);
    } else {
      var line :| line in lines && RaiseLine(line, c.id, c.exception);
    }
  }

  // ---------------------------------------------------------------- a forging process

  ghost predicate SilentRun<S, C>(p: Process<S, C>, calls: seq<Call<C>>) {
    if calls == [] then p.banner == ""
    else SilentRun(p, calls[..|calls| - 1]) && LastReaction(p, calls).printed == ""
  }

  /** `f` raises and returns when `h` does, but returns what it likes. */
  ghost predicate Mimics<S, T, C>(f: Process<S, C>, h: Process<T, C>, calls: seq<Call<C>>) {
    calls == []
    || (Mimics(f, h, calls[..|calls| - 1])
        && var a, b := LastReaction(f, calls).outcome, LastReaction(h, calls).outcome;
           a == b || (a.Some? && a.value.Returned? && b.Some? && b.value.Returned?))
  }

  /** A report on which a truth was printed: it holds what happened, whatever it held before. */
  ghost predicate Overridden(r: Report, truth: map<string, Outcome>) {
    && !r.importError
    && (forall id :: id in truth && truth[id].Returned? ==> id in r.results && r.results[id] == truth[id].value)
    && (forall id :: id in truth && truth[id].Raised? ==> id in r.raised && r.raised[id] == truth[id].exception)
  }

  /** `after` holds what `before` does and at most one more id, of this outcome. */
  ghost predicate AddsOnly(before: Report, after: Report, id: string, outcome: Option<Outcome>) {
    && (forall x :: x in after.results ==> x in before.results || (outcome.Some? && outcome.value.Returned? && x == id))
    && (forall x :: x in after.raised ==> x in before.raised || (outcome.Some? && outcome.value.Raised? && x == id))
  }

  lemma OverriddenMore(codec: Codec, r: Report, truth: map<string, Outcome>, id: string, outcome: Option<Outcome>)
    requires Conveys(codec, outcome) && Overridden(r, truth) && id !in truth && id != "" && IdChars(id) && Clean(outcome)
    ensures var after := AbsorbText(codec, r, Printed(codec, id, outcome));
            Overridden(after, Learnt(truth, id, outcome)) && AddsOnly(r, after, id, outcome)
  {
    if outcome.None? {
      AbsorbNothing(codec, r);
    } else if outcome.value.Returned? {
      HeardResult(codec, r, id, outcome.value.value);
    } else {
      HeardRaise(codec, r, id, outcome.value.exception);
    }
  }

  /** Replaying a silent, clean run over any report overrides it, and adds ids of that run only. */
  lemma {:induction false} ReplayOverrides<S, C>(codec: Codec, r: Report, h: Process<S, C>, calls: seq<Call<C>>)
    requires FaithfulRun(codec, h, calls) && GoodIds(calls) && CleanRun(h, calls) && SilentRun(h, calls) && !r.importError
    ensures WholeLines(Output(codec, h, calls))
    ensures var after, truth := AbsorbText(codec, r, Output(codec, h, calls)), Truth(h, calls);
            && Overridden(after, truth)
            && (forall x :: x in after.results ==> x in r.results || (x in truth && truth[x].Returned?))
            && (forall x :: x in after.raised ==> x in r.raised || (x in truth && truth[x].Raised?))
  {
    if calls == [] {
      AbsorbNothing(codec, r);
    } else {
      var init, id, outcome := calls[..|calls| - 1], calls[|calls| - 1].id, LastReaction(h, calls).outcome;
      var report := Printed(codec, id, outcome);
      GoodIdsPrefix(calls);
      ReplayOverrides(codec, r, h, init);
      TruthKeys(h, init);
      PrintedWholeLines(codec, id, outcome);
      assert "" + report == report;
      WholeLinesConcat(Output(codec, h, init), report);
      AbsorbTextConcat(codec, r, Output(codec, h, init), report);
      OverriddenMore(codec, AbsorbText(codec, r, Output(codec, h, init)), Truth(h, init), id, outcome);
    }
  }

  lemma {:induction false} MimicKinds<S, T, C>(f: Process<S, C>, h: Process<T, C>, calls: seq<Call<C>>)
    requires Mimics(f, h, calls) && CleanRun(h, calls)
    ensures CleanRun(f, calls)
    ensures forall id :: id in Truth(f, calls) <==> id in Truth(h, calls)
    ensures forall id :: id in Truth(f, calls) ==> (Truth(f, calls)[id].Returned? <==> Truth(h, calls)[id].Returned?)
  {
    if calls != [] { MimicKinds(f, h, calls[..|calls| - 1]); }
  }

  lemma OverriddenPasses(r: Report, truth: map<string, Outcome>, checks: seq<Check>)
    requires Overridden(r, truth) && AllTrue(checks, truth)
    requires forall id :: id in r.results && id in truth ==> truth[id].Returned?
    requires forall id :: id in r.raised && id in truth ==> truth[id].Raised?
    ensures Passed(checks, r)
  {
    forall c | c in checks ensures Holds(c, r) {
      assert HeldBy(c, truth);
    }
  }

  /** Whatever a process returns, if it raises where `h` does and replays the report of `h` as it
      exits, it passes every check that `h` passes. */
  lemma ReplayPasses<S, T, C>(codec: Codec, f: Process<S, C>, h: Process<T, C>, calls: seq<Call<C>>, checks: seq<Check>)
    requires FaithfulRun(codec, f, calls) && FaithfulRun(codec, h, calls) && GoodIds(calls) && Mimics(f, h, calls)
    requires CleanRun(h, calls) && SilentRun(h, calls) && AllTrue(checks, Truth(h, calls))
    requires SilentRun(f, calls) && f.farewell(After(f, calls)) == Output(codec, h, calls)
    requires Fits(Stdout(codec, f, calls))
    ensures Passed(checks, Parsed(codec, Stdout(codec, f, calls)))
  {
    MimicKinds(f, h, calls);
    ReplayOverrides(codec, NOTHING, f, calls);
    var own := AbsorbText(codec, NOTHING, Output(codec, f, calls));
    ReplayOverrides(codec, own, h, calls);
    AbsorbTextConcat(codec, NOTHING, Output(codec, f, calls), Output(codec, h, calls));
    OverriddenPasses(Parsed(codec, Stdout(codec, f, calls)), Truth(h, calls), checks);
  }

  // ---------------------------------------------------------------- an obedient process

  /** What a check asks of its call. */
  function Asked(c: Check): Outcome {
    match c
    case ReturnsEquals(id, expected) => Returned(expected)
    case Raises(id, exception) => Raised(exception)
  }

  /** What the checks ask of the call with this id. */
  function Wanted(checks: seq<Check>, id: string): Outcome {
    if checks == [] then Returned(NULL)
    else if checks[|checks| - 1].id == id then Asked(checks[|checks| - 1])
    else Wanted(checks[..|checks| - 1], id)
  }

  /** The process that silently does what the checks ask of it, call by call. */
  function Obedient<C>(checks: seq<Check>, calls: seq<Call<C>>): Process<int, C> {
    Process(0, "",
      (k: int, what: C) => Reaction(k + 1, if 0 <= k < |calls| then Some(Wanted(checks, calls[k].id)) else None, ""),
      (k: int) => "")
  }

  /** No two checks ask different things of one call. */
  ghost predicate Unambiguous(checks: seq<Check>) {
    forall c, d :: c in checks && d in checks && c.id == d.id ==> c == d
  }

  /** Whatever can be asked for can be reported. */
  ghost predicate Askable(checks: seq<Check>) {
    forall c :: c in checks && c.Raises? ==> PlainException(c.exception)
  }

  /** The encoding brings through every value that is asked for, and null. */
  ghost predicate Expresses(codec: Codec, checks: seq<Check>) {
    FaithfulTo(codec, NULL) && forall c :: c in checks && c.ReturnsEquals? ==> FaithfulTo(codec, c.expected)
  }

  lemma {:induction false} WantedIsConveyed(codec: Codec, checks: seq<Check>, id: string)
    requires Expresses(codec, checks)
    ensures Conveys(codec, Some(Wanted(checks, id)))
  {
    if checks != [] {
      assert checks[|checks| - 1] in checks && forall c :: c in checks[..|checks| - 1] ==> c in checks;
      WantedIsConveyed(codec, checks[..|checks| - 1], id);
    }
  }

  lemma {:induction false} WantedIsAsked(checks: seq<Check>, all: seq<Check>, id: string)
    requires Unambiguous(all) && Askable(all) && checks <= all
    ensures Clean(Some(Wanted(checks, id)))
    ensures forall c :: c in checks && c.id == id ==> Wanted(checks, id) == Asked(c)
  {
    if checks != [] {
      var last := checks[|checks| - 1];
      assert last in checks && forall c :: c in checks ==> c in all;
      WantedIsAsked(checks[..|checks| - 1], all, id);
    }
  }

  lemma {:induction false} ObedientRuns<C>(checks: seq<Check>, calls: seq<Call<C>>, k: nat)
    requires Unambiguous(checks) && Askable(checks) && k <= |calls|
    ensures var h := Obedient(checks, calls);
            && After(h, calls[..k]) == k && SilentRun(h, calls[..k]) && CleanRun(h, calls[..k])
            && (k > 0 ==> OutcomeAt(h, calls, k - 1) == Some(Wanted(checks, calls[k - 1].id)))
  {
    if k > 0 {
      assert calls[..k][..k - 1] == calls[..k - 1];
      ObedientRuns(checks, calls, k - 1);
      WantedIsAsked(checks, checks, calls[k - 1].id);
    }
  }

  lemma {:induction false} ObedientFaithful<C>(codec: Codec, checks: seq<Check>, calls: seq<Call<C>>, k: nat)
    requires Expresses(codec, checks) && Unambiguous(checks) && Askable(checks) && k <= |calls|
    ensures FaithfulRun(codec, Obedient(checks, calls), calls[..k])
  {
    if k > 0 {
      assert calls[..k][..k - 1] == calls[..k - 1];
      ObedientFaithful(codec, checks, calls, k - 1);
      ObedientRuns(checks, calls, k);
      WantedIsConveyed(codec, checks, calls[k - 1].id);
    }
  }

  /** Every check of a call that is made. */
  ghost predicate Covered<C>(checks: seq<Check>, calls: seq<Call<C>>) {
    forall c :: c in checks ==> c.id in Ids(calls)
  }

  lemma {:induction false} IdIndex<C>(calls: seq<Call<C>>, id: string) returns (i: nat)
    requires id in Ids(calls)
    ensures i < |calls| && calls[i].id == id
  {
    i := |calls| - 1;
    if calls[i].id != id { i := IdIndex(calls[..i], id); }
  }

  lemma CoveredConcat<C>(a: seq<Check>, b: seq<Check>, x: seq<Call<C>>, y: seq<Call<C>>)
    requires Covered(a, x) && Covered(b, y)
    ensures Covered(a + b, x + y)
  {
    IdsConcat(x, y);
  }

  lemma ObedientAllTrue<C>(checks: seq<Check>, calls: seq<Call<C>>)
    requires Unambiguous(checks) && Askable(checks) && NoDup(Ids(calls)) && Covered(checks, calls)
    ensures AllTrue(checks, Truth(Obedient(checks, calls), calls))
  {
    var h := Obedient(checks, calls);
    forall c | c in checks ensures HeldBy(c, Truth(h, calls)) {
      var i := IdIndex(calls, c.id);
      ObedientRuns(checks, calls, i + 1);
      TruthAt(h, calls, i);
      WantedIsAsked(checks, checks, c.id);
    }
  }

  /** Null and every value that is asked for. */
  function AskedValues(checks: seq<Check>): seq<Value> {
    if checks == [] then [NULL]
    else AskedValues(checks[..|checks| - 1]) + ValueOf(Some(Asked(checks[|checks| - 1])))
  }

  lemma {:induction false} AskedIsListed(checks: seq<Check>)
    ensures NULL in AskedValues(checks)
    ensures forall c :: c in checks && c.ReturnsEquals? ==> c.expected in AskedValues(checks)
  {
    if checks != [] { AskedIsListed(checks[..|checks| - 1]); }
  }

  /** Whatever is asked for, some encoding brings it through. */
  lemma SomeCodecExpresses(checks: seq<Check>)
    ensures Expresses(TableCodec(AskedValues(checks)), checks)
  {
    var values := AskedValues(checks);
    AskedIsListed(checks);
    TableCodecFaithful(values, NULL);
    forall c | c in checks && c.ReturnsEquals? ensures FaithfulTo(TableCodec(values), c.expected) {
      TableCodecFaithful(values, c.expected);
    }
  }

  lemma {:induction false} SilentIsDiscreet<S, C>(p: Process<S, C>, calls: seq<Call<C>>, ids: set<string>)
    requires SilentRun(p, calls)
    ensures DiscreetRun(p, calls, ids)
  {
    if calls != [] { SilentIsDiscreet(p, calls[..|calls| - 1], ids); }
  }

  lemma {:induction false} CleanNamesExceptions<S, C>(p: Process<S, C>, calls: seq<Call<C>>)
    requires CleanRun(p, calls)
    ensures NamesExceptions(p, calls)
  {
    if calls != [] { CleanNamesExceptions(p, calls[..|calls| - 1]); }
  }

  /** Whatever is asked for, an obedient process meets every condition under which a verdict is
      believed, and passes. */
  lemma ObedientPasses<C>(codec: Codec, checks: seq<Check>, calls: seq<Call<C>>)
    requires Expresses(codec, checks) && GoodIds(calls)
    requires Unambiguous(checks) && Askable(checks) && Covered(checks, calls)
    requires Fits(Stdout(codec, Obedient(checks, calls), calls))
    ensures var h := Obedient(checks, calls);
            && FaithfulRun(codec, h, calls) && CleanRun(h, calls) && NamesExceptions(h, calls)
            && DiscreetProcess(h, calls, CheckedIds(checks))
            && Passed(checks, Parsed(codec, Stdout(codec, h, calls)))
  {
    var h := Obedient(checks, calls);
    assert calls[..|calls|] == calls;
    ObedientRuns(checks, calls, |calls|);
    ObedientFaithful(codec, checks, calls, |calls|);
    ObedientAllTrue(checks, calls);
    SilentIsDiscreet(h, calls, CheckedIds(checks));
    CleanNamesExceptions(h, calls);
    DiscreetPassesIffTrue(codec, h, calls, checks);
  }

  /** The forger of a run: it returns null wherever `h` returns anything, raises where `h` raises,
      and prints the report of `h` as it exits. */
  function Forger<S, C>(codec: Codec, h: Process<S, C>, calls: seq<Call<C>>): Process<int, C> {
    Process(0, "",
      (k: int, what: C) => Reaction(k + 1, if 0 <= k < |calls| then Voided(OutcomeAt(h, calls, k)) else None, ""),
      (k: int) => Output(codec, h, calls))
  }

  function Voided(outcome: Option<Outcome>): Option<Outcome> {
    if outcome.Some? && outcome.value.Returned? then Some(Returned(NULL)) else outcome
  }

  lemma {:induction false} ForgerRuns<S, C>(codec: Codec, h: Process<S, C>, calls: seq<Call<C>>, k: nat)
    requires k <= |calls|
    ensures After(Forger(codec, h, calls), calls[..k]) == k
    ensures SilentRun(Forger(codec, h, calls), calls[..k]) && Mimics(Forger(codec, h, calls), h, calls[..k])
    ensures k > 0 ==> OutcomeAt(Forger(codec, h, calls), calls, k - 1) == Voided(OutcomeAt(h, calls, k - 1))
  {
    if k > 0 {
      assert calls[..k][..k - 1] == calls[..k - 1];
      ForgerRuns(codec, h, calls, k - 1);
    }
  }

  lemma {:induction false} ForgerFaithful<S, C>(codec: Codec, h: Process<S, C>, calls: seq<Call<C>>, k: nat)
    requires FaithfulTo(codec, NULL) && k <= |calls|
    ensures FaithfulRun(codec, Forger(codec, h, calls), calls[..k])
  {
    if k > 0 {
      assert calls[..k][..k - 1] == calls[..k - 1];
      ForgerFaithful(codec, h, calls, k - 1);
      ForgerRuns(codec, h, calls, k);
    }
  }

  /** Every verdict can be forged: for any silent run that passes, there is a process that passes
      too, although every value it returns is null. */
  lemma ForgerPasses<S, C>(codec: Codec, h: Process<S, C>, calls: seq<Call<C>>, checks: seq<Check>)
    requires FaithfulTo(codec, NULL) && FaithfulRun(codec, h, calls) && GoodIds(calls)
    requires CleanRun(h, calls) && SilentRun(h, calls) && AllTrue(checks, Truth(h, calls))
    requires Fits(Stdout(codec, Forger(codec, h, calls), calls))
    ensures Passed(checks, Parsed(codec, Stdout(codec, Forger(codec, h, calls), calls)))
  {
    assert calls[..|calls|] == calls;
    ForgerRuns(codec, h, calls, |calls|);
    ForgerFaithful(codec, h, calls, |calls|);
    ReplayPasses(codec, Forger(codec, h, calls), h, calls, checks);
  }

  /** The forger of an obedient process: it raises what the checks ask for, returns null everywhere
      else, and prints what the checks want to see as it exits. */
  function Forgery<C>(codec: Codec, checks: seq<Check>, calls: seq<Call<C>>): Process<int, C> {
    Forger(codec, Obedient(checks, calls), calls)
  }

  lemma {:induction false} ForgeryOutcome<C>(codec: Codec, checks: seq<Check>, calls: seq<Call<C>>, i: nat)
    requires Unambiguous(checks) && Askable(checks) && i < |calls|
    ensures OutcomeAt(Forgery(codec, checks, calls), calls, i) == Voided(Some(Wanted(checks, calls[i].id)))
  {
    ObedientRuns(checks, calls, i + 1);
    ForgerRuns(codec, Obedient(checks, calls), calls, i + 1);
  }

  /** Where a value is asked for, the forger returned null. */
  lemma ForgedValueIsNull<C>(codec: Codec, checks: seq<Check>, calls: seq<Call<C>>, c: Check)
    requires Unambiguous(checks) && Askable(checks) && NoDup(Ids(calls)) && Covered(checks, calls)
    requires c in checks && c.ReturnsEquals?
    ensures HeldBy(ReturnsEquals(c.id, NULL), Truth(Forgery(codec, checks, calls), calls))
  {
    var i := IdIndex(calls, c.id);
    WantedIsAsked(checks, checks, c.id);
    ForgeryOutcome(codec, checks, calls, i);
    TruthAt(Forgery(codec, checks, calls), calls, i);
  }

  /** Whatever is asked for, there is a process that returns no value at all, and passes. */
  lemma ForgeryPasses<C>(codec: Codec, checks: seq<Check>, calls: seq<Call<C>>)
    requires Expresses(codec, checks) && GoodIds(calls)
    requires Unambiguous(checks) && Askable(checks) && Covered(checks, calls)
    requires Fits(Stdout(codec, Forgery(codec, checks, calls), calls))
    ensures Passed(checks, Parsed(codec, Stdout(codec, Forgery(codec, checks, calls), calls)))
  {
    assert calls[..|calls|] == calls;
    ObedientRuns(checks, calls, |calls|);
    ObedientFaithful(codec, checks, calls, |calls|);
    ObedientAllTrue(checks, calls);
    ForgerPasses(codec, Obedient(checks, calls), calls, checks);
  }
}
