/**
 * The repair loops: the bounded edit-check-test loop, and the two deterministic candidate searches
 * it falls back on. Together they are a transaction on one file: success is decided by the test's
 * exit code on the file exactly as it is left, and failure leaves a file that is accounted for.
 */
module Repair {
  import opened Options
  import opened PyText

  datatype TestRun = TestRun(exit: Option<int>, output: string)

  /** What a round's edit did to the target. */
  datatype EditResult = Written(text: string) | NoEdit | Rejected(why: string)

  /** Everything around the loop: the editing agent (given the round, the content it is shown and
      the last output), the syntax checker, the test command, the model's own verdict on its
      output (nothing when the gate refuses that decision), the failure count, the candidates the two
      searches try, and which of them the gate lets be written. */
  datatype World = World(
    propose: (nat, string, string) -> EditResult,
    check: string -> Option<string>,
    test: Option<string> -> TestRun,
    verdict: string -> Option<bool>,
    failures: string -> nat,
    unwraps: string -> seq<string>,
    mutations: string -> seq<string>,
    admits: string -> bool)

  datatype Task = Task(target: string, implement: bool, maxIters: nat, keepPartial: bool)

  datatype LoopResult = LoopResult(success: bool, attempts: nat, output: string)

  const STRATEGIES := 6

  predicate Passes(w: World, content: Option<string>) {
    w.test(content).exit == Some(0)
  }

  predicate IsStub(text: string) { Contains(text, "NotImplementedError") }

  predicate IsPython(target: string) {
    3 <= |target| && target[|target| - 3..] == ".py"
  }

  class TargetFile {
    var content: Option<string>

    constructor (content: Option<string>)
      ensures this.content == content
    {
      this.content := content;
    }
  }

  // ---------------------------------------------------------------- a candidate search

  /** The search stops at a candidate that passes, or that the gate does not let be written. */
  predicate Stops(w: World, candidate: string) {
    !w.admits(candidate) || Passes(w, Some(candidate))
  }

  /** The index of the candidate at which a search from `i` on stops, or how many there are. */
  function StopsAt(w: World, candidates: seq<string>, i: nat): (k: nat)
    requires i <= |candidates|
    ensures i <= k <= |candidates|
    ensures k < |candidates| ==> Stops(w, candidates[k])
    ensures forall j :: i <= j < k ==> !Stops(w, candidates[j])
    decreases |candidates| - i
  {
    if i == |candidates| || Stops(w, candidates[i]) then i else StopsAt(w, candidates, i + 1)
  }

  /** Both deterministic loops: write each candidate, run the test, keep the first that passes;
      when none does, put the original back. A refused write raises, and leaves the file as it is. */
  method CandidateLoop(w: World, file: TargetFile, candidates: seq<string>) returns (r: Option<LoopResult>)
    requires file.content.Some?
    modifies file
    ensures var k := StopsAt(w, candidates, 0);
            && (r.None? <==> k < |candidates| && !w.admits(candidates[k]))
            && (r.None? ==> file.content == if k == 0 then old(file.content) else Some(candidates[k - 1]))
            && (r.Some? ==> (r.value.success <==> k < |candidates|))
            && (r.Some? ==> r.value.attempts == if r.value.success then k + 1 else |candidates|)
    ensures r.Some? && r.value.success ==>
              && 1 <= r.value.attempts <= |candidates| && file.content == Some(candidates[r.value.attempts - 1])
              && Passes(w, file.content)
              && forall j :: 0 <= j < r.value.attempts - 1 ==> !Passes(w, Some(candidates[j]))
    ensures r.Some? && !r.value.success ==>
              file.content == old(file.content) && forall c :: c in candidates ==> !Passes(w, Some(c))
  {
    var original := file.content;
    for i := 0 to |candidates|
      invariant forall j :: 0 <= j < i ==> !Stops(w, candidates[j])
      invariant file.content == if i == 0 then original else Some(candidates[i - 1])
    {
      if !w.admits(candidates[i]) { return None; }
      file.content := Some(candidates[i]);
      if w.test(file.content).exit == Some(0) {
        return Some(LoopResult(true, i + 1, "candidate passed"));
      }
    }
    file.content := original;
    return Some(LoopResult(false, |candidates|, "no candidate passed"));
  }

  // ---------------------------------------------------------------- the rounds

  datatype Best = Best(fails: nat, text: string)

  /** The state of the loop; `raised` when it was left by an exception. */
  datatype Rounds = Rounds(content: Option<string>, output: string, best: Option<Best>, solved: Option<nat>, raised: bool)

  predicate Over(s: Rounds) { s.solved.Some? || s.raised }

  function Shown(task: Task, original: string, content: Option<string>): string {
    if task.implement then original else if content.Some? then content.value else ""
  }

  /** The content a round leaves, or why it was rejected. */
  function Edited(w: World, task: Task, original: string, r: nat, s: Rounds): EditResult {
    w.propose(r, Shown(task, original, s.content), s.output)
  }

  function ContentAfter(edit: EditResult, content: Option<string>): Option<string> {
    if edit.Written? then Some(edit.text) else content
  }

  /** Whether a round's content reaches the test: the edit was accepted and is not ill-formed. */
  predicate Tested(w: World, edit: EditResult, content: Option<string>) {
    !edit.Rejected? && (content.Some? ==> w.check(content.value).None?)
  }

  /** One round of the loop. The model's verdict is recorded after the test, and a refused record
      raises; otherwise it has no part in the round. */
  function Round(w: World, task: Task, original: string, r: nat, s: Rounds): Rounds {
    if Over(s) then s
    else
      var edit := Edited(w, task, original, r, s);
      var content := ContentAfter(edit, s.content);
      if edit.Rejected? then s.(output := edit.why)
      else if !Tested(w, edit, content) then s.(content := content, output := w.check(content.value).value)
      else
        var run := w.test(content);
        if w.verdict(run.output).None? then Rounds(content, run.output, s.best, None, true)
        else if run.exit == Some(0) then Rounds(content, run.output, s.best, Some(r), false)
        else
          Rounds(content, run.output, Remembered(w, task, s.best, content, run.output), None, false)
  }

  /** The best attempt after a failed test. */
  function Remembered(w: World, task: Task, best: Option<Best>, content: Option<string>, output: string): Option<Best> {
    var fails := w.failures(output);
    if task.keepPartial && content.Some? && (best.None? || fails < best.value.fails)
    then Some(Best(fails, content.value)) else best
  }

  function AfterRounds(w: World, task: Task, original: string, start: Option<string>, n: nat): Rounds {
    if n == 0 then Rounds(start, "", None, None, false)
    else Round(w, task, original, n, AfterRounds(w, task, original, start, n - 1))
  }

  function Budget(task: Task): nat {
    if task.implement && task.maxIters < STRATEGIES then STRATEGIES else task.maxIters
  }

  predicate FallsBack(task: Task, original: string) {
    !task.keepPartial && IsPython(task.target) && original != "" && !IsStub(original)
  }

  /** One round on the file. */
  method RunRound(w: World, task: Task, original: string, r: nat, file: TargetFile, before: Rounds) returns (s: Rounds)
    requires before.content == file.content && !Over(before)
    modifies file
    ensures s == Round(w, task, original, r, before) && file.content == s.content
  {
    var edit := w.propose(r, Shown(task, original, file.content), before.output);
    if edit.Rejected? {
      return Rounds(file.content, edit.why, before.best, None, false);
    }
    if edit.Written? {
      file.content := Some(edit.text);
    }
    if file.content.Some? && w.check(file.content.value).Some? {
      return Rounds(file.content, w.check(file.content.value).value, before.best, None, false);
    }
    var run := w.test(file.content);
    if w.verdict(run.output).None? {
      return Rounds(file.content, run.output, before.best, None, true);
    }
    if run.exit == Some(0) {
      return Rounds(file.content, run.output, before.best, Some(r), false);
    }
    var better := Remember(w, task, before.best, file.content, run.output);
    return Rounds(file.content, run.output, better, None, false);
  }

  /** The bounded loop. It returns at the first passing test, whatever the model's verdict. */
  method RunRounds(w: World, task: Task, original: string, file: TargetFile) returns (s: Rounds)
    modifies file
    ensures s == AfterRounds(w, task, original, old(file.content), Budget(task))
    ensures file.content == s.content
  {
    var budget := if task.implement && task.maxIters < STRATEGIES then STRATEGIES else task.maxIters;
    ghost var start := file.content;
    s := Rounds(file.content, "", None, None, false);
    for i := 0 to budget
      invariant s == AfterRounds(w, task, original, start, i) && file.content == s.content && !Over(s)
    {
      s := RunRound(w, task, original, i + 1, file, s);
      assert s == AfterRounds(w, task, original, start, i + 1);
      if Over(s) {
        OverStays(w, task, original, start, i + 1, budget);
        return;
      }
    }
  }

  method Remember(w: World, task: Task, best: Option<Best>, content: Option<string>, output: string) returns (r: Option<Best>)
    ensures r == Remembered(w, task, best, content, output)
  {
    r := best;
    if task.keepPartial && content.Some? {
      var fails := w.failures(output);
      if best.None? || fails < best.value.fails {
        r := Some(Best(fails, content.value));
      }
    }
  }

  /** How a run of the whole loop ends: with a result, or raised. */
  datatype Ending = Ending(success: bool, content: Option<string>) | Raised(content: Option<string>)

  /** A search over candidates, and what is tried when none passes. */
  function Searched(w: World, candidates: seq<string>, start: Option<string>, otherwise: Ending): Ending {
    var k := StopsAt(w, candidates, 0);
    if k == |candidates| then otherwise
    else if w.admits(candidates[k]) then Ending(true, Some(candidates[k]))
    else Raised(if k == 0 then start else Some(candidates[k - 1]))
  }

  function Original(start: Option<string>): string { if start.Some? then start.value else "" }

  function FinalState(w: World, task: Task, start: Option<string>): Ending {
    var original := Original(start);
    var s := AfterRounds(w, task, original, start, Budget(task));
    if s.raised then Raised(s.content)
    else if s.solved.Some? then Ending(true, s.content)
    else if FallsBack(task, original) then
      Searched(w, w.unwraps(original), start, Searched(w, w.mutations(original), start, Ending(false, start)))
    else if task.keepPartial && s.best.Some? then Ending(false, Some(s.best.value.text))
    else Ending(false, s.content)
  }

  function EndingOf(r: Option<LoopResult>, content: Option<string>): Ending {
    if r.None? then Raised(content) else Ending(r.value.success, content)
  }

  /** The bounded loop, then the fallback searches, then the partial result. Success is decided by the
      test on the file as it is left, and a failed repair of a non-stub Python file leaves it untouched. */
  method FixLoop(w: World, task: Task, file: TargetFile) returns (r: Option<LoopResult>)
    modifies file
    ensures EndingOf(r, file.content) == FinalState(w, task, old(file.content))
    ensures r.Some? && r.value.success ==> Passes(w, file.content)
    ensures var s := AfterRounds(w, task, Original(old(file.content)), old(file.content), Budget(task));
            && (r.Some? && s.solved.Some? ==> r.value == LoopResult(true, s.solved.value, s.output))
            && (r.Some? && !r.value.success ==> r.value == LoopResult(false, Budget(task), s.output))
    ensures r.Some? && !r.value.success && !task.keepPartial && |task.target| >= 3 && task.target[|task.target| - 3..] == ".py" && old(file.content).Some?
            && old(file.content).value != "" && !Contains(old(file.content).value, "NotImplementedError") ==>
              && file.content == old(file.content)
              && (forall c :: c in w.unwraps(old(file.content).value) ==> !Passes(w, Some(c)))
              && (forall c :: c in w.mutations(old(file.content).value) ==> !Passes(w, Some(c)))
  {
    var original := if file.content.Some? then file.content.value else "";
    ghost var start := file.content;
    var s := RunRounds(w, task, original, file);
    SolvedByTheTest(w, task, original, start, Budget(task));
    if start.Some? && FallsBack(task, original) { FallbackFails(w, task, start.value); }
    if s.raised {
      return None;
    }
    if s.solved.Some? {
      return Some(LoopResult(true, s.solved.value, s.output));
    }
    if FallsBack(task, original) {
      file.content := Some(original);
      r := CandidateLoop(w, file, w.unwraps(original));
      if r.None? || r.value.success {
        return;
      }
      file.content := Some(original);
      r := CandidateLoop(w, file, w.mutations(original));
      if r.None? || r.value.success {
        return;
      }
    }
    if task.keepPartial && s.best.Some? {
      file.content := Some(s.best.value.text);
    }
    r := Some(LoopResult(false, Budget(task), s.output));
  }

  lemma FallbackFails(w: World, task: Task, text: string)
    requires FallsBack(task, text)
    ensures FinalState(w, task, Some(text)).Ending? && !FinalState(w, task, Some(text)).success ==>
              FinalState(w, task, Some(text)).content == Some(text)
              && forall c :: c in w.unwraps(text) || c in w.mutations(text) ==> !Passes(w, Some(c))
  {
    if FinalState(w, task, Some(text)).Ending? && !FinalState(w, task, Some(text)).success {
      FailureRestoresOriginal(w, task, text);
    }
  }

  // ---------------------------------------------------------------- what a round is

  /** The editing agent is shown the original while implementing, else the content as it is, and the
      last output. */
  lemma EditedIs(w: World, task: Task, original: string, r: nat, s: Rounds)
    ensures Edited(w, task, original, r, s) ==
            w.propose(r, if task.implement then original else if s.content.Some? then s.content.value else "", s.output)
  {
  }

  /** A round whose edit is rejected, or leaves an ill-formed text, tests nothing: it keeps what was
      remembered, and what was wrong is the next output. */
  lemma UntestedRound(w: World, task: Task, original: string, r: nat, s: Rounds, edit: EditResult, content: Option<string>)
    requires s.solved.None? && !s.raised && edit == Edited(w, task, original, r, s)
    requires content == if edit.Written? then Some(edit.text) else s.content
    ensures edit.Rejected? ==> Round(w, task, original, r, s) == Rounds(s.content, edit.why, s.best, None, false)
    ensures !edit.Rejected? && content.Some? && w.check(content.value).Some? ==>
              Round(w, task, original, r, s) == Rounds(content, w.check(content.value).value, s.best, None, false)
  {
  }

  /** Any other round is a test of the content: it raises if the verdict may not be recorded, and else is
      solved by exit 0; after a failure, with `keepPartial`, the content is remembered if it has fewer
      failures than any remembered before. */
  lemma TestedRound(w: World, task: Task, original: string, r: nat, s: Rounds, edit: EditResult, content: Option<string>)
    requires s.solved.None? && !s.raised && edit == Edited(w, task, original, r, s) && !edit.Rejected?
    requires content == if edit.Written? then Some(edit.text) else s.content
    requires content.Some? ==> w.check(content.value).None?
    ensures var run, now := w.test(content), Round(w, task, original, r, s);
            && now.content == content && now.output == run.output
            && now.raised == w.verdict(run.output).None?
            && now.solved == (if w.verdict(run.output).Some? && run.exit == Some(0) then Some(r) else None)
            && now.best == if w.verdict(run.output).Some? && run.exit != Some(0) && task.keepPartial && content.Some?
                              && (s.best.None? || w.failures(run.output) < s.best.value.fails)
                           then Some(Best(w.failures(run.output), content.value)) else s.best
  {
  }

  /** The rounds: from the file as it is, at most `maxIters`, or six while implementing if that is more;
      none after the end. */
  lemma RoundsAre(w: World, task: Task, original: string, start: Option<string>, n: nat)
    ensures AfterRounds(w, task, original, start, 0) == Rounds(start, "", None, None, false)
    ensures var s := AfterRounds(w, task, original, start, n);
            AfterRounds(w, task, original, start, n + 1) ==
            if s.solved.Some? || s.raised then s else Round(w, task, original, n + 1, s)
    ensures Budget(task) == if task.implement && task.maxIters < 6 then 6 else task.maxIters
  {
  }

  /** A solved loop, and one that raised, is left as it is; with `keepPartial` no search runs. */
  lemma EndedByRounds(w: World, task: Task, start: Option<string>)
    ensures var s := AfterRounds(w, task, if start.Some? then start.value else "", start, Budget(task));
            && (s.raised ==> FinalState(w, task, start) == Raised(s.content))
            && (!s.raised && s.solved.Some? ==> FinalState(w, task, start) == Ending(true, s.content))
            && (!s.raised && s.solved.None? && task.keepPartial ==>
                  FinalState(w, task, start) == Ending(false, if s.best.Some? then Some(s.best.value.text) else s.content))
  {
    SolvedByTheTest(w, task, Original(start), start, Budget(task));
  }

  /** Without `keepPartial`, a target that is no Python file, or that was absent, empty or a stub, keeps
      what the rounds left, and no search runs. */
  lemma NoSearchElsewhere(w: World, task: Task, start: Option<string>)
    requires !task.keepPartial
    requires var text := if start.Some? then start.value else "";
             || |task.target| < 3 || task.target[|task.target| - 3..] != ".py"
             || text == "" || Contains(text, "NotImplementedError")
    ensures var s := AfterRounds(w, task, if start.Some? then start.value else "", start, Budget(task));
            s.solved.None? && !s.raised ==> FinalState(w, task, start) == Ending(false, s.content)
  {
  }

  /** Everywhere else the searches run on the original, unwrappings first: the repair ends at the first
      candidate that passes or may not be written. */
  lemma SearchesDecide(w: World, task: Task, text: string, k: nat)
    requires !task.keepPartial && |task.target| >= 3 && task.target[|task.target| - 3..] == ".py"
    requires text != "" && !Contains(text, "NotImplementedError")
    requires !Over(AfterRounds(w, task, text, Some(text), Budget(task)))
    requires var all := w.unwraps(text) + w.mutations(text);
             && k < |all| && (!w.admits(all[k]) || w.test(Some(all[k])).exit == Some(0))
             && forall j :: 0 <= j < k ==> w.admits(all[j]) && w.test(Some(all[j])).exit != Some(0)
    ensures var all := w.unwraps(text) + w.mutations(text);
            FinalState(w, task, Some(text)) ==
            if w.admits(all[k]) then Ending(true, Some(all[k]))
            else Raised(if k == 0 || k == |w.unwraps(text)| then Some(text) else Some(all[k - 1]))
  {
    var first, second := w.unwraps(text), w.mutations(text);
    SearchesStop(w, first, second, first + second, k);
    SearchDecides(w, task, text, if k < |first| then k else |first|, if k < |first| then 0 else k - |first|);
    EndsAtCandidate(w, first, second, first + second, text, k, FinalState(w, task, Some(text)));
  }

  lemma EndsAtCandidate(w: World, first: seq<string>, second: seq<string>, all: seq<string>, text: string, k: nat, end: Ending)
    requires all == first + second && k < |all|
    requires var candidates, i := if k < |first| then first else second, if k < |first| then k else k - |first|;
             end == if w.admits(candidates[i]) then Ending(true, Some(candidates[i]))
                    else Raised(if i == 0 then Some(text) else Some(candidates[i - 1]))
    ensures end == if w.admits(all[k]) then Ending(true, Some(all[k]))
                   else Raised(if k == 0 || k == |first| then Some(text) else Some(all[k - 1]))
  {
    JoinedCandidates(first, second, all);
  }

  lemma SearchesStop(w: World, first: seq<string>, second: seq<string>, all: seq<string>, k: nat)
    requires all == first + second && k < |all| && FirstStop(w, all, k)
    ensures StopsAt(w, first, 0) == if k < |first| then k else |first|
    ensures k >= |first| ==> StopsAt(w, second, 0) == k - |first|
  {
    SplitFirstStop(w, first, second, all, k);
    StopsAtIs(w, first, if k < |first| then k else |first|);
    if k >= |first| { StopsAtIs(w, second, k - |first|); }
  }

  /** No candidate before `k` ends a search: each may be written and fails the test; and `k` does. */
  ghost predicate FirstStop(w: World, candidates: seq<string>, k: nat) {
    && k <= |candidates|
    && (k < |candidates| ==> !w.admits(candidates[k]) || w.test(Some(candidates[k])).exit == Some(0))
    && forall j :: 0 <= j < k ==> w.admits(candidates[j]) && w.test(Some(candidates[j])).exit != Some(0)
  }

  lemma SplitFirstStop(w: World, first: seq<string>, second: seq<string>, all: seq<string>, k: nat)
    requires all == first + second && k < |all| && FirstStop(w, all, k)
    ensures FirstStop(w, first, if k < |first| then k else |first|)
    ensures k >= |first| ==> FirstStop(w, second, k - |first|)
  {
    assert first == all[..|first|] && second == all[|first|..];
  }

  /** The same by where the two searches stop. */
  lemma SearchDecides(w: World, task: Task, text: string, i: nat, j: nat)
    requires FallsBack(task, text) && !Over(AfterRounds(w, task, text, Some(text), Budget(task)))
    requires i == StopsAt(w, w.unwraps(text), 0) && (i == |w.unwraps(text)| ==> j == StopsAt(w, w.mutations(text), 0) < |w.mutations(text)|)
    ensures var candidates, k := if i < |w.unwraps(text)| then w.unwraps(text) else w.mutations(text), if i < |w.unwraps(text)| then i else j;
            FinalState(w, task, Some(text)) ==
            if w.admits(candidates[k]) then Ending(true, Some(candidates[k]))
            else Raised(if k == 0 then Some(text) else Some(candidates[k - 1]))
  {
  }

  lemma JoinedCandidates(first: seq<string>, second: seq<string>, all: seq<string>)
    requires all == first + second
    ensures forall j :: 0 <= j < |first| ==> first[j] == all[j]
    ensures forall j :: 0 <= j < |second| ==> second[j] == all[|first| + j]
  {
  }

  lemma StopsAtIs(w: World, candidates: seq<string>, k: nat)
    requires FirstStop(w, candidates, k)
    ensures StopsAt(w, candidates, 0) == k
  {
    assert forall j :: 0 <= j < k ==> !Stops(w, candidates[j]);
  }

  lemma {:induction false} OverStays(
      w: World, task: Task, original: string, start: Option<string>, n: nat, m: nat)
    requires n <= m
    ensures Over(AfterRounds(w, task, original, start, n)) ==>
              AfterRounds(w, task, original, start, m) == AfterRounds(w, task, original, start, n)
  {
    if n < m { OverStays(w, task, original, start, n, m - 1); }
  }

  // ---------------------------------------------------------------- what the rounds guarantee

  /** The contents that were tested and failed in the first `n` rounds, in order. */
  function FailedAttempts(w: World, task: Task, original: string, start: Option<string>, n: nat): seq<Option<string>> {
    if n == 0 then []
    else
      var before := FailedAttempts(w, task, original, start, n - 1);
      var s := AfterRounds(w, task, original, start, n - 1);
      var edit := Edited(w, task, original, n, s);
      var content := ContentAfter(edit, s.content);
      if !Over(s) && Tested(w, edit, content) && !Passes(w, content) then before + [content] else before
  }

  /** A solved loop stopped at the first round whose content passed the test, and that content is
      what it left. */
  lemma {:induction false} SolvedByTheTest(
      w: World, task: Task, original: string, start: Option<string>, n: nat)
    ensures var s := AfterRounds(w, task, original, start, n);
            s.solved.Some? ==>
              && Passes(w, s.content) && 1 <= s.solved.value <= n
              && !Over(AfterRounds(w, task, original, start, s.solved.value - 1))
  {
    if n > 0 { SolvedByTheTest(w, task, original, start, n - 1); }
  }

  /** Every attempt that is counted as failed did fail the test. */
  lemma {:induction false} AttemptsFailed(
      w: World, task: Task, original: string, start: Option<string>, n: nat, i: nat)
    requires i < |FailedAttempts(w, task, original, start, n)|
    ensures !Passes(w, FailedAttempts(w, task, original, start, n)[i])
  {
    if i < |FailedAttempts(w, task, original, start, n - 1)| {
      AttemptsFailed(w, task, original, start, n - 1, i);
    }
  }

  /** The best attempt: present in `attempts`, with the fewest failures, and the earliest such. */
  ghost predicate EarliestLeast(w: World, attempts: seq<Option<string>>, best: Best, at: nat) {
    && at < |attempts| && attempts[at] == Some(best.text)
    && best.fails == w.failures(w.test(attempts[at]).output)
    && (forall i :: 0 <= i < |attempts| && attempts[i].Some? ==> best.fails <= w.failures(w.test(attempts[i]).output))
    && (forall i :: 0 <= i < at && attempts[i].Some? ==> best.fails < w.failures(w.test(attempts[i]).output))
  }

  /** With `keepPartial`, a failing loop remembers the earliest attempt with the fewest counted
      failures, and nothing only if no attempt on an existing file was ever tested. */
  lemma {:induction false} BestIsEarliestLeast(
      w: World, task: Task, original: string, start: Option<string>, n: nat)
    requires task.keepPartial && !Over(AfterRounds(w, task, original, start, n))
    ensures var best := AfterRounds(w, task, original, start, n).best;
            var attempts := FailedAttempts(w, task, original, start, n);
            if best.None? then forall i :: 0 <= i < |attempts| ==> attempts[i].None?
            else exists at :: 0 <= at < |attempts| && EarliestLeast(w, attempts, best.value, at)
  {
    if n > 0 {
      var s, now := AfterRounds(w, task, original, start, n - 1), AfterRounds(w, task, original, start, n);
      var attempts := FailedAttempts(w, task, original, start, n - 1);
      var all := FailedAttempts(w, task, original, start, n);
      BestIsEarliestLeast(w, task, original, start, n - 1);
      RoundAddsAttempt(w, task, original, start, n);
      if s.best.Some? {
        var at :| 0 <= at < |attempts| && EarliestLeast(w, attempts, s.best.value, at);
        BestStep(w, task, original, start, n, at);
      } else if now.best.Some? {
        assert EarliestLeast(w, all, now.best.value, |attempts|);
      }
    }
  }

  /** What one unsolved round adds to the failed attempts, and when it becomes the best. */
  lemma RoundAddsAttempt(w: World, task: Task, original: string, start: Option<string>, n: nat)
    requires n > 0 && task.keepPartial && !Over(AfterRounds(w, task, original, start, n))
    ensures var s, now := AfterRounds(w, task, original, start, n - 1), AfterRounds(w, task, original, start, n);
            var before := FailedAttempts(w, task, original, start, n - 1);
            var all := FailedAttempts(w, task, original, start, n);
            !Over(s) &&
            if |all| == |before| then all == before && now.best == s.best
            else
              var fails := w.failures(w.test(now.content).output);
              && all == before + [now.content]
              && now.best == if now.content.Some? && (s.best.None? || fails < s.best.value.fails)
                             then Some(Best(fails, now.content.value)) else s.best
  {
  }

  lemma BestStep(w: World, task: Task, original: string, start: Option<string>, n: nat, at: nat)
    requires n > 0 && task.keepPartial && !Over(AfterRounds(w, task, original, start, n))
    requires var s := AfterRounds(w, task, original, start, n - 1);
             s.best.Some? && EarliestLeast(w, FailedAttempts(w, task, original, start, n - 1), s.best.value, at)
    ensures var now := AfterRounds(w, task, original, start, n);
            var all := FailedAttempts(w, task, original, start, n);
            now.best.Some? && exists i :: 0 <= i < |all| && EarliestLeast(w, all, now.best.value, i)
  {
    var s, now := AfterRounds(w, task, original, start, n - 1), AfterRounds(w, task, original, start, n);
    var all := FailedAttempts(w, task, original, start, n);
    RoundAddsAttempt(w, task, original, start, n);
    if now.best == s.best {
      assert EarliestLeast(w, all, now.best.value, at);
    } else {
      assert EarliestLeast(w, all, now.best.value, |all| - 1);
    }
  }

  /** Success means the test exits 0 on the file exactly as it was left. */
  lemma SuccessMeansTestPasses(w: World, task: Task, start: Option<string>)
    requires FinalState(w, task, start).Ending? && FinalState(w, task, start).success
    ensures Passes(w, FinalState(w, task, start).content)
  {
    SolvedByTheTest(w, task, Original(start), start, Budget(task));
  }

  /** A failed repair of an existing, non-stub Python file leaves it untouched, and no candidate of
      either search passes. */
  lemma FailureRestoresOriginal(w: World, task: Task, text: string)
    requires !task.keepPartial && |task.target| >= 3 && task.target[|task.target| - 3..] == ".py"
    requires text != "" && !Contains(text, "NotImplementedError")
    requires FinalState(w, task, Some(text)).Ending? && !FinalState(w, task, Some(text)).success
    ensures FinalState(w, task, Some(text)).content == Some(text)
    ensures forall c :: c in w.unwraps(text) || c in w.mutations(text) ==> !Passes(w, Some(c))
  {
  }

  /** But a candidate that may not be written leaves the one before it in the file: the original is
      not restored. */
  lemma RefusedCandidateLeavesItsPredecessor(w: World, task: Task, text: string, k: nat)
    requires !task.keepPartial && |task.target| >= 3 && task.target[|task.target| - 3..] == ".py"
    requires text != "" && !Contains(text, "NotImplementedError")
    requires !Over(AfterRounds(w, task, text, Some(text), Budget(task)))
    requires 0 < k < |w.unwraps(text)| && !w.admits(w.unwraps(text)[k])
    requires forall j :: 0 <= j < k ==> !Stops(w, w.unwraps(text)[j])
    ensures FinalState(w, task, Some(text)) == Raised(Some(w.unwraps(text)[k - 1]))
  {
    assert StopsAt(w, w.unwraps(text), 0) == k;
  }

  /** With `keepPartial`, failure leaves the earliest attempt with the fewest counted failures. */
  lemma FailureKeepsLeastFailing(w: World, task: Task, start: Option<string>)
    requires task.keepPartial && FinalState(w, task, start).Ending? && !FinalState(w, task, start).success
    ensures var attempts := FailedAttempts(w, task, Original(start), start, Budget(task));
            var left := FinalState(w, task, start).content;
            (exists i :: 0 <= i < |attempts| && attempts[i].Some?) ==>
            exists at, fails :: 0 <= at < |attempts| && left.Some?
                                && EarliestLeast(w, attempts, Best(fails, left.value), at)
  {
    BestIsEarliestLeast(w, task, Original(start), start, Budget(task));
    var best := AfterRounds(w, task, Original(start), start, Budget(task)).best;
    if best.Some? {
      assert best.value == Best(best.value.fails, best.value.text);
    }
  }

  // ---------------------------------------------------------------- the model's verdict

  /** What the verdict says does not matter, only whether recording it is refused: two worlds that
      differ only in verdicts refused alike go through the same rounds. */
  lemma {:induction false} VerdictIsIgnored(
      w: World, verdict: string -> Option<bool>, task: Task, original: string, start: Option<string>, n: nat)
    requires forall output :: verdict(output).None? <==> w.verdict(output).None?
    ensures AfterRounds(w.(verdict := verdict), task, original, start, n) == AfterRounds(w, task, original, start, n)
  {
    if n > 0 { VerdictIsIgnored(w, verdict, task, original, start, n - 1); }
  }

  /** The first round whose content is tested and passes, or whose verdict is refused, ends the loop:
      solved if the verdict is recorded, and raised, with the content left in the file, if it is not,
      even when the test passed. */
  lemma TestedRoundEnds(w: World, task: Task, original: string, start: Option<string>, n: nat)
    requires !Over(AfterRounds(w, task, original, start, n))
    ensures var s, now := AfterRounds(w, task, original, start, n), AfterRounds(w, task, original, start, n + 1);
            var edit := Edited(w, task, original, n + 1, s);
            var content := ContentAfter(edit, s.content);
            var tested, refused := Tested(w, edit, content), w.verdict(w.test(content).output).None?;
            && (now.raised <==> tested && refused)
            && (now.solved.Some? <==> tested && !refused && Passes(w, content))
            && (Over(now) ==> now.content == content)
  {
  }
}
