/**
 * Driving the conservation plan: the call ids are pairwise distinct; an entity that applies exactly
 * the declared changes passes; an entity that passes really read back a constant total, if the lines
 * read for its readings are true; and for every specification there is a forged output that passes.
 */
module ConservationVerdict {
  import opened Conservation
  import opened Decimals
  import opened Driving
  import opened ImportDriver
  import opened Options
  import opened PyText
  import opened Sequences

  // ---- Call ids --------------------------------------------------------------------------

  lemma {:induction false} ReadIds(prefix: string, quantities: seq<string>)
    requires NoDup(quantities)
    ensures NoDup(Ids(ReadCalls(prefix, quantities)))
    ensures forall id :: id in Ids(ReadCalls(prefix, quantities)) ==> prefix <= id && id[|prefix|..] in quantities
  {
    if quantities != [] {
      var init, q := quantities[..|quantities| - 1], quantities[|quantities| - 1];
      ReadIds(prefix, init);
      var earlier, id := Ids(ReadCalls(prefix, init)), prefix + q;
      assert id[|prefix|..] == q;
      assert (earlier + [id])[..|earlier|] == earlier;
      assert Ids(ReadCalls(prefix, quantities)) == earlier + [id];
    }
  }

  /** What may follow the digits of an operation's id. */
  predicate IsTail(s: string) { s == [] || s[0] == '_' }

  /** How many digits a string starts with. */
  function DigitRun(s: string): nat {
    if s == [] || !IsDigit(s[0]) then 0 else 1 + DigitRun(s[1..])
  }

  lemma {:induction false} DigitRunOf(a: string, s: string)
    requires IsTail(s) && forall i :: 0 <= i < |a| ==> IsDigit(a[i])
    ensures DigitRun(a + s) == |a|
  {
    if a == [] {
      assert a + s == s;
    } else {
      assert (a + s)[1..] == a[1..] + s;
      DigitRunOf(a[1..], s);
    }
  }

  /** `id` is the id of operation `i`, or continues it behind an underscore. */
  predicate OfOp(i: nat, id: string) { OpId(i) <= id && IsTail(id[|OpId(i)|..]) }

  lemma OwnerUnique(i: nat, j: nat, id: string)
    requires OfOp(i, id) && OfOp(j, id)
    ensures i == j
  {
    var a, b := Decimal(i), Decimal(j);
    var s, t := id[|OpId(i)|..], id[|OpId(j)|..];
    assert id[2..] == a + s && id[2..] == b + t;
    DigitRunOf(a, s);
    DigitRunOf(b, t);
    assert a == (a + s)[..|a|] && b == (b + t)[..|b|];
    DecimalInjective(i, j);
  }

  /** The calls of operation `i`. */
  function Block(spec: Spec, i: nat): seq<Call<Request>>
    requires i < |spec.drive|
  {
    [OpCall(spec, i)] + ReadCalls(ReadPrefix(i), spec.quantities)
  }

  lemma BlockIds(spec: Spec, i: nat)
    requires NoDup(spec.quantities) && i < |spec.drive|
    ensures NoDup(Ids(Block(spec, i)))
    ensures forall id :: id in Ids(Block(spec, i)) ==> OfOp(i, id)
  {
    var readCalls := ReadCalls(ReadPrefix(i), spec.quantities);
    ReadIds(ReadPrefix(i), spec.quantities);
    IdsConcat([OpCall(spec, i)], readCalls);
    SingleId(OpCall(spec, i));
    forall id | id in Ids(readCalls)
      ensures OfOp(i, id) && id !in [OpId(i)]
    {
      assert id[|OpId(i)|] == ReadPrefix(i)[|OpId(i)|];
    }
    NoDupJoin([OpId(i)], Ids(readCalls));
  }

  lemma PlannedIds(entity: string, spec: Spec, k: nat)
    requires k <= |spec.drive|
    ensures k == 0 ==> Ids(CallsUpTo(entity, spec, k)) == [ENTITY]
    ensures k > 0 ==> Ids(CallsUpTo(entity, spec, k)) == Ids(CallsUpTo(entity, spec, k - 1)) + Ids(Block(spec, k - 1))
  {
    if k == 0 {
      SingleId(ApiCall(ENTITY, entity, spec.constructArgs));
    } else {
      IdsConcat(CallsUpTo(entity, spec, k - 1), Block(spec, k - 1));
    }
  }

  /** An id of an operation that is not yet planned is not among the planned ids. */
  lemma {:induction false} LaterIdsFresh(entity: string, spec: Spec, k: nat, i: nat, id: string)
    requires NoDup(spec.quantities) && k <= |spec.drive| && k <= i && OfOp(i, id)
    ensures id !in Ids(CallsUpTo(entity, spec, k))
  {
    PlannedIds(entity, spec, k);
    if k == 0 {
      assert id[0] == OpId(i)[0];
    } else {
      LaterIdsFresh(entity, spec, k - 1, i, id);
      BlockIds(spec, k - 1);
      if OfOp(k - 1, id) {
        OwnerUnique(i, k - 1, id);
      }
    }
  }

  predicate StartsLikeFinal(id: string) { id != [] && id[0] == 'f' }

  lemma BlockIdsFresh(entity: string, spec: Spec, k: nat, id: string)
    requires NoDup(spec.quantities) && k < |spec.drive| && id in Ids(Block(spec, k))
    ensures id !in Ids(CallsUpTo(entity, spec, k)) && !StartsLikeFinal(id)
  {
    BlockIds(spec, k);
    LaterIdsFresh(entity, spec, k, k, id);
    assert id[0] == OpId(k)[0];
  }

  ghost predicate Planned(entity: string, spec: Spec, k: nat)
    requires k <= |spec.drive|
  {
    && NoDup(Ids(CallsUpTo(entity, spec, k)))
    && forall id :: id in Ids(CallsUpTo(entity, spec, k)) ==> !StartsLikeFinal(id)
  }

  lemma BlockJoins(entity: string, spec: Spec, k: nat)
    requires NoDup(spec.quantities) && k < |spec.drive| && Planned(entity, spec, k)
    ensures Planned(entity, spec, k + 1)
  {
    PlannedIds(entity, spec, k + 1);
    BlockIds(spec, k);
    forall id | id in Ids(Block(spec, k)) ensures id !in Ids(CallsUpTo(entity, spec, k)) && !StartsLikeFinal(id) {
      BlockIdsFresh(entity, spec, k, id);
    }
    NoDupJoin(Ids(CallsUpTo(entity, spec, k)), Ids(Block(spec, k)));
  }

  lemma {:induction false} PlannedIdsDistinct(entity: string, spec: Spec, k: nat)
    requires NoDup(spec.quantities) && k <= |spec.drive|
    ensures Planned(entity, spec, k)
  {
    if k == 0 {
      PlannedStart(entity, spec, k, ENTITY);
    } else {
      PlannedIdsDistinct(entity, spec, k - 1);
      BlockJoins(entity, spec, k - 1);
    }
  }

  lemma PlannedStart(entity: string, spec: Spec, k: nat, id: string)
    requires k == 0 && id == ENTITY
    ensures Planned(entity, spec, k)
  {
    PlannedIds(entity, spec, k);
    assert [id][..0] == [] && !StartsLikeFinal(id);
  }

  /** All call ids of a plan are pairwise distinct, so that the driver never refuses it and no
      report is overwritten. */
  lemma CallIdsDistinct(entity: string, spec: Spec)
    requires ValidSpec(spec)
    ensures NoDup(Ids(Calls(entity, spec)))
  {
    var planned, readCalls := CallsUpTo(entity, spec, |spec.drive|), ReadCalls(FINAL, spec.quantities);
    PlannedIdsDistinct(entity, spec, |spec.drive|);
    ReadIds(FINAL, spec.quantities);
    IdsConcat(planned, readCalls);
    forall id | id in Ids(readCalls) ensures id !in Ids(planned) {
      assert id[0] == FINAL[0] && StartsLikeFinal(id);
    }
    NoDupJoin(Ids(planned), Ids(readCalls));
  }

  // ---- The verdict -----------------------------------------------------------------------

  predicate Passes<S>(codec: Codec, p: Process<S, Request>, entity: string, spec: Spec) {
    Passed(Checks(spec), Parsed(codec, Stdout(codec, p, Calls(entity, spec))))
  }

  /** The id pattern, which lets one final line feed through like every `$`. */
  predicate IsCallId(id: string) {
    IdReported(id) || (id != "" && id[|id| - 1] == '\n' && IdReported(id[..|id| - 1]))
  }

  function FirstDot(s: string): (i: nat)
    ensures i <= |s|
  {
    if s == "" || s[0] == '.' then 0 else 1 + FirstDot(s[1..])
  }

  /** Words joined by dots; only the last may end in a line feed. */
  predicate IsTarget(s: string)
    decreases |s|
  {
    var i := FirstDot(s);
    if i < |s| then IsWord(s[..i]) && IsTarget(s[i + 1..]) else IsIdentifier(s)
  }

  /** At the first dot a word ends and the rest goes on; without a dot it is an identifier. */
  lemma TargetIs(first: string, rest: string)
    requires '.' !in first
    ensures IsTarget(first + "." + rest) <==> IsWord(first) && IsTarget(rest)
    ensures IsTarget(first) <==> IsIdentifier(first)
  {
    var s := first + "." + rest;
    FirstDotIs(first, rest);
    assert s[..|first|] == first && s[|first| + 1..] == rest;
  }

  lemma {:induction false} FirstDotIs(first: string, rest: string)
    requires '.' !in first
    ensures FirstDot(first + "." + rest) == |first| && FirstDot(first) == |first|
  {
    if first != "" {
      assert (first + "." + rest)[1..] == first[1..] + "." + rest;
      FirstDotIs(first[1..], rest);
    }
  }

  predicate AcceptableCall(c: Call<Request>) { IsCallId(c.id) && IsTarget(c.what.target) }

  /** Calls that the driver does not refuse. */
  ghost predicate Drivable(calls: seq<Call<Request>>) {
    NoDup(Ids(calls)) && Acceptable(calls)
  }

  ghost predicate Acceptable(calls: seq<Call<Request>>) {
    forall c :: c in calls ==> AcceptableCall(c)
  }

  method ValidateCalls(calls: seq<Call<Request>>) returns (ok: bool)
    ensures ok <==> Drivable(calls)
  {
    var seen: set<string> := {};
    for i := 0 to |calls|
      invariant SeenIds(calls[..i], seen) && Drivable(calls[..i])
    {
      DrivableStep(calls, i, seen);
      if !AcceptableCall(calls[i]) || calls[i].id in seen { return false; }
      seen := seen + {calls[i].id};
    }
    assert calls[..|calls|] == calls;
    return true;
  }

  ghost predicate SeenIds(calls: seq<Call<Request>>, seen: set<string>) {
    forall id :: id in seen <==> id in Ids(calls)
  }

  lemma DrivableStep(calls: seq<Call<Request>>, i: nat, seen: set<string>)
    requires i < |calls| && SeenIds(calls[..i], seen)
    ensures SeenIds(calls[..i + 1], seen + {calls[i].id})
    ensures Drivable(calls[..i + 1]) <==> Drivable(calls[..i]) && AcceptableCall(calls[i]) && calls[i].id !in seen
    ensures Drivable(calls) ==> Drivable(calls[..i + 1])
  {
    assert calls[..i + 1] == calls[..i] + [calls[i]];
    IdsMore(calls[..i], calls[i]);
    AcceptableMore(calls[..i], calls[i]);
    DrivablePrefix(calls, i + 1);
  }

  lemma IdsMore(calls: seq<Call<Request>>, c: Call<Request>)
    ensures Ids(calls + [c]) == Ids(calls) + [c.id]
    ensures NoDup(Ids(calls + [c])) <==> NoDup(Ids(calls)) && c.id !in Ids(calls)
  {
    assert (calls + [c])[..|calls|] == calls;
    assert (Ids(calls) + [c.id])[..|Ids(calls)|] == Ids(calls);
  }

  lemma AcceptableMore(calls: seq<Call<Request>>, c: Call<Request>)
    ensures Acceptable(calls + [c]) <==> Acceptable(calls) && AcceptableCall(c)
  {
    assert c in calls + [c] && forall d :: d in calls ==> d in calls + [c];
  }

  lemma DrivablePrefix(calls: seq<Call<Request>>, i: nat)
    requires i <= |calls|
    ensures Drivable(calls) ==> Drivable(calls[..i])
  {
    assert calls == calls[..i] + calls[i..];
    IdsConcat(calls[..i], calls[i..]);
    if Drivable(calls) { NoDupConcat(Ids(calls[..i]), Ids(calls[i..])); }
  }

  /** Drives the calls and grades what is read back of the output, unless something is refused
      beforehand or the driver is not launched or does not end. */
  method DriveImport<S>(codec: Codec, p: Process<S, Request>, host: Host, calls: seq<Call<Request>>, checks: seq<Check>)
    returns (ok: bool)
    ensures ok <==>
              && host.rootIsDir && Strip(host.moduleName) != "" && host.launched && host.ended
              && Drivable(calls) && checks != [] && Passed(checks, Parsed(codec, Stdout(codec, p, calls)))
  {
    if !host.rootIsDir || Strip(host.moduleName) == "" { return false; }
    var valid := ValidateCalls(calls);
    if !valid || checks == [] || !host.launched || !host.ended { return false; }
    var stdout := Driving.Drive(codec, p, calls);
    var report := ParseSentinels(codec, stdout);
    ok := EvalChecks(checks, report);
  }

  lemma {:induction false} NoDotInWord(s: string)
    requires IdChars(s)
    ensures FirstDot(s) == |s|
  {
    if s != "" { NoDotInWord(s[1..]); }
  }

  lemma {:induction false} DotBehindWord(a: string, b: string)
    requires IdChars(a)
    ensures FirstDot(a + "." + b) == |a|
  {
    var s := a + "." + b;
    if a != "" {
      assert s[1..] == a[1..] + "." + b && s[0] == a[0];
      DotBehindWord(a[1..], b);
    }
  }

  lemma {:induction false} NoDotInIdentifier(s: string)
    requires IsIdentifier(s)
    ensures FirstDot(s) == |s| && IsTarget(s)
  {
    if IsWord(s) {
      NoDotInWord(s);
    } else {
      NoDotBeforeLineFeed(s);
    }
  }

  lemma {:induction false} NoDotBeforeLineFeed(s: string)
    requires s != "" && s[|s| - 1] == '\n' && IdChars(s[..|s| - 1])
    ensures FirstDot(s) == |s|
  {
    if |s| > 1 {
      assert s[0] == s[..|s| - 1][0] && s[1..][..|s| - 2] == s[..|s| - 1][1..];
      NoDotBeforeLineFeed(s[1..]);
    }
  }

  lemma MemberTarget(name: string)
    requires IsIdentifier(name)
    ensures IsTarget(Target(name))
  {
    NoDotInIdentifier(name);
    DotBehindWord(ENTITY, name);
    assert Target(name)[..6] == ENTITY && Target(name)[7..] == name;
  }

  lemma ReadId(prefix: string, q: string)
    requires IdReported(prefix) && IsIdentifier(q)
    ensures IsCallId(prefix + q)
  {
    var id := prefix + q;
    if IsWord(q) {
      assert IdChars(id);
    } else {
      assert id[..|id| - 1] == prefix + q[..|q| - 1];
      assert IdChars(prefix + q[..|q| - 1]);
    }
  }

  lemma {:induction false} ReadCallsAcceptable(prefix: string, quantities: seq<string>)
    requires IdReported(prefix) && forall q :: q in quantities ==> IsIdentifier(q)
    ensures Acceptable(ReadCalls(prefix, quantities))
  {
    if quantities != [] {
      var q := quantities[|quantities| - 1];
      ReadCallsAcceptable(prefix, quantities[..|quantities| - 1]);
      ReadId(prefix, q);
      MemberTarget(q);
    }
  }

  lemma {:induction false} PlannedAcceptable(entity: string, spec: Spec, k: nat)
    requires IsIdentifier(entity) && ValidSpec(spec) && k <= |spec.drive|
    ensures Acceptable(CallsUpTo(entity, spec, k))
  {
    if k == 0 {
      NoDotInIdentifier(entity);
      assert IdReported(ENTITY);
    } else {
      PlannedAcceptable(entity, spec, k - 1);
      assert ValidOp(spec.drive[k - 1], spec.quantities);
      OpIdsReported(k - 1);
      MemberTarget(spec.drive[k - 1].action);
      ReadCallsAcceptable(ReadPrefix(k - 1), spec.quantities);
    }
  }

  /** The calls of a plan are never refused. */
  lemma PlanIsDrivable(entity: string, spec: Spec)
    requires IsIdentifier(entity) && ValidSpec(spec)
    ensures Drivable(Calls(entity, spec)) && Checks(spec) != []
  {
    CallIdsDistinct(entity, spec);
    PlannedAcceptable(entity, spec, |spec.drive|);
    ReadCallsAcceptable(FINAL, spec.quantities);
  }

  /** The oracle's verdict: a valid specification with a consistent script, and every check held. */
  method GradeConservation<S>(codec: Codec, p: Process<S, Request>, host: Host, entity: string, spec: Spec) returns (accepted: bool)
    ensures accepted <==>
              && host.rootIsDir && Strip(host.moduleName) != "" && host.launched && host.ended
              && IsIdentifier(entity) && ValidSpec(spec) && Consistent(spec) && Passes(codec, p, entity, spec)
  {
    if Strip(host.moduleName) == "" || !IsIdentifier(entity) { return false; }
    var valid := ValidateSpec(spec);
    if !valid { return false; }
    var planned, calls, checks := BuildDrivePlan(entity, spec);
    if !planned { return false; }
    PlanIsDrivable(entity, spec);
    accepted := DriveImport(codec, p, host, calls, checks);
  }

  // ---- What passing means ----------------------------------------------------------------

  lemma {:induction false} ReadChecked(prefix: string, quantities: seq<string>, vector: string -> real, q: string)
    requires q in quantities
    ensures ReturnsEquals(prefix + q, Number(vector(q))) in ReadChecks(prefix, quantities, vector)
  {
    var init := quantities[..|quantities| - 1];
    if q != quantities[|quantities| - 1] {
      assert quantities == init + [quantities[|quantities| - 1]];
      ReadChecked(prefix, init, vector, q);
    }
  }

  lemma {:induction false} OpChecked(spec: Spec, k: nat, i: nat, q: string)
    requires i < k <= |spec.drive| && q in spec.quantities
    ensures ReturnsEquals(ReadPrefix(i) + q, Number(Shadow(spec, i + 1)(q))) in ChecksUpTo(spec, k)
    ensures spec.drive[i].verdict != "accept" ==> Raises(OpId(i), spec.rejectException) in ChecksUpTo(spec, k)
  {
    if i == k - 1 {
      ReadChecked(ReadPrefix(i), spec.quantities, Shadow(spec, k), q);
    } else {
      OpChecked(spec, k - 1, i, q);
    }
  }

  // ---- Ids that can be reported ----------------------------------------------------------

  /** What the checks speak about can be reported: quantities without line feeds, and a plain
      exception name if anything is to be refused. */
  predicate ReportableSpec(spec: Spec) {
    && (forall q :: q in spec.quantities ==> IdChars(q))
    && ((exists op :: op in spec.drive && op.verdict == "reject") ==> PlainException(spec.rejectException))
  }

  ghost predicate GoodCalls(calls: seq<Call<Request>>) {
    forall c :: c in calls ==> IdReported(c.id)
  }

  lemma {:induction false} ReadCallsGood(prefix: string, quantities: seq<string>)
    requires IdReported(prefix) && forall q :: q in quantities ==> IdChars(q)
    ensures GoodCalls(ReadCalls(prefix, quantities))
  {
    if quantities != [] {
      var q := quantities[|quantities| - 1];
      ReadCallsGood(prefix, quantities[..|quantities| - 1]);
      assert IdChars(q) && IdChars(prefix + q);
    }
  }

  lemma OpIdsReported(i: nat)
    ensures IdReported(OpId(i)) && IdReported(ReadPrefix(i)) && '_' !in OpId(i)
  {
    assert !IsDigit('_');
  }

  lemma {:induction false} PlannedGood(entity: string, spec: Spec, k: nat)
    requires k <= |spec.drive| && forall q :: q in spec.quantities ==> IdChars(q)
    ensures GoodCalls(CallsUpTo(entity, spec, k))
  {
    if k > 0 {
      PlannedGood(entity, spec, k - 1);
      OpIdsReported(k - 1);
      ReadCallsGood(ReadPrefix(k - 1), spec.quantities);
    }
  }

  lemma PlanIsGood(entity: string, spec: Spec)
    requires ValidSpec(spec) && forall q :: q in spec.quantities ==> IdChars(q)
    ensures GoodIds(Calls(entity, spec))
  {
    CallIdsDistinct(entity, spec);
    PlannedGood(entity, spec, |spec.drive|);
    ReadCallsGood(FINAL, spec.quantities);
  }

  /** A quantity whose name ends in a line feed, or an exception name that its report does not spell
      unambiguously, is a valid name, but no line can be read as a report of it: whatever an entity
      does and prints, it does not pass such a specification. */
  lemma UnreportableNeverPasses<S>(codec: Codec, p: Process<S, Request>, entity: string, spec: Spec)
    requires ValidSpec(spec) && !ReportableSpec(spec)
    ensures !Passes(codec, p, entity, spec)
  {
    var stdout := Stdout(codec, p, Calls(entity, spec));
    if Passed(Checks(spec), Parsed(codec, stdout)) { PassedIsReportable(codec, stdout, spec); }
  }

  lemma PassedIsReportable(codec: Codec, stdout: string, spec: Spec)
    requires ValidSpec(spec) && Passed(Checks(spec), Parsed(codec, stdout))
    ensures ReportableSpec(spec)
  {
    forall q | q in spec.quantities ensures IdChars(q) {
      OpChecked(spec, |spec.drive|, 0, q);
      assert ReadCheck(spec, 0, q) in Checks(spec);
      HeldIsReportable(codec, stdout, ReadCheck(spec, 0, q));
      assert (ReadPrefix(0) + q)[|ReadPrefix(0)|..] == q;
    }
    forall i | 0 <= i < |spec.drive| && spec.drive[i].verdict == "reject"
      ensures PlainException(spec.rejectException)
    {
      RefusalChecked(spec, i);
      HeldIsReportable(codec, stdout, Raises(OpId(i), spec.rejectException));
      ReportedIdentifier(spec.rejectException);
    }
  }

  lemma RefusalChecked(spec: Spec, i: nat)
    requires spec.quantities != [] && i < |spec.drive| && spec.drive[i].verdict != "accept"
    ensures Raises(OpId(i), spec.rejectException) in Checks(spec)
  {
    OpChecked(spec, |spec.drive|, i, spec.quantities[0]);
  }

  // ---- What was really read --------------------------------------------------------------

  /** What the calls really returned and raised. */
  function Happened<S>(p: Process<S, Request>, entity: string, spec: Spec): map<string, Outcome> {
    Truth(p, Calls(entity, spec))
  }

  /** What the read of `q` after operation `i` returned. */
  function Reading(truth: map<string, Outcome>, i: nat): string -> real {
    q => var id := ReadPrefix(i) + q;
         if id in truth && truth[id].Returned? && truth[id].value.Number? then truth[id].value.n else 0.0
  }

  predicate ReadNumber(truth: map<string, Outcome>, i: nat, q: string) {
    ReadPrefix(i) + q in truth && truth[ReadPrefix(i) + q] == Returned(Number(Reading(truth, i)(q)))
  }

  function ReadCheck(spec: Spec, i: nat, q: string): Check
    requires i < |spec.drive|
  {
    ReturnsEquals(ReadPrefix(i) + q, Number(Shadow(spec, i + 1)(q)))
  }

  /** Readings that are as checked are numbers with the initial total. */
  lemma TrueReadingsConserve(spec: Spec, truth: map<string, Outcome>, i: nat)
    requires ValidSpec(spec) && i < |spec.drive|
    requires forall q :: q in spec.quantities ==> HeldBy(ReadCheck(spec, i, q), truth)
    ensures forall q :: q in spec.quantities ==> ReadNumber(truth, i, q)
    ensures Total(spec.quantities, Reading(truth, i)) == Total(spec.quantities, Amounts(spec.initial))
  {
    forall q | q in spec.quantities
      ensures ReadNumber(truth, i, q) && Reading(truth, i)(q) == Shadow(spec, i + 1)(q)
    {
      assert HeldBy(ReadCheck(spec, i, q), truth);
    }
    ExpectedTotalConstant(spec, i + 1);
    TotalAgrees(spec.quantities, Reading(truth, i), Shadow(spec, i + 1));
  }

  /** Whatever an entity does and prints: if it passes, and every line read for the readings after an
      operation is true, these readings were numbers with the initial total. */
  lemma TruthfulPassConserves<S>(codec: Codec, p: Process<S, Request>, entity: string, spec: Spec, i: nat)
    requires ValidSpec(spec) && Passes(codec, p, entity, spec) && i < |spec.drive|
    requires forall q :: q in spec.quantities ==>
               Truthful(codec, Stdout(codec, p, Calls(entity, spec)), Happened(p, entity, spec), ReadPrefix(i) + q)
    ensures var truth := Happened(p, entity, spec);
            && (forall q :: q in spec.quantities ==> ReadNumber(truth, i, q))
            && Total(spec.quantities, Reading(truth, i)) == Total(spec.quantities, Amounts(spec.initial))
  {
    var truth, stdout := Happened(p, entity, spec), Stdout(codec, p, Calls(entity, spec));
    forall q | q in spec.quantities ensures HeldBy(ReadCheck(spec, i, q), truth) {
      OpChecked(spec, |spec.drive|, i, q);
      assert ReadCheck(spec, i, q) in Checks(spec);
      TruthfulPassIsTrue(codec, stdout, truth, ReadCheck(spec, i, q));
    }
    TrueReadingsConserve(spec, truth, i);
  }

  /** What an entity prints itself is whole lines about none of the checked calls, and all the output is
      read back. */
  ghost predicate HeardOut<S>(codec: Codec, p: Process<S, Request>, entity: string, spec: Spec) {
    && DiscreetProcess(p, Calls(entity, spec), CheckedIds(Checks(spec)))
    && Fits(Stdout(codec, p, Calls(entity, spec)))
  }

  /** Besides, its exceptions have one-line names, and what it returns survives the encoding. */
  ghost predicate PlaysFair<S>(codec: Codec, p: Process<S, Request>, entity: string, spec: Spec) {
    && HeardOut(codec, p, entity, spec)
    && FaithfulRun(codec, p, Calls(entity, spec))
    && NamesExceptions(p, Calls(entity, spec))
  }

  /** The checks of readings and refusals are all true. */
  ghost predicate Believable(spec: Spec, truth: map<string, Outcome>) {
    forall c :: c in Checks(spec) && (c.Raises? ==> '_' !in c.id) ==> HeldBy(c, truth)
  }

  lemma FairPassIsBelievable<S>(codec: Codec, p: Process<S, Request>, entity: string, spec: Spec)
    requires ValidSpec(spec) && Passes(codec, p, entity, spec) && PlaysFair(codec, p, entity, spec)
    ensures Believable(spec, Happened(p, entity, spec))
  {
    if !ReportableSpec(spec) { UnreportableNeverPasses(codec, p, entity, spec); }
    PlanIsGood(entity, spec);
    forall c | c in Checks(spec) && (c.Raises? ==> '_' !in c.id) ensures HeldBy(c, Happened(p, entity, spec)) {
      DiscreetPassIsTrue(codec, p, Calls(entity, spec), Checks(spec), c);
    }
  }

  lemma BelievableReading(spec: Spec, truth: map<string, Outcome>, i: nat, q: string)
    requires Believable(spec, truth) && i < |spec.drive| && q in spec.quantities
    ensures HeldBy(ReadCheck(spec, i, q), truth)
  {
    OpChecked(spec, |spec.drive|, i, q);
    assert ReadCheck(spec, i, q) in Checks(spec);
  }

  lemma BelievableRefusal(spec: Spec, truth: map<string, Outcome>, i: nat)
    requires Believable(spec, truth) && spec.quantities != [] && i < |spec.drive| && spec.drive[i].verdict == "reject"
    ensures HeldBy(Raises(OpId(i), spec.rejectException), truth)
  {
    RefusalChecked(spec, i);
    OpIdsReported(i);
  }

  /** An entity that plays fair and passes returned a number for every quantity after every operation,
      and these numbers always have the total of the initial ones. */
  lemma PassingEntityConserves<S>(codec: Codec, p: Process<S, Request>, entity: string, spec: Spec, i: nat)
    requires ValidSpec(spec) && Passes(codec, p, entity, spec) && PlaysFair(codec, p, entity, spec)
    requires i < |spec.drive|
    ensures var truth := Happened(p, entity, spec);
            && (forall q :: q in spec.quantities ==> ReadNumber(truth, i, q))
            && Total(spec.quantities, Reading(truth, i)) == Total(spec.quantities, Amounts(spec.initial))
  {
    FairPassIsBelievable(codec, p, entity, spec);
    forall q | q in spec.quantities ensures HeldBy(ReadCheck(spec, i, q), Happened(p, entity, spec)) {
      BelievableReading(spec, Happened(p, entity, spec), i, q);
    }
    TrueReadingsConserve(spec, Happened(p, entity, spec), i);
  }

  /** Operation `i` raised the declared exception, and `q` reads the same before and after it. */
  predicate RefusedCleanly(spec: Spec, truth: map<string, Outcome>, i: nat, q: string) {
    && OpId(i) in truth && truth[OpId(i)] == Raised(spec.rejectException)
    && Reading(truth, i)(q) == if i == 0 then Amounts(spec.initial)(q) else Reading(truth, i - 1)(q)
  }

  lemma BelievableRefusalKeeps(spec: Spec, truth: map<string, Outcome>, i: nat, q: string)
    requires Believable(spec, truth) && i < |spec.drive| && spec.drive[i].verdict == "reject" && q in spec.quantities
    ensures RefusedCleanly(spec, truth, i, q)
  {
    BelievableRefusal(spec, truth, i);
    BelievableReading(spec, truth, i, q);
    assert Reading(truth, i)(q) == Shadow(spec, i + 1)(q) == Shadow(spec, i)(q);
    if i > 0 {
      BelievableReading(spec, truth, i - 1, q);
      assert Reading(truth, i - 1)(q) == Shadow(spec, i)(q);
    }
  }

  /** An entity that plays fair and passes really raised the declared exception on every operation it
      was to refuse, and reads the same before and after it. */
  lemma RefusalsLeaveNoTrace<S>(codec: Codec, p: Process<S, Request>, entity: string, spec: Spec, i: nat, q: string)
    requires ValidSpec(spec) && Passes(codec, p, entity, spec) && PlaysFair(codec, p, entity, spec)
    requires i < |spec.drive| && spec.drive[i].verdict == "reject" && q in spec.quantities
    ensures RefusedCleanly(spec, Happened(p, entity, spec), i, q)
  {
    FairPassIsBelievable(codec, p, entity, spec);
    BelievableRefusalKeeps(spec, Happened(p, entity, spec), i, q);
  }

  // ---- Who passes ------------------------------------------------------------------------

  /** `shows(s, k)`: state `s` can be there after `k` operations. The quantities then read as the vector
      after them, and reading them leads to such a state again. Nothing is read before an operation. */
  ghost predicate Readable<S(!new)>(p: Process<S, Request>, spec: Spec, shows: (S, int) -> bool) {
    forall s, k: nat, q :: shows(s, k) && 1 <= k <= |spec.drive| && q in spec.quantities ==>
      var r := p.step(s, Request(Target(q), []));
      r.outcome == Some(Returned(Number(Shadow(spec, k)(q)))) && shows(r.state, k)
  }

  /** From a state before operation `i`, the operation leads to one after it, and raises the declared
      exception if it is to be refused. What it does may depend on the whole state. */
  ghost predicate Applies<S(!new)>(p: Process<S, Request>, spec: Spec, i: nat, shows: (S, int) -> bool)
    requires i < |spec.drive|
  {
    forall s :: shows(s, i) ==>
      var r := p.step(s, OpCall(spec, i).what);
      && shows(r.state, i + 1) && Clean(r.outcome)
      && (spec.drive[i].verdict == "reject" ==> r.outcome == Some(Raised(spec.rejectException)))
  }

  /** With distinct ids, later calls do not disturb earlier outcomes. */
  lemma {:induction false} TruthStays<S>(p: Process<S, Request>, a: seq<Call<Request>>, b: seq<Call<Request>>, checks: seq<Check>)
    requires NoDup(Ids(a + b)) && AllTrue(checks, Truth(p, a))
    ensures AllTrue(checks, Truth(p, a + b))
  {
    if b == [] {
      assert a + b == a;
    } else {
      var init := b[..|b| - 1];
      assert (a + b)[..|a + b| - 1] == a + init;
      assert Ids(a + b)[..|Ids(a + b)| - 1] == Ids(a + init);
      TruthStays(p, a, init, checks);
      TruthKeys(p, a + init);
    }
  }

  lemma AllTrueConcat(a: seq<Check>, b: seq<Check>, truth: map<string, Outcome>)
    requires AllTrue(a, truth) && AllTrue(b, truth)
    ensures AllTrue(a + b, truth)
  {
  }

  /** So far every outcome is clean, and the state is one after `k` operations. */
  ghost predicate On<S(!new)>(p: Process<S, Request>, calls: seq<Call<Request>>, shows: (S, int) -> bool, k: nat) {
    CleanRun(p, calls) && shows(After(p, calls), k)
  }

  lemma ReadPasses<S(!new)>(p: Process<S, Request>, calls: seq<Call<Request>>, id: string, q: string, spec: Spec,
                            shows: (S, int) -> bool, k: nat)
    requires Readable(p, spec, shows) && On(p, calls, shows, k) && 1 <= k <= |spec.drive| && q in spec.quantities
    ensures On(p, calls + [ApiCall(id, Target(q), [])], shows, k)
    ensures HeldBy(ReturnsEquals(id, Number(Shadow(spec, k)(q))), Truth(p, calls + [ApiCall(id, Target(q), [])]))
  {
    OneMore(p, calls, ApiCall(id, Target(q), []));
    var r := p.step(After(p, calls), Request(Target(q), []));
    assert r.outcome == Some(Returned(Number(Shadow(spec, k)(q)))) && shows(r.state, k);
  }

  /** The state is one after `k` operations, and these checks are true by now. */
  ghost predicate ReadWell<S(!new)>(p: Process<S, Request>, calls: seq<Call<Request>>, checks: seq<Check>,
                                    shows: (S, int) -> bool, k: nat) {
    On(p, calls, shows, k) && AllTrue(checks, Truth(p, calls))
  }

  lemma {:induction false} ReadsPass<S(!new)>(p: Process<S, Request>, calls: seq<Call<Request>>, prefix: string, quantities: seq<string>,
                                       spec: Spec, shows: (S, int) -> bool, k: nat)
    requires Readable(p, spec, shows) && On(p, calls, shows, k) && 1 <= k <= |spec.drive|
    requires forall q :: q in quantities ==> q in spec.quantities
    requires NoDup(Ids(calls + ReadCalls(prefix, quantities)))
    ensures ReadWell(p, calls + ReadCalls(prefix, quantities), ReadChecks(prefix, quantities, Shadow(spec, k)), shows, k)
  {
    if quantities == [] {
      assert calls + [] == calls;
    } else {
      var init, q := quantities[..|quantities| - 1], quantities[|quantities| - 1];
      var before := calls + ReadCalls(prefix, init);
      assert q in spec.quantities && forall r :: r in init ==> r in quantities;
      assert calls + ReadCalls(prefix, quantities) == before + [ApiCall(prefix + q, Target(q), [])];
      EarlierIdsDistinct(before, ApiCall(prefix + q, Target(q), []));
      ReadsPass(p, calls, prefix, init, spec, shows, k);
      MoreReadsPass(p, before, prefix, q, spec, shows, k, ReadChecks(prefix, init, Shadow(spec, k)));
    }
  }

  lemma EarlierIdsDistinct(before: seq<Call<Request>>, last: Call<Request>)
    requires NoDup(Ids(before + [last]))
    ensures NoDup(Ids(before))
  {
    IdsConcat(before, [last]);
    NoDupConcat(Ids(before), Ids([last]));
  }

  lemma MoreReadsPass<S(!new)>(p: Process<S, Request>, before: seq<Call<Request>>, prefix: string, q: string,
                               spec: Spec, shows: (S, int) -> bool, k: nat, checks: seq<Check>)
    requires Readable(p, spec, shows) && 1 <= k <= |spec.drive| && q in spec.quantities
    requires ReadWell(p, before, checks, shows, k) && NoDup(Ids(before + [ApiCall(prefix + q, Target(q), [])]))
    ensures ReadWell(p, before + [ApiCall(prefix + q, Target(q), [])],
                     checks + [ReturnsEquals(prefix + q, Number(Shadow(spec, k)(q)))], shows, k)
  {
    TruthStays(p, before, [ApiCall(prefix + q, Target(q), [])], checks);
    ReadPasses(p, before, prefix + q, q, spec, shows, k);
  }

  lemma OpCallPasses<S(!new)>(p: Process<S, Request>, before: seq<Call<Request>>, spec: Spec, i: nat, shows: (S, int) -> bool)
    requires i < |spec.drive| && (spec.drive[i].verdict == "accept" || spec.drive[i].verdict == "reject")
    requires Applies(p, spec, i, shows) && On(p, before, shows, i)
    ensures On(p, before + [OpCall(spec, i)], shows, i + 1)
    ensures AllTrue(RefusalChecks(spec, i), Truth(p, before + [OpCall(spec, i)]))
  {
    OneMore(p, before, OpCall(spec, i));
  }

  function BlockChecks(spec: Spec, i: nat): seq<Check>
    requires i < |spec.drive|
  {
    RefusalChecks(spec, i) + ReadChecks(ReadPrefix(i), spec.quantities, Shadow(spec, i + 1))
  }

  lemma OpPasses<S(!new)>(p: Process<S, Request>, entity: string, spec: Spec, i: nat, shows: (S, int) -> bool)
    requires i < |spec.drive| && ValidOp(spec.drive[i], spec.quantities)
    requires Readable(p, spec, shows) && Applies(p, spec, i, shows)
    requires NoDup(Ids(CallsUpTo(entity, spec, i + 1)))
    requires On(p, CallsUpTo(entity, spec, i), shows, i)
    ensures On(p, CallsUpTo(entity, spec, i + 1), shows, i + 1)
    ensures AllTrue(BlockChecks(spec, i), Truth(p, CallsUpTo(entity, spec, i + 1)))
  {
    var before, readCalls := CallsUpTo(entity, spec, i), ReadCalls(ReadPrefix(i), spec.quantities);
    var called := before + [OpCall(spec, i)];
    assert CallsUpTo(entity, spec, i + 1) == called + readCalls;
    OpCallPasses(p, before, spec, i, shows);
    ReadsPass(p, called, ReadPrefix(i), spec.quantities, spec, shows, i + 1);
    TruthStays(p, called, readCalls, RefusalChecks(spec, i));
  }

  /** The entity under test reads, after every operation, as the initial quantities changed by exactly the
      declared amounts, and refuses what it is to refuse. Two states that read alike need not behave alike. */
  ghost predicate Honest<S(!new)>(p: Process<S, Request>, entity: string, spec: Spec, shows: (S, int) -> bool) {
    && Readable(p, spec, shows)
    && (forall i :: 0 <= i < |spec.drive| ==> Applies(p, spec, i, shows))
    && On(p, [ApiCall(ENTITY, entity, spec.constructArgs)], shows, 0)
  }

  lemma ScriptStep<S(!new)>(p: Process<S, Request>, entity: string, spec: Spec, i: nat, shows: (S, int) -> bool)
    requires ValidSpec(spec) && i < |spec.drive| && Honest(p, entity, spec, shows)
    requires On(p, CallsUpTo(entity, spec, i), shows, i)
    requires AllTrue(ChecksUpTo(spec, i), Truth(p, CallsUpTo(entity, spec, i)))
    ensures On(p, CallsUpTo(entity, spec, i + 1), shows, i + 1)
    ensures AllTrue(ChecksUpTo(spec, i + 1), Truth(p, CallsUpTo(entity, spec, i + 1)))
  {
    PlannedIdsDistinct(entity, spec, i + 1);
    assert ValidOp(spec.drive[i], spec.quantities);
    OpPasses(p, entity, spec, i, shows);
    TruthStays(p, CallsUpTo(entity, spec, i), Block(spec, i), ChecksUpTo(spec, i));
    AllTrueConcat(ChecksUpTo(spec, i), BlockChecks(spec, i), Truth(p, CallsUpTo(entity, spec, i + 1)));
  }

  lemma {:induction false} ScriptPasses<S(!new)>(p: Process<S, Request>, entity: string, spec: Spec, k: nat, shows: (S, int) -> bool)
    requires ValidSpec(spec) && k <= |spec.drive| && Honest(p, entity, spec, shows)
    ensures On(p, CallsUpTo(entity, spec, k), shows, k)
    ensures AllTrue(ChecksUpTo(spec, k), Truth(p, CallsUpTo(entity, spec, k)))
  {
    if k > 0 {
      ScriptPasses(p, entity, spec, k - 1, shows);
      ScriptStep(p, entity, spec, k - 1, shows);
    }
  }

  lemma HonestIsTrue<S(!new)>(p: Process<S, Request>, entity: string, spec: Spec, shows: (S, int) -> bool)
    requires ValidSpec(spec) && Consistent(spec) && Honest(p, entity, spec, shows)
    ensures CleanRun(p, Calls(entity, spec)) && AllTrue(Checks(spec), Happened(p, entity, spec))
  {
    var n := |spec.drive|;
    var planned, readCalls := CallsUpTo(entity, spec, n), ReadCalls(FINAL, spec.quantities);
    ScriptPasses(p, entity, spec, n, shows);
    CallIdsDistinct(entity, spec);
    ReadsPass(p, planned, FINAL, spec.quantities, spec, shows, n);
    ReadChecksAgree(FINAL, spec.quantities, Shadow(spec, n), Amounts(spec.expectFinal));
    TruthStays(p, planned, readCalls, ChecksUpTo(spec, n));
    AllTrueConcat(ChecksUpTo(spec, n), ReadChecks(FINAL, spec.quantities, Amounts(spec.expectFinal)),
      Happened(p, entity, spec));
  }

  /** An honest entity passes every check of a consistent, reportable script, as long as what it
      prints is about no checked call and all the output is read back. */
  lemma HonestEntityPasses<S(!new)>(codec: Codec, p: Process<S, Request>, entity: string, spec: Spec, shows: (S, int) -> bool)
    requires FaithfulRun(codec, p, Calls(entity, spec)) && ValidSpec(spec) && Consistent(spec) && ReportableSpec(spec)
    requires Honest(p, entity, spec, shows)
    requires DiscreetProcess(p, Calls(entity, spec), CheckedIds(Checks(spec)))
    requires Fits(Stdout(codec, p, Calls(entity, spec)))
    ensures Passes(codec, p, entity, spec)
  {
    HonestIsTrue(p, entity, spec, shows);
    PlanIsGood(entity, spec);
    DiscreetPassesIffTrue(codec, p, Calls(entity, spec), Checks(spec));
  }

  // ---- Which calls are checked -----------------------------------------------------------

  lemma {:induction false} ReadChecksAre(prefix: string, quantities: seq<string>, vector: string -> real, c: Check)
    requires c in ReadChecks(prefix, quantities, vector)
    ensures exists q :: q in quantities && c == ReturnsEquals(prefix + q, Number(vector(q)))
  {
    var init := quantities[..|quantities| - 1];
    if c in ReadChecks(prefix, init, vector) {
      ReadChecksAre(prefix, init, vector, c);
      var q :| q in init && c == ReturnsEquals(prefix + q, Number(vector(q)));
      assert q in quantities;
    }
  }

  /** The check of a refusal, or of the reading of a quantity, after operation `i`. */
  ghost predicate CheckOf(spec: Spec, i: nat, c: Check)
    requires i < |spec.drive|
  {
    || (c == Raises(OpId(i), spec.rejectException) && spec.drive[i].verdict != "accept")
    || exists q :: q in spec.quantities && c == ReadCheck(spec, i, q)
  }

  lemma {:induction false} ChecksAre(spec: Spec, k: nat, c: Check)
    requires k <= |spec.drive| && c in ChecksUpTo(spec, k)
    ensures exists i: nat :: i < k && CheckOf(spec, i, c)
  {
    if c in ChecksUpTo(spec, k - 1) {
      ChecksAre(spec, k - 1, c);
    } else if c in ReadChecks(ReadPrefix(k - 1), spec.quantities, Shadow(spec, k)) {
      ReadChecksAre(ReadPrefix(k - 1), spec.quantities, Shadow(spec, k), c);
      assert CheckOf(spec, k - 1, c);
    } else {
      assert CheckOf(spec, k - 1, c);
    }
  }

  lemma CheckOwner(spec: Spec, i: nat, c: Check)
    requires i < |spec.drive| && CheckOf(spec, i, c)
    ensures OfOp(i, c.id) && c.id[0] == 'o' && (c.id == OpId(i) <==> c.Raises?)
  {
    assert OpId(i)[0] == 'o';
    if c.ReturnsEquals? {
      var q :| q in spec.quantities && c == ReadCheck(spec, i, q);
      assert c.id[|OpId(i)|] == '_';
    }
  }

  lemma SameReadCheck(spec: Spec, i: nat, c: Check, d: Check)
    requires i < |spec.drive| && CheckOf(spec, i, c) && CheckOf(spec, i, d) && c.id == d.id
    ensures c == d
  {
    CheckOwner(spec, i, c);
    CheckOwner(spec, i, d);
    if c.ReturnsEquals? {
      var q :| q in spec.quantities && c == ReadCheck(spec, i, q);
      var r :| r in spec.quantities && d == ReadCheck(spec, i, r);
      assert c.id[|ReadPrefix(i)|..] == q && d.id[|ReadPrefix(i)|..] == r;
    }
  }

  /** No call is checked twice. */
  lemma ChecksUnambiguous(spec: Spec)
    ensures Unambiguous(Checks(spec))
  {
    var early, final, last := ChecksUpTo(spec, |spec.drive|), ReadChecks(FINAL, spec.quantities, Amounts(spec.expectFinal)), |spec.drive|;
    forall c, d | c in Checks(spec) && d in Checks(spec) && c.id == d.id ensures c == d {
      if c in early && d in early {
        ChecksAre(spec, last, c);
        ChecksAre(spec, last, d);
        var i: nat :| i < last && CheckOf(spec, i, c);
        var j: nat :| j < last && CheckOf(spec, j, d);
        CheckOwner(spec, i, c);
        CheckOwner(spec, j, d);
        OwnerUnique(i, j, c.id);
        SameReadCheck(spec, i, c, d);
      } else {
        LateCheck(spec, c);
        LateCheck(spec, d);
        FinalChecksDiffer(spec, c, d);
      }
    }
  }

  lemma LateCheck(spec: Spec, c: Check)
    requires c in Checks(spec)
    ensures c in ChecksUpTo(spec, |spec.drive|) <==> c.id != "" && c.id[0] == 'o'
    ensures c !in ChecksUpTo(spec, |spec.drive|) ==> c in ReadChecks(FINAL, spec.quantities, Amounts(spec.expectFinal))
  {
    if c in ChecksUpTo(spec, |spec.drive|) {
      ChecksAre(spec, |spec.drive|, c);
      var i: nat :| i < |spec.drive| && CheckOf(spec, i, c);
      CheckOwner(spec, i, c);
    } else {
      ReadChecksAre(FINAL, spec.quantities, Amounts(spec.expectFinal), c);
      assert c.id[0] == FINAL[0];
    }
  }

  lemma FinalChecksDiffer(spec: Spec, c: Check, d: Check)
    requires c in ReadChecks(FINAL, spec.quantities, Amounts(spec.expectFinal))
    requires d in ReadChecks(FINAL, spec.quantities, Amounts(spec.expectFinal)) && c.id == d.id
    ensures c == d
  {
    var final := Amounts(spec.expectFinal);
    ReadChecksAre(FINAL, spec.quantities, final, c);
    ReadChecksAre(FINAL, spec.quantities, final, d);
    var q :| q in spec.quantities && c == ReturnsEquals(FINAL + q, Number(final(q)));
    var r :| r in spec.quantities && d == ReturnsEquals(FINAL + r, Number(final(r)));
    assert c.id[|FINAL|..] == q && d.id[|FINAL|..] == r;
  }

  // ---- The exact verdict -----------------------------------------------------------------

  /** The call with this id returned this amount. */
  predicate Returns(truth: map<string, Outcome>, id: string, amount: real) {
    id in truth && truth[id] == Returned(Number(amount))
  }

  /** After every operation every quantity reads as the initial one with the declared changes. */
  ghost predicate ReadingsMeet(spec: Spec, truth: map<string, Outcome>) {
    forall i, q :: 0 <= i < |spec.drive| && q in spec.quantities ==>
      Returns(truth, ReadPrefix(i) + q, Shadow(spec, i + 1)(q))
  }

  /** Every operation that is to be refused raised the declared exception. */
  ghost predicate RefusalsMeet(spec: Spec, truth: map<string, Outcome>) {
    forall i :: 0 <= i < |spec.drive| && spec.drive[i].verdict == "reject" ==>
      OpId(i) in truth && truth[OpId(i)] == Raised(spec.rejectException)
  }

  /** The final reads return the declared final quantities. */
  ghost predicate FinalsMeet(spec: Spec, truth: map<string, Outcome>) {
    forall q :: q in spec.quantities ==> Returns(truth, FINAL + q, Amounts(spec.expectFinal)(q))
  }

  lemma TrueMeets(spec: Spec, truth: map<string, Outcome>)
    requires ValidSpec(spec) && AllTrue(Checks(spec), truth)
    ensures ReadingsMeet(spec, truth) && RefusalsMeet(spec, truth) && FinalsMeet(spec, truth)
  {
    forall i, q | 0 <= i < |spec.drive| && q in spec.quantities
      ensures Returns(truth, ReadPrefix(i) + q, Shadow(spec, i + 1)(q))
    {
      OpChecked(spec, |spec.drive|, i, q);
      assert HeldBy(ReadCheck(spec, i, q), truth);
    }
    forall i | 0 <= i < |spec.drive| && spec.drive[i].verdict == "reject"
      ensures OpId(i) in truth && truth[OpId(i)] == Raised(spec.rejectException)
    {
      RefusalChecked(spec, i);
      assert HeldBy(Raises(OpId(i), spec.rejectException), truth);
    }
    forall q | q in spec.quantities ensures Returns(truth, FINAL + q, Amounts(spec.expectFinal)(q)) {
      ReadChecked(FINAL, spec.quantities, Amounts(spec.expectFinal), q);
      assert HeldBy(ReturnsEquals(FINAL + q, Number(Amounts(spec.expectFinal)(q))), truth);
    }
  }

  lemma MetOpCheck(spec: Spec, truth: map<string, Outcome>, i: nat, c: Check)
    requires ReadingsMeet(spec, truth) && RefusalsMeet(spec, truth)
    requires i < |spec.drive| && ValidOp(spec.drive[i], spec.quantities) && CheckOf(spec, i, c)
    ensures HeldBy(c, truth)
  {
    if c.ReturnsEquals? {
      var q :| q in spec.quantities && c == ReadCheck(spec, i, q);
      assert Returns(truth, ReadPrefix(i) + q, Shadow(spec, i + 1)(q));
    }
  }

  lemma MetFinalCheck(spec: Spec, truth: map<string, Outcome>, c: Check)
    requires FinalsMeet(spec, truth) && c in ReadChecks(FINAL, spec.quantities, Amounts(spec.expectFinal))
    ensures HeldBy(c, truth)
  {
    ReadChecksAre(FINAL, spec.quantities, Amounts(spec.expectFinal), c);
    var q :| q in spec.quantities && c == ReturnsEquals(FINAL + q, Number(Amounts(spec.expectFinal)(q)));
    assert Returns(truth, FINAL + q, Amounts(spec.expectFinal)(q));
  }

  lemma MetCheck(spec: Spec, truth: map<string, Outcome>, c: Check)
    requires ValidSpec(spec) && c in Checks(spec)
    requires ReadingsMeet(spec, truth) && RefusalsMeet(spec, truth) && FinalsMeet(spec, truth)
    ensures HeldBy(c, truth)
  {
    if c in ChecksUpTo(spec, |spec.drive|) {
      ChecksAre(spec, |spec.drive|, c);
      var i: nat :| i < |spec.drive| && CheckOf(spec, i, c);
      assert spec.drive[i] in spec.drive;
      MetOpCheck(spec, truth, i, c);
    } else {
      MetFinalCheck(spec, truth, c);
    }
  }

  lemma AllTrueIffMet(spec: Spec, truth: map<string, Outcome>)
    requires ValidSpec(spec)
    ensures AllTrue(Checks(spec), truth) <==>
            ReadingsMeet(spec, truth) && RefusalsMeet(spec, truth) && FinalsMeet(spec, truth)
  {
    if AllTrue(Checks(spec), truth) { TrueMeets(spec, truth); }
    if ReadingsMeet(spec, truth) && RefusalsMeet(spec, truth) && FinalsMeet(spec, truth) {
      forall c | c in Checks(spec) ensures HeldBy(c, truth) { MetCheck(spec, truth, c); }
    }
  }

  /** An entity that plays fair and raises only plain exceptions passes exactly when the names can be
      reported, every reading after an operation and at the end returned what is declared, and every
      operation that is to be refused raised what is declared. */
  lemma PassesIffEveryReadingMeets<S>(codec: Codec, p: Process<S, Request>, entity: string, spec: Spec)
    requires ValidSpec(spec) && PlaysFair(codec, p, entity, spec) && CleanRun(p, Calls(entity, spec))
    ensures var truth := Happened(p, entity, spec);
            Passes(codec, p, entity, spec) <==>
            ReportableSpec(spec) && ReadingsMeet(spec, truth) && RefusalsMeet(spec, truth) && FinalsMeet(spec, truth)
  {
    if ReportableSpec(spec) {
      PlanIsGood(entity, spec);
      DiscreetPassesIffTrue(codec, p, Calls(entity, spec), Checks(spec));
      AllTrueIffMet(spec, Happened(p, entity, spec));
    } else {
      UnreportableNeverPasses(codec, p, entity, spec);
    }
  }

  // ---- Entities whose reads change nothing -----------------------------------------------

  ghost predicate ReadsArePure<S(!new)>(p: Process<S, Request>, spec: Spec) {
    forall s, q :: q in spec.quantities ==> p.step(s, Request(Target(q), [])).state == s
  }

  /** The states of this very run: those before, and after, its operations. */
  ghost function Visited<S>(p: Process<S, Request>, entity: string, spec: Spec): (S, int) -> bool {
    (s: S, k: int) => 0 <= k <= |spec.drive| && s == After(p, CallsUpTo(entity, spec, k))
  }

  lemma {:induction false} PureReads<S(!new)>(p: Process<S, Request>, calls: seq<Call<Request>>, prefix: string, quantities: seq<string>, spec: Spec)
    requires ReadsArePure(p, spec) && forall q :: q in quantities ==> q in spec.quantities
    ensures After(p, calls + ReadCalls(prefix, quantities)) == After(p, calls)
  {
    if quantities == [] {
      assert calls + [] == calls;
    } else {
      var init, q := quantities[..|quantities| - 1], quantities[|quantities| - 1];
      var last := ApiCall(prefix + q, Target(q), []);
      assert q in quantities && forall r :: r in init ==> r in quantities;
      PureReads(p, calls, prefix, init, spec);
      assert calls + ReadCalls(prefix, quantities) == (calls + ReadCalls(prefix, init)) + [last];
      OneMore(p, calls + ReadCalls(prefix, init), last);
    }
  }

  /** How a call of a run ended, from the state before it. */
  lemma CallOutcome<S>(p: Process<S, Request>, before: seq<Call<Request>>, c: Call<Request>, calls: seq<Call<Request>>)
    requires before + [c] <= calls && NoDup(Ids(calls))
    ensures var outcome := p.step(After(p, before), c.what).outcome; var truth := Truth(p, calls);
            (c.id in truth <==> outcome.Some?) && (c.id in truth ==> Some(truth[c.id]) == outcome)
  {
    var i := |before|;
    assert calls[..i + 1] == before + [c] && calls[i] == (before + [c])[i];
    TruthAt(p, calls, i);
    OneMore(p, before, c);
  }

  lemma {:induction false} CleanAt<S>(p: Process<S, Request>, before: seq<Call<Request>>, c: Call<Request>, calls: seq<Call<Request>>)
    requires CleanRun(p, calls) && before + [c] <= calls
    ensures CleanRun(p, before) && Clean(p.step(After(p, before), c.what).outcome)
    decreases |calls|
  {
    if |calls| == |before| + 1 {
      assert calls == before + [c];
      OneMore(p, before, c);
    } else {
      CleanAt(p, before, c, calls[..|calls| - 1]);
    }
  }

  lemma {:induction false} ReadCallsFrom(prefix: string, quantities: seq<string>, j: nat)
    requires j < |quantities|
    ensures ReadCalls(prefix, quantities[..j]) + [ApiCall(prefix + quantities[j], Target(quantities[j]), [])] <= ReadCalls(prefix, quantities)
  {
    var init := quantities[..|quantities| - 1];
    if j < |init| {
      ReadCallsFrom(prefix, init, j);
      assert init[..j] == quantities[..j];
    }
  }

  /** The calls up to that of operation `i`, and those up to the reading of quantity `j` after it. */
  function ToOp(entity: string, spec: Spec, i: nat): seq<Call<Request>>
    requires i < |spec.drive|
  {
    CallsUpTo(entity, spec, i) + [OpCall(spec, i)]
  }

  function ToRead(entity: string, spec: Spec, i: nat, j: nat): seq<Call<Request>>
    requires i < |spec.drive| && j <= |spec.quantities|
  {
    ToOp(entity, spec, i) + ReadCalls(ReadPrefix(i), spec.quantities[..j])
  }

  lemma AllReadsDone(entity: string, spec: Spec, i: nat)
    requires i < |spec.drive|
    ensures ToRead(entity, spec, i, |spec.quantities|) == CallsUpTo(entity, spec, i + 1)
  {
    assert spec.quantities[..|spec.quantities|] == spec.quantities;
  }

  lemma PrefixJoin<T>(a: seq<T>, b: seq<T>, c: seq<T>, whole: seq<T>)
    requires b <= c && a + c <= whole
    ensures a + b <= whole
  {
  }

  lemma {:induction false} PlannedPrefix(entity: string, spec: Spec, i: nat, k: nat)
    requires i <= k <= |spec.drive|
    ensures CallsUpTo(entity, spec, i) <= CallsUpTo(entity, spec, k)
  {
    if i < k { PlannedPrefix(entity, spec, i, k - 1); }
  }

  lemma ReadCallPlanned(entity: string, spec: Spec, i: nat, j: nat)
    requires i < |spec.drive| && j < |spec.quantities|
    ensures ToRead(entity, spec, i, j) + [ApiCall(ReadPrefix(i) + spec.quantities[j], Target(spec.quantities[j]), [])] <= Calls(entity, spec)
  {
    var q := spec.quantities[j];
    var some, more, all := ReadCalls(ReadPrefix(i), spec.quantities[..j]), [ApiCall(ReadPrefix(i) + q, Target(q), [])], ReadCalls(ReadPrefix(i), spec.quantities);
    ReadCallsFrom(ReadPrefix(i), spec.quantities, j);
    PlannedPrefix(entity, spec, i + 1, |spec.drive|);
    AllReadsDone(entity, spec, i);
    assert ToRead(entity, spec, i, |spec.quantities|) == ToOp(entity, spec, i) + all;
    PrefixJoin(ToOp(entity, spec, i), some + more, all, Calls(entity, spec));
    assert ToRead(entity, spec, i, j) + more == ToOp(entity, spec, i) + (some + more);
  }

  /** Where reads change nothing, all reads after an operation are made in the state after it. */
  lemma StateAtRead<S(!new)>(p: Process<S, Request>, entity: string, spec: Spec, i: nat, j: nat)
    requires ReadsArePure(p, spec) && i < |spec.drive| && j <= |spec.quantities|
    ensures After(p, ToRead(entity, spec, i, j)) == After(p, ToOp(entity, spec, i)) == After(p, CallsUpTo(entity, spec, i + 1))
  {
    PureReads(p, ToOp(entity, spec, i), ReadPrefix(i), spec.quantities[..j], spec);
    PureReads(p, ToOp(entity, spec, i), ReadPrefix(i), spec.quantities[..|spec.quantities|], spec);
    AllReadsDone(entity, spec, i);
  }

  lemma ReadOutcome<S(!new)>(p: Process<S, Request>, entity: string, spec: Spec, i: nat, q: string)
    requires ValidSpec(spec) && ReadsArePure(p, spec) && i < |spec.drive| && q in spec.quantities
    requires ReadingsMeet(spec, Happened(p, entity, spec))
    ensures p.step(After(p, CallsUpTo(entity, spec, i + 1)), Request(Target(q), [])).outcome
            == Some(Returned(Number(Shadow(spec, i + 1)(q))))
  {
    var j :| 0 <= j < |spec.quantities| && spec.quantities[j] == q;
    CallIdsDistinct(entity, spec);
    ReadCallPlanned(entity, spec, i, j);
    StateAtRead(p, entity, spec, i, j);
    CallOutcome(p, ToRead(entity, spec, i, j), ApiCall(ReadPrefix(i) + q, Target(q), []), Calls(entity, spec));
    assert Returns(Happened(p, entity, spec), ReadPrefix(i) + q, Shadow(spec, i + 1)(q));
  }

  /** Reading a quantity in the state after `k` operations. */
  ghost predicate ReadsAs<S(!new)>(p: Process<S, Request>, spec: Spec, s: S, k: nat, q: string)
    requires k <= |spec.drive|
  {
    var r := p.step(s, Request(Target(q), []));
    r.outcome == Some(Returned(Number(Shadow(spec, k)(q)))) && r.state == s
  }

  lemma VisitedReadsAs<S(!new)>(p: Process<S, Request>, entity: string, spec: Spec, k: nat, q: string)
    requires ValidSpec(spec) && ReadsArePure(p, spec) && ReadingsMeet(spec, Happened(p, entity, spec))
    requires 1 <= k <= |spec.drive| && q in spec.quantities
    ensures ReadsAs(p, spec, After(p, CallsUpTo(entity, spec, k)), k, q)
  {
    ReadOutcome(p, entity, spec, k - 1, q);
  }

  lemma VisitedReadable<S(!new)>(p: Process<S, Request>, entity: string, spec: Spec)
    requires ValidSpec(spec) && ReadsArePure(p, spec) && ReadingsMeet(spec, Happened(p, entity, spec))
    ensures Readable(p, spec, Visited(p, entity, spec))
  {
    forall k: nat, q | 1 <= k <= |spec.drive| && q in spec.quantities
      ensures ReadsAs(p, spec, After(p, CallsUpTo(entity, spec, k)), k, q)
    {
      VisitedReadsAs(p, entity, spec, k, q);
    }
    ReadableIf(p, spec, k => if 0 <= k <= |spec.drive| then After(p, CallsUpTo(entity, spec, k)) else p.start,
      Visited(p, entity, spec));
  }

  lemma ReadableIf<S(!new)>(p: Process<S, Request>, spec: Spec, at: int -> S, shows: (S, int) -> bool)
    requires forall s, k :: shows(s, k) ==> 0 <= k <= |spec.drive| && s == at(k)
    requires forall k: nat :: k <= |spec.drive| ==> shows(at(k), k)
    requires forall k: nat, q :: 1 <= k <= |spec.drive| && q in spec.quantities ==> ReadsAs(p, spec, at(k), k, q)
    ensures Readable(p, spec, shows)
  {
    forall s, k: nat, q | shows(s, k) && 1 <= k <= |spec.drive| && q in spec.quantities
      ensures var r := p.step(s, Request(Target(q), []));
              r.outcome == Some(Returned(Number(Shadow(spec, k)(q)))) && shows(r.state, k)
    {
      assert ReadsAs(p, spec, at(k), k, q);
    }
  }

  lemma VisitedApplies<S(!new)>(p: Process<S, Request>, entity: string, spec: Spec, i: nat)
    requires ValidSpec(spec) && ReadsArePure(p, spec) && i < |spec.drive|
    requires RefusalsMeet(spec, Happened(p, entity, spec)) && CleanRun(p, Calls(entity, spec))
    ensures Applies(p, spec, i, Visited(p, entity, spec))
  {
    OpOutcome(p, entity, spec, i);
    OneMore(p, CallsUpTo(entity, spec, i), OpCall(spec, i));
    StateAtRead(p, entity, spec, i, 0);
  }

  /** How operation `i` ended, from the state before it. */
  lemma OpOutcome<S>(p: Process<S, Request>, entity: string, spec: Spec, i: nat)
    requires ValidSpec(spec) && i < |spec.drive|
    requires RefusalsMeet(spec, Happened(p, entity, spec)) && CleanRun(p, Calls(entity, spec))
    ensures var outcome := p.step(After(p, CallsUpTo(entity, spec, i)), OpCall(spec, i).what).outcome;
            Clean(outcome) && (spec.drive[i].verdict == "reject" ==> outcome == Some(Raised(spec.rejectException)))
  {
    PlanStartsWith(entity, spec, i, |spec.drive|);
    CallIdsDistinct(entity, spec);
    CallOutcome(p, CallsUpTo(entity, spec, i), OpCall(spec, i), Calls(entity, spec));
    CleanAt(p, CallsUpTo(entity, spec, i), OpCall(spec, i), Calls(entity, spec));
  }

  /** If no read changes anything, an entity that plays fair and raises only plain exceptions passes a
      reportable, consistent specification exactly when it is honest in the states it goes through: for
      such entities honesty is not only enough to pass. */
  lemma PassesIffHonest<S(!new)>(codec: Codec, p: Process<S, Request>, entity: string, spec: Spec)
    requires ValidSpec(spec) && Consistent(spec) && ReportableSpec(spec) && ReadsArePure(p, spec)
    requires PlaysFair(codec, p, entity, spec) && CleanRun(p, Calls(entity, spec))
    ensures Passes(codec, p, entity, spec) <==> Honest(p, entity, spec, Visited(p, entity, spec))
  {
    if Passes(codec, p, entity, spec) {
      PassesIffEveryReadingMeets(codec, p, entity, spec);
      VisitedReadable(p, entity, spec);
      forall i | 0 <= i < |spec.drive| ensures Applies(p, spec, i, Visited(p, entity, spec)) {
        VisitedApplies(p, entity, spec, i);
      }
      PlanStartsWith(entity, spec, 0, |spec.drive|);
      CleanAt(p, CallsUpTo(entity, spec, 0), OpCall(spec, 0), Calls(entity, spec));
    }
    if Honest(p, entity, spec, Visited(p, entity, spec)) {
      HonestEntityPasses(codec, p, entity, spec, Visited(p, entity, spec));
    }
  }

  // ---- What is not checked ---------------------------------------------------------------

  /** The ids of the operations that are to be accepted. */
  ghost predicate AcceptedId(spec: Spec, id: string) {
    exists i: nat :: i < |spec.drive| && spec.drive[i].verdict == "accept" && id == OpId(i)
  }

  ghost predicate DifferInAcceptedOnly(spec: Spec, t: map<string, Outcome>, u: map<string, Outcome>) {
    forall id :: !AcceptedId(spec, id) ==> (id in t <==> id in u) && (id in t ==> t[id] == u[id])
  }

  lemma AcceptedUnchecked(spec: Spec, c: Check)
    requires c in Checks(spec)
    ensures !AcceptedId(spec, c.id)
  {
    LateCheck(spec, c);
    if AcceptedId(spec, c.id) {
      var i: nat :| i < |spec.drive| && spec.drive[i].verdict == "accept" && c.id == OpId(i);
      assert OpId(i)[0] == 'o' && OfOp(i, c.id);
      ChecksAre(spec, |spec.drive|, c);
      var j: nat :| j < |spec.drive| && CheckOf(spec, j, c);
      CheckOwner(spec, j, c);
      OwnerUnique(i, j, c.id);
    }
  }

  /** Whatever the accepted operations themselves return or cleanly raise, the verdict is the same:
      they are judged by the readings after them alone. */
  lemma AcceptedOutcomeIgnored<S, T>(codec: Codec, p: Process<S, Request>, f: Process<T, Request>, entity: string, spec: Spec)
    requires ValidSpec(spec) && ReportableSpec(spec)
    requires PlaysFair(codec, p, entity, spec) && CleanRun(p, Calls(entity, spec))
    requires PlaysFair(codec, f, entity, spec) && CleanRun(f, Calls(entity, spec))
    requires DifferInAcceptedOnly(spec, Happened(p, entity, spec), Happened(f, entity, spec))
    ensures Passes(codec, p, entity, spec) <==> Passes(codec, f, entity, spec)
  {
    PlanIsGood(entity, spec);
    DiscreetPassesIffTrue(codec, p, Calls(entity, spec), Checks(spec));
    DiscreetPassesIffTrue(codec, f, Calls(entity, spec), Checks(spec));
    forall c | c in Checks(spec)
      ensures HeldBy(c, Happened(p, entity, spec)) <==> HeldBy(c, Happened(f, entity, spec))
    {
      AcceptedUnchecked(spec, c);
    }
  }

  /** If a call raises `w__x`, this is read as the report of `x` for a longer id. */
  lemma MisreadException<S>(codec: Codec, p: Process<S, Request>, calls: seq<Call<Request>>, c: Call<Request>, w: string, x: string)
    requires IdReported(c.id) && IdChars(w) && PlainException(x)
    requires LastReaction(p, calls + [c]).outcome == Some(Raised(w + "__" + x))
    ensures c.id + "__" + w in Own(codec, p, calls + [c]).raised
  {
    var id := c.id + "__" + w;
    assert id + "__" + x == c.id + "__" + (w + "__" + x);
    assert (calls + [c])[..|calls|] == calls;
    HeardRaise(codec, Own(codec, p, calls), id, x);
  }

  lemma MisreadOp<S>(codec: Codec, p: Process<S, Request>, calls: seq<Call<Request>>, spec: Spec, i: nat, w: string, x: string)
    requires i < |spec.drive| && IdChars(w) && PlainException(x)
    requires LastReaction(p, calls + [OpCall(spec, i)]).outcome == Some(Raised(w + "__" + x))
    ensures ReadPrefix(i) + ("_" + w) in Own(codec, p, calls + [OpCall(spec, i)]).raised
  {
    OpIdsReported(i);
    MisreadException(codec, p, calls, OpCall(spec, i), w, x);
    assert OpId(i) + "__" + w == ReadPrefix(i) + ("_" + w);
  }

  /** A checked reading that is also read as raised fails the entity. */
  lemma RaisedReadingFails<S>(codec: Codec, p: Process<S, Request>, entity: string, spec: Spec, i: nat, q: string)
    requires HeardOut(codec, p, entity, spec) && i < |spec.drive| && q in spec.quantities
    requires ReadPrefix(i) + q in Own(codec, p, Calls(entity, spec)).raised
    ensures !Passes(codec, p, entity, spec)
  {
    OpChecked(spec, |spec.drive|, i, q);
    assert ReadCheck(spec, i, q) in Checks(spec) && !Holds(ReadCheck(spec, i, q), Own(codec, p, Calls(entity, spec)));
    DiscreetVerdict(codec, p, Calls(entity, spec), Checks(spec));
  }

  /** An exception that is not plain can be read as one of a reading: if operation `i` raises `w__x`
      and `_w` is a quantity, this is the report of `x` for the reading of `_w`, and the entity fails. */
  lemma MisreadExceptionFails<S>(codec: Codec, p: Process<S, Request>, entity: string, spec: Spec, i: nat, w: string, x: string)
    requires HeardOut(codec, p, entity, spec) && i < |spec.drive|
    requires "_" + w in spec.quantities && IdChars(w) && PlainException(x)
    requires LastReaction(p, CallsUpTo(entity, spec, i) + [OpCall(spec, i)]).outcome == Some(Raised(w + "__" + x))
    ensures !Passes(codec, p, entity, spec)
  {
    MisreadOp(codec, p, CallsUpTo(entity, spec, i), spec, i, w, x);
    PlanStartsWith(entity, spec, i, |spec.drive|);
    RaisedStaysUpTo(codec, p, CallsUpTo(entity, spec, i) + [OpCall(spec, i)], Calls(entity, spec), ReadPrefix(i) + ("_" + w));
    RaisedReadingFails(codec, p, entity, spec, i, "_" + w);
  }

  lemma {:induction false} PlanStartsWith(entity: string, spec: Spec, i: nat, k: nat)
    requires i < k <= |spec.drive|
    ensures CallsUpTo(entity, spec, i) + [OpCall(spec, i)] <= CallsUpTo(entity, spec, k)
  {
    if i < k - 1 {
      PlanStartsWith(entity, spec, i, k - 1);
    } else {
      assert CallsUpTo(entity, spec, k) == CallsUpTo(entity, spec, i) + [OpCall(spec, i)] + ReadCalls(ReadPrefix(i), spec.quantities);
    }
  }

  // ---- A forged ledger -------------------------------------------------------------------

  lemma {:induction false} ReadsCovered(prefix: string, quantities: seq<string>, vector: string -> real)
    ensures Covered(ReadChecks(prefix, quantities, vector), ReadCalls(prefix, quantities))
  {
    if quantities != [] {
      var init, q := quantities[..|quantities| - 1], quantities[|quantities| - 1];
      ReadsCovered(prefix, init, vector);
      var last := [ApiCall(prefix + q, Target(q), [])];
      SingleId(last[0]);
      CoveredConcat(ReadChecks(prefix, init, vector), [ReturnsEquals(prefix + q, Number(vector(q)))],
        ReadCalls(prefix, init), last);
    }
  }

  lemma BlockCovered(spec: Spec, i: nat)
    requires i < |spec.drive|
    ensures Covered(BlockChecks(spec, i), Block(spec, i))
  {
    var op, readCalls := [OpCall(spec, i)], ReadCalls(ReadPrefix(i), spec.quantities);
    ReadsCovered(ReadPrefix(i), spec.quantities, Shadow(spec, i + 1));
    SingleId(op[0]);
    assert Covered(RefusalChecks(spec, i), op);
    CoveredConcat(RefusalChecks(spec, i), ReadChecks(ReadPrefix(i), spec.quantities, Shadow(spec, i + 1)), op, readCalls);
  }

  /** The checks of the first `k` operations are of calls made by then. */
  ghost predicate CoveredUpTo(entity: string, spec: Spec, k: nat)
    requires k <= |spec.drive|
  {
    Covered(ChecksUpTo(spec, k), CallsUpTo(entity, spec, k))
  }

  lemma PlanCoveredStep(entity: string, spec: Spec, i: nat)
    requires i < |spec.drive| && CoveredUpTo(entity, spec, i)
    ensures CoveredUpTo(entity, spec, i + 1)
  {
    BlockCovered(spec, i);
    CoveredConcat(ChecksUpTo(spec, i), BlockChecks(spec, i), CallsUpTo(entity, spec, i), Block(spec, i));
  }

  lemma {:induction false} PlanCovered(entity: string, spec: Spec, k: nat)
    requires k <= |spec.drive|
    ensures CoveredUpTo(entity, spec, k)
  {
    if k == 0 {
      PlanCoveredStart(entity, spec, k);
    } else {
      PlanCovered(entity, spec, k - 1);
      PlanCoveredStep(entity, spec, k - 1);
    }
  }

  lemma PlanCoveredStart(entity: string, spec: Spec, k: nat)
    requires k == 0
    ensures CoveredUpTo(entity, spec, k)
  {
  }

  lemma ChecksAskable(spec: Spec)
    requires ValidSpec(spec) && ReportableSpec(spec)
    ensures Askable(Checks(spec))
  {
    forall c | c in Checks(spec) && c.Raises? ensures PlainException(c.exception) {
      if c in ChecksUpTo(spec, |spec.drive|) {
        ChecksAre(spec, |spec.drive|, c);
        var i: nat :| i < |spec.drive| && CheckOf(spec, i, c);
        assert spec.drive[i] in spec.drive && ValidOp(spec.drive[i], spec.quantities);
      } else {
        ReadChecksAre(FINAL, spec.quantities, Amounts(spec.expectFinal), c);
      }
    }
  }

  /** The entity of which every read returns null, and which prints the expected report as it exits. */
  function ForgedLedger(codec: Codec, entity: string, spec: Spec): Process<int, Request> {
    Forgery(codec, Checks(spec), Calls(entity, spec))
  }

  /** For every reportable specification there are an encoding and an entity that plays fair and
      passes, unless its report is too long to be read whole. */
  lemma SomeEntityPlaysFair(entity: string, spec: Spec)
    requires ValidSpec(spec) && ReportableSpec(spec)
    ensures var codec, h := TableCodec(AskedValues(Checks(spec))), Obedient(Checks(spec), Calls(entity, spec));
            Fits(Stdout(codec, h, Calls(entity, spec))) ==> PlaysFair(codec, h, entity, spec) && Passes(codec, h, entity, spec)
  {
    var codec, h := TableCodec(AskedValues(Checks(spec))), Obedient(Checks(spec), Calls(entity, spec));
    if Fits(Stdout(codec, h, Calls(entity, spec))) {
      ForgeablePlan(entity, spec);
      SomeCodecExpresses(Checks(spec));
      ObedientPasses(codec, Checks(spec), Calls(entity, spec));
    }
  }

  /** What is asked for can be reported, call by call. */
  lemma ForgeablePlan(entity: string, spec: Spec)
    requires ValidSpec(spec) && ReportableSpec(spec)
    ensures GoodIds(Calls(entity, spec)) && Unambiguous(Checks(spec))
    ensures Askable(Checks(spec)) && Covered(Checks(spec), Calls(entity, spec))
  {
    PlanIsGood(entity, spec);
    ChecksUnambiguous(spec);
    ChecksAskable(spec);
    PlanChecksCovered(entity, spec);
  }

  lemma PlanChecksCovered(entity: string, spec: Spec)
    ensures Covered(Checks(spec), Calls(entity, spec))
  {
    PlanCovered(entity, spec, |spec.drive|);
    ReadsCovered(FINAL, spec.quantities, Amounts(spec.expectFinal));
    CoveredConcat(ChecksUpTo(spec, |spec.drive|), ReadChecks(FINAL, spec.quantities, Amounts(spec.expectFinal)),
      CallsUpTo(entity, spec, |spec.drive|), ReadCalls(FINAL, spec.quantities));
  }

  /** Whatever the specification, the forged ledger passes it, although no read of a quantity ever
      returned a number: only the lines are judged. */
  lemma ForgedLedgerPasses(codec: Codec, entity: string, spec: Spec)
    requires Expresses(codec, Checks(spec)) && ValidSpec(spec) && ReportableSpec(spec)
    requires Fits(Stdout(codec, ForgedLedger(codec, entity, spec), Calls(entity, spec)))
    ensures Passes(codec, ForgedLedger(codec, entity, spec), entity, spec)
    ensures forall i, q :: 0 <= i < |spec.drive| && q in spec.quantities ==>
              HeldBy(ReturnsEquals(ReadPrefix(i) + q, NULL), Happened(ForgedLedger(codec, entity, spec), entity, spec))
  {
    ForgeablePlan(entity, spec);
    ForgeryPasses(codec, Checks(spec), Calls(entity, spec));
    forall i, q | 0 <= i < |spec.drive| && q in spec.quantities
      ensures HeldBy(ReturnsEquals(ReadPrefix(i) + q, NULL), Happened(ForgedLedger(codec, entity, spec), entity, spec))
    {
      OpChecked(spec, |spec.drive|, i, q);
      assert ReadCheck(spec, i, q) in Checks(spec);
      ForgedValueIsNull(codec, Checks(spec), Calls(entity, spec), ReadCheck(spec, i, q));
    }
  }
}
