/**
 * The conservation oracle: what a well-formed specification is, the plan of calls and checks
 * rendered from it, and what passing or failing those checks says about the driven entity.
 */
module Conservation {
  import opened Decimals
  import opened Driving
  import opened ImportDriver
  import opened Sequences

  /** An optional dictionary entry of the specification. */
  datatype Field = Absent | NotADict | Dict(entries: map<string, Value>)

  /** One driven operation. A name of the wrong type is represented by the empty string, and
      `argsOk` says that `args` and `kwargs` are a list and a dictionary when present. */
  datatype Op = Op(action: string, verdict: string, argsOk: bool, args: seq<string>, deltas: Field)

  /** A specification; a list of the wrong type is represented by the empty list. */
  datatype Spec = Spec(quantities: seq<string>, initial: Field, drive: seq<Op>, expectFinal: Field,
                       rejectException: string, constructArgs: seq<string>)

  // ---- Well-formedness -------------------------------------------------------------------

  function Amount(m: map<string, Value>, q: string): real {
    if q in m && m[q].Number? then m[q].n else 0.0
  }

  function Amounts(f: Field): string -> real {
    q => if f.Dict? then Amount(f.entries, q) else 0.0
  }

  /** The sum of a vector of quantities. */
  function Total(quantities: seq<string>, vector: string -> real): real {
    if quantities == [] then 0.0
    else Total(quantities[..|quantities| - 1], vector) + vector(quantities[|quantities| - 1])
  }

  /** A dictionary with exactly the given keys and only numbers. */
  predicate IsVector(f: Field, quantities: seq<string>) {
    f.Dict? && f.entries.Keys == Elements(quantities) && forall q :: q in f.entries ==> f.entries[q].Number?
  }

  /** The changes declared by an accepted operation: of known quantities, summing to zero. */
  predicate Conserves(deltas: Field, quantities: seq<string>) {
    && deltas.Dict? && deltas.entries != map[]
    && (forall q :: q in deltas.entries ==> q in quantities && deltas.entries[q].Number?)
    && Total(quantities, Amounts(deltas)) == 0.0
  }

  predicate ValidOp(op: Op, quantities: seq<string>) {
    && IsIdentifier(op.action) && op.argsOk
    && (op.verdict == "accept" || op.verdict == "reject")
    && (op.verdict == "accept" ==> Conserves(op.deltas, quantities))
    && (op.verdict == "reject" ==> op.deltas.Absent?)
  }

  predicate ValidQuantities(quantities: seq<string>) {
    && quantities != [] && NoDup(quantities)
    && forall q :: q in quantities ==> IsIdentifier(q)
  }

  predicate ValidSpec(spec: Spec) {
    && ValidQuantities(spec.quantities) && IsVector(spec.initial, spec.quantities)
    && spec.drive != [] && (forall op :: op in spec.drive ==> ValidOp(op, spec.quantities))
    && IsVector(spec.expectFinal, spec.quantities) && IsIdentifier(spec.rejectException)
  }

  lemma {:induction false} CountedDistinct(s: seq<string>)
    ensures |Elements(s)| <= |s|
    ensures |Elements(s)| == |s| ==> NoDup(s)
  {
    if s != [] {
      var init, x := s[..|s| - 1], s[|s| - 1];
      CountedDistinct(init);
      assert Elements(s) == Elements(init) + {x};
    }
  }

  method ValidateDeltas(deltas: Field, quantities: seq<string>) returns (ok: bool)
    ensures ok <==> Conserves(deltas, quantities)
  {
    if !deltas.Dict? || deltas.entries == map[] { return false; }
    var left := deltas.entries.Keys;
    while left != {}
      invariant left <= deltas.entries.Keys
      invariant forall q :: q in deltas.entries && q !in left ==> q in quantities && deltas.entries[q].Number?
    {
      var q :| q in left;
      if q !in quantities || !deltas.entries[q].Number? { return false; }
      left := left - {q};
    }
    var total := 0.0;
    for i := 0 to |quantities|
      invariant total == Total(quantities[..i], Amounts(deltas))
    {
      assert quantities[..i + 1][..i] == quantities[..i];
      total := total + Amounts(deltas)(quantities[i]);
    }
    assert quantities[..|quantities|] == quantities;
    return total == 0.0;
  }

  method ValidateOp(op: Op, quantities: seq<string>) returns (ok: bool)
    ensures ok <==> ValidOp(op, quantities)
  {
    if !IsIdentifier(op.action) || (op.verdict != "accept" && op.verdict != "reject") || !op.argsOk {
      return false;
    }
    if op.verdict == "accept" {
      ok := ValidateDeltas(op.deltas, quantities);
    } else {
      ok := op.deltas.Absent?;
    }
  }

  method ValidateSpec(spec: Spec) returns (ok: bool)
    ensures ok <==> ValidSpec(spec)
  {
    if spec.quantities == [] || exists q :: q in spec.quantities && !IsIdentifier(q) { return false; }
    CountedDistinct(spec.quantities);
    if NoDup(spec.quantities) { ElementsCount(spec.quantities); }
    if |Elements(spec.quantities)| != |spec.quantities| { return false; }
    if !IsVector(spec.initial, spec.quantities) { return false; }
    if spec.drive == [] { return false; }
    for i := 0 to |spec.drive|
      invariant forall j :: 0 <= j < i ==> ValidOp(spec.drive[j], spec.quantities)
    {
      var valid := ValidateOp(spec.drive[i], spec.quantities);
      if !valid {
        assert spec.drive[i] in spec.drive;
        return false;
      }
    }
    return IsVector(spec.expectFinal, spec.quantities) && IsIdentifier(spec.rejectException);
  }

  // ---- The expected vectors --------------------------------------------------------------

  /** The quantities expected after the first `k` operations. */
  function Shadow(spec: Spec, k: nat): string -> real
    requires k <= |spec.drive|
  {
    if k == 0 then Amounts(spec.initial)
    else if spec.drive[k - 1].verdict == "accept" then
      var before, change := Shadow(spec, k - 1), Amounts(spec.drive[k - 1].deltas);
      q => before(q) + change(q)
    else Shadow(spec, k - 1)
  }

  /** The script's own changes lead to the declared final quantities. */
  predicate Consistent(spec: Spec) {
    forall q :: q in spec.quantities ==> Shadow(spec, |spec.drive|)(q) == Amounts(spec.expectFinal)(q)
  }

  lemma {:induction false} TotalAdds(quantities: seq<string>, f: string -> real, g: string -> real, h: string -> real)
    requires forall q :: q in quantities ==> h(q) == f(q) + g(q)
    ensures Total(quantities, h) == Total(quantities, f) + Total(quantities, g)
  {
    if quantities != [] {
      TotalAdds(quantities[..|quantities| - 1], f, g, h);
    }
  }

  lemma {:induction false} TotalAgrees(quantities: seq<string>, f: string -> real, g: string -> real)
    requires forall q :: q in quantities ==> f(q) == g(q)
    ensures Total(quantities, f) == Total(quantities, g)
  {
    if quantities != [] {
      TotalAgrees(quantities[..|quantities| - 1], f, g);
    }
  }

  /** The conservation law: every expected vector has the total of the initial one. */
  lemma {:induction false} ExpectedTotalConstant(spec: Spec, k: nat)
    requires ValidSpec(spec) && k <= |spec.drive|
    ensures Total(spec.quantities, Shadow(spec, k)) == Total(spec.quantities, Amounts(spec.initial))
  {
    if k > 0 {
      ExpectedTotalConstant(spec, k - 1);
      var op := spec.drive[k - 1];
      assert ValidOp(op, spec.quantities);
      if op.verdict == "accept" {
        TotalAdds(spec.quantities, Shadow(spec, k - 1), Amounts(op.deltas), Shadow(spec, k));
      }
    }
  }

  /** A specification whose final total differs from its initial one is never consistent. */
  lemma DifferentTotalsInconsistent(spec: Spec)
    requires ValidSpec(spec)
    requires Total(spec.quantities, Amounts(spec.expectFinal)) != Total(spec.quantities, Amounts(spec.initial))
    ensures !Consistent(spec)
  {
    ExpectedTotalConstant(spec, |spec.drive|);
    if Consistent(spec) {
      TotalAgrees(spec.quantities, Shadow(spec, |spec.drive|), Amounts(spec.expectFinal));
    }
  }

  /** The quantities expected: the declared initial ones, and after each operation what was expected
      before, with the declared change of an accepted one. */
  lemma ExpectedIs(spec: Spec, k: nat, q: string)
    requires ValidSpec(spec) && q in spec.quantities
    ensures q in spec.initial.entries && spec.initial.entries[q] == Number(Shadow(spec, 0)(q))
    ensures k < |spec.drive| ==>
              var op := spec.drive[k];
              Shadow(spec, k + 1)(q) == Shadow(spec, k)(q) +
              if op.verdict == "accept" && op.deltas.Dict? && q in op.deltas.entries && op.deltas.entries[q].Number?
              then op.deltas.entries[q].n else 0.0
    ensures Consistent(spec) ==> spec.expectFinal.entries[q] == Number(Shadow(spec, |spec.drive|)(q))
  {
    assert q in Elements(spec.quantities);
  }

  /** What is wrong with a specification that is refused. */
  lemma InvalidIff(spec: Spec)
    ensures !ValidSpec(spec) <==>
              || spec.quantities == [] || !NoDup(spec.quantities) || (exists q :: q in spec.quantities && !IsIdentifier(q))
              || !IsVector(spec.initial, spec.quantities) || !IsVector(spec.expectFinal, spec.quantities)
              || spec.drive == [] || !IsIdentifier(spec.rejectException)
              || exists op :: op in spec.drive && BadOp(op, spec.quantities)
  {
    forall op | op in spec.drive ensures ValidOp(op, spec.quantities) <==> !BadOp(op, spec.quantities) {
      OpInvalidIff(op, spec.quantities);
    }
  }

  ghost predicate BadOp(op: Op, quantities: seq<string>) { !ValidOp(op, quantities) }

  /** What is wrong with an operation that is refused: its action is no identifier, its arguments are no
      list and dictionary, its verdict is neither, it is to be refused and declares changes, or it is to
      be accepted and declares none, or some that are no number, of no quantity or not balanced. */
  lemma OpInvalidIff(op: Op, quantities: seq<string>)
    ensures !ValidOp(op, quantities) <==>
              || !IsIdentifier(op.action) || !op.argsOk || (op.verdict != "accept" && op.verdict != "reject")
              || (op.verdict == "reject" && op.deltas != Absent)
              || (op.verdict == "accept" &&
                  (|| !op.deltas.Dict? || |op.deltas.entries| == 0
                   || (exists q :: q in op.deltas.entries && (q !in quantities || !op.deltas.entries[q].Number?))
                   || Total(quantities, Amounts(op.deltas)) != 0.0))
  {
  }

  /** A vector of quantities has each of them, nothing else, and numbers only. */
  lemma VectorIs(f: Field, quantities: seq<string>)
    ensures IsVector(f, quantities) <==>
              && f.Dict? && (forall q :: q in quantities <==> q in f.entries)
              && forall q :: q in f.entries ==> f.entries[q].Number?
  {
    if f.Dict? && forall q :: q in quantities <==> q in f.entries {
      assert f.entries.Keys == Elements(quantities);
    }
    assert f.Dict? && f.entries.Keys == Elements(quantities) ==> forall q :: q in quantities <==> q in f.entries.Keys;
  }

  // ---- The plan --------------------------------------------------------------------------

  /** What is called, and with what. */
  datatype Request = Request(target: string, args: seq<string>)

  function ApiCall(id: string, target: string, args: seq<string>): Call<Request> {
    Call(id, Request(target, args))
  }

  const ENTITY := "entity"

  function OpId(i: nat): string { "op" + Decimal(i) }

  function ReadPrefix(i: nat): string { OpId(i) + "_" }

  function Target(name: string): string { ENTITY + "." + name }

  /** One read of every quantity. */
  function ReadCalls(prefix: string, quantities: seq<string>): seq<Call<Request>> {
    if quantities == [] then []
    else
      var q := quantities[|quantities| - 1];
      ReadCalls(prefix, quantities[..|quantities| - 1]) + [ApiCall(prefix + q, Target(q), [])]
  }

  function ReadChecks(prefix: string, quantities: seq<string>, vector: string -> real): seq<Check> {
    if quantities == [] then []
    else
      var q := quantities[|quantities| - 1];
      ReadChecks(prefix, quantities[..|quantities| - 1], vector) + [ReturnsEquals(prefix + q, Number(vector(q)))]
  }

  function OpCall(spec: Spec, i: nat): Call<Request>
    requires i < |spec.drive|
  {
    ApiCall(OpId(i), Target(spec.drive[i].action), spec.drive[i].args)
  }

  function CallsUpTo(entity: string, spec: Spec, k: nat): seq<Call<Request>>
    requires k <= |spec.drive|
  {
    if k == 0 then [ApiCall(ENTITY, entity, spec.constructArgs)]
    else
      CallsUpTo(entity, spec, k - 1)
      + ([OpCall(spec, k - 1)] + ReadCalls(ReadPrefix(k - 1), spec.quantities))
  }

  function RefusalChecks(spec: Spec, i: nat): seq<Check>
    requires i < |spec.drive|
  {
    if spec.drive[i].verdict == "accept" then [] else [Raises(OpId(i), spec.rejectException)]
  }

  function ChecksUpTo(spec: Spec, k: nat): seq<Check>
    requires k <= |spec.drive|
  {
    if k == 0 then []
    else
      ChecksUpTo(spec, k - 1)
      + (RefusalChecks(spec, k - 1) + ReadChecks(ReadPrefix(k - 1), spec.quantities, Shadow(spec, k)))
  }

  const FINAL := "final_"

  function Calls(entity: string, spec: Spec): seq<Call<Request>> {
    CallsUpTo(entity, spec, |spec.drive|) + ReadCalls(FINAL, spec.quantities)
  }

  function Checks(spec: Spec): seq<Check> {
    ChecksUpTo(spec, |spec.drive|) + ReadChecks(FINAL, spec.quantities, Amounts(spec.expectFinal))
  }

  /** The plan: the entity is constructed; each operation is called by name with its arguments, and then
      every quantity is read; and in the end every quantity is read once more. */
  lemma PlanIs(entity: string, spec: Spec, k: nat)
    requires k < |spec.drive|
    ensures CallsUpTo(entity, spec, 0) == [Call("entity", Request(entity, spec.constructArgs))]
    ensures CallsUpTo(entity, spec, k + 1) ==
            CallsUpTo(entity, spec, k)
            + ([Call("op" + Decimal(k), Request("entity." + spec.drive[k].action, spec.drive[k].args))]
               + ReadCalls("op" + Decimal(k) + "_", spec.quantities))
    ensures Calls(entity, spec) == CallsUpTo(entity, spec, |spec.drive|) + ReadCalls("final_", spec.quantities)
    ensures ChecksUpTo(spec, 0) == []
    ensures ChecksUpTo(spec, k + 1) ==
            ChecksUpTo(spec, k)
            + ((if spec.drive[k].verdict == "accept" then [] else [Raises("op" + Decimal(k), spec.rejectException)])
               + ReadChecks("op" + Decimal(k) + "_", spec.quantities, Shadow(spec, k + 1)))
    ensures Checks(spec) == ChecksUpTo(spec, |spec.drive|) + ReadChecks("final_", spec.quantities, Amounts(spec.expectFinal))
  {
    assert "entity" + "." == "entity.";
  }

  /** Each read is a call without arguments, and is to return the amount of its quantity. */
  lemma {:induction false} ReadsAre(prefix: string, quantities: seq<string>, vector: string -> real, j: nat)
    requires j < |quantities|
    ensures |ReadCalls(prefix, quantities)| == |ReadChecks(prefix, quantities, vector)| == |quantities|
    ensures ReadCalls(prefix, quantities)[j] == Call(prefix + quantities[j], Request("entity." + quantities[j], []))
    ensures ReadChecks(prefix, quantities, vector)[j] == ReturnsEquals(prefix + quantities[j], Number(vector(quantities[j])))
  {
    assert "entity" + "." == "entity.";
    if |quantities| > 1 { ReadsAre(prefix, quantities[..|quantities| - 1], vector, if j < |quantities| - 1 then j else 0); }
  }

  lemma {:induction false} ReadChecksAgree(prefix: string, quantities: seq<string>, f: string -> real, g: string -> real)
    requires forall q :: q in quantities ==> f(q) == g(q)
    ensures ReadChecks(prefix, quantities, f) == ReadChecks(prefix, quantities, g)
  {
    if quantities != [] {
      ReadChecksAgree(prefix, quantities[..|quantities| - 1], f, g);
    }
  }

  /** The reads after one operation and what they must return, appended in quantity order. */
  method AddReads(prefix: string, quantities: seq<string>, vector: string -> real) returns (calls: seq<Call<Request>>, checks: seq<Check>)
    ensures calls == ReadCalls(prefix, quantities)
    ensures checks == ReadChecks(prefix, quantities, vector)
  {
    calls, checks := [], [];
    for i := 0 to |quantities|
      invariant calls == ReadCalls(prefix, quantities[..i])
      invariant checks == ReadChecks(prefix, quantities[..i], vector)
    {
      var q := quantities[i];
      assert quantities[..i + 1][..i] == quantities[..i];
      calls := calls + [ApiCall(prefix + q, Target(q), [])];
      checks := checks + [ReturnsEquals(prefix + q, Number(vector(q)))];
    }
    assert quantities[..|quantities|] == quantities;
  }

  /** The calls and checks of one operation, and the vector after it. */
  method PlanOp(spec: Spec, i: nat, shadow: string -> real)
    returns (calls: seq<Call<Request>>, checks: seq<Check>, next: string -> real)
    requires i < |spec.drive|
    requires forall q :: q in spec.quantities ==> shadow(q) == Shadow(spec, i)(q)
    ensures calls == [OpCall(spec, i)] + ReadCalls(ReadPrefix(i), spec.quantities)
    ensures checks == RefusalChecks(spec, i) + ReadChecks(ReadPrefix(i), spec.quantities, Shadow(spec, i + 1))
    ensures forall q :: q in spec.quantities ==> next(q) == Shadow(spec, i + 1)(q)
  {
    var op := spec.drive[i];
    next, checks := shadow, [];
    if op.verdict == "accept" {
      var change := Amounts(op.deltas);
      next := q => shadow(q) + change(q);
    } else {
      checks := [Raises(OpId(i), spec.rejectException)];
    }
    var readCalls, readChecks := AddReads(ReadPrefix(i), spec.quantities, next);
    ReadChecksAgree(ReadPrefix(i), spec.quantities, next, Shadow(spec, i + 1));
    calls := [ApiCall(OpId(i), Target(op.action), op.args)] + readCalls;
    checks := checks + readChecks;
  }

  method LandsOn(quantities: seq<string>, shadow: string -> real, final: string -> real) returns (ok: bool)
    ensures ok <==> forall q :: q in quantities ==> shadow(q) == final(q)
  {
    for i := 0 to |quantities|
      invariant forall j :: 0 <= j < i ==> shadow(quantities[j]) == final(quantities[j])
    {
      if shadow(quantities[i]) != final(quantities[i]) { return false; }
    }
    return true;
  }

  /** The plan builder: it walks the script with a running vector and refuses a script that does
      not lead to the declared final quantities. */
  method BuildDrivePlan(entity: string, spec: Spec) returns (planned: bool, calls: seq<Call<Request>>, checks: seq<Check>)
    requires ValidSpec(spec)
    ensures planned <==> Consistent(spec)
    ensures planned ==> calls == Calls(entity, spec) && checks == Checks(spec)
  {
    calls, checks := [ApiCall(ENTITY, entity, spec.constructArgs)], [];
    var shadow := Amounts(spec.initial);
    for i := 0 to |spec.drive|
      invariant calls == CallsUpTo(entity, spec, i) && checks == ChecksUpTo(spec, i)
      invariant forall q :: q in spec.quantities ==> shadow(q) == Shadow(spec, i)(q)
    {
      var opCalls, opChecks, next := PlanOp(spec, i, shadow);
      calls, checks, shadow := calls + opCalls, checks + opChecks, next;
    }
    var arrives := LandsOn(spec.quantities, shadow, Amounts(spec.expectFinal));
    if !arrives { return false, [], []; }
    var readCalls, readChecks := AddReads(FINAL, spec.quantities, Amounts(spec.expectFinal));
    planned, calls, checks := true, calls + readCalls, checks + readChecks;
  }
}
