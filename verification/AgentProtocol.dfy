/**
 * The two-party agent protocol: the generated skeleton's loop against the scripted, step-capped,
 * clamping stub, the verdict of the drive, and `check_agent`. The joint run is proved to have a closed
 * form, and termination is characterised exactly.
 */
module AgentProtocol {
  import opened Options
  import opened AgentText
  import opened PyText

  type Args<V> = map<string, V>

  datatype Turn<V> = ToolCall(name: string, args: Args<V>) | Final(text: string)

  /** A script entry before validation: what it has under `tool_call` and under `final`. */
  datatype RawTurn<V> = RawTurn(call: Option<RawCall<V>>, final: Option<string>)

  datatype RawCall<V> = RawCall(name: Option<string>, args: Option<Args<V>>)

  predicate ValidTurn<V>(raw: RawTurn<V>) {
    if raw.call.Some?
    then raw.final.None? && raw.call.value.name.Some? && raw.call.value.name.value != ""
    else raw.final.Some?
  }

  function TurnOf<V>(raw: RawTurn<V>): Turn<V>
    requires ValidTurn(raw)
  {
    if raw.call.Some?
    then ToolCall(raw.call.value.name.value,
                  if raw.call.value.args.Some? then raw.call.value.args.value else map[])
    else Final(raw.final.value)
  }

  method ValidateScript<V>(script: seq<RawTurn<V>>) returns (turns: Option<seq<Turn<V>>>)
    ensures turns.Some? <==>
              script != [] && forall i :: 0 <= i < |script| ==>
                if script[i].call.Some?
                then script[i].final == None && script[i].call.value.name.Some? && script[i].call.value.name != Some("")
                else script[i].final != None
    ensures turns.Some? ==>
              && |turns.value| == |script|
              && forall i :: 0 <= i < |script| ==>
                   var raw, turn := script[i], turns.value[i];
                   if turn.Final? then raw.call.None? && raw.final == Some(turn.text)
                   else raw.call.Some? && raw.final.None? && raw.call.value.name == Some(turn.name) && turn.name != ""
                        && turn.args == if raw.call.value.args.Some? then raw.call.value.args.value else map[]
  {
    if script == [] {
      return None;
    }
    var out: seq<Turn<V>> := [];
    for i := 0 to |script|
      invariant |out| == i
      invariant forall j :: 0 <= j < i ==> ValidTurn(script[j]) && out[j] == TurnOf(script[j])
    {
      var raw := script[i];
      if raw.call.Some? && raw.final.None? {
        if raw.call.value.name.None? || raw.call.value.name.value == "" {
          return None;
        }
        out := out + [ToolCall(raw.call.value.name.value,
                               if raw.call.value.args.Some? then raw.call.value.args.value else map[])];
      } else if raw.final.Some? && raw.call.None? {
        out := out + [Final(raw.final.value)];
      } else {
        return None;
      }
    }
    return Some(out);
  }

  // ---------------------------------------------------------------- the stub

  datatype Call<V> = Call(name: string, args: Args<V>)

  datatype Canned<V> = Single(value: V) | InTurn(values: seq<V>)

  /** How many of these calls were to `name`. */
  function CountCalls<V>(calls: seq<Call<V>>, name: string): nat {
    if calls == [] then 0
    else CountCalls(calls[..|calls| - 1], name) + if calls[|calls| - 1].name == name then 1 else 0
  }

  /** The observation of the (n+1)-th call of a tool: the last one again once they run out. */
  function Observation<V>(tools: map<string, Canned<V>>, name: string, n: nat): Option<V> {
    if name !in tools then None
    else match tools[name]
      case Single(v) => Some(v)
      case InTurn(vs) => if vs == [] then None else Some(vs[if n < |vs| - 1 then n else |vs| - 1])
  }

  /** The count is of the calls with that name. */
  lemma {:induction false} CountCallsIs<V>(calls: seq<Call<V>>, name: string)
    ensures CountCalls(calls, name) == |set k | 0 <= k < |calls| && calls[k].name == name|
  {
    if calls != [] {
      var init := calls[..|calls| - 1];
      CountCallsIs(init, name);
      OneMoreCounted(calls, name, set k | 0 <= k < |init| && init[k].name == name, set k | 0 <= k < |calls| && calls[k].name == name);
    }
  }

  lemma OneMoreCounted<V>(calls: seq<Call<V>>, name: string, before: set<int>, now: set<int>)
    requires calls != []
    requires forall k :: k in before <==> 0 <= k < |calls| - 1 && calls[k].name == name
    requires forall k :: k in now <==> 0 <= k < |calls| && calls[k].name == name
    ensures |now| == |before| + if calls[|calls| - 1].name == name then 1 else 0
  {
    var last := |calls| - 1;
    var more := if calls[last].name == name then {last} else {};
    forall k ensures k in now <==> k in before + more {
      if k == last { assert calls[k].name == calls[last].name; }
    }
    assert now == before + more;
  }

  /** The turn served at step `step` (from 1), the last one again once the script runs out. */
  function TurnAt<V>(turns: seq<Turn<V>>, step: nat): Turn<V>
    requires turns != [] && 1 <= step
  {
    turns[if step < |turns| then step - 1 else |turns| - 1]
  }

  class StubState<V> {
    const turns: seq<Turn<V>>
    const tools: map<string, Canned<V>>
    var chatCount: nat
    var toolCalls: seq<Call<V>>
    var nameCounts: map<string, nat>

    ghost predicate Valid()
      reads this
    {
      && turns != []
      && forall name :: CountCalls(toolCalls, name) == if name in nameCounts then nameCounts[name] else 0
    }

    constructor (turns: seq<Turn<V>>, tools: map<string, Canned<V>>)
      requires turns != []
      ensures Valid() && this.turns == turns && this.tools == tools
      ensures chatCount == 0 && toolCalls == []
    {
      this.turns, this.tools := turns, tools;
      chatCount, toolCalls, nameCounts := 0, [], map[];
    }

    method NextChatResponse(maxSteps: nat) returns (turn: Option<Turn<V>>)
      requires Valid()
      modifies this
      ensures Valid() && toolCalls == old(toolCalls) && chatCount == old(chatCount) + 1
      ensures turn == if chatCount > maxSteps then None else Some(turns[if chatCount < |turns| then chatCount - 1 else |turns| - 1])
    {
      chatCount := chatCount + 1;
      if chatCount > maxSteps {
        return None;
      }
      var idx := if chatCount - 1 < |turns| - 1 then chatCount - 1 else |turns| - 1;
      return Some(turns[idx]);
    }

    method RecordToolCall(name: string, args: Args<V>) returns (observation: Option<V>)
      requires Valid()
      modifies this
      ensures Valid() && chatCount == old(chatCount)
      ensures toolCalls == old(toolCalls) + [Call(name, args)]
      ensures observation == Observation(tools, name, CountCalls(old(toolCalls), name))
      ensures name !in tools ==> observation == None
      ensures name in tools ==>
                match tools[name]
                case Single(v) => observation == Some(v)
                case InTurn(vs) =>
                  var n := CountCalls(old(toolCalls), name);
                  observation == if vs == [] then None else if n < |vs| then Some(vs[n]) else Some(vs[|vs| - 1])
    {
      assert (toolCalls + [Call(name, args)])[..|toolCalls|] == toolCalls;
      toolCalls := toolCalls + [Call(name, args)];
      var n := if name in nameCounts then nameCounts[name] else 0;
      nameCounts := nameCounts[name := n + 1];
      if name !in tools {
        return None;
      }
      match tools[name] {
        case Single(v) => return Some(v);
        case InTurn(vs) =>
          if vs == [] {
            return None;
          }
          return Some(vs[if n < |vs| - 1 then n else |vs| - 1]);
      }
    }
  }

  /** A tool call of the skeleton, over the client and the stub's endpoint: `None` when the client
      refuses the URL or the stub answers 404, both of which raise in the skeleton. */
  method PostTool<V>(stub: StubState<V>, name: string, args: Args<V>) returns (response: Option<Option<V>>)
    requires stub.Valid()
    modifies stub
    ensures stub.Valid() && stub.chatCount == old(stub.chatCount)
    ensures response.None? <==> RecordedName(name).None?
    ensures response.None? ==> stub.toolCalls == old(stub.toolCalls)
    ensures response.Some? ==>
              && stub.toolCalls == old(stub.toolCalls) + [Call(RecordedName(name).value, args)]
              && response.value == Observation(stub.tools, RecordedName(name).value,
                                               CountCalls(old(stub.toolCalls), RecordedName(name).value))
  {
    ToolRoute(name);
    var path := ClientPath(TOOL_ROOT + name);
    if path.None? {
      return None;
    }
    var route := RouteOf(path.value);
    if !route.Tool? {
      return None;
    }
    var observation := stub.RecordToolCall(route.name, args);
    return Some(observation);
  }

  // ---------------------------------------------------------------- the closed form

  /** A turn at which the skeleton stops: a final answer, or a tool call that is not recorded. */
  predicate Stops<V>(turn: Turn<V>) {
    turn.Final? || RecordedName(turn.name).None?
  }

  /** The first step, from `step` on, at which the skeleton stops; past the cap it is refused. */
  function StopStep<V>(turns: seq<Turn<V>>, maxSteps: nat, step: nat): (stop: nat)
    requires turns != [] && 1 <= step <= maxSteps + 1
    ensures step <= stop <= maxSteps + 1
    ensures forall s :: step <= s < stop ==> !Stops(TurnAt(turns, s))
    ensures stop <= maxSteps ==> Stops(TurnAt(turns, stop))
    decreases maxSteps + 1 - step
  {
    if step > maxSteps || Stops(TurnAt(turns, step)) then step else StopStep(turns, maxSteps, step + 1)
  }

  function CallFor<V>(turn: Turn<V>): Call<V> {
    if turn.ToolCall? && RecordedName(turn.name).Some? then Call(RecordedName(turn.name).value, turn.args)
    else Call("", map[])
  }

  /** The calls recorded for the first `n` steps, when none of them stops the loop. */
  function CallsOf<V>(turns: seq<Turn<V>>, n: nat): (calls: seq<Call<V>>)
    requires turns != []
    ensures |calls| == n
  {
    if n == 0 then [] else CallsOf(turns, n - 1) + [CallFor(TurnAt(turns, n))]
  }

  /** Each call was told the observation its tool has for that many earlier calls. */
  ghost predicate ToldInTurn<V>(tools: map<string, Canned<V>>, calls: seq<Call<V>>, seen: seq<Option<V>>) {
    && |seen| == |calls|
    && (calls == [] ||
        (var init, call := calls[..|calls| - 1], calls[|calls| - 1];
         ToldInTurn(tools, init, seen[..|seen| - 1]) &&
         seen[|seen| - 1] == Observation(tools, call.name, CountCalls(init, call.name))))
  }

  lemma ToldSnoc<V>(tools: map<string, Canned<V>>, calls: seq<Call<V>>, seen: seq<Option<V>>, call: Call<V>)
    requires ToldInTurn(tools, calls, seen)
    ensures ToldInTurn(tools, calls + [call], seen + [Observation(tools, call.name, CountCalls(calls, call.name))])
  {
    assert (calls + [call])[..|calls|] == calls;
    assert (seen + [Observation(tools, call.name, CountCalls(calls, call.name))])[..|seen|] == seen;
  }

  /** The j-th call of a tool sees its j-th observation, the last one again once they run out. */
  lemma {:induction false} SeenAt<V>(tools: map<string, Canned<V>>, calls: seq<Call<V>>, seen: seq<Option<V>>, i: nat)
    requires ToldInTurn(tools, calls, seen) && i < |calls|
    ensures var name, c := calls[i].name, CountCalls(calls[..i], calls[i].name);
            if name !in tools then seen[i] == None
            else match tools[name]
              case Single(v) => seen[i] == Some(v)
              case InTurn(vs) => seen[i] == if vs == [] then None else if c < |vs| then Some(vs[c]) else Some(vs[|vs| - 1])
  {
    if i < |calls| - 1 {
      SeenAt(tools, calls[..|calls| - 1], seen[..|seen| - 1], i);
      assert calls[..|calls| - 1][..i] == calls[..i];
    }
  }

  datatype Exit = Finished(text: string) | Crashed

  function ExitAt<V>(turns: seq<Turn<V>>, maxSteps: nat): Exit
    requires turns != []
  {
    var stop := StopStep(turns, maxSteps, 1);
    if stop <= maxSteps && TurnAt(turns, stop).Final? then Finished(TurnAt(turns, stop).text) else Crashed
  }

  function Least(a: nat, b: nat): nat { if a < b then a else b }

  /** How many steps begin, and how many calls are recorded, when the agent is cut off with the answer
      to that many requests: the model and the tool are asked in turn. `None`: it is not cut off. */
  function StepsWithin(stop: nat, cutAt: Option<nat>): nat {
    if cutAt.None? then stop else Least(stop, (cutAt.value + 1) / 2)
  }

  function CallsWithin(stop: nat, cutAt: Option<nat>): nat
    requires stop > 0
  {
    if cutAt.None? then stop - 1 else Least(stop - 1, cutAt.value / 2)
  }

  /** The run gets to its own end. */
  predicate RunsToEnd(stop: nat, cutAt: Option<nat>) { cutAt.None? || cutAt.value >= 2 * stop }

  function ExitWithin<V>(turns: seq<Turn<V>>, maxSteps: nat, cutAt: Option<nat>): Exit
    requires turns != []
  {
    if RunsToEnd(StopStep(turns, maxSteps, 1), cutAt) then ExitAt(turns, maxSteps) else Crashed
  }

  lemma CutAfterAnswer(stop: nat, cutAt: Option<nat>, chats: nat)
    requires chats < stop && cutAt == Some(2 * chats + 1)
    ensures StepsWithin(stop, cutAt) == chats + 1 && CallsWithin(stop, cutAt) == chats && !RunsToEnd(stop, cutAt)
  {
  }

  lemma CutAfterCall(stop: nat, cutAt: Option<nat>, chats: nat)
    requires chats < stop && cutAt == Some(2 * chats)
    ensures StepsWithin(stop, cutAt) == CallsWithin(stop, cutAt) == chats && !RunsToEnd(stop, cutAt)
  {
  }

  lemma NotCut(stop: nat, cutAt: Option<nat>)
    requires stop > 0 && (cutAt.Some? ==> cutAt.value > 2 * stop - 1)
    ensures StepsWithin(stop, cutAt) == stop && CallsWithin(stop, cutAt) == stop - 1 && RunsToEnd(stop, cutAt)
  {
  }

  /** What holds once the loop has ended. */
  predicate EndedAs<V(==)>(turns: seq<Turn<V>>, maxSteps: nat, cutAt: Option<nat>, chats: nat, calls: nat, exit: Exit)
    requires turns != []
  {
    var stop := StopStep(turns, maxSteps, 1);
    chats == StepsWithin(stop, cutAt) && calls == CallsWithin(stop, cutAt) && exit == ExitWithin(turns, maxSteps, cutAt)
  }

  lemma CutShort<V>(turns: seq<Turn<V>>, maxSteps: nat, cutAt: Option<nat>, chats: nat, calls: nat)
    requires turns != [] && cutAt == Some(chats + calls) && (calls == chats || calls + 1 == chats)
    requires calls < StopStep(turns, maxSteps, 1)
    ensures EndedAs(turns, maxSteps, cutAt, chats, calls, Crashed)
  {
    if calls == chats {
      CutAfterCall(StopStep(turns, maxSteps, 1), cutAt, calls);
    } else {
      CutAfterAnswer(StopStep(turns, maxSteps, 1), cutAt, calls);
    }
  }

  lemma RanOut<V>(turns: seq<Turn<V>>, maxSteps: nat, cutAt: Option<nat>, chats: nat)
    requires turns != [] && chats == StopStep(turns, maxSteps, 1) && (cutAt.Some? ==> cutAt.value > 2 * chats - 1)
    ensures EndedAs(turns, maxSteps, cutAt, chats, chats - 1, ExitAt(turns, maxSteps))
  {
    NotCut(chats, cutAt);
  }

  lemma GoesOn<V>(turns: seq<Turn<V>>, maxSteps: nat, step: nat)
    requires turns != [] && 1 <= step <= maxSteps && step <= StopStep(turns, maxSteps, 1)
    requires !Stops(TurnAt(turns, step))
    ensures step < StopStep(turns, maxSteps, 1)
    ensures CallsOf(turns, step) == CallsOf(turns, step - 1) + [Call(RecordedName(TurnAt(turns, step).name).value, TurnAt(turns, step).args)]
  {
  }

  /** A tool call, and the observations so far. */
  method TellTool<V>(stub: StubState<V>, name: string, args: Args<V>, seen: seq<Option<V>>)
    returns (recorded: bool, now: seq<Option<V>>)
    requires stub.Valid() && ToldInTurn(stub.tools, stub.toolCalls, seen)
    modifies stub
    ensures stub.Valid() && stub.chatCount == old(stub.chatCount) && recorded == RecordedName(name).Some?
    ensures stub.toolCalls == if recorded then old(stub.toolCalls) + [Call(RecordedName(name).value, args)] else old(stub.toolCalls)
    ensures ToldInTurn(stub.tools, stub.toolCalls, now)
  {
    if RecordedName(name).Some? {
      ToldSnoc(stub.tools, stub.toolCalls, seen, Call(RecordedName(name).value, args));
    }
    var response := PostTool(stub, name, args);
    recorded, now := response.Some?, if response.Some? then seen + [response.value] else seen;
  }

  /** `chats` rounds are through, all of them answered and none of them the last. */
  ghost predicate Rolling<V>(turns: seq<Turn<V>>, maxSteps: nat, cutAt: Option<nat>, chats: nat, calls: seq<Call<V>>)
    requires turns != []
  {
    chats < StopStep(turns, maxSteps, 1) && calls == CallsOf(turns, chats) && (cutAt.Some? ==> 2 * chats < cutAt.value)
  }

  /** The run has ended in this way. */
  ghost predicate Over<V>(turns: seq<Turn<V>>, maxSteps: nat, cutAt: Option<nat>, chats: nat, calls: seq<Call<V>>, exit: Exit)
    requires turns != []
  {
    EndedAs(turns, maxSteps, cutAt, chats, |calls|, exit) && calls == CallsOf(turns, |calls|)
  }

  lemma StopsHere<V>(turns: seq<Turn<V>>, maxSteps: nat, step: nat)
    requires turns != [] && 1 <= step <= StopStep(turns, maxSteps, 1) && (step <= maxSteps ==> Stops(TurnAt(turns, step)))
    ensures step == StopStep(turns, maxSteps, 1)
  {
  }

  /** One round with the model and a tool, number `step`: the recorded calls, and the end if it is one.
      Even requests are tool calls. */
  function AfterRound<V>(turns: seq<Turn<V>>, maxSteps: nat, cutAt: Option<nat>, step: nat, calls: seq<Call<V>>)
    : (seq<Call<V>>, Option<Exit>)
    requires turns != [] && 1 <= step
  {
    var turn := TurnAt(turns, step);
    if cutAt == Some(2 * step - 1) || step > maxSteps then (calls, Some(Crashed))
    else if turn.Final? then (calls, Some(Finished(turn.text)))
    else if RecordedName(turn.name).None? then (calls, Some(Crashed))
    else (calls + [Call(RecordedName(turn.name).value, turn.args)], if cutAt == Some(2 * step) then Some(Crashed) else None)
  }

  /** A round leads to the next one, or to the end. */
  ghost predicate Onward<V>(turns: seq<Turn<V>>, maxSteps: nat, cutAt: Option<nat>, step: nat,
                            calls: seq<Call<V>>, exit: Option<Exit>)
    requires turns != []
  {
    && step <= StopStep(turns, maxSteps, 1)
    && (exit.None? ==> Rolling(turns, maxSteps, cutAt, step, calls))
    && (exit.Some? ==> Over(turns, maxSteps, cutAt, step, calls, exit.value))
  }

  lemma RoundLeadsOn<V>(turns: seq<Turn<V>>, maxSteps: nat, cutAt: Option<nat>, step: nat, calls: seq<Call<V>>,
                        round: (seq<Call<V>>, Option<Exit>))
    requires turns != [] && 1 <= step && Rolling(turns, maxSteps, cutAt, step - 1, calls)
    requires round == AfterRound(turns, maxSteps, cutAt, step, calls)
    ensures Onward(turns, maxSteps, cutAt, step, round.0, round.1)
  {
    if cutAt == Some(2 * step - 1) {
      LostRound(turns, maxSteps, cutAt, step, calls);
    } else if step > maxSteps || Stops(TurnAt(turns, step)) {
      LastRound(turns, maxSteps, cutAt, step, calls);
    } else {
      RecordedRound(turns, maxSteps, cutAt, step, calls, TurnAt(turns, step));
    }
  }

  lemma LostRound<V>(turns: seq<Turn<V>>, maxSteps: nat, cutAt: Option<nat>, step: nat, calls: seq<Call<V>>)
    requires turns != [] && 1 <= step && Rolling(turns, maxSteps, cutAt, step - 1, calls) && cutAt == Some(2 * step - 1)
    ensures Onward(turns, maxSteps, cutAt, step, calls, Some(Crashed))
  {
    CutShort(turns, maxSteps, cutAt, step, step - 1);
  }

  lemma LastRound<V>(turns: seq<Turn<V>>, maxSteps: nat, cutAt: Option<nat>, step: nat, calls: seq<Call<V>>)
    requires turns != [] && 1 <= step && Rolling(turns, maxSteps, cutAt, step - 1, calls) && cutAt != Some(2 * step - 1)
    requires step <= maxSteps ==> Stops(TurnAt(turns, step))
    ensures Onward(turns, maxSteps, cutAt, step, calls, Some(ExitAt(turns, maxSteps))) && step == StopStep(turns, maxSteps, 1)
  {
    StopsHere(turns, maxSteps, step);
    RanOut(turns, maxSteps, cutAt, step);
  }

  lemma RecordedRound<V>(turns: seq<Turn<V>>, maxSteps: nat, cutAt: Option<nat>, step: nat, calls: seq<Call<V>>, turn: Turn<V>)
    requires turns != [] && 1 <= step <= maxSteps && Rolling(turns, maxSteps, cutAt, step - 1, calls)
    requires cutAt != Some(2 * step - 1) && turn == TurnAt(turns, step) && !Stops(turn)
    ensures Onward(turns, maxSteps, cutAt, step, calls + [Call(RecordedName(turn.name).value, turn.args)],
                   if cutAt == Some(2 * step) then Some(Crashed) else None)
  {
    GoesOn(turns, maxSteps, step);
    if cutAt == Some(2 * step) { CutShort(turns, maxSteps, cutAt, step, step); }
  }

  lemma StartsOut<V>(turns: seq<Turn<V>>, maxSteps: nat, cutAt: Option<nat>, calls: seq<Call<V>>)
    requires turns != [] && calls == []
    ensures if cutAt == Some(0) then Over(turns, maxSteps, cutAt, 0, calls, Crashed) else Rolling(turns, maxSteps, cutAt, 0, calls)
  {
    if cutAt == Some(0) { CutShort(turns, maxSteps, cutAt, 0, 0); }
  }

  /** One round of the loop: the model is asked, and then the tool, unless client or stub refuse it. */
  method Round<V>(stub: StubState<V>, maxSteps: nat, cutAt: Option<nat>, before: seq<Option<V>>)
    returns (exit: Option<Exit>, seen: seq<Option<V>>)
    requires stub.Valid() && ToldInTurn(stub.tools, stub.toolCalls, before)
    modifies stub
    ensures stub.Valid() && ToldInTurn(stub.tools, stub.toolCalls, seen) && stub.chatCount == old(stub.chatCount) + 1
    ensures (stub.toolCalls, exit) == AfterRound(stub.turns, maxSteps, cutAt, stub.chatCount, old(stub.toolCalls))
  {
    var turn := stub.NextChatResponse(maxSteps);
    seen := before;
    if cutAt == Some(2 * stub.chatCount - 1) || turn.None? {
      return Some(Crashed), before;
    }
    if turn.value.Final? {
      return Some(Finished(turn.value.text)), before;
    }
    var recorded;
    recorded, seen := TellTool(stub, turn.value.name, turn.value.args, before);
    exit := if recorded && cutAt != Some(2 * stub.chatCount) then None else Some(Crashed);
  }

  /** The skeleton's loop against the stub, until it ends or is cut off, by a request that fails or by
      being killed. `seen` is what the stub answered to each recorded call. */
  method RunSkeleton<V>(stub: StubState<V>, maxSteps: nat, cutAt: Option<nat>) returns (exit: Exit, seen: seq<Option<V>>)
    requires stub.Valid() && stub.chatCount == 0 && stub.toolCalls == []
    modifies stub
    ensures stub.Valid()
    ensures Over(stub.turns, maxSteps, cutAt, stub.chatCount, stub.toolCalls, exit)
    ensures ToldInTurn(stub.tools, stub.toolCalls, seen)
  {
    seen := [];
    ghost var turns, stop, chats, calls := stub.turns, StopStep(stub.turns, maxSteps, 1), 0, stub.toolCalls;
    StartsOut(turns, maxSteps, cutAt, calls);
    if cutAt == Some(0) {
      return Crashed, seen;
    }
    while true
      invariant stub.Valid() && ToldInTurn(stub.tools, stub.toolCalls, seen)
      invariant stub.chatCount == chats <= stop && stub.toolCalls == calls
      invariant Rolling(turns, maxSteps, cutAt, chats, calls)
      decreases stop - chats
    {
      ghost var round := AfterRound(turns, maxSteps, cutAt, chats + 1, calls);
      RoundLeadsOn(turns, maxSteps, cutAt, chats + 1, calls, round);
      var over;
      over, seen := Round(stub, maxSteps, cutAt, seen);
      chats, calls := chats + 1, round.0;
      if over.Some? {
        return over.value, seen;
      }
    }
  }

  /** The end in closed form. */
  lemma OverIs<V>(turns: seq<Turn<V>>, maxSteps: nat, cutAt: Option<nat>, chats: nat, calls: seq<Call<V>>, exit: Exit)
    requires turns != [] && Over(turns, maxSteps, cutAt, chats, calls, exit)
    ensures chats == StepsWithin(StopStep(turns, maxSteps, 1), cutAt) && exit == ExitWithin(turns, maxSteps, cutAt)
    ensures calls == CallsOf(turns, CallsWithin(StopStep(turns, maxSteps, 1), cutAt))
  {
  }

  // ---------------------------------------------------------------- the verdict and its assessment

  datatype Result<V> = Result(ok: bool, toolCalls: seq<Call<V>>, final: Option<string>, steps: nat, terminated: bool)

  /** The final answer found in what the agent printed, if it got as far as printing. */
  function FinalOf(exit: Exit): Option<string> {
    match exit
    case Finished(text) => ReadBack(text)
    case Crashed => None
  }

  method CapturedFinal(exit: Exit) returns (final: Option<string>)
    ensures final == FinalOf(exit)
  {
    match exit {
      case Finished(text) => final := ParseFinal(Printed(text));
      case Crashed => final := None;
    }
  }

  /** The drive, of an agent that may be cut off at some request, and may be killed by the timeout. */
  method DriveAgent<V>(turns: seq<Turn<V>>, tools: map<string, Canned<V>>, maxSteps: nat, cutAt: Option<nat>, timedOut: bool)
    returns (result: Result<V>)
    requires turns != [] && 1 <= maxSteps
    ensures result == ResultWithin(turns, maxSteps, cutAt, timedOut)
  {
    var stub := new StubState(turns, tools);
    var exit, seen := RunSkeleton(stub, maxSteps, cutAt);
    OverIs(turns, maxSteps, cutAt, stub.chatCount, stub.toolCalls, exit);
    var final := CapturedFinal(exit);
    if timedOut {
      return Result(false, stub.toolCalls, final, stub.chatCount, false);
    }
    if stub.chatCount > maxSteps {
      return Result(false, stub.toolCalls, final, stub.chatCount, false);
    }
    if exit.Crashed? {
      return Result(false, stub.toolCalls, final, stub.chatCount, false);
    }
    if final.None? {
      return Result(false, stub.toolCalls, None, stub.chatCount, false);
    }
    return Result(true, stub.toolCalls, final, stub.chatCount, true);
  }

  /** The result of a run that is left to end. */
  function DriveResult<V>(turns: seq<Turn<V>>, maxSteps: nat): Result<V>
    requires turns != []
  {
    var stop := StopStep(turns, maxSteps, 1);
    var final := FinalOf(ExitAt(turns, maxSteps));
    Result(final.Some?, CallsOf(turns, stop - 1), final, stop, final.Some?)
  }

  function ResultWithin<V>(turns: seq<Turn<V>>, maxSteps: nat, cutAt: Option<nat>, timedOut: bool): Result<V>
    requires turns != []
  {
    var stop := StopStep(turns, maxSteps, 1);
    var final := FinalOf(ExitWithin(turns, maxSteps, cutAt));
    var ok := final.Some? && !timedOut;
    Result(ok, CallsOf(turns, CallsWithin(stop, cutAt)), final, StepsWithin(stop, cutAt), ok)
  }

  lemma {:induction false} CallsOfPrefix<V>(turns: seq<Turn<V>>, m: nat, n: nat)
    requires turns != [] && m <= n
    ensures CallsOf(turns, m) <= CallsOf(turns, n)
  {
    if m < n { CallsOfPrefix(turns, m, n - 1); }
  }

  lemma WithinBounds(stop: nat, cutAt: Option<nat>)
    requires stop > 0
    ensures StepsWithin(stop, cutAt) <= stop && CallsWithin(stop, cutAt) <= stop - 1
    ensures RunsToEnd(stop, cutAt) ==> StepsWithin(stop, cutAt) == stop && CallsWithin(stop, cutAt) == stop - 1
  {
  }

  /** Whenever an agent is cut off, what it has called is the beginning of what it would have called;
      and a run that counts as terminated was not cut off at all. */
  lemma CutRunIsBeginning<V>(turns: seq<Turn<V>>, maxSteps: nat, cutAt: Option<nat>, timedOut: bool)
    requires turns != []
    ensures var cut, whole := ResultWithin(turns, maxSteps, cutAt, timedOut), DriveResult(turns, maxSteps);
            && cut.toolCalls <= whole.toolCalls && cut.steps <= whole.steps
            && (cut.terminated || (cutAt.None? && !timedOut) ==> cut == whole)
            && (!RunsToEnd(whole.steps, cutAt) || timedOut ==> !cut.ok && !cut.terminated)
  {
    var stop := StopStep(turns, maxSteps, 1);
    WithinBounds(stop, cutAt);
    CallsOfPrefix(turns, CallsWithin(stop, cutAt), stop - 1);
  }

  predicate ArgsAreSubset<V(==)>(actual: Args<V>, expected: Args<V>) {
    forall k :: k in expected ==> k in actual && actual[k] == expected[k]
  }

  /** What `check_agent` wants of a run: the expected calls, one by one, with at least the expected
      arguments; the expected termination; and the expected part of the final answer. */
  ghost predicate Accepted<V>(result: Result<V>, expected: seq<Call<V>>, part: Option<string>, terminated: bool) {
    && |result.toolCalls| == |expected|
    && (forall i :: 0 <= i < |expected| ==>
          && expected[i].name != ""
          && result.toolCalls[i].name == expected[i].name
          && ArgsAreSubset(result.toolCalls[i].args, expected[i].args))
    && result.terminated == terminated
    && (part.Some? ==> Contains(if result.final.Some? then result.final.value else "", part.value))
  }

  method CheckAgent<V(==)>(result: Result<V>, expected: seq<Call<V>>, part: Option<string>, terminated: bool)
    returns (ok: bool)
    ensures ok <==> Accepted(result, expected, part, terminated)
    ensures ok <==>
              && |result.toolCalls| == |expected| && result.terminated == terminated
              && (forall i :: 0 <= i < |expected| ==> expected[i].name != "" && result.toolCalls[i].name == expected[i].name)
              && (forall i, k :: 0 <= i < |expected| && k in expected[i].args ==>
                    k in result.toolCalls[i].args && result.toolCalls[i].args[k] == expected[i].args[k])
              && (part.Some? && part.value != "" ==> result.final.Some? && Contains(result.final.value, part.value))
  {
    if |result.toolCalls| != |expected| {
      return false;
    }
    for i := 0 to |expected|
      invariant forall j :: 0 <= j < i ==>
                  && expected[j].name != ""
                  && result.toolCalls[j].name == expected[j].name
                  && ArgsAreSubset(result.toolCalls[j].args, expected[j].args)
    {
      if expected[i].name == "" {
        return false;
      }
      if result.toolCalls[i].name != expected[i].name {
        return false;
      }
      if !ArgsAreSubset(result.toolCalls[i].args, expected[i].args) {
        return false;
      }
    }
    if result.terminated != terminated {
      return false;
    }
    if part.Some? {
      var final := if result.final.Some? then result.final.value else "";
      if !Contains(final, part.value) {
        assert OccursAt(final, "", 0);
        return false;
      }
    }
    return true;
  }

  // ---------------------------------------------------------------- what the oracle promises

  /** The index of the first final turn from `i` on, or the length of the script. */
  function FinalFrom<V>(turns: seq<Turn<V>>, i: nat): (f: nat)
    requires i <= |turns|
    ensures i <= f <= |turns| && (f < |turns| ==> turns[f].Final?)
    ensures forall j :: i <= j < f ==> turns[j].ToolCall?
    decreases |turns| - i
  {
    if i == |turns| || turns[i].Final? then i else FinalFrom(turns, i + 1)
  }

  function FirstFinal<V>(turns: seq<Turn<V>>): nat {
    FinalFrom(turns, 0)
  }

  /** The tool calls among the first `n` turns have names that are recorded as scripted. */
  ghost predicate PlainNames<V>(turns: seq<Turn<V>>, n: nat) {
    forall i :: 0 <= i < n && i < |turns| && turns[i].ToolCall? ==> PlainName(turns[i].name)
  }

  /** With plain names the calls are the scripted ones, verbatim and in order. */
  lemma {:induction false} CallsAsScripted<V>(turns: seq<Turn<V>>, n: nat)
    requires turns != [] && PlainNames(turns, n)
    ensures forall i :: 0 <= i < n && TurnAt(turns, i + 1).ToolCall? ==>
              CallsOf(turns, n)[i] == Call(TurnAt(turns, i + 1).name, TurnAt(turns, i + 1).args)
  {
    if n > 0 {
      CallsAsScripted(turns, n - 1);
      var turn := TurnAt(turns, n);
      if turn.ToolCall? { RecordedAsScriptedIffPlain(turn.name); }
    }
  }

  lemma {:induction false} CallOfStep<V>(turns: seq<Turn<V>>, n: nat, i: nat)
    requires turns != [] && i < n
    ensures CallsOf(turns, n)[i] == CallFor(TurnAt(turns, i + 1))
  {
    if i < n - 1 { CallOfStep(turns, n - 1, i); }
  }

  lemma StopIs<V>(turns: seq<Turn<V>>, maxSteps: nat, stop: nat)
    requires turns != [] && 1 <= stop <= maxSteps && Stops(TurnAt(turns, stop))
    requires forall s :: 1 <= s < stop ==> !Stops(TurnAt(turns, s))
    ensures StopStep(turns, maxSteps, 1) == stop
  {
  }

  /** A script whose first final turn, at index `f`, comes within the cap: exactly the first `f`
      tool calls are made, verbatim and in order, in `f + 1` steps, and the run terminates with that
      text when it is a single line that can be read back. */
  lemma FinalWithinCap<V>(turns: seq<Turn<V>>, maxSteps: nat)
    requires turns != [] && FirstFinal(turns) < |turns| && FirstFinal(turns) < maxSteps
    requires PlainNames(turns, FirstFinal(turns))
    ensures var f, result := FirstFinal(turns), DriveResult(turns, maxSteps);
            && result.steps == f + 1 && |result.toolCalls| == f
            && (forall i :: 0 <= i < f ==> result.toolCalls[i] == Call(turns[i].name, turns[i].args))
            && result.ok == result.terminated == result.final.Some?
            && (result.final == Some(turns[f].text) <==> OneLine(turns[f].text) && FitsTail(turns[f].text))
  {
    var f := FirstFinal(turns);
    forall i | 0 <= i < f ensures RecordedName(turns[i].name).Some? {
      RecordedAsScriptedIffPlain(turns[i].name);
    }
    StopsAtRoutedFinal(turns, maxSteps);
    ScriptedVerbatim(turns, f);
    FinalSurvivesIffOneLine(turns[f].text);
  }

  lemma ScriptedVerbatim<V>(turns: seq<Turn<V>>, f: nat)
    requires turns != [] && f == FirstFinal(turns) && f < |turns| && PlainNames(turns, f)
    ensures forall i :: 0 <= i < f ==> CallsOf(turns, f)[i] == Call(turns[i].name, turns[i].args)
  {
    CallsAsScripted(turns, f);
    forall i | 0 <= i < f ensures CallsOf(turns, f)[i] == Call(turns[i].name, turns[i].args) {
      assert TurnAt(turns, i + 1) == turns[i];
    }
  }

  /** When the calls before the first final turn are all recorded, the loop stops at that turn. */
  lemma StopsAtRoutedFinal<V>(turns: seq<Turn<V>>, maxSteps: nat)
    requires FirstFinal(turns) < |turns| && FirstFinal(turns) < maxSteps
    requires forall i :: 0 <= i < FirstFinal(turns) ==> RecordedName(turns[i].name).Some?
    ensures StopStep(turns, maxSteps, 1) == FirstFinal(turns) + 1
    ensures ExitAt(turns, maxSteps) == Finished(turns[FirstFinal(turns)].text)
    ensures forall i :: 0 <= i <= FirstFinal(turns) ==> TurnAt(turns, i + 1) == turns[i]
  {
    var f := FirstFinal(turns);
    forall s | 1 <= s < f + 1 ensures !Stops(TurnAt(turns, s)) {
      assert turns[s - 1].ToolCall?;
    }
    StopIs(turns, maxSteps, f + 1);
  }

  /** Conversely, stopping at a final turn is stopping at the first one, past recorded calls only. */
  lemma StoppedAtFinal<V>(turns: seq<Turn<V>>, maxSteps: nat)
    requires turns != []
    requires StopStep(turns, maxSteps, 1) <= maxSteps && TurnAt(turns, StopStep(turns, maxSteps, 1)).Final?
    ensures StopStep(turns, maxSteps, 1) == FirstFinal(turns) + 1 && FirstFinal(turns) < |turns|
    ensures forall i :: 0 <= i < FirstFinal(turns) ==> RecordedName(turns[i].name).Some?
  {
    var f, stop := FirstFinal(turns), StopStep(turns, maxSteps, 1);
    assert TurnAt(turns, if stop <= |turns| then stop else |turns|) == TurnAt(turns, stop);
    assert turns[stop - 1].Final?;
    assert TurnAt(turns, f + 1) == turns[f];
    forall i | 0 <= i < f ensures RecordedName(turns[i].name).Some? {
      assert !Stops(TurnAt(turns, i + 1));
    }
  }

  /** No final turn within the cap: exactly `maxSteps` calls are made, the script clamped at its
      last turn, the stub refuses step `maxSteps + 1`, and the run is reported non-terminated. */
  lemma NoFinalWithinCap<V>(turns: seq<Turn<V>>, maxSteps: nat)
    requires turns != [] && PlainNames(turns, maxSteps)
    requires FirstFinal(turns) == |turns| || FirstFinal(turns) >= maxSteps
    ensures var result := DriveResult(turns, maxSteps);
            && result.steps == maxSteps + 1 && |result.toolCalls| == maxSteps
            && (forall i :: 0 <= i < maxSteps ==>
                  var turn := turns[if i < |turns| then i else |turns| - 1];
                  turn.ToolCall? && result.toolCalls[i] == Call(turn.name, turn.args))
            && !result.ok && !result.terminated && result.final == None
  {
    var stop := StopStep(turns, maxSteps, 1);
    forall s | 1 <= s <= maxSteps ensures !Stops(TurnAt(turns, s)) {
      RecordedAsScriptedIffPlain(TurnAt(turns, s).name);
    }
    assert stop == maxSteps + 1;
    CallsAsScripted(turns, maxSteps);
  }

  /** The first final turn comes within the cap, every call before it has a name that is recorded,
      and its text can be read back. */
  ghost predicate Completes<V>(turns: seq<Turn<V>>, maxSteps: nat) {
    var f := FirstFinal(turns);
    && f < |turns| && f < maxSteps
    && (forall i :: 0 <= i < f ==> RecordedName(turns[i].name).Some?)
    && ReadBack(turns[f].text).Some?
  }

  /** Exactly when a drive terminates, for every script, whatever its tool names and texts. */
  lemma TerminatedIff<V>(turns: seq<Turn<V>>, maxSteps: nat)
    requires turns != []
    ensures DriveResult(turns, maxSteps).terminated <==> Completes(turns, maxSteps)
  {
    if Completes(turns, maxSteps) {
      StopsAtRoutedFinal(turns, maxSteps);
    }
    if DriveResult(turns, maxSteps).terminated {
      TerminatedCompletes(turns, maxSteps);
    }
  }

  lemma TerminatedCompletes<V>(turns: seq<Turn<V>>, maxSteps: nat)
    requires turns != []
    requires ExitAt(turns, maxSteps).Finished? && ReadBack(ExitAt(turns, maxSteps).text).Some?
    ensures Completes(turns, maxSteps)
  {
    var f := FirstFinal(turns);
    StoppedAtFinal(turns, maxSteps);
    assert TurnAt(turns, f + 1) == turns[f] && ExitAt(turns, maxSteps).text == turns[f].text;
  }

  /** The scripted calls before the first final turn. */
  function ScriptedCalls<V>(turns: seq<Turn<V>>): (calls: seq<Call<V>>)
    ensures |calls| == FirstFinal(turns)
  {
    seq(FirstFinal(turns), i requires 0 <= i < FirstFinal(turns) => Call(turns[i].name, turns[i].args))
  }

  lemma PlainRunAccepted<V>(turns: seq<Turn<V>>, maxSteps: nat, part: string)
    requires turns != [] && FirstFinal(turns) < |turns| && FirstFinal(turns) < maxSteps
    requires forall i :: 0 <= i < FirstFinal(turns) ==> turns[i].name != ""
    requires PlainNames(turns, FirstFinal(turns))
    ensures var final := ReadBack(turns[FirstFinal(turns)].text);
            Accepted(DriveResult(turns, maxSteps), ScriptedCalls(turns), Some(part), true)
            <==> final.Some? && Contains(final.value, part)
  {
    FinalWithinCap(turns, maxSteps);
    PlainRunFinal(turns, maxSteps);
  }

  lemma AcceptedIsPlain<V>(turns: seq<Turn<V>>, maxSteps: nat, part: string, i: nat)
    requires turns != [] && FirstFinal(turns) < |turns| && FirstFinal(turns) < maxSteps && i < FirstFinal(turns)
    requires Accepted(DriveResult(turns, maxSteps), ScriptedCalls(turns), Some(part), true)
    ensures PlainName(turns[i].name)
  {
    TerminatedIff(turns, maxSteps);
    StopsAtRoutedFinal(turns, maxSteps);
    AcceptedName(turns, FirstFinal(turns), DriveResult(turns, maxSteps), part, i);
  }

  lemma AcceptedName<V>(turns: seq<Turn<V>>, f: nat, result: Result<V>, part: string, i: nat)
    requires turns != [] && f == FirstFinal(turns) && i < f < |turns| && result.toolCalls == CallsOf(turns, f)
    requires RecordedName(turns[i].name).Some? && Accepted(result, ScriptedCalls(turns), Some(part), true)
    ensures PlainName(turns[i].name)
  {
    CallOfStep(turns, f, i);
    assert TurnAt(turns, i + 1) == turns[i] && ScriptedCalls(turns)[i].name == turns[i].name;
    RecordedAsScriptedIffPlain(turns[i].name);
  }

  /** `check_agent`, asked for exactly the scripted calls, some part of the final answer and
      termination, accepts the run of a script that ends within the cap iff every name before the
      final turn is plain and what can be read back of its text contains that part. */
  lemma ScriptedRunAcceptedIff<V>(turns: seq<Turn<V>>, maxSteps: nat, part: string)
    requires turns != [] && FirstFinal(turns) < |turns| && FirstFinal(turns) < maxSteps
    requires forall i :: 0 <= i < FirstFinal(turns) ==> turns[i].name != ""
    ensures var f := FirstFinal(turns);
            Accepted(DriveResult(turns, maxSteps), ScriptedCalls(turns), Some(part), true) <==>
            && PlainNames(turns, f)
            && ReadBack(turns[f].text).Some? && Contains(ReadBack(turns[f].text).value, part)
  {
    if PlainNames(turns, FirstFinal(turns)) { PlainRunAccepted(turns, maxSteps, part); }
    if Accepted(DriveResult(turns, maxSteps), ScriptedCalls(turns), Some(part), true) {
      forall i | 0 <= i < FirstFinal(turns) ensures PlainName(turns[i].name) {
        AcceptedIsPlain(turns, maxSteps, part, i);
      }
    }
  }

  lemma PlainRunFinal<V>(turns: seq<Turn<V>>, maxSteps: nat)
    requires turns != [] && FirstFinal(turns) < |turns| && FirstFinal(turns) < maxSteps
    requires PlainNames(turns, FirstFinal(turns))
    ensures DriveResult(turns, maxSteps).final == ReadBack(turns[FirstFinal(turns)].text)
  {
    forall i | 0 <= i < FirstFinal(turns) ensures RecordedName(turns[i].name).Some? {
      RecordedAsScriptedIffPlain(turns[i].name);
    }
    StopsAtRoutedFinal(turns, maxSteps);
  }

  lemma OneCallRun<V>(turns: seq<Turn<V>>, maxSteps: nat)
    requires maxSteps >= 2 && |turns| == 2 && turns[0].ToolCall? && turns[1].Final?
    requires RecordedName(turns[0].name).Some?
    ensures FirstFinal(turns) == 1
    ensures DriveResult(turns, maxSteps).toolCalls == [Call(RecordedName(turns[0].name).value, turns[0].args)]
    ensures DriveResult(turns, maxSteps).final == ReadBack(turns[1].text)
  {
    assert FirstFinal(turns) == 1;
    StopsAtRoutedFinal(turns, maxSteps);
    CallOfStep(turns, 1, 0);
  }

  /** A call that arrives under another name is not accepted, although the run terminates. */
  lemma CutNameNotAccepted<V>(turns: seq<Turn<V>>, maxSteps: nat, part: string)
    requires maxSteps >= 2 && |turns| == 2 && turns[0].ToolCall? && turns[1].Final?
    requires RecordedName(turns[0].name).Some? && RecordedName(turns[0].name).value != turns[0].name
    requires ReadBack(turns[1].text).Some?
    ensures DriveResult(turns, maxSteps).terminated
    ensures !Accepted(DriveResult(turns, maxSteps), ScriptedCalls(turns), Some(part), true)
  {
    OneCallRun(turns, maxSteps);
    assert ScriptedCalls(turns)[0].name == turns[0].name;
  }
}
