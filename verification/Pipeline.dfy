/**
 * The decision pipeline of `Runtime.apply`: plan mode, pre-hooks, the hard gate, the allowlist,
 * the permission rules, the checkpoint capture, the executor and the records it leaves.
 */
module Pipeline {
  import opened Options
  import opened Workspace
  import opened CheckpointRings

  datatype Action = Allow | Ask | Deny

  /** A permission rule; how its globs match is left to the rule. */
  datatype Rule = Rule(matches: (string, Option<string>) -> bool, action: Action)

  /** How one runtime is configured. An empty allowlist, like none, restricts nothing. */
  datatype Config = Config(
    root: Option<string>,
    hooks: Option<string -> bool>,      // which tools a PreToolUse hook blocks
    allowlist: seq<string>,
    rules: seq<Rule>,
    ask: Option<(string, Option<string>) -> bool>)

  /** The hard gate, and what the executor does to the files when it does not refuse. */
  datatype Env = Env(gate: Decision -> bool, exec: (Files, Decision) -> Option<Files>)

  datatype Refusal = HookBlocked | GateRejected | NotAllowlisted | RuleDenied | AskDeclined | NoPrompt

  datatype Ruling = Withheld | Stopped(why: Refusal) | Cleared

  datatype Outcome = Planned | Refused(why: Refusal) | ExecutorRefused | Applied

  const PLAN := "plan"
  const DEFAULT := "default"
  const ACCEPT_EDITS := "acceptEdits"

  function Mode(requested: string): string {
    if requested == PLAN || requested == ACCEPT_EDITS then requested else DEFAULT
  }

  predicate PlanWithholds(kind: string) {
    IsEdit(kind) || kind == SHELL_EXEC
  }

  function Stamped(d: Decision, root: Option<string>): Decision {
    if root.Some? && root.value != "" && IsEdit(d.kind) && d.root.None? then d.(root := root) else d
  }

  function Argument(d: Decision): Option<string> {
    if d.path.Some? && d.path.value != "" then d.path else d.argument
  }

  /** First match wins; no match allows. */
  function Decide(rules: seq<Rule>, kind: string, arg: Option<string>): Action {
    if rules == [] then Allow
    else if rules[0].matches(kind, arg) then rules[0].action
    else Decide(rules[1..], kind, arg)
  }

  predicate HookBlocks(cfg: Config, kind: string) {
    cfg.hooks.Some? && cfg.hooks.value(kind)
  }

  predicate Allowlisted(cfg: Config, kind: string) {
    cfg.allowlist == [] || kind in cfg.allowlist
  }

  predicate AskApproves(cfg: Config, mode: string, d: Decision) {
    (mode == ACCEPT_EDITS && IsEdit(d.kind)) ||
    (cfg.ask.Some? && cfg.ask.value(d.kind, Argument(d)))
  }

  /** What a decision must satisfy, condition by condition and in no order, to reach the executor. */
  predicate MayExecute(env: Env, cfg: Config, mode: string, d: Decision) {
    && !(mode == PLAN && PlanWithholds(d.kind))
    && !HookBlocks(cfg, d.kind)
    && env.gate(Stamped(d, cfg.root))
    && Allowlisted(cfg, d.kind)
    && Decide(cfg.rules, d.kind, Argument(d)) != Deny
    && (Decide(cfg.rules, d.kind, Argument(d)) == Ask ==> AskApproves(cfg, mode, d))
  }

  /** The first rule that matches. */
  ghost predicate FirstMatch(rules: seq<Rule>, kind: string, arg: Option<string>, i: int) {
    && 0 <= i < |rules| && rules[i].matches(kind, arg)
    && forall j :: 0 <= j < i ==> !rules[j].matches(kind, arg)
  }

  lemma {:induction false} DecideIsFirstMatch(rules: seq<Rule>, kind: string, arg: Option<string>)
    ensures forall i :: 0 <= i < |rules| && rules[i].matches(kind, arg) && (forall j :: 0 <= j < i ==> !rules[j].matches(kind, arg))
              ==> Decide(rules, kind, arg) == rules[i].action
    ensures (forall i :: 0 <= i < |rules| ==> !rules[i].matches(kind, arg)) ==> Decide(rules, kind, arg) == Allow
  {
    if rules != [] && !rules[0].matches(kind, arg) {
      DecideIsFirstMatch(rules[1..], kind, arg);
      forall i | FirstMatch(rules, kind, arg, i) ensures Decide(rules, kind, arg) == rules[i].action {
        assert forall j :: 0 <= j < i - 1 ==> rules[1..][j] == rules[j + 1];
        assert FirstMatch(rules[1..], kind, arg, i - 1);
      }
    }
  }

  /** No first matching rule has this action. */
  ghost predicate NotAnswered(rules: seq<Rule>, kind: string, arg: Option<string>, action: Action) {
    forall i :: FirstMatch(rules, kind, arg, i) ==> rules[i].action != action
  }

  lemma {:induction false} SomeMatchIsFirst(rules: seq<Rule>, kind: string, arg: Option<string>, i: nat) returns (k: nat)
    requires i < |rules| && rules[i].matches(kind, arg)
    ensures FirstMatch(rules, kind, arg, k)
  {
    if forall j :: 0 <= j < i ==> !rules[j].matches(kind, arg) {
      k := i;
    } else {
      var j :| 0 <= j < i && rules[j].matches(kind, arg);
      k := SomeMatchIsFirst(rules, kind, arg, j);
    }
  }

  lemma AnsweredByFirstMatch(rules: seq<Rule>, kind: string, arg: Option<string>, action: Action)
    requires action != Allow
    ensures Decide(rules, kind, arg) != action <==> NotAnswered(rules, kind, arg, action)
  {
    DecideIsFirstMatch(rules, kind, arg);
    if i :| 0 <= i < |rules| && rules[i].matches(kind, arg) {
      var k := SomeMatchIsFirst(rules, kind, arg, i);
    }
  }

  /** In acceptEdits an edit is cleared exactly when nothing hinders it and the first matching rule does
      not deny it: what it asks, nobody is asked. */
  lemma AcceptEditsClears(env: Env, cfg: Config, d: Decision)
    requires d.kind == "code.write_file" || d.kind == "code.apply_patch" || d.kind == "code.search_replace"
    ensures MayExecute(env, cfg, "acceptEdits", d) <==>
              && (cfg.hooks.Some? ==> !cfg.hooks.value(d.kind))
              && env.gate(if cfg.root.Some? && cfg.root.value != "" && d.root.None? then d.(root := cfg.root) else d)
              && (cfg.allowlist != [] ==> d.kind in cfg.allowlist)
              && NotAnswered(cfg.rules, d.kind, if d.path.Some? && d.path.value != "" then d.path else d.argument, Deny)
  {
    AnsweredByFirstMatch(cfg.rules, d.kind, Argument(d), Deny);
  }

  /** In default mode, and for other kinds than edits in acceptEdits, what is asked is cleared only by a
      prompt that approves. */
  lemma AskedIsPrompted(env: Env, cfg: Config, mode: string, d: Decision)
    requires mode == "default" || (mode == "acceptEdits" && d.kind !in ["code.write_file", "code.apply_patch", "code.search_replace"])
    ensures var edit := d.kind in ["code.write_file", "code.apply_patch", "code.search_replace"];
            var arg := if d.path.Some? && d.path.value != "" then d.path else d.argument;
            MayExecute(env, cfg, mode, d) <==>
              && (cfg.hooks.Some? ==> !cfg.hooks.value(d.kind))
              && env.gate(if edit && cfg.root.Some? && cfg.root.value != "" && d.root.None? then d.(root := cfg.root) else d)
              && (cfg.allowlist != [] ==> d.kind in cfg.allowlist)
              && NotAnswered(cfg.rules, d.kind, arg, Deny)
              && (NotAnswered(cfg.rules, d.kind, arg, Ask) || (cfg.ask.Some? && cfg.ask.value(d.kind, arg)))
  {
    AnsweredByFirstMatch(cfg.rules, d.kind, Argument(d), Deny);
    AnsweredByFirstMatch(cfg.rules, d.kind, Argument(d), Ask);
  }

  /** In plan mode edits and commands are withheld; everything else is as in default mode. */
  lemma PlanWithholdsOnly(env: Env, cfg: Config, d: Decision)
    ensures MayExecute(env, cfg, "plan", d) <==>
              && d.kind !in ["code.write_file", "code.apply_patch", "code.search_replace", "shell.exec"]
              && MayExecute(env, cfg, "default", d)
  {
  }

  /** Everything a decision can change: the files, the ring, and the records of what was executed. */
  datatype World = World(
    files: Files,
    ring: seq<Entry>,
    tools: multiset<string>,
    wirings: multiset<string>,
    log: seq<Decision>)

  function Wiring(d: Decision): string {
    d.source + " -> " + d.kind
  }

  predicate Captures(d: Decision) {
    IsEdit(d.kind) && d.path.Some? && d.path.value != ""
  }

  /** The world after the executor has applied a decision. */
  function Executed(w: World, d: Decision, files: Files, ring: Option<nat>, id: string): World {
    World(
      files,
      if ring.Some? && Captures(d)
      then Record(w.ring, ring.value, Capture(w.files, id, d.kind, d.path.value)) else w.ring,
      w.tools + multiset{d.kind},
      w.wirings + multiset{Wiring(d)},
      w.log + [d])
  }

  /** What an applied decision records: one tool call of its kind, one wiring from its source, itself in
      the log, and, if there is a ring and it edits a path, the text its file had, as the newest entry. */
  lemma ExecutedRecords(w: World, d: Decision, files: Files, ring: Option<nat>, id: string)
    ensures var after := Executed(w, d, files, ring, id);
            && after.files == files && after.log == w.log + [d]
            && after.tools == w.tools + multiset{d.kind} && after.wirings == w.wirings + multiset{d.source + " -> " + d.kind}
    ensures var after, text := Executed(w, d, files, ring, id), d.path.Some? && d.path.value in w.files && w.files[d.path.value].Text?;
            var edits := d.kind in ["code.write_file", "code.apply_patch", "code.search_replace"] && d.path.Some? && d.path.value != "";
            if ring.None? || !edits then after.ring == w.ring
            else
              var e := Entry(id, d.kind, d.path.value, text, if text then Some(w.files[d.path.value].text) else None);
              var all := w.ring + [e];
              after.ring == all[if |all| > ring.value then |all| - ring.value else 0..]
  {
  }

  /** A refused decision, or one the executor refuses, changes nothing; any other is executed. */
  lemma AppliedOrNothing(env: Env, cfg: Config, ring: Option<nat>, mode: string, w: World, unstamped: Decision, id: string)
    ensures var edit := unstamped.kind in ["code.write_file", "code.apply_patch", "code.search_replace"];
            var d := if edit && cfg.root.Some? && cfg.root.value != "" && unstamped.root.None?
                     then unstamped.(root := cfg.root) else unstamped;
            var after := ApplyTo(env, cfg, ring, mode, w, unstamped, id);
            if MayExecute(env, cfg, mode, unstamped) && env.exec(w.files, d).Some?
            then after == Executed(w, d, env.exec(w.files, d).value, ring, id) else after == w
  {
  }

  /** One decision: nothing at all unless it may execute and the executor does not refuse. */
  function ApplyTo(env: Env, cfg: Config, ring: Option<nat>, mode: string, w: World,
                   unstamped: Decision, id: string): World
  {
    var d := Stamped(unstamped, cfg.root);
    if !MayExecute(env, cfg, mode, unstamped) then w
    else
      match env.exec(w.files, d)
      case None => w
      case Some(files) => Executed(w, d, files, ring, id)
  }

  /** The files and the records a session's runtimes share. */
  class Host {
    var files: Files
    var tools: multiset<string>
    var wirings: multiset<string>
    var log: seq<Decision>

    constructor (files: Files)
      ensures this.files == files && tools == multiset{} && wirings == multiset{} && log == []
    {
      this.files := files;
      tools, wirings, log := multiset{}, multiset{}, [];
    }
  }

  class Runtime {
    const env: Env
    const cfg: Config
    const host: Host
    const ring: CheckpointRing?
    var mode: string

    ghost predicate Valid()
      reads this, ring
    {
      Mode(mode) == mode && (ring != null ==> ring.Valid())
    }

    ghost function Snapshot(): World
      reads this, host, ring
    {
      World(host.files, if ring == null then [] else ring.d, host.tools, host.wirings, host.log)
    }

    ghost function RingBound(): Option<nat> {
      if ring == null then None else Some(ring.maxlen)
    }

    constructor (env: Env, cfg: Config, mode: string, host: Host, ring: CheckpointRing?)
      requires ring != null ==> ring.Valid()
      ensures Valid() && this.env == env && this.cfg == cfg && this.mode == Mode(mode)
      ensures this.host == host && this.ring == ring
    {
      this.env, this.cfg, this.host, this.ring := env, cfg, host, ring;
      this.mode := Mode(mode);
    }

    method SetMode(requested: string)
      requires Valid()
      modifies this
      ensures Valid() && mode == if requested == "plan" || requested == "acceptEdits" then requested else "default"
    {
      mode := if requested == PLAN || requested == DEFAULT || requested == ACCEPT_EDITS then requested else DEFAULT;
    }

    /** The checks before the executor, in the order the runtime makes them. */
    method Check(unstamped: Decision) returns (ruling: Ruling)
      ensures ruling.Cleared? <==> MayExecute(env, cfg, mode, unstamped)
      ensures ruling.Withheld? <==> mode == PLAN && PlanWithholds(unstamped.kind)
      ensures ruling == Stopped(HookBlocked) <==> !ruling.Withheld? && cfg.hooks.Some? && cfg.hooks.value(unstamped.kind)
      ensures ruling == Stopped(GateRejected) ==> !env.gate(Stamped(unstamped, cfg.root))
      ensures ruling == Stopped(NotAllowlisted) ==> cfg.allowlist != [] && unstamped.kind !in cfg.allowlist
      ensures ruling == Stopped(RuleDenied) ==> Decide(cfg.rules, unstamped.kind, Argument(unstamped)) == Deny
      ensures ruling == Stopped(AskDeclined) || ruling == Stopped(NoPrompt) ==>
                && Decide(cfg.rules, unstamped.kind, Argument(unstamped)) == Ask
                && (ruling == Stopped(NoPrompt) <==> cfg.ask.None?)
      ensures ruling.Stopped? && ruling.why != HookBlocked && ruling.why != GateRejected ==>
                env.gate(Stamped(unstamped, cfg.root))
    {
      var d := Stamped(unstamped, cfg.root);
      if mode == PLAN {
        if PlanWithholds(d.kind) {
          return Withheld;
        }
      }
      if cfg.hooks.Some? {
        if cfg.hooks.value(d.kind) {
          return Stopped(HookBlocked);
        }
      }
      if !env.gate(d) {
        return Stopped(GateRejected);
      }
      if cfg.allowlist != [] && d.kind !in cfg.allowlist {
        return Stopped(NotAllowlisted);
      }
      if cfg.rules != [] {
        var action := Decide(cfg.rules, d.kind, Argument(d));
        if action == Deny {
          return Stopped(RuleDenied);
        }
        if action == Ask {
          if mode == ACCEPT_EDITS && IsEdit(d.kind) {
          } else if cfg.ask.Some? {
            if !cfg.ask.value(d.kind, Argument(d)) {
              return Stopped(AskDeclined);
            }
          } else {
            return Stopped(NoPrompt);
          }
        }
      }
      return Cleared;
    }

    /** One decision through the whole pipeline. `id` is the fresh checkpoint id it may use. */
    method Apply(unstamped: Decision, id: string) returns (outcome: Outcome)
      requires Valid()
      modifies host, ring
      ensures Valid()
      ensures Snapshot() == ApplyTo(env, cfg, RingBound(), mode, old(Snapshot()), unstamped, id)
      ensures outcome == Applied <==>
                MayExecute(env, cfg, mode, unstamped) &&
                env.exec(old(host.files), Stamped(unstamped, cfg.root)).Some?
      ensures outcome == Planned <==> mode == PLAN && PlanWithholds(unstamped.kind)
    {
      var ruling := Check(unstamped);
      match ruling {
        case Withheld => return Planned;
        case Stopped(why) => return Refused(why);
        case Cleared =>
      }
      var d := Stamped(unstamped, cfg.root);
      var files := env.exec(host.files, d);
      if files.None? {
        return ExecutorRefused;
      }
      Commit(d, files.value, id);
      return Applied;
    }

    /** The executor's effect and the records of an applied decision, with the before-image. */
    method Commit(d: Decision, files: Files, id: string)
      requires Valid()
      modifies host, ring
      ensures Valid()
      ensures Snapshot() == Executed(old(Snapshot()), d, files, RingBound(), id)
    {
      if ring != null && Captures(d) {
        ring.Append(Capture(host.files, id, d.kind, d.path.value));
      }
      host.files := files;
      host.tools := host.tools + multiset{d.kind};
      host.wirings := host.wirings + multiset{Wiring(d)};
      host.log := host.log + [d];
    }
  }

  // ---------------------------------------------------------------- runs with mode changes

  datatype Event = Do(decision: Decision, id: string) | SwitchTo(mode: string)

  datatype Session = Session(mode: string, world: World)

  function Next(env: Env, cfg: Config, ring: Option<nat>, s: Session, e: Event): Session {
    match e
    case Do(d, id) => s.(world := ApplyTo(env, cfg, ring, s.mode, s.world, d, id))
    case SwitchTo(mode) => s.(mode := Mode(mode))
  }

  function Run(env: Env, cfg: Config, ring: Option<nat>, s: Session, events: seq<Event>): Session {
    if events == [] then s
    else Next(env, cfg, ring, Run(env, cfg, ring, s, events[..|events| - 1]), events[|events| - 1])
  }

  function Kinds(log: seq<Decision>): multiset<string> {
    if log == [] then multiset{} else Kinds(log[..|log| - 1]) + multiset{log[|log| - 1].kind}
  }

  function Wirings(log: seq<Decision>): multiset<string> {
    if log == [] then multiset{} else Wirings(log[..|log| - 1]) + multiset{Wiring(log[|log| - 1])}
  }

  /** A world whose records are exactly those of the decisions it executed, all of which the gate
      accepted. */
  ghost predicate Accounted(env: Env, w: World) {
    && (forall i :: 0 <= i < |w.log| ==> env.gate(w.log[i]))
    && w.tools == Kinds(w.log) && w.wirings == Wirings(w.log)
    && |w.tools| == |w.log| && |w.wirings| == |w.log|
  }

  /** Over any run with any mode changes: only gate-accepted decisions were ever executed, and tool
      counts, wiring counts and executed decisions agree in total. */
  lemma {:induction false} OnlyGatedAndCounted(
      env: Env, cfg: Config, ring: Option<nat>, s: Session, events: seq<Event>)
    requires Accounted(env, s.world)
    ensures Accounted(env, Run(env, cfg, ring, s, events).world)
  {
    if events != [] {
      var init, e := events[..|events| - 1], events[|events| - 1];
      OnlyGatedAndCounted(env, cfg, ring, s, init);
      var w := Run(env, cfg, ring, s, init).world;
      if e.Do? {
        var d := Stamped(e.decision, cfg.root);
        assert (w.log + [d])[..|w.log|] == w.log;
      }
    }
  }

  /** Nothing that plan mode withholds happens while the mode is plan: a run of such decisions
      leaves the files, the ring and every record as they were. */
  lemma {:induction false} PlanModeTouchesNothing(
      env: Env, cfg: Config, ring: Option<nat>, s: Session, events: seq<Event>)
    requires s.mode == PLAN
    requires forall i :: 0 <= i < |events| ==>
               if events[i].Do? then PlanWithholds(events[i].decision.kind) else events[i].mode == PLAN
    ensures Run(env, cfg, ring, s, events) == s
  {
    if events != [] {
      PlanModeTouchesNothing(env, cfg, ring, s, events[..|events| - 1]);
    }
  }

  // ---------------------------------------------------------------- narrowing

  function Strictness(action: Action): nat {
    match action
    case Allow => 0
    case Ask => 1
    case Deny => 2
  }

  /** Whatever is asked, the rules of `b` answer at least as strictly as those of `a`. */
  ghost predicate AtLeastAsStrict(a: seq<Rule>, b: seq<Rule>) {
    forall kind, arg :: Strictness(Decide(a, kind, arg)) <= Strictness(Decide(b, kind, arg))
  }

  /** `b` adds restrictions to `a`: hooks that block more, a non-empty allowlist where there was
      none or a non-empty part of one, stricter rules, a prompt that approves less. */
  ghost predicate Narrows(b: Config, a: Config) {
    && b.root == a.root
    && (a.hooks.Some? ==> b.hooks.Some? && forall kind :: a.hooks.value(kind) ==> b.hooks.value(kind))
    && (a.allowlist != [] ==> b.allowlist != [] && forall kind :: kind in b.allowlist ==> kind in a.allowlist)
    && AtLeastAsStrict(a.rules, b.rules)
    && (b.ask.Some? ==> a.ask.Some? && forall kind, arg :: b.ask.value(kind, arg) ==> a.ask.value(kind, arg))
  }

  /** Rules appended answer as before whatever was answered by a rule. */
  lemma {:induction false} AppendedRulesOnlyRestrict(a: seq<Rule>, b: seq<Rule>, kind: string, arg: Option<string>)
    requires |a| <= |b| && b[..|a|] == a
    ensures Decide(a, kind, arg) == Decide(b, kind, arg) || Decide(a, kind, arg) == Allow
  {
    if a != [] {
      assert b[1..][..|a| - 1] == a[1..];
      assert b[0] == a[0];
      AppendedRulesOnlyRestrict(a[1..], b[1..], kind, arg);
    }
  }

  /** Narrowing a configuration never lets an extra decision through, in any mode. */
  lemma NarrowingNeverWidens(env: Env, a: Config, b: Config, mode: string, d: Decision)
    requires Narrows(b, a) && MayExecute(env, b, mode, d)
    ensures MayExecute(env, a, mode, d)
  {
    assert Strictness(Decide(a.rules, d.kind, Argument(d))) <= Strictness(Decide(b.rules, d.kind, Argument(d)));
  }

  /** Shrinking a non-empty allowlist is a restriction iff something is left in it: the empty
      allowlist lets every kind through, so a kind that was not listed appears. */
  lemma ShrunkAllowlistNarrowsIffNonEmpty(env: Env, a: Config, b: Config)
    requires a.allowlist != [] && forall kind :: kind in b.allowlist ==> kind in a.allowlist
    requires b == a.(allowlist := b.allowlist)
    ensures b.allowlist != [] <==> forall kind :: Allowlisted(b, kind) ==> Allowlisted(a, kind)
  {
    if b.allowlist == [] {
      var unlisted := Longer(a.allowlist);
      assert Allowlisted(b, unlisted) && !Allowlisted(a, unlisted);
    }
  }

  /** A string longer than every listed one. */
  function Longer(list: seq<string>): (r: string)
    ensures forall s :: s in list ==> |s| < |r|
  {
    if list == [] then "x"
    else
      var rest := Longer(list[1..]);
      assert list == [list[0]] + list[1..];
      if |list[0]| < |rest| then rest else list[0] + "x"
  }

  // ---------------------------------------------------------------- which rules may be added

  /** Replacing the rules `a` by `b` lets no extra decision through, whatever the gate, the rest of the
      configuration and the mode. */
  ghost predicate NeverWidens(a: seq<Rule>, b: seq<Rule>) {
    forall env: Env, cfg: Config, mode, d: Decision ::
      MayExecute(env, cfg.(rules := b), mode, d) ==> MayExecute(env, cfg.(rules := a), mode, d)
  }

  /** Where `b` answers less strictly than `a`, a decision gets through with `b` that does not with `a`:
      with a prompt that approves it if `a` denies it, and without a prompt if `a` asks. */
  lemma LaxerAnswerWidens(a: seq<Rule>, b: seq<Rule>, kind: string, arg: Option<string>)
    requires Strictness(Decide(a, kind, arg)) > Strictness(Decide(b, kind, arg))
    ensures !NeverWidens(a, b)
  {
    var env := Env(d => true, (files, d) => None);
    var cfg := Config(None, None, [], [], if Decide(a, kind, arg) == Deny then Some((k, x) => true) else None);
    var d := Decision(kind, "", None, "", arg, None);
    assert MayExecute(env, cfg.(rules := b), DEFAULT, d) && !MayExecute(env, cfg.(rules := a), DEFAULT, d);
  }

  /** Changing the rules is safe exactly when the new ones answer everything at least as strictly. */
  lemma RulesNeverWidenIff(a: seq<Rule>, b: seq<Rule>)
    ensures NeverWidens(a, b) <==> AtLeastAsStrict(a, b)
  {
    if AtLeastAsStrict(a, b) {
      forall env: Env, cfg: Config, mode, d: Decision | MayExecute(env, cfg.(rules := b), mode, d)
        ensures MayExecute(env, cfg.(rules := a), mode, d)
      {
        assert Strictness(Decide(a, d.kind, Argument(d))) <= Strictness(Decide(b, d.kind, Argument(d)));
      }
    } else {
      var kind, arg :| Strictness(Decide(a, kind, arg)) > Strictness(Decide(b, kind, arg));
      LaxerAnswerWidens(a, b, kind, arg);
    }
  }

  ghost predicate Matched(rules: seq<Rule>, kind: string, arg: Option<string>) {
    exists r :: r in rules && r.matches(kind, arg)
  }

  lemma {:induction false} DecideConcat(a: seq<Rule>, b: seq<Rule>, kind: string, arg: Option<string>)
    ensures Decide(a + b, kind, arg) == if Matched(a, kind, arg) then Decide(a, kind, arg) else Decide(b, kind, arg)
    ensures !Matched(a, kind, arg) ==> Decide(a, kind, arg) == Allow
  {
    if a == [] {
      assert a + b == b;
    } else {
      assert (a + b)[1..] == a[1..] + b && a == [a[0]] + a[1..];
      DecideConcat(a[1..], b, kind, arg);
    }
  }

  /** Where the new rules come to bear, what was answered behind them is no stricter. */
  ghost predicate CoverNothingStricter(before: seq<Rule>, added: seq<Rule>, after: seq<Rule>) {
    forall kind, arg :: !Matched(before, kind, arg) && Matched(added, kind, arg) ==>
      Strictness(Decide(after, kind, arg)) <= Strictness(Decide(added, kind, arg))
  }

  lemma InsertedAnswer(before: seq<Rule>, added: seq<Rule>, after: seq<Rule>, kind: string, arg: Option<string>)
    ensures Decide(before + added + after, kind, arg)
            == if !Matched(before, kind, arg) && Matched(added, kind, arg) then Decide(added, kind, arg)
               else Decide(before + after, kind, arg)
    ensures !Matched(before, kind, arg) ==> Decide(before + after, kind, arg) == Decide(after, kind, arg)
  {
    assert before + added + after == before + (added + after);
    DecideConcat(before, added + after, kind, arg);
    DecideConcat(before, after, kind, arg);
    DecideConcat(added, after, kind, arg);
  }

  /** Rules added anywhere let nothing extra through exactly when, wherever one of them is the first to
      match, the rules behind them were no stricter. */
  lemma AddedRulesNeverWidenIff(before: seq<Rule>, added: seq<Rule>, after: seq<Rule>)
    ensures NeverWidens(before + after, before + added + after) <==> CoverNothingStricter(before, added, after)
  {
    var old_, new_ := before + after, before + added + after;
    RulesNeverWidenIff(old_, new_);
    forall kind, arg
      ensures Strictness(Decide(old_, kind, arg)) <= Strictness(Decide(new_, kind, arg)) <==>
              (!Matched(before, kind, arg) && Matched(added, kind, arg) ==>
                 Strictness(Decide(after, kind, arg)) <= Strictness(Decide(added, kind, arg)))
    {
      InsertedAnswer(before, added, after, kind, arg);
    }
  }

  /** So rules may always be appended, as may rules that deny be added anywhere. */
  lemma AppendedRulesNeverWiden(rules: seq<Rule>, added: seq<Rule>)
    ensures NeverWidens(rules, rules + added)
  {
    AddedRulesNeverWidenIff(rules, added, []);
    assert rules + [] == rules && rules + added + [] == rules + added;
  }

  lemma {:induction false} DeniesDeny(rules: seq<Rule>, kind: string, arg: Option<string>)
    requires (forall r :: r in rules ==> r.action == Deny) && Matched(rules, kind, arg)
    ensures Decide(rules, kind, arg) == Deny
  {
    assert rules == [rules[0]] + rules[1..];
    if !rules[0].matches(kind, arg) { DeniesDeny(rules[1..], kind, arg); }
  }

  lemma DenialsNeverWiden(before: seq<Rule>, denials: seq<Rule>, after: seq<Rule>)
    requires forall r :: r in denials ==> r.action == Deny
    ensures NeverWidens(before + after, before + denials + after)
  {
    forall kind, arg | !Matched(before, kind, arg) && Matched(denials, kind, arg)
      ensures Strictness(Decide(after, kind, arg)) <= Strictness(Decide(denials, kind, arg))
    {
      DeniesDeny(denials, kind, arg);
    }
    AddedRulesNeverWidenIff(before, denials, after);
  }

  /** The rules of a session: those of the project in front of those of the user. */
  function Combined(project: seq<Rule>, user: seq<Rule>): seq<Rule> { project + user }

  /** A project's rules let through nothing that the user's alone would not, exactly when they answer
      whatever they match at least as strictly as the user's. */
  lemma ProjectRulesNeverWidenIff(project: seq<Rule>, user: seq<Rule>)
    ensures NeverWidens(user, Combined(project, user)) <==>
              forall kind, arg :: Matched(project, kind, arg) ==>
                Strictness(Decide(user, kind, arg)) <= Strictness(Decide(project, kind, arg))
  {
    RulesNeverWidenIff(user, Combined(project, user));
    forall kind, arg
      ensures Strictness(Decide(user, kind, arg)) <= Strictness(Decide(Combined(project, user), kind, arg)) <==>
              (Matched(project, kind, arg) ==> Strictness(Decide(user, kind, arg)) <= Strictness(Decide(project, kind, arg)))
    {
      DecideConcat(project, user, kind, arg);
    }
  }

  /** They need not be: an `allow` of the project in front undoes what the user denies. */
  lemma PrependedRuleCanWiden(kind: string, arg: Option<string>)
    ensures var allow, deny := [Rule((k, a) => true, Allow)], [Rule((k, a) => true, Deny)];
            && Decide(deny, kind, arg) == Deny && Decide(Combined(allow, deny), kind, arg) == Allow
            && !NeverWidens(deny, Combined(allow, deny))
  {
    LaxerAnswerWidens([Rule((k, a) => true, Deny)], Combined([Rule((k, a) => true, Allow)], [Rule((k, a) => true, Deny)]), kind, arg);
  }

  /** acceptEdits lets through whatever default does, and differs on edits that resolve to ask. */
  lemma AcceptEditsWidensOnlyAskedEdits(env: Env, cfg: Config, d: Decision)
    ensures MayExecute(env, cfg, DEFAULT, d) ==> MayExecute(env, cfg, ACCEPT_EDITS, d)
    ensures MayExecute(env, cfg, ACCEPT_EDITS, d) && !MayExecute(env, cfg, DEFAULT, d) ==>
              IsEdit(d.kind) && Decide(cfg.rules, d.kind, Argument(d)) == Ask
  {
  }
}
