/**
 * Rewinding: what every interleaving of accepted edits and successful rewinds keeps, despite the
 * ring evicting its oldest entries; and the `/rewind` command itself, whose restores go through
 * the decision pipeline like any other write.
 */
module Rewind {
  import opened Options
  import opened Sequences
  import opened Workspace
  import opened CheckpointRings
  import opened Pipeline

  /** The files and the ring, and what happens to them. A rewind out of range is refused. */
  datatype Machine = Machine(files: Files, ring: seq<Entry>)

  datatype Move = Edit(path: string, text: string, id: string, kind: string) | Back(steps: int)

  function Move1(maxlen: nat, m: Machine, move: Move): Machine {
    match move
    case Edit(path, text, id, kind) =>
      Machine(m.files[path := Text(text)], Record(m.ring, maxlen, Capture(m.files, id, kind, path)))
    case Back(n) => Rewound(m, n)
  }

  function Rewound(m: Machine, n: int): Machine {
    if n < 1 || n > |m.ring| then m
    else Machine(Undo(m.files, m.ring[|m.ring| - n..]), m.ring[..|m.ring| - n])
  }

  function Run(maxlen: nat, files: Files, moves: seq<Move>): Machine {
    if moves == [] then Machine(files, [])
    else Move1(maxlen, Run(maxlen, files, moves[..|moves| - 1]), moves[|moves| - 1])
  }

  /** Which moves recorded the entries now in the ring. */
  function Origins(maxlen: nat, moves: seq<Move>): seq<nat> {
    if moves == [] then []
    else
      var before := Origins(maxlen, moves[..|moves| - 1]);
      match moves[|moves| - 1]
      case Edit(_, _, _, _) => LastN(before + [|moves| - 1], maxlen)
      case Back(n) => if n < 1 || n > |before| then before else before[..|before| - n]
  }

  /** Reference: a past state, with every path that was not readable then at the first text any
      later edit gave it. Later edits of readable paths, and rewinds, leave no trace. */
  function FirstVersions(past: Files, later: seq<Move>): Files {
    if later == [] then past
    else
      var before := FirstVersions(past, later[..|later| - 1]);
      match later[|later| - 1]
      case Edit(path, text, _, _) => if Readable(before, path) then before else before[path := Text(text)]
      case Back(_) => before
  }

  /** What `FirstVersions` means for one path: its past content if it was readable, else the text
      of the first later edit of it, else whatever was there. */
  lemma {:induction false} FirstVersionOf(past: Files, later: seq<Move>, path: string)
    ensures var now := FirstVersions(past, later);
            var first := FirstEdit(later, path);
            if Readable(past, path) then path in now && now[path] == past[path]
            else if first < |later| then path in now && now[path] == Text(later[first].text)
            else (path in now <==> path in past) && (path in past ==> now[path] == past[path])
  {
    if later != [] {
      var init := later[..|later| - 1];
      FirstVersionOf(past, init, path);
      FirstEditSnoc(init, later[|later| - 1], path);
      assert init + [later[|later| - 1]] == later;
    }
  }

  /** A file that existed in the past comes back exactly iff it was readable then, or nothing has
      edited it since: an undecodable file is captured as absent, so an edit of it is not undone. */
  lemma ComesBackIffReadable(past: Files, later: seq<Move>, path: string)
    requires path in past
    ensures path in FirstVersions(past, later) && FirstVersions(past, later)[path] == past[path] <==>
            Readable(past, path) || FirstEdit(later, path) == |later|
  {
    FirstVersionOf(past, later, path);
  }

  lemma RunSnoc(maxlen: nat, files: Files, moves: seq<Move>, move: Move)
    ensures Run(maxlen, files, moves + [move]) == Move1(maxlen, Run(maxlen, files, moves), move)
  {
    assert (moves + [move])[..|moves|] == moves;
  }

  lemma RewoundUnrestored(m: Machine, e: Entry)
    requires m.ring == [e] && !e.existed
    ensures Rewound(m, 1) == Machine(m.files, [])
  {
    assert m.ring[0..] == m.ring && m.ring[..0] == [];
    assert Undo(m.files, m.ring) == Undo(RestoreOne(m.files, e), []);
  }

  /** An edit of an unreadable path, and a rewind at once: the edit stays, with nothing to go back to. */
  lemma UnreadableEditStays(maxlen: nat, files: Files, edit: Move)
    requires maxlen > 0 && edit.Edit? && !Readable(files, edit.path)
    ensures Run(maxlen, files, [edit, Back(1)]) == Machine(files[edit.path := Text(edit.text)], [])
  {
    var e := Capture(files, edit.id, edit.kind, edit.path);
    RunSnoc(maxlen, files, [], edit);
    RunSnoc(maxlen, files, [edit], Back(1));
    assert [] + [edit] == [edit] && [edit] + [Back(1)] == [edit, Back(1)];
    assert Record([], maxlen, e) == [e];
    RewoundUnrestored(Machine(files[edit.path := Text(edit.text)], [e]), e);
  }

  /** For instance: the bytes of a file that is not UTF-8 are lost by one edit and one rewind. */
  lemma UndecodableFileIsLost(maxlen: nat, path: string, text: string, id: string, kind: string)
    requires maxlen > 0
    ensures Run(maxlen, map[path := Undecodable], [Edit(path, text, id, kind), Back(1)])
            == Machine(map[path := Text(text)], [])
  {
    var files: Files := map[path := Undecodable];
    UnreadableEditStays(maxlen, files, Edit(path, text, id, kind));
    assert files[path := Text(text)] == map[path := Text(text)];
  }

  function FirstEdit(moves: seq<Move>, path: string): (i: nat)
    ensures i <= |moves|
    ensures i < |moves| ==> moves[i].Edit? && moves[i].path == path
    ensures forall j :: 0 <= j < i ==> !(moves[j].Edit? && moves[j].path == path)
  {
    if moves == [] then 0
    else
      var init := moves[..|moves| - 1];
      var i := FirstEdit(init, path);
      assert forall j :: 0 <= j < |init| ==> moves[j] == init[j];
      if i < |init| then i
      else if moves[|moves| - 1].Edit? && moves[|moves| - 1].path == path then |init|
      else |moves|
  }

  lemma FirstEditSnoc(moves: seq<Move>, move: Move, path: string)
    ensures var i := FirstEdit(moves, path);
            FirstEdit(moves + [move], path) ==
            if i < |moves| || (move.Edit? && move.path == path) then i else |moves| + 1
  {
    assert (moves + [move])[..|moves|] == moves;
  }

  // ---------------------------------------------------------------- undoing

  /** Undoing only ever writes text, so what is readable stays readable. */
  lemma {:induction false} UndoKeepsReadable(files: Files, entries: seq<Entry>, path: string)
    ensures Readable(files, path) ==> Readable(Undo(files, entries), path)
    decreases |entries|
  {
    if entries != [] {
      UndoKeepsReadable(RestoreOne(files, entries[|entries| - 1]), entries[..|entries| - 1], path);
    }
  }

  /** Every restorable entry is about a path that is readable now. */
  ghost predicate Restorable(files: Files, entries: seq<Entry>) {
    forall e :: e in entries && e.existed ==> Readable(files, e.path)
  }

  /** An unreadable path is untouched by undoing, and writing to it commutes with undoing. */
  lemma {:induction false} UndoSkipsUnreadable(files: Files, entries: seq<Entry>, path: string, text: string)
    requires Restorable(files, entries) && !Readable(files, path)
    ensures !Readable(Undo(files, entries), path)
    ensures Undo(files[path := Text(text)], entries) == Undo(files, entries)[path := Text(text)]
    decreases |entries|
  {
    if entries != [] {
      var last, init := entries[|entries| - 1], entries[..|entries| - 1];
      if last.existed {
        assert last.path != path;
        assert files[path := Text(text)][last.path := Text(BeforeOrEmpty(last))]
            == files[last.path := Text(BeforeOrEmpty(last))][path := Text(text)];
      }
      UndoSkipsUnreadable(RestoreOne(files, last), init, path, text);
    }
  }

  // ---------------------------------------------------------------- the invariant of every run

  /** Undoing all but the `k` oldest entries gives the first versions after the past state in
      which entry `k` was recorded. */
  ghost predicate UndoesTo(maxlen: nat, files: Files, moves: seq<Move>, k: nat) {
    var m := Run(maxlen, files, moves);
    var origins := Origins(maxlen, moves);
    && k < |m.ring| == |origins| && origins[k] < |moves|
    && Undo(m.files, m.ring[k..]) ==
       FirstVersions(Run(maxlen, files, moves[..origins[k]]).files, moves[origins[k]..])
  }

  ghost predicate Invariant(maxlen: nat, files: Files, moves: seq<Move>) {
    var m := Run(maxlen, files, moves);
    && |m.ring| == |Origins(maxlen, moves)|
    && Restorable(m.files, m.ring)
    && forall k :: 0 <= k < |m.ring| ==> UndoesTo(maxlen, files, moves, k)
  }

  lemma {:induction false} InvariantHolds(maxlen: nat, files: Files, moves: seq<Move>)
    ensures Invariant(maxlen, files, moves)
  {
    if moves != [] {
      var init := moves[..|moves| - 1];
      InvariantHolds(maxlen, files, init);
      match moves[|moves| - 1] {
        case Edit(_, _, _, _) => EditKeepsInvariant(maxlen, files, moves);
        case Back(_) => BackKeepsInvariant(maxlen, files, moves);
      }
    }
  }

  /** Restoring the entry of an edit brings back a readable file, and keeps a new one. */
  lemma UndoEdit(files: Files, older: seq<Entry>, path: string, text: string, id: string, kind: string)
    requires Restorable(files, older)
    ensures var undone := Undo(files[path := Text(text)], older + [Capture(files, id, kind, path)]);
            undone == if Readable(files, path) then Undo(files, older) else Undo(files, older)[path := Text(text)]
    ensures Readable(Undo(files, older), path) <==> Readable(files, path)
  {
    var e := Capture(files, id, kind, path);
    assert (older + [e])[..|older|] == older;
    if Readable(files, path) {
      UndoKeepsReadable(files, older, path);
      assert files[path := Text(text)][path := files[path]] == files;
    } else {
      UndoSkipsUnreadable(files, older, path, text);
    }
  }

  /** Undoing `older` and the entry of an edit leads to the first versions with that edit. */
  lemma EditUndone(files: Files, older: seq<Entry>, past: Files, later: seq<Move>, edit: Move)
    requires edit.Edit? && Restorable(files, older) && Undo(files, older) == FirstVersions(past, later)
    ensures Undo(files[edit.path := Text(edit.text)], older + [Capture(files, edit.id, edit.kind, edit.path)])
            == FirstVersions(past, later + [edit])
  {
    UndoEdit(files, older, edit.path, edit.text, edit.id, edit.kind);
    FirstVersionsSnoc(past, later, edit);
  }

  lemma RestorableSuffix(files: Files, ring: seq<Entry>, k: nat)
    requires Restorable(files, ring) && k <= |ring|
    ensures Restorable(files, ring[k..])
  {
  }

  /** The `k`-th entry of the ring before an edit, or the edit's own, still undoes to its past. */
  lemma EditKeepsUndoing(maxlen: nat, files: Files, init: seq<Move>, edit: Move, k: nat)
    requires edit.Edit? && Restorable(Run(maxlen, files, init).files, Run(maxlen, files, init).ring)
    requires k <= |Run(maxlen, files, init).ring|
    requires k < |Run(maxlen, files, init).ring| ==> UndoesTo(maxlen, files, init, k)
    ensures var before := Run(maxlen, files, init);
            var origin := if k < |before.ring| then Origins(maxlen, init)[k] else |init|;
            && origin <= |init|
            && Undo(before.files[edit.path := Text(edit.text)],
                    before.ring[k..] + [Capture(before.files, edit.id, edit.kind, edit.path)]) ==
               FirstVersions(Run(maxlen, files, init[..origin]).files, init[origin..] + [edit])
  {
    var before := Run(maxlen, files, init);
    RestorableSuffix(before.files, before.ring, k);
    if k < |before.ring| {
      var origin := Origins(maxlen, init)[k];
      EditUndone(before.files, before.ring[k..], Run(maxlen, files, init[..origin]).files, init[origin..], edit);
    } else {
      assert init[..|init|] == init && init[|init|..] == [] && before.ring[k..] == [];
      EditUndone(before.files, [], before.files, [], edit);
    }
  }

  lemma FirstVersionsSnoc(past: Files, later: seq<Move>, move: Move)
    ensures var before := FirstVersions(past, later);
            FirstVersions(past, later + [move]) ==
            if move.Edit? && !Readable(before, move.path) then before[move.path := Text(move.text)] else before
  {
    assert (later + [move])[..|later|] == later;
  }

  lemma EditKeepsRestorable(maxlen: nat, m: Machine, edit: Move)
    requires edit.Edit? && Restorable(m.files, m.ring)
    ensures Restorable(Move1(maxlen, m, edit).files, Move1(maxlen, m, edit).ring)
  {
    var e := Capture(m.files, edit.id, edit.kind, edit.path);
    var after := Move1(maxlen, m, edit);
    forall x | x in after.ring && x.existed ensures Readable(after.files, x.path) {
      assert x in m.ring + [e];
      assert x in m.ring || x == e;
    }
  }

  lemma SliceLast<T>(s: seq<T>, i: nat)
    requires i < |s|
    ensures s[..i] == s[..|s| - 1][..i]
    ensures s[i..] == s[..|s| - 1][i..] + [s[|s| - 1]]
  {
  }

  lemma LastNSuffix<T>(s: seq<T>, x: T, n: nat, k: nat)
    requires k < |LastN(s + [x], n)|
    ensures var evicted := |s| + 1 - |LastN(s + [x], n)|;
            && LastN(s + [x], n)[k..] == s[k + evicted..] + [x]
            && LastN(s + [x], n)[k] == if k + evicted < |s| then s[k + evicted] else x
  {
  }

  /** After an edit, position `k` of the ring is position `at` of the ring before it, followed by
      the edit's own entry; its origin is the same move. */
  lemma EditShiftsRing(maxlen: nat, before: Machine, origins: seq<nat>, e: Entry, index: nat, k: nat)
    requires |before.ring| == |origins|
    requires k < |Record(before.ring, maxlen, e)|
    ensures var ring, now := Record(before.ring, maxlen, e), LastN(origins + [index], maxlen);
            var at := k + |before.ring| + 1 - |ring|;
            && |ring| == |now| && at <= |before.ring|
            && ring[k..] == before.ring[at..] + [e]
            && now[k] == if at < |before.ring| then origins[at] else index
  {
    LastNSuffix(before.ring, e, maxlen, k);
    LastNSuffix(origins, index, maxlen, k);
  }

  lemma EditRuns(maxlen: nat, files: Files, moves: seq<Move>, init: seq<Move>, edit: Move)
    requires moves == init + [edit] && edit.Edit?
    ensures var before := Run(maxlen, files, init); var e := Capture(before.files, edit.id, edit.kind, edit.path);
            && Run(maxlen, files, moves) == Machine(before.files[edit.path := Text(edit.text)], Record(before.ring, maxlen, e))
            && Origins(maxlen, moves) == LastN(Origins(maxlen, init) + [|init|], maxlen)
  {
    assert moves[..|moves| - 1] == init && moves[|moves| - 1] == edit;
  }

  lemma EditKeepsUndoesTo(maxlen: nat, files: Files, moves: seq<Move>, k: nat)
    requires moves != [] && moves[|moves| - 1].Edit?
    requires k < |Run(maxlen, files, moves).ring|
    requires var m := Run(maxlen, files, moves[..|moves| - 1]);
             var at := k + |m.ring| + 1 - |Run(maxlen, files, moves).ring|;
             && Restorable(m.files, m.ring) && |m.ring| == |Origins(maxlen, moves[..|moves| - 1])|
             && (at < |m.ring| ==> UndoesTo(maxlen, files, moves[..|moves| - 1], at))
    ensures UndoesTo(maxlen, files, moves, k)
  {
    var init, edit := moves[..|moves| - 1], moves[|moves| - 1];
    EditRuns(maxlen, files, moves, init, edit);
    EditedUndoesTo(maxlen, files, moves, init, edit, Run(maxlen, files, init), Origins(maxlen, init), k,
      k + |Run(maxlen, files, init).ring| + 1 - |Run(maxlen, files, moves).ring|);
  }

  lemma EditedUndoesTo(maxlen: nat, files: Files, moves: seq<Move>, init: seq<Move>, edit: Move,
                       before: Machine, origins: seq<nat>, k: nat, at: int)
    requires moves == init + [edit] && edit.Edit?
    requires before == Run(maxlen, files, init) && origins == Origins(maxlen, init)
    requires Restorable(before.files, before.ring) && |before.ring| == |origins|
    requires var e := Capture(before.files, edit.id, edit.kind, edit.path);
             && Run(maxlen, files, moves) == Machine(before.files[edit.path := Text(edit.text)], Record(before.ring, maxlen, e))
             && Origins(maxlen, moves) == LastN(origins + [|init|], maxlen)
             && k < |Record(before.ring, maxlen, e)| && at == k + |before.ring| + 1 - |Record(before.ring, maxlen, e)|
    requires at < |before.ring| ==> UndoesTo(maxlen, files, init, at)
    ensures UndoesTo(maxlen, files, moves, k)
  {
    var e := Capture(before.files, edit.id, edit.kind, edit.path);
    EditShiftsRing(maxlen, before, origins, e, |init|, k);
    EditKeepsUndoing(maxlen, files, init, edit, at);
    var origin := if at < |before.ring| then origins[at] else |init|;
    JoinedParts(init, edit, origin);
    UndoesToMeans(maxlen, files, moves, k, before.files[edit.path := Text(edit.text)],
                  before.ring[at..] + [e], init[..origin], init[origin..] + [edit]);
  }

  lemma JoinedParts<T>(init: seq<T>, last: T, i: nat)
    requires i <= |init|
    ensures (init + [last])[..i] == init[..i] && (init + [last])[i..] == init[i..] + [last]
  {
  }

  lemma UndoesToMeans(maxlen: nat, files: Files, moves: seq<Move>, k: nat,
                      now: Files, entries: seq<Entry>, past: seq<Move>, later: seq<Move>)
    requires var m := Run(maxlen, files, moves);
             && k < |m.ring| == |Origins(maxlen, moves)| && Origins(maxlen, moves)[k] < |moves|
             && m.files == now && m.ring[k..] == entries
             && moves[..Origins(maxlen, moves)[k]] == past && moves[Origins(maxlen, moves)[k]..] == later
    requires Undo(now, entries) == FirstVersions(Run(maxlen, files, past).files, later)
    ensures UndoesTo(maxlen, files, moves, k)
  {
  }

  lemma EditKeepsInvariant(maxlen: nat, files: Files, moves: seq<Move>)
    requires moves != [] && moves[|moves| - 1].Edit?
    requires Invariant(maxlen, files, moves[..|moves| - 1])
    ensures Invariant(maxlen, files, moves)
  {
    EditKeepsRestorable(maxlen, Run(maxlen, files, moves[..|moves| - 1]), moves[|moves| - 1]);
    forall k | 0 <= k < |Run(maxlen, files, moves).ring| ensures UndoesTo(maxlen, files, moves, k) {
      EditKeepsUndoesTo(maxlen, files, moves, k);
    }
  }

  lemma BackKeepsUndoing(maxlen: nat, files: Files, init: seq<Move>, back: Move, k: nat)
    requires back.Back? && |Run(maxlen, files, init).ring| == |Origins(maxlen, init)|
    requires UndoesTo(maxlen, files, init, k)
    requires k < |Move1(maxlen, Run(maxlen, files, init), back).ring|
    ensures var m := Move1(maxlen, Run(maxlen, files, init), back);
            var origin := Origins(maxlen, init)[k];
            && origin < |init|
            && Undo(m.files, m.ring[k..]) ==
               FirstVersions(Run(maxlen, files, init[..origin]).files, init[origin..] + [back])
  {
    var before, n := Run(maxlen, files, init), back.steps;
    var origin := Origins(maxlen, init)[k];
    FirstVersionsSnoc(Run(maxlen, files, init[..origin]).files, init[origin..], back);
    RewoundUndoesAlike(before, n, k);
  }

  lemma RewoundUndoesAlike(m: Machine, n: int, k: nat)
    requires k < |Rewound(m, n).ring|
    ensures Undo(Rewound(m, n).files, Rewound(m, n).ring[k..]) == Undo(m.files, m.ring[k..])
  {
    if 1 <= n <= |m.ring| {
      UndoInTwo(m.files, m.ring, k, |m.ring| - n);
    }
  }

  lemma UndoInTwo(files: Files, ring: seq<Entry>, k: nat, kept: nat)
    requires k <= kept <= |ring|
    ensures Undo(Undo(files, ring[kept..]), ring[..kept][k..]) == Undo(files, ring[k..])
  {
    UndoConcat(files, ring[..kept][k..], ring[kept..]);
    assert ring[..kept][k..] + ring[kept..] == ring[k..];
  }

  lemma BackKeepsRestorable(m: Machine, n: int)
    requires Restorable(m.files, m.ring)
    ensures Restorable(Rewound(m, n).files, Rewound(m, n).ring)
  {
    forall x | x in Rewound(m, n).ring && x.existed ensures Readable(Rewound(m, n).files, x.path) {
      assert x in m.ring;
      if 1 <= n <= |m.ring| {
        UndoKeepsReadable(m.files, m.ring[|m.ring| - n..], x.path);
      }
    }
  }

  lemma BackKeepsInvariant(maxlen: nat, files: Files, moves: seq<Move>)
    requires moves != [] && moves[|moves| - 1].Back?
    requires Invariant(maxlen, files, moves[..|moves| - 1])
    ensures Invariant(maxlen, files, moves)
  {
    var init, back := moves[..|moves| - 1], moves[|moves| - 1];
    BackKeepsRestorable(Run(maxlen, files, init), back.steps);
    forall k | 0 <= k < |Run(maxlen, files, moves).ring| ensures UndoesTo(maxlen, files, moves, k) {
      assert UndoesTo(maxlen, files, init, k);
      BackKeepsUndoing(maxlen, files, init, back, k);
      SliceLast(moves, Origins(maxlen, moves)[k]);
    }
  }

  /** Rewind correctness over whole runs. After any interleaving of accepted edits and successful
      rewinds, rewinding `n` steps puts every path that was readable just before the n-th newest
      ring edit exactly at its content of that moment, leaves a path made readable since at its
      first text, and changes nothing else. */
  lemma RewindReachesThePast(maxlen: nat, files: Files, moves: seq<Move>, n: int)
    requires 1 <= n <= |Run(maxlen, files, moves).ring|
    ensures var m := Run(maxlen, files, moves);
            var origins := Origins(maxlen, moves);
            && |origins| == |m.ring| && origins[|m.ring| - n] < |moves|
            && Rewound(m, n).files ==
               FirstVersions(Run(maxlen, files, moves[..origins[|m.ring| - n]]).files, moves[origins[|m.ring| - n]..])
  {
    InvariantHolds(maxlen, files, moves);
    var k := |Run(maxlen, files, moves).ring| - n;
    assert UndoesTo(maxlen, files, moves, k);
    RewoundMeans(Run(maxlen, files, moves), n, k);
  }

  lemma RewoundMeans(m: Machine, n: int, k: nat)
    requires 1 <= n <= |m.ring| && k == |m.ring| - n
    ensures Rewound(m, n).files == Undo(m.files, m.ring[k..])
  {
  }

  /** Rewinding in two goes is rewinding at once. */
  lemma RewindsCompose(m: Machine, a: int, b: int)
    requires 1 <= a && 1 <= b && a + b <= |m.ring|
    ensures Rewound(Rewound(m, a), b) == Rewound(m, a + b)
  {
    UndoInTwo(m.files, m.ring, |m.ring| - (a + b), |m.ring| - a);
    assert m.ring[..|m.ring| - a][..|m.ring| - a - b] == m.ring[..|m.ring| - (a + b)];
  }

  // ---------------------------------------------------------------- the command

  /** Edits and restores behave: an accepted edit leaves some text in its path and touches nothing
      else, and `code.write_file` leaves exactly its content. */
  ghost predicate WritesOnePath(env: Env) {
    forall files: Files, d: Decision :: IsEdit(d.kind) && d.path.Some? && env.exec(files, d).Some? ==>
      && (exists text :: env.exec(files, d).value == files[d.path.value := Text(text)])
      && (d.kind == WRITE_FILE ==> env.exec(files, d).value == files[d.path.value := Text(d.content)])
  }

  function RestoreDecision(e: Entry): Decision {
    Decision(WRITE_FILE, "cli", Some(e.path), BeforeOrEmpty(e), None, None)
  }

  /** One restore, through the whole pipeline of a runtime that carries no ring. */
  function AfterRestore(env: Env, cfg: Config, mode: string, w: World, e: Entry): World {
    if e.existed then ApplyTo(env, cfg, None, mode, w, RestoreDecision(e), "") else w
  }

  /** A restore writes the text that was before, for the command; a file that was not there is left alone. */
  lemma AfterRestoreIs(env: Env, cfg: Config, mode: string, w: World, e: Entry)
    ensures AfterRestore(env, cfg, mode, w, e) ==
            if !e.existed then w
            else ApplyTo(env, cfg, None, mode, w,
                         Decision("code.write_file", "cli", Some(e.path), if e.before.Some? then e.before.value else "", None, None), "")
  {
  }

  /** The restores of `entries` (oldest first), newest first. A failed restore is skipped. */
  function Restores(env: Env, cfg: Config, mode: string, w: World, entries: seq<Entry>): World
    decreases |entries|
  {
    if entries == [] then w
    else
      Restores(env, cfg, mode, AfterRestore(env, cfg, mode, w, entries[|entries| - 1]), entries[..|entries| - 1])
  }

  /** The command on the world: out of range nothing happens; otherwise the newest `n` entries are
      restored, by a runtime without a ring, and dropped. */
  function RewoundWorld(env: Env, cfg: Config, mode: string, w: World, n: int): World {
    if n < 1 || n > |w.ring| then w
    else
      Restores(env, cfg, mode, w.(ring := []), w.ring[|w.ring| - n..]).(ring := w.ring[..|w.ring| - n])
  }

  /** What a session does: decisions through its runtime, and rewinds, in any mode at the time. */
  datatype Deed = Do(mode: string, decision: Decision, id: string) | Rewind(mode: string, steps: int)

  /** The two runtimes of a session: its own, which carries the ring, and the one of the restores. */
  datatype Setup = Setup(env: Env, cfg: Config, restoring: Config, maxlen: nat)

  function Acted(s: Setup, w: World, deed: Deed): World {
    match deed
    case Do(mode, d, id) => ApplyTo(s.env, s.cfg, Some(s.maxlen), Mode(mode), w, d, id)
    case Rewind(mode, n) => RewoundWorld(s.env, s.restoring, Mode(mode), w, n)
  }

  function Acts(s: Setup, w: World, deeds: seq<Deed>): World {
    if deeds == [] then w else Acted(s, Acts(s, w, deeds[..|deeds| - 1]), deeds[|deeds| - 1])
  }

  class Session {
    const ring: CheckpointRing
    const host: Host

    constructor (ring: CheckpointRing, host: Host)
      ensures this.ring == ring && this.host == host
    {
      this.ring, this.host := ring, host;
    }

    ghost function Snapshot(): World
      reads this, host, ring
    {
      World(host.files, ring.d, host.tools, host.wirings, host.log)
    }

    /** `/rewind n`. The entries are dropped whether or not their restores succeeded. */
    method CmdRewind(env: Env, cfg: Config, mode: string, n: int) returns (done: bool)
      requires ring.Valid()
      modifies host, ring
      ensures ring.Valid()
      ensures done <==> 1 <= n <= |old(ring.d)|
      ensures Snapshot() == RewoundWorld(env, cfg, Mode(mode), old(Snapshot()), n)
      ensures ring.d == if 1 <= n <= |old(ring.d)| then old(ring.d)[..|old(ring.d)| - n] else old(ring.d)
      ensures !(1 <= n <= |old(ring.d)|) || mode == "plan" ==>
                && host.files == old(host.files) && host.tools == old(host.tools)
                && host.wirings == old(host.wirings) && host.log == old(host.log)
    {
      RewoundRing(env, cfg, Mode(mode), Snapshot(), n);
      if n < 1 || n > |ring.d| {
        return false;
      }
      ghost var after := RestoreNewest(env, cfg, mode, n);
      ring.DropLastN(n);
      return true;
    }

    /** The restores of the newest `n` entries, by a runtime of their own. */
    method RestoreNewest(env: Env, cfg: Config, mode: string, n: int) returns (ghost after: World)
      requires ring.Valid() && 1 <= n <= |ring.d|
      modifies host
      ensures after == Restores(env, cfg, Mode(mode), old(Snapshot()).(ring := []), old(ring.d)[|old(ring.d)| - n..])
      ensures host.files == after.files && host.tools == after.tools
      ensures host.wirings == after.wirings && host.log == after.log
    {
      ghost var before, undone := Snapshot().(ring := []), ring.d[|ring.d| - n..];
      var entries := ring.LastEntries(n);
      assert LastN(ring.d, n) == undone;
      var rt := new Runtime(env, cfg, mode, host, null);
      after := RestoreAll(rt, entries, env, cfg, Mode(mode), before, undone);
    }

    /** One deed of the session on the live files and ring. */
    method Act(s: Setup, deed: Deed)
      requires ring.Valid() && ring.maxlen == s.maxlen
      modifies host, ring
      ensures ring.Valid() && Snapshot() == Acted(s, old(Snapshot()), deed)
    {
      match deed {
        case Do(mode, d, id) =>
          var rt := new Runtime(s.env, s.cfg, mode, host, ring);
          var outcome := rt.Apply(d, id);
        case Rewind(mode, n) =>
          var done := CmdRewind(s.env, s.restoring, mode, n);
      }
    }

    /** The loop of the command, over the entries newest first. */
    method RestoreAll(rt: Runtime, entries: seq<Entry>, ghost env: Env, ghost cfg: Config, ghost mode: string,
                      ghost before: World, ghost undone: seq<Entry>) returns (ghost after: World)
      requires rt.Valid() && rt.host == host && rt.ring == null
      requires rt.env == env && rt.cfg == cfg && rt.mode == mode
      requires rt.Snapshot() == before && entries == Reversed(undone)
      modifies host
      ensures after == Restores(env, cfg, mode, before, undone)
      ensures host.files == after.files && host.tools == after.tools
      ensures host.wirings == after.wirings && host.log == after.log
    {
      ghost var left := undone;
      after := before;
      for i := 0 to |entries|
        invariant rt.Valid() && rt.Snapshot() == after && left == undone[..|entries| - i]
        invariant Restores(env, cfg, mode, after, left) == Restores(env, cfg, mode, before, undone)
      {
        assert entries[i] == left[|left| - 1] && left[..|left| - 1] == undone[..|entries| - i - 1];
        Restore(rt, entries[i]);
        after := AfterRestore(env, cfg, mode, after, entries[i]);
        left := left[..|left| - 1];
      }
    }

    method Restore(rt: Runtime, entry: Entry)
      requires rt.Valid() && rt.host == host && rt.ring == null
      modifies host
      ensures rt.Valid() && rt.Snapshot() == AfterRestore(rt.env, rt.cfg, rt.mode, old(rt.Snapshot()), entry)
    {
      if entry.existed {
        var outcome := rt.Apply(RestoreDecision(entry), "");
      }
    }
  }

  predicate RestoreSucceeds(env: Env, cfg: Config, mode: string, files: Files, e: Entry) {
    e.existed ==>
      MayExecute(env, cfg, mode, RestoreDecision(e)) && env.exec(files, Stamped(RestoreDecision(e), cfg.root)).Some?
  }

  /** Every restore of these entries, newest first, passes the pipeline and the executor on the files it
      meets. */
  predicate RestoresSucceed(env: Env, cfg: Config, mode: string, w: World, entries: seq<Entry>)
    decreases |entries|
  {
    entries == []
    || (RestoreSucceeds(env, cfg, mode, w.files, entries[|entries| - 1])
        && RestoresSucceed(env, cfg, mode, AfterRestore(env, cfg, mode, w, entries[|entries| - 1]), entries[..|entries| - 1]))
  }

  /** When every restore succeeds the command is exactly the rewind of the machine. */
  lemma {:induction false} SuccessfulRestoresUndo(
      env: Env, cfg: Config, mode: string, w: World, entries: seq<Entry>)
    requires WritesOnePath(env) && RestoresSucceed(env, cfg, mode, w, entries)
    ensures Restores(env, cfg, mode, w, entries).files == Undo(w.files, entries)
    ensures Restores(env, cfg, mode, w, entries).ring == w.ring
    decreases |entries|
  {
    if entries != [] {
      var e, init := entries[|entries| - 1], entries[..|entries| - 1];
      var next := AfterRestore(env, cfg, mode, w, e);
      if e.existed {
        var d := Stamped(RestoreDecision(e), cfg.root);
        assert env.exec(w.files, d).Some?;
        assert env.exec(w.files, d).value == w.files[d.path.value := Text(d.content)];
      }
      SuccessfulRestoresUndo(env, cfg, mode, next, init);
    }
  }

  /** Whatever its restores do, in any mode, a rewind in range drops exactly its entries, and one out of
      range changes nothing; in plan mode nothing but the ring is changed. */
  lemma RewoundRing(env: Env, cfg: Config, mode: string, w: World, n: int)
    ensures var after := RewoundWorld(env, cfg, mode, w, n);
            && after.ring == (if 1 <= n <= |w.ring| then w.ring[..|w.ring| - n] else w.ring)
            && (!(1 <= n <= |w.ring|) || mode == "plan" ==>
                  after.files == w.files && after.tools == w.tools && after.wirings == w.wirings && after.log == w.log)
  {
    if 1 <= n <= |w.ring| && mode == "plan" {
      PlanModeRestoresNothing(env, cfg, w.(ring := []), w.ring[|w.ring| - n..]);
    }
  }

  /** In plan mode the command restores nothing, and drops its entries all the same. */
  lemma {:induction false} PlanModeRestoresNothing(env: Env, cfg: Config, w: World, entries: seq<Entry>)
    ensures Restores(env, cfg, PLAN, w, entries) == w
    decreases |entries|
  {
    if entries != [] {
      PlanModeRestoresNothing(env, cfg, w, entries[..|entries| - 1]);
    }
  }

  /** A decision the pipeline executes with a ring is, on the files and the ring, an edit move. */
  lemma ExecutedEditIsMove(env: Env, cfg: Config, maxlen: nat, mode: string, w: World, d: Decision, id: string)
    requires WritesOnePath(env) && Captures(d)
    requires MayExecute(env, cfg, mode, d) && env.exec(w.files, Stamped(d, cfg.root)).Some?
    ensures exists text ::
              var after := ApplyTo(env, cfg, Some(maxlen), mode, w, d, id);
              Machine(after.files, after.ring) ==
              Move1(maxlen, Machine(w.files, w.ring), Edit(d.path.value, text, id, d.kind))
  {
    var stamped := Stamped(d, cfg.root);
    var text :| env.exec(w.files, stamped).value == w.files[stamped.path.value := Text(text)];
    var after := ApplyTo(env, cfg, Some(maxlen), mode, w, d, id);
    assert Machine(after.files, after.ring) ==
      Move1(maxlen, Machine(w.files, w.ring), Edit(d.path.value, text, id, d.kind));
  }

  // ---------------------------------------------------------------- whole sessions

  /** Only a decision that is captured changes files. */
  ghost predicate OnlyEditsWrite(env: Env) {
    forall files: Files, d: Decision :: !Captures(d) && env.exec(files, d).Some? ==> env.exec(files, d).value == files
  }

  predicate Executes(s: Setup, w: World, mode: string, d: Decision) {
    MayExecute(s.env, s.cfg, mode, d) && s.env.exec(w.files, Stamped(d, s.cfg.root)).Some?
  }

  function TextAt(files: Files, path: string): string {
    if Readable(files, path) then files[path].text else ""
  }

  /** The move a deed makes, if it makes one. */
  function MoveOf(s: Setup, w: World, deed: Deed): seq<Move> {
    match deed
    case Do(mode, d, id) =>
      if Captures(d) && Executes(s, w, Mode(mode), d)
      then [Edit(d.path.value, TextAt(Acted(s, w, deed).files, d.path.value), id, d.kind)] else []
    case Rewind(mode, n) => [Back(n)]
  }

  function MovesOf(s: Setup, w: World, deeds: seq<Deed>): seq<Move> {
    if deeds == [] then []
    else
      var init := deeds[..|deeds| - 1];
      MovesOf(s, w, init) + MoveOf(s, Acts(s, w, init), deeds[|deeds| - 1])
  }

  /** Every restore that this deed asks for succeeds. */
  ghost predicate Succeeds(s: Setup, w: World, deed: Deed) {
    deed.Rewind? && 1 <= deed.steps <= |w.ring| ==>
      RestoresSucceed(s.env, s.restoring, Mode(deed.mode), w.(ring := []), w.ring[|w.ring| - deed.steps..])
  }

  ghost predicate AllSucceed(s: Setup, w: World, deeds: seq<Deed>) {
    deeds == [] || (AllSucceed(s, w, deeds[..|deeds| - 1]) && Succeeds(s, Acts(s, w, deeds[..|deeds| - 1]), deeds[|deeds| - 1]))
  }

  function MachineOf(w: World): Machine { Machine(w.files, w.ring) }

  lemma DoIsMove(s: Setup, w: World, deed: Deed)
    requires WritesOnePath(s.env) && OnlyEditsWrite(s.env) && deed.Do?
    ensures var moves := MoveOf(s, w, deed);
            MachineOf(Acted(s, w, deed)) ==
            if moves == [] then MachineOf(w) else Move1(s.maxlen, MachineOf(w), moves[0])
  {
    var mode, d := Mode(deed.mode), deed.decision;
    if Executes(s, w, mode, d) {
      if Captures(d) {
        ExecutedEditIsMove(s.env, s.cfg, s.maxlen, mode, w, d, deed.id);
      } else {
        assert !Captures(Stamped(d, s.cfg.root));
      }
    }
  }

  lemma RewindIsMove(s: Setup, w: World, deed: Deed)
    requires WritesOnePath(s.env) && deed.Rewind? && Succeeds(s, w, deed)
    ensures MachineOf(Acted(s, w, deed)) == Move1(s.maxlen, MachineOf(w), Back(deed.steps))
  {
    var n := deed.steps;
    if 1 <= n <= |w.ring| {
      SuccessfulRestoresUndo(s.env, s.restoring, Mode(deed.mode), w.(ring := []), w.ring[|w.ring| - n..]);
    }
  }

  /** A session whose restores succeed is, on the files and the ring, a run of the machine. */
  lemma {:induction false} SessionIsRun(s: Setup, w: World, deeds: seq<Deed>)
    requires WritesOnePath(s.env) && OnlyEditsWrite(s.env) && w.ring == [] && AllSucceed(s, w, deeds)
    ensures MachineOf(Acts(s, w, deeds)) == Run(s.maxlen, w.files, MovesOf(s, w, deeds))
  {
    if deeds != [] {
      var init, deed := deeds[..|deeds| - 1], deeds[|deeds| - 1];
      var before, moves := Acts(s, w, init), MovesOf(s, w, init);
      SessionIsRun(s, w, init);
      if deed.Do? { DoIsMove(s, before, deed); } else { RewindIsMove(s, before, deed); }
      var more := MoveOf(s, before, deed);
      if more == [] {
        assert moves + more == moves;
      } else {
        assert more == [more[0]];
        RunSnoc(s.maxlen, w.files, moves, more[0]);
      }
    }
  }

  /** A sequence that grows by at most one element at a time passes through each of its prefixes. */
  lemma {:induction false} PassesThrough<T(!new)>(grown: int -> seq<T>, n: nat, o: nat) returns (k: nat)
    requires grown(0) == [] && forall i :: 0 <= i < n ==> GrowsAt(grown, i)
    requires o < |grown(n)|
    ensures k < n && grown(k) == grown(n)[..o] && grown(k + 1) == grown(n)[..o + 1]
  {
    assert GrowsAt(grown, n - 1);
    if o < |grown(n - 1)| {
      k := PassesThrough(grown, n - 1, o);
    } else {
      k := n - 1;
    }
  }

  ghost predicate GrowsAt<T(!new)>(grown: int -> seq<T>, i: int) {
    grown(i) <= grown(i + 1) && |grown(i + 1)| <= |grown(i)| + 1
  }

  lemma MovesGrow(s: Setup, w: World, deeds: seq<Deed>, i: nat)
    requires i < |deeds|
    ensures MovesOf(s, w, deeds[..i]) <= MovesOf(s, w, deeds[..i + 1])
    ensures |MovesOf(s, w, deeds[..i + 1])| <= |MovesOf(s, w, deeds[..i])| + 1
  {
    assert deeds[..i + 1][..i] == deeds[..i];
  }

  /** Every move of a session was made by one of its deeds. */
  lemma DeedOfMove(s: Setup, w: World, deeds: seq<Deed>, o: nat) returns (k: nat)
    requires o < |MovesOf(s, w, deeds)|
    ensures k < |deeds| && MovesOf(s, w, deeds[..k]) == MovesOf(s, w, deeds)[..o]
    ensures MovesOf(s, w, deeds[..k + 1]) == MovesOf(s, w, deeds)[..o + 1]
  {
    ghost var grown := (i: int) => if 0 <= i <= |deeds| then MovesOf(s, w, deeds[..i]) else [];
    forall i | 0 <= i < |deeds| ensures GrowsAt(grown, i) {
      MovesGrow(s, w, deeds, i);
    }
    assert deeds[..|deeds|] == deeds;
    k := PassesThrough(grown, |deeds|, o);
  }

  lemma {:induction false} AllSucceedPrefix(s: Setup, w: World, deeds: seq<Deed>, k: nat)
    requires AllSucceed(s, w, deeds) && k <= |deeds|
    ensures AllSucceed(s, w, deeds[..k])
  {
    if k < |deeds| {
      AllSucceedPrefix(s, w, deeds[..|deeds| - 1], k);
      assert deeds[..|deeds| - 1][..k] == deeds[..k];
    } else {
      assert deeds[..k] == deeds;
    }
  }

  /** The move that recorded the entry `n` steps back. */
  ghost predicate RecordedBack(s: Setup, w: World, deeds: seq<Deed>, n: int, o: nat) {
    var moves := MovesOf(s, w, deeds);
    && 1 <= n <= |Acts(s, w, deeds).ring| == |Origins(s.maxlen, moves)|
    && o == Origins(s.maxlen, moves)[|Acts(s, w, deeds).ring| - n] && o < |moves|
  }

  /** The theorem for sessions: after any interleaving of decisions and rewinds in any modes, whose
      restores succeed, a rewind of `n` steps whose restores succeed leads back to the files before
      the very deed that recorded the entry `n` steps back, but for paths that were not readable then. */
  lemma SessionRewindReachesThePast(s: Setup, w: World, deeds: seq<Deed>, rewind: Deed) returns (k: nat, o: nat)
    requires WritesOnePath(s.env) && OnlyEditsWrite(s.env) && w.ring == [] && AllSucceed(s, w, deeds)
    requires rewind.Rewind? && 1 <= rewind.steps <= |Acts(s, w, deeds).ring| && Succeeds(s, Acts(s, w, deeds), rewind)
    ensures RecordedBack(s, w, deeds, rewind.steps, o)
    ensures k < |deeds| && MovesOf(s, w, deeds[..k]) == MovesOf(s, w, deeds)[..o]
    ensures MovesOf(s, w, deeds[..k + 1]) == MovesOf(s, w, deeds)[..o + 1]
    ensures var past, now := Acts(s, w, deeds[..k]).files, Acted(s, Acts(s, w, deeds), rewind);
            && now.files == FirstVersions(past, MovesOf(s, w, deeds)[o..])
            && |now.ring| == |Acts(s, w, deeds).ring| - rewind.steps
            && forall path :: Readable(past, path) ==> path in now.files && now.files[path] == past[path]
  {
    o := SessionRewindUndoes(s, w, deeds, rewind);
    k := DeedOfMove(s, w, deeds, o);
    AllSucceedPrefix(s, w, deeds, k);
    SessionIsRun(s, w, deeds[..k]);
    ReadableComesBack(Acts(s, w, deeds[..k]).files, MovesOf(s, w, deeds)[o..]);
  }

  /** A world whose files are those before move `o`, but for paths that were not readable then. */
  ghost predicate BackBefore(s: Setup, files: Files, moves: seq<Move>, o: nat, now: Machine)
    requires o <= |moves|
  {
    now.files == FirstVersions(Run(s.maxlen, files, moves[..o]).files, moves[o..])
  }

  lemma SessionRewindUndoes(s: Setup, w: World, deeds: seq<Deed>, rewind: Deed) returns (o: nat)
    requires WritesOnePath(s.env) && OnlyEditsWrite(s.env) && w.ring == [] && AllSucceed(s, w, deeds)
    requires rewind.Rewind? && 1 <= rewind.steps <= |Acts(s, w, deeds).ring| && Succeeds(s, Acts(s, w, deeds), rewind)
    ensures RecordedBack(s, w, deeds, rewind.steps, o)
    ensures BackBefore(s, w.files, MovesOf(s, w, deeds), o, MachineOf(Acted(s, Acts(s, w, deeds), rewind)))
    ensures |Acted(s, Acts(s, w, deeds), rewind).ring| == |Acts(s, w, deeds).ring| - rewind.steps
  {
    SessionIsRun(s, w, deeds);
    o := SessionOrigin(s, w, deeds, rewind.steps, MachineOf(Acts(s, w, deeds)));
    RewindIsMove(s, Acts(s, w, deeds), rewind);
  }

  lemma SessionOrigin(s: Setup, w: World, deeds: seq<Deed>, n: int, m: Machine) returns (o: nat)
    requires m == MachineOf(Acts(s, w, deeds)) && m == Run(s.maxlen, w.files, MovesOf(s, w, deeds)) && 1 <= n <= |m.ring|
    ensures RecordedBack(s, w, deeds, n, o)
    ensures BackBefore(s, w.files, MovesOf(s, w, deeds), o, Rewound(m, n))
    ensures |Rewound(m, n).ring| == |m.ring| - n
  {
    o := RewindsTo(s.maxlen, w.files, MovesOf(s, w, deeds), m, n);
  }

  lemma RewindsTo(maxlen: nat, files: Files, moves: seq<Move>, m: Machine, n: int) returns (o: nat)
    requires m == Run(maxlen, files, moves) && 1 <= n <= |m.ring|
    ensures |Origins(maxlen, moves)| == |m.ring| && o == Origins(maxlen, moves)[|m.ring| - n]
    ensures o < |moves| && |Rewound(m, n).ring| == |m.ring| - n
    ensures Rewound(m, n).files == FirstVersions(Run(maxlen, files, moves[..o]).files, moves[o..])
  {
    RewindReachesThePast(maxlen, files, moves, n);
    o := Origins(maxlen, moves)[|m.ring| - n];
    RewoundLength(m, n);
  }

  lemma RewoundLength(m: Machine, n: int)
    requires 1 <= n <= |m.ring|
    ensures |Rewound(m, n).ring| == |m.ring| - n
  {
  }

  lemma ReadableComesBack(past: Files, later: seq<Move>)
    ensures forall path :: Readable(past, path) ==>
              path in FirstVersions(past, later) && FirstVersions(past, later)[path] == past[path]
  {
    forall path | Readable(past, path)
      ensures path in FirstVersions(past, later) && FirstVersions(past, later)[path] == past[path]
    {
      FirstVersionOf(past, later, path);
    }
  }
}
