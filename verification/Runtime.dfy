/** Files, decisions and checkpoint entries, as the runtime, the ring and the rewind share them. */
module Workspace {
  import opened Options
  import opened Sequences

  /** A file's content as `read_text` sees it: text, or bytes that are not UTF-8. */
  datatype Content = Text(text: string) | Undecodable

  type Files = map<string, Content>

  datatype Decision = Decision(
    kind: string,
    source: string,
    path: Option<string>,
    content: string,
    argument: Option<string>,  // a command, target or message, for the permission rules
    root: Option<string>)

  datatype Entry = Entry(id: string, kind: string, path: string, existed: bool, before: Option<string>)

  const WRITE_FILE := "code.write_file"
  const APPLY_PATCH := "code.apply_patch"
  const SEARCH_REPLACE := "code.search_replace"
  const SHELL_EXEC := "shell.exec"

  predicate IsEdit(kind: string) {
    kind == WRITE_FILE || kind == APPLY_PATCH || kind == SEARCH_REPLACE
  }

  predicate Readable(files: Files, path: string) {
    path in files && files[path].Text?
  }

  /** The pre-edit content of one file. A file that cannot be decoded is captured as absent. */
  function Capture(files: Files, id: string, kind: string, path: string): Entry {
    if Readable(files, path)
    then Entry(id, kind, path, true, Some(files[path].text))
    else Entry(id, kind, path, false, None)
  }

  function Record(ring: seq<Entry>, maxlen: nat, e: Entry): seq<Entry> {
    LastN(ring + [e], maxlen)
  }

  function BeforeOrEmpty(e: Entry): string {
    if e.before.Some? then e.before.value else ""
  }

  function RestoreOne(files: Files, e: Entry): Files {
    if e.existed then files[e.path := Text(BeforeOrEmpty(e))] else files
  }

  /** The files after restoring `entries` (oldest first) newest first. */
  function Undo(files: Files, entries: seq<Entry>): Files
    decreases |entries|
  {
    if entries == [] then files
    else Undo(RestoreOne(files, entries[|entries| - 1]), entries[..|entries| - 1])
  }

  lemma {:induction false} UndoConcat(files: Files, older: seq<Entry>, newer: seq<Entry>)
    ensures Undo(files, older + newer) == Undo(Undo(files, newer), older)
    decreases |newer|
  {
    if newer == [] {
      assert older + newer == older;
    } else {
      var last := newer[|newer| - 1];
      assert (older + newer)[..|older + newer| - 1] == older + newer[..|newer| - 1];
      UndoConcat(RestoreOne(files, last), older, newer[..|newer| - 1]);
    }
  }
}

/** The bounded ring of before-images. */
module CheckpointRings {
  import opened Options
  import opened Sequences
  import opened Workspace

  function Reversed<T>(s: seq<T>): (r: seq<T>)
    ensures |r| == |s| && forall i :: 0 <= i < |s| ==> r[i] == s[|s| - 1 - i]
  {
    if s == [] then [] else Reversed(s[1..]) + [s[0]]
  }

  ghost predicate Matches(e: Entry, wanted: string) {
    wanted != "" && wanted <= e.id
  }

  /** Entry `i` is what `wanted` denotes: the oldest exact match if there is one, else the oldest
      entry whose id has this prefix (which need not be the only one). */
  ghost predicate Denotes(d: seq<Entry>, wanted: string, i: int) {
    && 0 <= i < |d| && Matches(d[i], wanted)
    && (d[i].id == wanted ==> forall j :: 0 <= j < i ==> d[j].id != wanted)
    && (d[i].id != wanted ==>
          && (forall j :: 0 <= j < |d| ==> d[j].id != wanted)
          && (forall j :: 0 <= j < i ==> !Matches(d[j], wanted)))
  }

  class CheckpointRing {
    const maxlen: nat
    var d: seq<Entry>

    ghost predicate Valid()
      reads this
    {
      |d| <= maxlen
    }

    constructor (maxlen: nat)
      ensures Valid() && d == [] && this.maxlen == maxlen
    {
      this.maxlen := maxlen;
      d := [];
    }

    /** `deque.append` with a `maxlen`; a ring of length zero keeps nothing. */
    method Append(e: Entry)
      requires Valid()
      modifies this
      ensures Valid() && d == Record(old(d), maxlen, e)
    {
      if maxlen > 0 {
        if |d| == maxlen {
          d := d[1..];
        }
        d := d + [e];
      }
    }

    /** The `n` most recent entries, newest first. */
    method LastEntries(n: int) returns (r: seq<Entry>)
      ensures r == if n <= 0 then [] else Reversed(LastN(d, n))
    {
      if n <= 0 {
        return [];
      }
      var newestFirst := Reversed(d);
      r := if n < |newestFirst| then newestFirst[..n] else newestFirst;
    }

    method DropLastN(n: int)
      requires Valid()
      modifies this
      ensures Valid()
      ensures d == old(d)[..if n <= 0 then |old(d)| else if n <= |old(d)| then |old(d)| - n else 0]
    {
      var times := if n < 0 then 0 else n;
      if |d| < times {
        times := |d|;
      }
      for i := 0 to times
        invariant Valid() && d == old(d)[..|old(d)| - i]
      {
        d := d[..|d| - 1];
      }
    }

    method ById(wanted: string) returns (found: Option<nat>)
      ensures found.None? <==> wanted == "" || forall i :: 0 <= i < |d| ==> !(wanted <= d[i].id)
      ensures found.Some? ==>
                var i := found.value;
                && i < |d| && wanted <= d[i].id
                && (d[i].id == wanted ==> forall j :: 0 <= j < i ==> d[j].id != wanted)
                && (d[i].id != wanted ==>
                      && (forall j :: 0 <= j < |d| ==> d[j].id != wanted)
                      && (forall j :: 0 <= j < i ==> !(wanted <= d[j].id)))
      ensures found.Some? ==> Denotes(d, wanted, found.value)
    {
      if wanted == "" {
        return None;
      }
      for i := 0 to |d|
        invariant forall j :: 0 <= j < i ==> d[j].id != wanted
      {
        if d[i].id == wanted {
          return Some(i);
        }
      }
      for i := 0 to |d|
        invariant forall j :: 0 <= j < i ==> !Matches(d[j], wanted)
      {
        if wanted <= d[i].id {
          return Some(i);
        }
      }
      return None;
    }

    /** How many steps back the wanted checkpoint is, 1 being the most recent. */
    method PositionFromNewest(wanted: string) returns (steps: Option<nat>)
      ensures steps.None? <==> wanted == "" || forall i :: 0 <= i < |d| ==> !(wanted <= d[i].id)
      ensures steps.Some? ==>
                && 1 <= steps.value <= |d|
                && (forall j :: |d| - steps.value < j < |d| ==> d[j].id != d[|d| - steps.value].id)
                && exists i :: Denotes(d, wanted, i) && d[i].id == d[|d| - steps.value].id
    {
      var found := ById(wanted);
      if found.None? {
        return None;
      }
      var entry := d[found.value];
      var newestFirst := Reversed(d);
      for i := 0 to |newestFirst|
        invariant i <= |d| - 1 - found.value
        invariant forall j :: |d| - i <= j < |d| ==> d[j].id != entry.id
      {
        if newestFirst[i].id == entry.id {
          return Some(i + 1);
        }
      }
      return None;
    }
  }
}
