/**
 * Reading `git status --porcelain -z` (crates/git/src/cli.rs
 * `get_worktree_status`).
 */
module GitStatus {
  import opened Wrappers
  import opened Splitting

  /** One status record; the two codes are bytes as git prints them. */
  datatype StatusEntry = StatusEntry(staged: Byte, unstaged: Byte, path: seq<Byte>, origPath: Option<seq<Byte>>, isUntracked: bool)

  const Space: Byte := 0x20
  const Question: Byte := 0x3F
  const LetterR: Byte := 0x52
  const LetterC: Byte := 0x43

  predicate NulFree(s: seq<Byte>) {
    0 !in s
  }

  // ----- parsing -----

  predicate Moves(staged: Byte, unstaged: Byte) {
    staged == LetterR || unstaged == LetterR || staged == LetterC || unstaged == LetterC
  }

  predicate Untracked(staged: Byte, unstaged: Byte) {
    staged == Question && unstaged == Question
  }

  /** The records of a list of parts; a rename or copy takes the next part as its original path. */
  function Parse(parts: seq<seq<Byte>>): seq<StatusEntry> {
    if parts == [] then []
    else if |parts[0]| < 4 then Parse(parts[1..])
    else
      var staged, unstaged, path := parts[0][0], parts[0][1], parts[0][3..];
      if Moves(staged, unstaged) && |parts| > 1 then
        var orig := if parts[1] == [] then None else Some(parts[1]);
        [StatusEntry(staged, unstaged, path, orig, Untracked(staged, unstaged))] + Parse(parts[2..])
      else
        [StatusEntry(staged, unstaged, path, None, Untracked(staged, unstaged))] + Parse(parts[1..])
  }

  predicate Uncommitted(e: StatusEntry) {
    !e.isUntracked && (e.staged != Space || e.unstaged != Space)
  }

  function CountUncommitted(entries: seq<StatusEntry>): nat {
    if entries == [] then 0
    else CountUncommitted(entries[..|entries| - 1]) + if Uncommitted(entries[|entries| - 1]) then 1 else 0
  }

  function CountUntracked(entries: seq<StatusEntry>): nat {
    if entries == [] then 0
    else CountUntracked(entries[..|entries| - 1]) + if entries[|entries| - 1].isUntracked then 1 else 0
  }

  lemma CountAppend(entries: seq<StatusEntry>, e: StatusEntry)
    ensures CountUncommitted(entries + [e]) == CountUncommitted(entries) + if Uncommitted(e) then 1 else 0
    ensures CountUntracked(entries + [e]) == CountUntracked(entries) + if e.isUntracked then 1 else 0
  {
    assert (entries + [e])[..|entries|] == entries;
  }

  /** One record, by its position. */
  lemma ParseAt(parts: seq<seq<Byte>>, i: nat)
    requires i < |parts|
    ensures var part := parts[i];
            Parse(parts[i..]) ==
              if |part| < 4 then Parse(parts[i + 1..])
              else if Moves(part[0], part[1]) && i + 1 < |parts| then
                [StatusEntry(part[0], part[1], part[3..], if parts[i + 1] == [] then None else Some(parts[i + 1]), Untracked(part[0], part[1]))]
                + Parse(parts[i + 2..])
              else [StatusEntry(part[0], part[1], part[3..], None, Untracked(part[0], part[1]))] + Parse(parts[i + 1..])
  {
    assert parts[i..][1..] == parts[i + 1..];
    if i + 1 < |parts| { assert parts[i..][2..] == parts[i + 2..] && parts[i..][1] == parts[i + 1]; }
  }

  method GetWorktreeStatus(out: seq<Byte>) returns (entries: seq<StatusEntry>, uncommittedTracked: nat, untracked: nat)
    ensures entries == Parse(Split(out, 0))
    ensures uncommittedTracked == CountUncommitted(entries) && untracked == CountUntracked(entries)
  {
    entries, uncommittedTracked, untracked := [], 0, 0;
    var parts := Split(out, 0);
    var i := 0;
    assert entries + Parse(parts[0..]) == Parse(parts) by { assert parts[0..] == parts; }
    while i < |parts|
      invariant 0 <= i <= |parts|
      invariant entries + Parse(parts[i..]) == Parse(parts)
      invariant uncommittedTracked == CountUncommitted(entries) && untracked == CountUntracked(entries)
    {
      ParseAt(parts, i);
      var part := parts[i];
      i := i + 1;
      if part == [] || |part| < 4 {
        continue;
      }
      var staged, unstaged, path := part[0], part[1], part[3..];
      var origPath := None;
      if Moves(staged, unstaged) && i < |parts| {
        if parts[i] != [] {
          origPath := Some(parts[i]);
        }
        i := i + 1;
      }
      var entry: StatusEntry;
      if staged == Question && unstaged == Question {
        untracked := untracked + 1;
        entry := StatusEntry(staged, unstaged, path, origPath, true);
      } else {
        if staged != Space || unstaged != Space {
          uncommittedTracked := uncommittedTracked + 1;
        }
        entry := StatusEntry(staged, unstaged, path, origPath, false);
      }
      CountAppend(entries, entry);
      Assoc(entries, [entry], Parse(parts[i..]));
      entries := entries + [entry];
    }
  }

  /** The changed entries are those with a code that is no space and that are not two question marks. */
  function Changed(entries: seq<StatusEntry>): set<nat> {
    set i: nat | i < |entries| && (entries[i].staged != 0x20 || entries[i].unstaged != 0x20) && !entries[i].isUntracked
  }

  function Unknown(entries: seq<StatusEntry>): set<nat> {
    set i: nat | i < |entries| && entries[i].isUntracked
  }

  lemma {:induction false} ChangedAreCounted(entries: seq<StatusEntry>)
    ensures CountUncommitted(entries) == |Changed(entries)|
  {
    if entries != [] {
      var n := |entries| - 1;
      ChangedAreCounted(entries[..n]);
      assert Changed(entries) == Changed(entries[..n]) + if Uncommitted(entries[n]) then {n} else {};
    }
  }

  lemma {:induction false} UnknownAreCounted(entries: seq<StatusEntry>)
    ensures CountUntracked(entries) == |Unknown(entries)|
  {
    if entries != [] {
      var n := |entries| - 1;
      UnknownAreCounted(entries[..n]);
      assert Unknown(entries) == Unknown(entries[..n]) + if entries[n].isUntracked then {n} else {};
    }
  }

  // ----- round trip -----

  /** What git prints for an entry: XY, a space, the path, and for a rename or copy the original path. */
  function Render(e: StatusEntry): seq<Byte> {
    [e.staged, e.unstaged, 0x20] + e.path + [0] + (if e.origPath.Some? then e.origPath.value + [0] else [])
  }

  function RenderAll(entries: seq<StatusEntry>): seq<Byte> {
    if entries == [] then [] else Render(entries[0]) + RenderAll(entries[1..])
  }

  /** An entry git can report, with an original path if one of its codes is `R` or `C`; that path may itself look like a record. */
  predicate ValidEntry(e: StatusEntry) {
    && e.staged != 0 && e.unstaged != 0
    && e.path != [] && NulFree(e.path)
    && (e.origPath.Some? <==> e.staged in [0x52, 0x43] || e.unstaged in [0x52, 0x43])
    && (e.origPath.Some? ==> e.origPath.value != [] && NulFree(e.origPath.value))
    && (e.isUntracked <==> e.staged == 0x3F && e.unstaged == 0x3F)
  }

  /** A record without an original path, and one with it, before any parts. */
  lemma ParseOne(head: seq<Byte>, parts: seq<seq<Byte>>)
    ensures |head| >= 4 && (!Moves(head[0], head[1]) || parts == []) ==>
              Parse([head] + parts) == [StatusEntry(head[0], head[1], head[3..], None, Untracked(head[0], head[1]))] + Parse(parts)
  {
    assert ([head] + parts)[1..] == parts;
  }

  lemma ParseTwo(head: seq<Byte>, orig: seq<Byte>, parts: seq<seq<Byte>>)
    ensures |head| >= 4 && Moves(head[0], head[1]) ==>
              Parse([head] + ([orig] + parts))
              == [StatusEntry(head[0], head[1], head[3..], if orig == [] then None else Some(orig), Untracked(head[0], head[1]))] + Parse(parts)
  {
    assert ([head] + ([orig] + parts))[2..] == parts;
  }

  lemma HeadOf(e: StatusEntry, head: seq<Byte>)
    requires ValidEntry(e) && head == [e.staged, e.unstaged, 0x20] + e.path
    ensures NulFree(head) && |head| >= 4 && head[0] == e.staged && head[1] == e.unstaged && head[3..] == e.path
    ensures Moves(head[0], head[1]) <==> e.origPath.Some?
  {
  }

  lemma ParseRendered(e: StatusEntry, rest: seq<Byte>)
    requires ValidEntry(e)
    ensures Parse(Split(Render(e) + rest, 0)) == [e] + Parse(Split(rest, 0))
  {
    var head := [e.staged, e.unstaged, 0x20] + e.path;
    HeadOf(e, head);
    if e.origPath.Some? {
      var orig := e.origPath.value;
      SplitField(orig, rest, 0);
      SplitField(head, orig + [0] + rest, 0);
      assert Render(e) + rest == head + [0] + (orig + [0] + rest);
      ParseTwo(head, orig, Split(rest, 0));
    } else {
      SplitField(head, rest, 0);
      assert Render(e) + rest == head + [0] + rest;
      ParseOne(head, Split(rest, 0));
    }
  }

  /**
   * The records git does not print: one of fewer than four bytes is passed over,
   * and a rename or copy with nothing, or an empty part, after it has no original
   * path.
   */
  lemma OddRecords(head: seq<Byte>, rest: seq<Byte>)
    requires NulFree(head)
    ensures |head| < 4 ==> Parse(Split(head + [0] + rest, 0)) == Parse(Split(rest, 0))
    ensures |head| >= 4 ==>
              var e := StatusEntry(head[0], head[1], head[3..], None, head[0] == 0x3F && head[1] == 0x3F);
              Parse(Split(head, 0)) == [e] && (head[0] in [0x52, 0x43] ==> Parse(Split(head + [0] + ([0] + rest), 0)) == [e] + Parse(Split(rest, 0)))
  {
    SplitField(head, rest, 0);
    SplitWhole(head, 0);
    SplitField(head, [0] + rest, 0);
    SplitField([], rest, 0);
    assert [] + [0] + rest == [0] + rest;
    assert ([head] + Split(rest, 0))[1..] == Split(rest, 0);
    ParseOne(head, []);
    assert [head] + [] == [head];
    ParseTwo(head, [], Split(rest, 0));
  }

  /** Parsing the rendering of any list of entries gives the list back. */
  lemma {:induction false} RoundTrip(entries: seq<StatusEntry>)
    requires forall i | 0 <= i < |entries| :: ValidEntry(entries[i])
    ensures Parse(Split(RenderAll(entries), 0)) == entries
  {
    if entries == [] {
      assert Split<Byte>([], 0)[1..] == [];
    } else {
      ParseRendered(entries[0], RenderAll(entries[1..]));
      RoundTrip(entries[1..]);
    }
  }
}
