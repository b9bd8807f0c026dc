/**
 * Reading `git worktree list --porcelain` (crates/git/src/cli.rs
 * `list_worktrees`).
 */
module WorktreeList {
  import opened Wrappers
  import opened Text

  datatype Worktree = Worktree(path: string, branch: Option<string>)

  const HeadsPrefix: string := "refs/heads/"

  function StripPrefix(line: string, prefix: string): Option<string> {
    if prefix <= line then Some(line[|prefix|..]) else None
  }

  function Trimmed(lines: seq<string>): seq<string> {
    Each(Trim, lines)
  }

  method ListWorktrees(out: string) returns (entries: seq<Worktree>)
    ensures entries == Scan(Trimmed(Lines(out)), Nothing)
  {
    entries := [];
    ghost var lines := Trimmed(Lines(out));
    var path: Option<string>, head: Option<string>, branch: Option<string> := None, None, None;
    var raw := Lines(out);
    assert lines[0..] == lines;
    for i := 0 to |raw|
      invariant entries + Scan(lines[i..], Current(path, head, branch)) == Scan(lines, Nothing)
    {
      var line := Trim(raw[i]);
      ScanAt(entries, lines, i, Current(path, head, branch));
      if line == "" {
        var (p, h) := (path, head);
        path, head := None, None;
        if p.Some? && h.Some? {
          entries := entries + [Worktree(p.value, branch)];
          branch := None;
        }
      } else if StripPrefix(line, "worktree ").Some? {
        path := StripPrefix(line, "worktree ");
      } else if StripPrefix(line, "HEAD ").Some? {
        head := StripPrefix(line, "HEAD ");
      } else if StripPrefix(line, "branch ").Some? {
        branch := StripPrefix(StripPrefix(line, "branch ").value, HeadsPrefix);
      }
    }
    if path.Some? && head.Some? {
      entries := entries + [Worktree(path.value, branch)];
    }
  }

  /** One line of the loop. */
  lemma ScanAt(entries: seq<Worktree>, lines: seq<string>, i: nat, c: Current)
    requires i < |lines|
    ensures entries + Scan(lines[i..], c) ==
              if lines[i] != "" then entries + Scan(lines[i + 1..], ScanLine(lines[i], c))
              else if c.path.Some? && c.head.Some? then entries + [Worktree(c.path.value, c.branch)] + Scan(lines[i + 1..], Nothing)
              else entries + Scan(lines[i + 1..], Current(None, None, c.branch))
  {
    assert lines[i..][1..] == lines[i + 1..];
    if c.path.Some? && c.head.Some? {
      Assoc(entries, [Worktree(c.path.value, c.branch)], Scan(lines[i + 1..], Nothing));
    }
  }

  datatype Current = Current(path: Option<string>, head: Option<string>, branch: Option<string>)

  const Nothing := Current(None, None, None)

  function Scan(lines: seq<string>, c: Current): seq<Worktree>
    decreases |lines|
  {
    if lines == [] then
      if c.path.Some? && c.head.Some? then [Worktree(c.path.value, c.branch)] else []
    else if lines[0] == "" then
      if c.path.Some? && c.head.Some? then [Worktree(c.path.value, c.branch)] + Scan(lines[1..], Nothing)
      else Scan(lines[1..], Current(None, None, c.branch))
    else Scan(lines[1..], ScanLine(lines[0], c))
  }

  function ScanLine(line: string, c: Current): Current {
    if StripPrefix(line, "worktree ").Some? then c.(path := StripPrefix(line, "worktree "))
    else if StripPrefix(line, "HEAD ").Some? then c.(head := StripPrefix(line, "HEAD "))
    else if StripPrefix(line, "branch ").Some? then
      c.(branch := StripPrefix(StripPrefix(line, "branch ").value, HeadsPrefix))
    else c
  }

  // ----- what git prints -----

  /**
   * One worktree: a bare repository has no commit and no branch. The notes are
   * the lines that say `bare`, `detached`, `locked` or `prunable`, the last two
   * with or without a reason.
   */
  datatype Block = Block(path: string, head: Option<string>, branch: Option<string>, notes: seq<string>)

  function FieldLine(prefix: string, field: Option<string>): seq<string> {
    if field.Some? then [prefix + field.value] else []
  }

  function BlockLines(b: Block): seq<string> {
    FieldLine("worktree ", Some(b.path)) + FieldLine("HEAD ", b.head) + FieldLine("branch refs/heads/", b.branch) + b.notes
  }

  function AllLines(blocks: seq<Block>): seq<string> {
    if blocks == [] then [] else BlockLines(blocks[0]) + [""] + AllLines(blocks[1..])
  }

  function Entries(blocks: seq<Block>): seq<Worktree> {
    if blocks == [] then []
    else (if blocks[0].head.Some? then [Worktree(blocks[0].path, blocks[0].branch)] else []) + Entries(blocks[1..])
  }

  /** A line that begins with none of the key words `worktree`, `HEAD` and `branch`. */
  predicate Note(line: string) {
    && |line| > 1 && !Whitespace(line[0]) && !Whitespace(line[1])
    && line[0] != 'w' && line[0] != 'H' && (line[0] != 'b' || line[1] != 'r')
  }

  lemma GitsNotes(reason: string)
    ensures Note("bare") && Note("detached") && Note("locked") && Note("prunable")
    ensures Note("locked " + reason) && Note("prunable " + reason)
  {
  }

  /** Texts without a newline, as git prints them one to a line; a branch only with a commit. */
  predicate Printed(b: Block) {
    && OneLine(b.path) && (b.head.Some? ==> OneLine(b.head.value)) && (b.branch.Some? ==> OneLine(b.branch.value))
    && (b.head.None? ==> b.branch.None?)
    && forall line | line in b.notes :: OneLine(line) && Note(line)
  }

  lemma StripAdded(prefix: string, rest: string)
    ensures StripPrefix(prefix + rest, prefix) == Some(rest)
  {
  }

  lemma TrimPrefixed(prefix: string, s: string)
    requires prefix != "" && !Whitespace(prefix[0]) && !Whitespace(prefix[|prefix| - 1])
    ensures Trim(prefix + s) == prefix + Shortened(s)
  {
    var tail := TrimEndParts(s, Whitespace);
    assert prefix + s == prefix + Shortened(s) + tail;
    assert (prefix + s)[0] == prefix[0];
    TrimEndOf(prefix + Shortened(s), tail, Whitespace);
  }

  lemma FirstCharsDiffer(line: string, prefix: string)
    requires line != "" && prefix != "" && line[0] != prefix[0]
    ensures StripPrefix(line, prefix).None?
  {
  }

  lemma WorktreeLine(path: string, c: Current)
    ensures var line := Trim("worktree " + path);
            line != "" && ScanLine(line, c) == if Shortened(path) == "" then c else c.(path := Some(Shortened(path)))
  {
    assert "worktree " + path == "worktree" + " " + path;
    TrimField("worktree", path);
    if Shortened(path) == "" {
      FirstCharsDiffer("worktree", "HEAD ");
      FirstCharsDiffer("worktree", "branch ");
      assert |"worktree"| < |"worktree "|;
    } else {
      assert "worktree" + " " + Shortened(path) == "worktree " + Shortened(path);
      StripAdded("worktree ", Shortened(path));
    }
  }

  lemma HeadLine(head: string, c: Current)
    ensures var line := Trim("HEAD " + head);
            line != "" && ScanLine(line, c) == if Shortened(head) == "" then c else c.(head := Some(Shortened(head)))
  {
    assert "HEAD " + head == "HEAD" + " " + head;
    TrimField("HEAD", head);
    if Shortened(head) == "" {
      FirstCharsDiffer("HEAD", "worktree ");
      FirstCharsDiffer("HEAD", "branch ");
      assert |"HEAD"| < |"HEAD "|;
    } else {
      assert "HEAD" + " " + Shortened(head) == "HEAD " + Shortened(head);
      StripAdded("HEAD ", Shortened(head));
      FirstCharsDiffer("HEAD " + Shortened(head), "worktree ");
    }
  }

  lemma ScanBranch(name: string, c: Current)
    ensures ScanLine("branch " + (HeadsPrefix + name), c) == c.(branch := Some(name))
  {
    var line := "branch " + (HeadsPrefix + name);
    StripAdded("branch ", HeadsPrefix + name);
    StripAdded(HeadsPrefix, name);
    FirstCharsDiffer(line, "worktree ");
    FirstCharsDiffer(line, "HEAD ");
  }

  lemma BranchPrefix(name: string)
    ensures "branch refs/heads/" + name == "branch " + (HeadsPrefix + name)
  {
    assert "branch refs/heads/" == "branch " + HeadsPrefix;
    Assoc("branch ", HeadsPrefix, name);
  }

  lemma BranchLine(branch: string, c: Current)
    ensures var line := Trim("branch refs/heads/" + branch);
            line != "" && ScanLine(line, c) == c.(branch := Some(Shortened(branch)))
  {
    TrimPrefixed("branch refs/heads/", branch);
    BranchPrefix(Shortened(branch));
    ScanBranch(Shortened(branch), c);
  }

  /** Trimming keeps the first two characters of a note, so it changes nothing of what was read. */
  lemma NoteLine(line: string, c: Current)
    requires Note(line)
    ensures Trim(line) != "" && ScanLine(Trim(line), c) == c
  {
    var t := Trim(line);
    TrimKeepsStart(line);
    FirstCharsDiffer(t, "worktree ");
    FirstCharsDiffer(t, "HEAD ");
    SecondCharsDiffer(t, "branch ");
  }

  lemma TrimKeepsStart(line: string)
    requires |line| > 1 && !Whitespace(line[0]) && !Whitespace(line[1])
    ensures |Trim(line)| > 1 && Trim(line)[0] == line[0] && Trim(line)[1] == line[1]
  {
    assert TrimStart(line, Whitespace) == line;
    var t := TrimEnd(line, Whitespace);
    assert !Whitespace(line[1]) ==> |t| > 1;
  }

  lemma SecondCharsDiffer(line: string, prefix: string)
    requires |line| > 1 && |prefix| > 1 && (line[0] != prefix[0] || line[1] != prefix[1])
    ensures StripPrefix(line, prefix).None?
  {
  }

  // ----- blocks -----

  function FoldWith<S>(f: (string, S) -> S, lines: seq<string>, c: S): S {
    if lines == [] then c else FoldWith(f, lines[1..], f(lines[0], c))
  }

  /** What lines that are not empty make of the values. */
  function Fold(lines: seq<string>, c: Current): Current {
    FoldWith(ScanLine, lines, c)
  }

  predicate NoneEmpty(lines: seq<string>) {
    forall line | line in lines :: line != ""
  }

  lemma {:induction false} ScanFold(lines: seq<string>, rest: seq<string>, c: Current)
    requires NoneEmpty(lines)
    ensures Scan(lines + rest, c) == Scan(rest, Fold(lines, c))
  {
    if lines == [] {
      assert lines + rest == rest;
    } else {
      assert lines[0] in lines && forall line | line in lines[1..] :: line in lines;
      assert (lines + rest)[1..] == lines[1..] + rest;
      ScanFold(lines[1..], rest, ScanLine(lines[0], c));
    }
  }

  lemma {:induction false} FoldAppend<S>(f: (string, S) -> S, a: seq<string>, b: seq<string>, c: S)
    ensures FoldWith(f, a + b, c) == FoldWith(f, b, FoldWith(f, a, c))
  {
    if a == [] {
      assert a + b == b;
    } else {
      assert (a + b)[1..] == a[1..] + b;
      FoldAppend(f, a[1..], b, f(a[0], c));
    }
  }

  lemma FoldSingle<S>(f: (string, S) -> S, line: string, c: S)
    ensures FoldWith(f, [line], c) == f(line, c)
  {
    var rest := [line][1..];
    assert rest == [] && FoldWith(f, rest, f(line, c)) == f(line, c);
  }

  lemma FoldOne(line: string, c: Current)
    ensures Fold([line], c) == ScanLine(line, c)
  {
    FoldSingle(ScanLine, line, c);
  }

  lemma {:induction false} FoldIdle<S>(f: (string, S) -> S, lines: seq<string>, c: S)
    requires forall line | line in lines :: f(line, c) == c
    ensures FoldWith(f, lines, c) == c
  {
    if lines != [] {
      assert lines[0] in lines;
      FoldIdle(f, lines[1..], c);
    }
  }

  lemma NotesAreIdle(notes: seq<string>, c: Current)
    requires forall line | line in notes :: Note(line)
    ensures forall t | t in Trimmed(notes) :: t != "" && ScanLine(t, c) == c
  {
    forall t | t in Trimmed(notes) ensures t != "" && ScanLine(t, c) == c {
      var i :| 0 <= i < |notes| && Trimmed(notes)[i] == t;
      assert notes[i] in notes;
      NoteLine(notes[i], c);
    }
  }

  lemma FoldNotes(notes: seq<string>, c: Current)
    requires forall line | line in notes :: Note(line)
    ensures Fold(Trimmed(notes), c) == c && NoneEmpty(Trimmed(notes))
  {
    NotesAreIdle(notes, c);
    FoldIdle(ScanLine, Trimmed(notes), c);
  }

  function WithPath(c: Current, path: string): Current {
    if Shortened(path) == "" then c else c.(path := Some(Shortened(path)))
  }

  function WithHead(c: Current, head: Option<string>): Current {
    if head.None? || Shortened(head.value) == "" then c else c.(head := Some(Shortened(head.value)))
  }

  function WithBranch(c: Current, branch: Option<string>): Current {
    if branch.None? then c else c.(branch := Some(Shortened(branch.value)))
  }

  /** What the lines of a block make of the values, up to the blank line after it. */
  function AfterBlock(b: Block, c: Current): Current {
    WithBranch(WithHead(WithPath(c, b.path), b.head), b.branch)
  }

  lemma TrimmedField(prefix: string, field: Option<string>)
    ensures Trimmed(FieldLine(prefix, field)) == if field.Some? then [Trim(prefix + field.value)] else []
  {
    if field.Some? { EachThree(Trim, prefix + field.value, "", ""); }
  }

  lemma FoldPath(path: string, c: Current)
    ensures var t := Trimmed(FieldLine("worktree ", Some(path))); Fold(t, c) == WithPath(c, path) && NoneEmpty(t)
  {
    TrimmedField("worktree ", Some(path));
    WorktreeLine(path, c);
    FoldOne(Trim("worktree " + path), c);
  }

  lemma FoldHead(head: Option<string>, c: Current)
    ensures var t := Trimmed(FieldLine("HEAD ", head)); Fold(t, c) == WithHead(c, head) && NoneEmpty(t)
  {
    TrimmedField("HEAD ", head);
    if head.Some? {
      HeadLine(head.value, c);
      FoldOne(Trim("HEAD " + head.value), c);
    }
  }

  lemma FoldBranch(branch: Option<string>, c: Current)
    ensures var t := Trimmed(FieldLine("branch refs/heads/", branch)); Fold(t, c) == WithBranch(c, branch) && NoneEmpty(t)
  {
    TrimmedField("branch refs/heads/", branch);
    if branch.Some? {
      BranchLine(branch.value, c);
      FoldOne(Trim("branch refs/heads/" + branch.value), c);
    }
  }

  /** Four lists of lines, one after the other. */
  lemma FoldFour<S>(f: (string, S) -> S, p: seq<string>, h: seq<string>, b: seq<string>, n: seq<string>, c: S)
    ensures FoldWith(f, p + h + b + n, c) == FoldWith(f, n, FoldWith(f, b, FoldWith(f, h, FoldWith(f, p, c))))
  {
    FoldAppend(f, p + h + b, n, c);
    FoldAppend(f, p + h, b, c);
    FoldAppend(f, p, h, c);
  }

  lemma NoneEmptyFour(p: seq<string>, h: seq<string>, b: seq<string>, n: seq<string>)
    requires NoneEmpty(p) && NoneEmpty(h) && NoneEmpty(b) && NoneEmpty(n)
    ensures NoneEmpty(p + h + b + n)
  {
  }

  lemma TrimmedFour(p: seq<string>, h: seq<string>, b: seq<string>, n: seq<string>)
    ensures Trimmed(p + h + b + n) == Trimmed(p) + Trimmed(h) + Trimmed(b) + Trimmed(n)
  {
    EachAppend(Trim, p + h + b, n);
    EachAppend(Trim, p + h, b);
    EachAppend(Trim, p, h);
  }

  lemma ScanBlock(b: Block, rest: seq<string>, c: Current)
    requires Printed(b)
    ensures Scan(Trimmed(BlockLines(b)) + rest, c) == Scan(rest, AfterBlock(b, c))
  {
    var p, h, r := FieldLine("worktree ", Some(b.path)), FieldLine("HEAD ", b.head), FieldLine("branch refs/heads/", b.branch);
    var c1 := WithPath(c, b.path);
    var c2 := WithHead(c1, b.head);
    FoldPath(b.path, c);
    FoldHead(b.head, c1);
    FoldBranch(b.branch, c2);
    FoldNotes(b.notes, WithBranch(c2, b.branch));
    TrimmedFour(p, h, r, b.notes);
    NoneEmptyFour(Trimmed(p), Trimmed(h), Trimmed(r), Trimmed(b.notes));
    FoldFour(ScanLine, Trimmed(p), Trimmed(h), Trimmed(r), Trimmed(b.notes), c);
    ScanFold(Trimmed(BlockLines(b)), rest, c);
  }

  /** A block that makes an entry: a checkout with a path and a commit that are not blank. */
  predicate MakesEntry(b: Block) {
    b.head.Some? && Shortened(b.path) != "" && Shortened(b.head.value) != ""
  }

  lemma ScanBlockEnd(b: Block, rest: seq<string>, branch: Option<string>)
    requires Printed(b)
    ensures var c := AfterBlock(b, Current(None, None, branch));
            Scan(Trimmed(BlockLines(b)) + ([""] + rest), Current(None, None, branch)) ==
              if MakesEntry(b) then [Worktree(Shortened(b.path), c.branch)] + Scan(rest, Nothing)
              else Scan(rest, Current(None, None, c.branch))
  {
    ScanBlock(b, [""] + rest, Current(None, None, branch));
    assert ([""] + rest)[1..] == rest;
  }

  lemma TrimmedAll(blocks: seq<Block>)
    requires blocks != []
    ensures Trimmed(AllLines(blocks)) == Trimmed(BlockLines(blocks[0])) + ([""] + Trimmed(AllLines(blocks[1..])))
  {
    TrimFixed("");
    EachAppend(Trim, BlockLines(blocks[0]) + [""], AllLines(blocks[1..]));
    EachAppend(Trim, BlockLines(blocks[0]), [""]);
    EachThree(Trim, "", "", "");
    Assoc(Trimmed(BlockLines(blocks[0])), [""], Trimmed(AllLines(blocks[1..])));
  }

  /** No more entries are read than there are checkouts. */
  lemma {:induction false} NotMoreEntries(blocks: seq<Block>, branch: Option<string>)
    requires forall b | b in blocks :: Printed(b)
    ensures |Scan(Trimmed(AllLines(blocks)), Current(None, None, branch))| <= |Entries(blocks)|
  {
    if blocks != [] {
      TrimmedAll(blocks);
      ScanBlockEnd(blocks[0], Trimmed(AllLines(blocks[1..])), branch);
      NotMoreEntries(blocks[1..], AfterBlock(blocks[0], Current(None, None, branch)).branch);
      NotMoreEntries(blocks[1..], None);
    }
  }

  /** Nothing of the block's texts is trimmed away that an entry needs. */
  predicate Readable(b: Block) {
    b.head.Some? ==>
      && b.path != "" && Shortened(b.path) == b.path && Shortened(b.head.value) != ""
      && (b.branch.Some? ==> Shortened(b.branch.value) == b.branch.value)
  }

  /** The first block's entry is right exactly if the block is readable. */
  lemma FirstIff(b: Block, rest: seq<string>, entries: seq<Worktree>)
    requires MakesEntry(b) && Printed(b)
    ensures Scan(Trimmed(BlockLines(b)) + ([""] + rest), Nothing) == [Worktree(b.path, b.branch)] + entries
            <==> Readable(b) && Scan(rest, Nothing) == entries
  {
    ScanBlockEnd(b, rest, None);
    SameHead(Worktree(Shortened(b.path), AfterBlock(b, Nothing).branch), Scan(rest, Nothing), Worktree(b.path, b.branch), entries);
  }

  /** A block that makes no entry leaves too few if it should have made one. */
  lemma FirstLost(b: Block, rest: seq<Block>)
    requires Printed(b) && !MakesEntry(b) && forall r | r in rest :: Printed(r)
    ensures Scan(Trimmed(BlockLines(b)) + ([""] + Trimmed(AllLines(rest))), Nothing)
            == (if b.head.Some? then [Worktree(b.path, b.branch)] else []) + Entries(rest)
            <==> Readable(b) && Scan(Trimmed(AllLines(rest)), Nothing) == Entries(rest)
  {
    ScanBlockEnd(b, Trimmed(AllLines(rest)), None);
    NotMoreEntries(rest, AfterBlock(b, Nothing).branch);
    assert [] + Entries(rest) == Entries(rest);
  }

  lemma {:induction false} ScanAllIff(blocks: seq<Block>)
    requires forall b | b in blocks :: Printed(b)
    ensures Scan(Trimmed(AllLines(blocks)), Nothing) == Entries(blocks) <==> AllReadable(blocks)
  {
    if blocks != [] {
      var b, rest := blocks[0], blocks[1..];
      TrimmedAll(blocks);
      ScanAllIff(rest);
      if MakesEntry(b) {
        FirstIff(b, Trimmed(AllLines(rest)), Entries(rest));
      } else {
        FirstLost(b, rest);
      }
    }
  }

  predicate AllReadable(blocks: seq<Block>) {
    blocks == [] || (Readable(blocks[0]) && AllReadable(blocks[1..]))
  }

  lemma {:induction false} AllReadableIff(blocks: seq<Block>)
    ensures AllReadable(blocks) <==> forall b | b in blocks :: Readable(b)
  {
    if blocks != [] {
      AllReadableIff(blocks[1..]);
      assert blocks == [blocks[0]] + blocks[1..];
    }
  }

  lemma SameHead<T>(x: T, a: seq<T>, y: T, b: seq<T>)
    ensures [x] + a == [y] + b <==> x == y && a == b
  {
    assert ([x] + a)[1..] == a && ([y] + b)[1..] == b;
    assert ([x] + a)[0] == x && ([y] + b)[0] == y;
  }

  lemma {:induction false} AllLinesAreOneLine(blocks: seq<Block>)
    requires forall b | b in blocks :: Printed(b)
    ensures forall line | line in AllLines(blocks) :: OneLine(line)
  {
    if blocks != [] {
      AllLinesAreOneLine(blocks[1..]);
      assert blocks[0] in blocks;
      BlockLinesAreOneLine(blocks[0]);
    }
  }

  lemma JoinedLine(a: string, b: string)
    requires OneLine(a) && OneLine(b)
    ensures OneLine(a + b)
  {
  }

  lemma BlockLinesAreOneLine(b: Block)
    requires Printed(b)
    ensures forall line | line in BlockLines(b) :: OneLine(line)
  {
    JoinedLine("worktree ", b.path);
    if b.head.Some? { JoinedLine("HEAD ", b.head.value); }
    if b.branch.Some? { JoinedLine("branch refs/heads/", b.branch.value); }
  }

  /**
   * The listing of any blocks is read as the checkouts among them, in order, each
   * with its branch, exactly if no path or branch ends in white space and no path
   * or commit is blank.
   */
  lemma ListingIsRead(blocks: seq<Block>)
    requires forall b | b in blocks :: Printed(b)
    ensures Scan(Trimmed(Lines(Join(AllLines(blocks)))), Nothing) == Entries(blocks) <==> forall b | b in blocks :: Readable(b)
  {
    var lines := AllLines(blocks);
    AllLinesAreOneLine(blocks);
    LinesOfWhole(lines);
    TrimmedStripped(lines);
    ScanAllIff(blocks);
    AllReadableIff(blocks);
  }

  lemma TrimmedStripped(lines: seq<string>)
    ensures Trimmed(Stripped(lines)) == Trimmed(lines)
  {
    forall line ensures Trim(StripCr(line)) == Trim(line) { TrimStripsCr(line); }
  }
}
