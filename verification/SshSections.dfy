/**
 * The shape of an SSH configuration, seen through what its lines are to one
 * alias: the lines an update keeps, and the blocks they form.
 */
module SshSections {
  import opened Wrappers
  import opened Text

  /** What a line is to an alias: its own `Host` line, a line that ends a block, a blank line, a line inside a block. */
  datatype Kind = Wanted | Ends | Blank | Inside

  /** The lines that stay when the alias's blocks are taken out; `skip` while inside one. */
  function Kept(lines: seq<string>, kind: string -> Kind, skip: bool): seq<string> {
    if lines == [] then []
    else if kind(lines[0]) == Wanted then Kept(lines[1..], kind, true)
    else if kind(lines[0]) == Ends || !skip then [lines[0]] + Kept(lines[1..], kind, false)
    else Kept(lines[1..], kind, true)
  }

  /** Among the first i lines there is a head with none after it that stops the skipping. */
  ghost predicate Skipping(lines: seq<string>, heads: string -> bool, stops: string -> bool, i: nat)
    requires i <= |lines|
  {
    exists h | 0 <= h < i :: heads(lines[h]) && forall j | h < j < i :: !stops(lines[j])
  }

  /** Of the first i lines, those at which nothing is being skipped. */
  ghost function Staying(lines: seq<string>, heads: string -> bool, stops: string -> bool, i: nat): seq<string>
    requires i <= |lines|
  {
    if i == 0 then []
    else Staying(lines, heads, stops, i - 1) + if Skipping(lines, heads, stops, i) then [] else [lines[i - 1]]
  }

  lemma SkippingStep(lines: seq<string>, heads: string -> bool, stops: string -> bool, i: nat)
    requires i < |lines| && forall line :: !(heads(line) && stops(line))
    ensures Skipping(lines, heads, stops, i + 1) <==>
              heads(lines[i]) || (Skipping(lines, heads, stops, i) && !stops(lines[i]))
  {
  }

  lemma KeptNext(stay: seq<string>, lines: seq<string>, kind: string -> Kind, i: nat, skip: bool)
    requires i < |lines|
    ensures var next := kind(lines[i]) == Wanted || (skip && kind(lines[i]) != Ends);
            stay + Kept(lines[i..], kind, skip) == stay + (if next then [] else [lines[i]]) + Kept(lines[i + 1..], kind, next)
  {
    KeptStep(stay, lines, i, kind, skip);
    assert stay + [] == stay;
  }

  lemma {:induction false} StayingIsKept(lines: seq<string>, kind: string -> Kind, heads: string -> bool, stops: string -> bool, i: nat)
    requires i <= |lines|
    requires forall line :: (heads(line) <==> kind(line) == Wanted) && (stops(line) <==> kind(line) == Ends)
    ensures Staying(lines, heads, stops, i) + Kept(lines[i..], kind, Skipping(lines, heads, stops, i)) == Kept(lines, kind, false)
  {
    if i == 0 {
      assert lines[0..] == lines;
    } else {
      StayingIsKept(lines, kind, heads, stops, i - 1);
      SkippingStep(lines, heads, stops, i - 1);
      KeptNext(Staying(lines, heads, stops, i - 1), lines, kind, i - 1, Skipping(lines, heads, stops, i - 1));
    }
  }

  /** A line that begins a block, and the lines under it. */
  datatype Section = Section(head: string, body: seq<string>)

  /** The lines before the first block, and the blocks. */
  function Sections(lines: seq<string>, kind: string -> Kind): (seq<string>, seq<Section>) {
    if lines == [] then ([], [])
    else
      var (before, sections) := Sections(lines[1..], kind);
      if kind(lines[0]).Wanted? || kind(lines[0]).Ends?
      then ([], [Section(lines[0], before)] + sections)
      else ([lines[0]] + before, sections)
  }

  function SectionLines(sections: seq<Section>): seq<string> {
    if sections == [] then [] else [sections[0].head] + sections[0].body + SectionLines(sections[1..])
  }

  /** The blocks that are not the alias's. */
  function Others(sections: seq<Section>, kind: string -> Kind): seq<Section> {
    if sections == [] then []
    else if kind(sections[0].head) == Wanted then Others(sections[1..], kind)
    else [sections[0]] + Others(sections[1..], kind)
  }

  /** What stays is everything but the alias's blocks, in order. */
  lemma {:induction false} KeptIsOthers(lines: seq<string>, kind: string -> Kind)
    ensures var (before, sections) := Sections(lines, kind);
            && Kept(lines, kind, false) == before + SectionLines(Others(sections, kind))
            && Kept(lines, kind, true) == SectionLines(Others(sections, kind))
  {
    if lines != [] {
      KeptIsOthers(lines[1..], kind);
      var (before, sections) := Sections(lines[1..], kind);
      var rest := SectionLines(Others(sections, kind));
      var s := Section(lines[0], before);
      assert ([s] + sections)[1..] == sections;
      assert ([s] + Others(sections, kind))[1..] == Others(sections, kind);
      assert [lines[0]] + (before + rest) == [lines[0]] + before + rest;
    }
  }

  /** The cuts lose nothing: the lines are those before the first block and those of every block. */
  lemma {:induction false} SectionsAreTheLines(lines: seq<string>, kind: string -> Kind)
    ensures Sections(lines, kind).0 + SectionLines(Sections(lines, kind).1) == lines
  {
    if lines != [] {
      SectionsAreTheLines(lines[1..], kind);
      var (before, sections) := Sections(lines[1..], kind);
      var s := Section(lines[0], before);
      assert ([s] + sections)[1..] == sections;
      assert [lines[0]] + (before + SectionLines(sections)) == [lines[0]] + before + SectionLines(sections);
      assert [lines[0]] + lines[1..] == lines;
    }
  }

  lemma {:induction false} KeptHasNoMarker(lines: seq<string>, kind: string -> Kind, skip: bool)
    ensures forall line | line in Kept(lines, kind, skip) :: line in lines && kind(line) != Wanted
  {
    if lines != [] {
      KeptHasNoMarker(lines[1..], kind, true);
      KeptHasNoMarker(lines[1..], kind, false);
    }
  }

  /** Without the alias's `Host` line nothing is skipped. */
  lemma {:induction false} KeptAgain(lines: seq<string>, rest: seq<string>, kind: string -> Kind)
    requires forall line | line in lines :: kind(line) != Wanted
    ensures Kept(lines + rest, kind, false) == lines + Kept(rest, kind, false)
  {
    if lines == [] {
      assert lines + rest == rest;
    } else {
      assert (lines + rest)[1..] == lines[1..] + rest;
      KeptAgain(lines[1..], rest, kind);
      assert [lines[0]] + (lines[1..] + Kept(rest, kind, false)) == lines + Kept(rest, kind, false);
    }
  }

  lemma {:induction false} BodyIsSkipped(body: seq<string>, kind: string -> Kind)
    requires forall line | line in body :: kind(line) == Inside
    ensures Kept(body, kind, true) == []
  {
    if body != [] {
      assert body[0] in body;
      BodyIsSkipped(body[1..], kind);
    }
  }

  // ----- the blocks of one alias -----

  /**
   * The settings, without blank lines: what a block that starts before these
   * lines goes on with, and those of each of the alias's blocks among them.
   */
  function Scan(lines: seq<string>, kind: string -> Kind): (seq<string>, seq<seq<string>>) {
    if lines == [] then ([], [])
    else
      var (under, blocks) := Scan(lines[1..], kind);
      match kind(lines[0])
      case Wanted => ([], [under] + blocks)
      case Ends => ([], blocks)
      case Blank => (under, blocks)
      case Inside => ([lines[0]] + under, blocks)
  }

  function Settings(lines: seq<string>, kind: string -> Kind): seq<seq<string>> {
    Scan(lines, kind).1
  }

  function NonBlank(lines: seq<string>, kind: string -> Kind): seq<string> {
    if lines == [] then []
    else if kind(lines[0]) == Blank then NonBlank(lines[1..], kind)
    else [lines[0]] + NonBlank(lines[1..], kind)
  }

  /** The bodies, without blank lines, of the blocks the alias heads. */
  function Bodies(sections: seq<Section>, kind: string -> Kind): seq<seq<string>> {
    if sections == [] then []
    else if kind(sections[0].head) == Wanted then [NonBlank(sections[0].body, kind)] + Bodies(sections[1..], kind)
    else Bodies(sections[1..], kind)
  }

  /** The scan reads what the blocks say. */
  lemma {:induction false} ScanIsBodies(lines: seq<string>, kind: string -> Kind)
    ensures Scan(lines, kind) == (NonBlank(Sections(lines, kind).0, kind), Bodies(Sections(lines, kind).1, kind))
  {
    if lines != [] {
      ScanIsBodies(lines[1..], kind);
      var (before, sections) := Sections(lines[1..], kind);
      assert ([Section(lines[0], before)] + sections)[1..] == sections;
      assert ([lines[0]] + before)[1..] == before;
    }
  }

  // ----- two aliases -----

  /** How two aliases read one line: alike, but that one's `Host` line ends the other's block, or stands in it if indented. */
  predicate Compatible(a: Kind, b: Kind) {
    if a == Wanted then b == Ends || b == Inside
    else if b == Wanted then a == Ends || a == Inside
    else a == b
  }

  /** Whether a block is open after a line. */
  predicate Open(kind: Kind, open: bool) {
    kind == Wanted || (open && kind != Ends)
  }

  /** An indented `Host` line of the inner alias stands in a block of the outer one. */
  predicate Nested(lines: seq<string>, outer: string -> Kind, inner: string -> Kind, open: bool) {
    lines != [] && (
      || (open && inner(lines[0]) == Wanted && outer(lines[0]) == Inside)
      || Nested(lines[1..], outer, inner, Open(outer(lines[0]), open)))
  }

  /** The number of blocks and of settings in them. */
  function Count(lines: seq<string>, kind: string -> Kind, open: bool): nat {
    if lines == [] then 0
    else (if kind(lines[0]) == Wanted || (open && kind(lines[0]) == Inside) then 1 else 0)
         + Count(lines[1..], kind, Open(kind(lines[0]), open))
  }

  function Total(blocks: seq<seq<string>>): nat {
    if blocks == [] then 0 else 1 + |blocks[0]| + Total(blocks[1..])
  }

  lemma {:induction false} CountIsTotal(lines: seq<string>, kind: string -> Kind, open: bool)
    ensures Count(lines, kind, open) == (if open then |Scan(lines, kind).0| else 0) + Total(Settings(lines, kind))
  {
    if lines != [] {
      CountIsTotal(lines[1..], kind, Open(kind(lines[0]), open));
      var (under, blocks) := Scan(lines[1..], kind);
      assert ([under] + blocks)[1..] == blocks;
    }
  }

  /** Taking one alias's blocks out of the lines takes from another's blocks wherever the two are nested. */
  lemma {:induction false} NestingLoses(lines: seq<string>, kind: string -> Kind, other: string -> Kind,
                                        skip: bool, open: bool, openKept: bool)
    requires forall line | line in lines :: Compatible(kind(line), other(line))
    requires !skip ==> openKept == open
    ensures Count(Kept(lines, kind, skip), other, openKept)
            + (if Nested(lines, kind, other, skip) || Nested(lines, other, kind, open) then 1 else 0)
            <= Count(lines, other, open)
  {
    if lines != [] {
      assert lines[0] in lines;
      var a, b := kind(lines[0]), other(lines[0]);
      if a == Wanted || (skip && a != Ends) {
        NestingLoses(lines[1..], kind, other, true, Open(b, open), openKept);
      } else {
        NestingLoses(lines[1..], kind, other, false, Open(b, open), Open(b, openKept));
        var rest := Kept(lines[1..], kind, false);
        assert ([lines[0]] + rest)[1..] == rest;
      }
    }
  }

  /** And where they are not nested, it leaves the other's blocks as they are. */
  lemma {:induction false} UnnestedStays(lines: seq<string>, kind: string -> Kind, other: string -> Kind, skip: bool, open: bool)
    requires forall line | line in lines :: Compatible(kind(line), other(line))
    requires !(skip && open) && !Nested(lines, kind, other, skip) && !Nested(lines, other, kind, open)
    ensures Settings(Kept(lines, kind, skip), other) == Settings(lines, other)
    ensures skip ==> Scan(Kept(lines, kind, skip), other).0 == []
    ensures open ==> Scan(Kept(lines, kind, skip), other).0 == Scan(lines, other).0
  {
    if lines != [] {
      assert lines[0] in lines;
      var a, b := kind(lines[0]), other(lines[0]);
      UnnestedStays(lines[1..], kind, other, Open(a, skip), Open(b, open));
      var rest := Kept(lines[1..], kind, false);
      assert ([lines[0]] + rest)[1..] == rest;
    }
  }

  /** One alias's blocks survive the removal of another's exactly if neither's are nested in the other's. */
  lemma OtherBlocksStayIff(lines: seq<string>, kind: string -> Kind, other: string -> Kind)
    requires forall line | line in lines :: Compatible(kind(line), other(line))
    ensures Settings(Kept(lines, kind, false), other) == Settings(lines, other)
            <==> !Nested(lines, kind, other, false) && !Nested(lines, other, kind, false)
  {
    if Nested(lines, kind, other, false) || Nested(lines, other, kind, false) {
      NestingLoses(lines, kind, other, false, false, false);
      CountIsTotal(lines, other, false);
      CountIsTotal(Kept(lines, kind, false), other, false);
    } else {
      UnnestedStays(lines, kind, other, false, false);
    }
  }

  /** Without indented `Host` lines nothing is nested. */
  lemma {:induction false} FlatIsUnnested(lines: seq<string>, outer: string -> Kind, inner: string -> Kind, open: bool)
    requires forall line | line in lines && inner(line) == Wanted :: outer(line) == Ends
    ensures !Nested(lines, outer, inner, open)
  {
    if lines != [] {
      assert lines[0] in lines;
      FlatIsUnnested(lines[1..], outer, inner, Open(outer(lines[0]), open));
    }
  }

  /** Lines that begin with a new block leave the blocks before them as they were. */
  lemma {:induction false} SettingsAppend(a: seq<string>, b: seq<string>, kind: string -> Kind)
    requires Scan(b, kind).0 == []
    ensures Scan(a + b, kind) == (Scan(a, kind).0, Settings(a, kind) + Settings(b, kind))
  {
    if a == [] {
      assert a + b == b && [] + Settings(b, kind) == Settings(b, kind);
    } else {
      assert (a + b)[1..] == a[1..] + b;
      SettingsAppend(a[1..], b, kind);
      var (under, blocks) := Scan(a[1..], kind);
      assert [under] + (blocks + Settings(b, kind)) == [under] + blocks + Settings(b, kind);
    }
  }

  lemma {:induction false} ScanBody(body: seq<string>, kind: string -> Kind)
    requires forall line | line in body :: kind(line) == Inside
    ensures Scan(body, kind) == (body, [])
  {
    if body != [] {
      assert body[0] in body;
      ScanBody(body[1..], kind);
      assert body == [body[0]] + body[1..];
    }
  }

  /** A blank line, a `Host` line and its settings, read by its own alias or by another. */
  lemma ScanBlock(blank: string, head: string, body: seq<string>, kind: string -> Kind)
    requires kind(blank) == Blank && (kind(head) == Wanted || kind(head) == Ends)
    requires forall line | line in body :: kind(line) == Inside
    ensures Scan([blank, head] + body, kind) == ([], if kind(head) == Wanted then [body] else [])
  {
    ScanBody(body, kind);
    assert ([blank, head] + body)[1..] == [head] + body;
    assert ([head] + body)[1..] == body;
    assert [body] + [] == [body];
  }

  /** Of an alias's own block only the blank line before it stays. */
  lemma KeptOfBlock(blank: string, head: string, body: seq<string>, kind: string -> Kind)
    requires kind(blank) == Blank && kind(head) == Wanted
    requires forall line | line in body :: kind(line) == Inside
    ensures Kept([blank, head] + body, kind, false) == [blank]
  {
    BodyIsSkipped(body, kind);
    assert ([blank, head] + body)[1..] == [head] + body;
    assert ([head] + body)[1..] == body;
    assert [blank] + [] == [blank];
  }

  /** What one line adds to the lines kept so far. */
  lemma KeptStep(kept: seq<string>, lines: seq<string>, i: nat, kind: string -> Kind, skip: bool)
    requires i < |lines|
    ensures kept + Kept(lines[i..], kind, skip) ==
              if kind(lines[i]) == Wanted || (skip && kind(lines[i]) != Ends) then kept + Kept(lines[i + 1..], kind, true)
              else kept + [lines[i]] + Kept(lines[i + 1..], kind, false)
  {
    assert lines[i..][1..] == lines[i + 1..];
    var rest := Kept(lines[i + 1..], kind, false);
    assert kept + ([lines[i]] + rest) == kept + [lines[i]] + rest;
  }

  lemma {:induction false} NoMarkerNoBlock(lines: seq<string>, kind: string -> Kind)
    requires forall line | line in lines :: kind(line) != Wanted
    ensures Settings(lines, kind) == []
  {
    if lines != [] {
      NoMarkerNoBlock(lines[1..], kind);
    }
  }

  // ----- writing the lines back -----

  /** A carriage return at the end of a line makes no difference. */
  ghost predicate IgnoresCr(kind: string -> Kind) {
    forall line :: kind(StripCr(line)) == kind(line)
  }

  lemma StrippedCons(line: string, rest: seq<string>)
    ensures Stripped([line] + rest) == [StripCr(line)] + Stripped(rest)
  {
  }

  lemma StrippedAppend(a: seq<string>, b: seq<string>)
    ensures Stripped(a + b) == Stripped(a) + Stripped(b)
  {
  }

  /** Taking blocks out and writing the lines back can be swapped. */
  lemma {:induction false} KeptOfStripped(lines: seq<string>, kind: string -> Kind, skip: bool)
    requires IgnoresCr(kind)
    ensures Kept(Stripped(lines), kind, skip) == Stripped(Kept(lines, kind, skip))
  {
    if lines != [] {
      assert kind(StripCr(lines[0])) == kind(lines[0]);
      KeptOfStripped(lines[1..], kind, true);
      KeptOfStripped(lines[1..], kind, false);
      assert Stripped(lines)[1..] == Stripped(lines[1..]);
      StrippedCons(lines[0], Kept(lines[1..], kind, false));
    }
  }

  /** An update drops a carriage return from the end of every line; repeated updates drop several. */
  function StrippedTimes(lines: seq<string>, n: nat): seq<string> {
    if n == 0 then lines else Stripped(StrippedTimes(lines, n - 1))
  }

  lemma {:induction false} StrippedIsNoMarker(lines: seq<string>, n: nat, kind: string -> Kind)
    requires IgnoresCr(kind) && forall line | line in lines :: kind(line) != Wanted
    ensures forall line | line in StrippedTimes(lines, n) :: kind(line) != Wanted
  {
    if n > 0 {
      var before, out := StrippedTimes(lines, n - 1), StrippedTimes(lines, n);
      StrippedIsNoMarker(lines, n - 1, kind);
      forall line | line in out ensures kind(line) != Wanted {
        var i :| 0 <= i < |out| && out[i] == line;
        assert before[i] in before && kind(StripCr(before[i])) == kind(before[i]);
      }
    }
  }

  function Blanks(n: nat): seq<string> {
    if n == 0 then [] else Blanks(n - 1) + [""]
  }

  lemma {:induction false} BlanksAreBlank(n: nat)
    ensures Stripped(Blanks(n)) == Blanks(n) && forall line | line in Blanks(n) :: line == ""
  {
    if n > 0 {
      BlanksAreBlank(n - 1);
      StrippedAppend(Blanks(n - 1), [""]);
      StrippedCons("", []);
    }
  }

  /** The lines after the alias's blocks have been replaced by each of the given ones, in order. */
  function LinesAfter(lines: seq<string>, kind: string -> Kind, blocks: seq<seq<string>>): seq<string> {
    if blocks == [] then lines
    else
      var last := |blocks| - 1;
      Stripped(Kept(LinesAfter(lines, kind, blocks[..last]), kind, false)) + blocks[last]
  }

  lemma KeptAfterUpdates(lines: seq<string>, kind: string -> Kind, n: nat, block: seq<string>)
    requires IgnoresCr(kind) && kind("") == Blank && Kept(block, kind, false) == [""] && n > 0
    ensures var kept := Kept(lines, kind, false);
            Stripped(Kept(Settled(kept, n, block), kind, false)) == StrippedTimes(kept, n + 1) + Blanks(n)
  {
    var kept := Kept(lines, kind, false);
    var stay := StrippedTimes(kept, n);
    KeptHasNoMarker(lines, kind, false);
    StrippedIsNoMarker(kept, n, kind);
    BlanksAreBlank(n - 1);
    BlanksAreBlank(n);
    NoneInBoth(stay, Blanks(n - 1), kind);
    KeptAgain(stay + Blanks(n - 1), block, kind);
    assert stay + Blanks(n - 1) + [""] == stay + (Blanks(n - 1) + [""]);
    StrippedAppend(stay, Blanks(n));
  }

  lemma NoneInBoth(a: seq<string>, b: seq<string>, kind: string -> Kind)
    requires (forall line | line in a :: kind(line) != Wanted) && forall line | line in b :: kind(line) != Wanted
    ensures forall line | line in a + b :: kind(line) != Wanted
  {
  }

  /** The lines with n blocks replaced. */
  function Settled(kept: seq<string>, n: nat, block: seq<string>): seq<string>
    requires n > 0
  {
    StrippedTimes(kept, n) + Blanks(n - 1) + block
  }

  lemma FirstBlock(kept: seq<string>, block: seq<string>)
    ensures Stripped(kept) + block == Settled(kept, 1, block)
  {
    assert StrippedTimes(kept, 1) == Stripped(StrippedTimes(kept, 0)) == Stripped(kept);
    assert Blanks(0) == [] && Stripped(kept) + [] == Stripped(kept);
  }

  lemma LinesAfterLast(lines: seq<string>, kind: string -> Kind, blocks: seq<seq<string>>, last: seq<string>)
    ensures LinesAfter(lines, kind, blocks + [last]) == Stripped(Kept(LinesAfter(lines, kind, blocks), kind, false)) + last
  {
    assert (blocks + [last])[..|blocks|] == blocks;
  }

  /** The last block stays, with the other lines, and one blank line for each block replaced. */
  lemma {:induction false} LastBlockStays(lines: seq<string>, kind: string -> Kind, blocks: seq<seq<string>>, last: seq<string>)
    requires IgnoresCr(kind) && kind("") == Blank
    requires forall b | b in blocks :: Kept(b, kind, false) == [""]
    ensures LinesAfter(lines, kind, blocks + [last]) == Settled(Kept(lines, kind, false), |blocks| + 1, last)
    decreases |blocks|
  {
    var kept := Kept(lines, kind, false);
    LinesAfterLast(lines, kind, blocks, last);
    if blocks == [] {
      FirstBlock(kept, last);
    } else {
      var init, block := blocks[..|blocks| - 1], blocks[|blocks| - 1];
      LastBlockStays(lines, kind, init, block);
      assert blocks == init + [block] && block in blocks;
      KeptAfterUpdates(lines, kind, |blocks|, block);
    }
  }

  /** Where no line is the alias's `Host` line everything is kept. */
  lemma KeptAll(lines: seq<string>, kind: string -> Kind)
    requires forall line | line in lines :: kind(line) != Wanted
    ensures Kept(lines, kind, false) == lines
  {
    KeptAgain(lines, [], kind);
    assert lines + [] == lines && Kept([], kind, false) == [];
  }

  function Flat(blocks: seq<seq<string>>): seq<string> {
    if blocks == [] then [] else Flat(blocks[..|blocks| - 1]) + blocks[|blocks| - 1]
  }

  lemma {:induction false} FlatIsClean(blocks: seq<seq<string>>)
    requires forall b | b in blocks :: Stripped(b) == b
    ensures Stripped(Flat(blocks)) == Flat(blocks)
  {
    if blocks != [] {
      var init, last := blocks[..|blocks| - 1], blocks[|blocks| - 1];
      assert last in blocks;
      FlatIsClean(init);
      StrippedAppend(Flat(init), last);
    }
  }

  /** One more block on top of those that have piled up. */
  lemma PileGrows(lines: seq<string>, n: nat, blocks: seq<seq<string>>, block: seq<string>)
    requires forall b | b in blocks :: Stripped(b) == b
    ensures Stripped(StrippedTimes(lines, n) + Flat(blocks)) + block == StrippedTimes(lines, n + 1) + Flat(blocks + [block])
  {
    FlatIsClean(blocks);
    StrippedAppend(StrippedTimes(lines, n), Flat(blocks));
    assert (blocks + [block])[..|blocks|] == blocks;
    Assoc(StrippedTimes(lines, n + 1), Flat(blocks), block);
  }
}
