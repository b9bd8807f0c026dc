/**
 * Updating one host's block in an SSH configuration
 * (crates/desktop-bridge/src/ssh_config.rs `replace_host_block`, with the entry
 * of `update_ssh_config`).
 */
module SshConfig {
  import opened Text
  import opened SshSections

  function Marker(alias: string): string {
    "Host " + alias
  }

  predicate StartsWith(line: string, prefix: string) {
    prefix <= line
  }

  /** A line at which skipping stops: a `Host` line, or any other unindented line that is not blank. */
  predicate EndsSection(line: string) {
    StartsWith(line, "Host ") || (!StartsWith(line, " ") && !StartsWith(line, "\t") && Trim(line) != "")
  }

  function KindFor(line: string, alias: string): Kind {
    if Trim(line) == Marker(alias) then Wanted
    else if EndsSection(line) then Ends
    else if Trim(line) == "" then Blank
    else Inside
  }

  function For(alias: string): string -> Kind {
    line => KindFor(line, alias)
  }

  /** The text `update_ssh_config` writes: the lines that stay, and the new block. */
  function Replaced(config: string, alias: string, newBlock: string): string {
    Join(Kept(Lines(config), For(alias), false)) + newBlock
  }

  method ReplaceHostBlock(config: string, alias: string, newBlock: string) returns (result: string)
    ensures result == Replaced(config, alias, newBlock)
  {
    var marker := Marker(alias);
    var lines := Lines(config);
    ghost var kept: seq<string> := [];
    result := "";
    var skip := false;
    assert lines[0..] == lines;
    for i := 0 to |lines|
      invariant result == Join(kept)
      invariant kept + Kept(lines[i..], For(alias), skip) == Kept(lines, For(alias), false)
    {
      var line := lines[i];
      LineStep(kept, lines, i, alias, skip);
      if Trim(line) == marker {
        skip := true;
        continue;
      }
      if skip {
        if EndsSection(line) {
          skip := false;
          result := result + line;
          result := result + "\n";
          kept := kept + [line];
        }
        continue;
      }
      result := result + line;
      result := result + "\n";
      kept := kept + [line];
    }
    assert kept + [] == kept;
    result := result + newBlock;
  }

  /** One line of the loop. */
  lemma LineStep(kept: seq<string>, lines: seq<string>, i: nat, alias: string, skip: bool)
    requires i < |lines|
    ensures kept + Kept(lines[i..], For(alias), skip) ==
              if Trim(lines[i]) == Marker(alias) || (skip && !EndsSection(lines[i])) then kept + Kept(lines[i + 1..], For(alias), true)
              else kept + [lines[i]] + Kept(lines[i + 1..], For(alias), false)
    ensures Join(kept + [lines[i]]) == Join(kept) + lines[i] + "\n"
  {
    KeptStep(kept, lines, i, For(alias), skip);
    JoinMore(kept, lines[i]);
  }

  // ----- which lines go -----

  /** The line is the alias's own, after trimming. */
  predicate Heads(line: string, alias: string) {
    Trim(line) == "Host " + alias
  }

  /** Another `Host` line, or one that is neither blank nor indented by a space or a tab. */
  predicate Stops(line: string, alias: string) {
    !Heads(line, alias) && ("Host " <= line || (Trim(line) != "" && line[0] != ' ' && line[0] != '\t'))
  }

  lemma StopsIff(line: string, alias: string)
    ensures Stops(line, alias) <==> For(alias)(line) == Ends
    ensures Heads(line, alias) <==> For(alias)(line) == Wanted
  {
    if line == "" { TrimFixed(line); }
    assert line != "" ==> (" " <= line <==> line[0] == ' ') && ("\t" <= line <==> line[0] == '\t');
  }

  /** The update takes out the alias's lines, each with what follows it up to the next line that stops, and nothing else. */
  lemma TakesOutExactly(config: string, alias: string, newBlock: string)
    ensures var lines := Lines(config);
            Replaced(config, alias, newBlock)
            == Join(Staying(lines, line => Heads(line, alias), line => Stops(line, alias), |lines|)) + newBlock
  {
    var lines, heads, stops := Lines(config), line => Heads(line, alias), line => Stops(line, alias);
    forall line ensures (heads(line) <==> For(alias)(line) == Wanted) && (stops(line) <==> For(alias)(line) == Ends) {
      StopsIff(line, alias);
    }
    StayingIsKept(lines, For(alias), heads, stops, |lines|);
    assert Staying(lines, heads, stops, |lines|) + [] == Staying(lines, heads, stops, |lines|);
  }

  // ----- the entry -----

  /** The settings of an entry. */
  datatype Entry = Entry(port: string, keyPath: string, knownHosts: string)

  function BodyLines(e: Entry): seq<string> {
    ["    HostName 127.0.0.1",
     "    Port " + e.port,
     "    User vk",
     "    IdentityFile " + e.keyPath,
     "    StrictHostKeyChecking no",
     "    UserKnownHostsFile " + e.knownHosts]
  }

  /** A key word: letters alone. */
  predicate IsKey(key: string) {
    forall i | 0 <= i < |key| :: 'A' <= key[i] <= 'z'
  }

  predicate Says(line: string, key: string, value: string) {
    IsKey(key) && line == "    " + key + " " + value
  }

  /** A line says one thing at most. */
  lemma SaysOnce(line: string, key: string, value: string, key': string, value': string)
    requires Says(line, key, value) && Says(line, key', value')
    ensures key == key' && value == value'
  {
    assert line[4 + |key|] == ' ' && line[4 + |key'|] == ' ';
    assert forall i | 0 <= i < |key| :: line[4 + i] == key[i];
    assert forall i | 0 <= i < |key'| :: line[4 + i] == key'[i];
    assert |key| == |key'|;
    assert key == line[4..4 + |key|] == key';
    assert value == line[5 + |key|..] == value';
  }

  lemma PortSaid(port: string)
    ensures Says("    Port " + port, "Port", port)
  {
  }

  lemma KeySaid(path: string)
    ensures Says("    IdentityFile " + path, "IdentityFile", path)
  {
  }

  lemma KnownHostsSaid(path: string)
    ensures Says("    UserKnownHostsFile " + path, "UserKnownHostsFile", path)
  {
  }

  lemma HostNameSaid()
    ensures Says("    HostName 127.0.0.1", "HostName", "127.0.0.1")
  {
  }

  lemma UserSaid()
    ensures Says("    User vk", "User", "vk")
  {
  }

  lemma CheckingSaid()
    ensures Says("    StrictHostKeyChecking no", "StrictHostKeyChecking", "no")
  {
  }

  /** What an entry says, each line under its key word, whatever its fields hold. */
  lemma EntrySays(e: Entry)
    ensures var lines := BodyLines(e);
            && |lines| == 6
            && Says(lines[0], "HostName", "127.0.0.1") && Says(lines[1], "Port", e.port)
            && Says(lines[2], "User", "vk") && Says(lines[3], "IdentityFile", e.keyPath)
            && Says(lines[4], "StrictHostKeyChecking", "no") && Says(lines[5], "UserKnownHostsFile", e.knownHosts)
  {
    HostNameSaid();
    UserSaid();
    CheckingSaid();
    PortSaid(e.port);
    KeySaid(e.keyPath);
    KnownHostsSaid(e.knownHosts);
  }

  function EntryLines(alias: string, e: Entry): seq<string> {
    ["", Marker(alias)] + BodyLines(e)
  }

  /** The text `update_ssh_config` appends. */
  function EntryText(alias: string, e: Entry): string {
    Join(EntryLines(alias, e))
  }

  function Update(config: string, alias: string, e: Entry): string {
    Replaced(config, alias, EntryText(alias, e))
  }

  predicate CleanField(s: string) {
    forall i | 0 <= i < |s| :: s[i] != '\n' && s[i] != '\r'
  }

  predicate CleanEntry(e: Entry) {
    CleanField(e.port) && CleanField(e.keyPath) && CleanField(e.knownHosts)
  }

  /** An alias whose `Host` line is recognised again: not empty, no white space at its end. */
  predicate Recognised(alias: string) {
    alias != "" && !Whitespace(alias[|alias| - 1])
  }

  // ----- what the entry's lines are to an alias -----

  /** An indented line that does not read `Host ...`. */
  predicate BodyLine(line: string) {
    && |line| > 8 && (forall i | 0 <= i < 4 :: line[i] == ' ')
    && !Whitespace(line[4]) && (line[4] != 'H' || line[8] == 'N')
  }

  lemma FieldLine(prefix: string, field: string)
    requires CleanField(field) && CleanField(prefix) && BodyLine(prefix)
    ensures BodyLine(prefix + field) && CleanLine(prefix + field)
  {
    var line := prefix + field;
    assert forall i | 0 <= i < |prefix| :: line[i] == prefix[i];
    assert forall i | |prefix| <= i < |line| :: line[i] == field[i - |prefix|];
  }

  lemma HostNameLine()
    ensures BodyLine("    HostName 127.0.0.1") && CleanLine("    HostName 127.0.0.1")
  {
  }

  lemma UserLine()
    ensures BodyLine("    User vk") && CleanLine("    User vk")
  {
  }

  lemma CheckingLine()
    ensures BodyLine("    StrictHostKeyChecking no") && CleanLine("    StrictHostKeyChecking no")
  {
  }

  lemma FieldLines(e: Entry)
    requires CleanEntry(e)
    ensures forall line | line in ["    Port " + e.port, "    IdentityFile " + e.keyPath, "    UserKnownHostsFile " + e.knownHosts] ::
              BodyLine(line) && CleanLine(line)
  {
    FieldLine("    Port ", e.port);
    FieldLine("    IdentityFile ", e.keyPath);
    FieldLine("    UserKnownHostsFile ", e.knownHosts);
  }

  lemma BodyLinesAreBody(e: Entry)
    requires CleanEntry(e)
    ensures forall line | line in BodyLines(e) :: BodyLine(line) && CleanLine(line)
  {
    HostNameLine();
    UserLine();
    CheckingLine();
    FieldLines(e);
  }

  lemma BodyLineIsInside(line: string, alias: string)
    requires BodyLine(line)
    ensures For(alias)(line) == Inside
  {
    var s := line[4..];
    assert line == line[..4] + s;
    TrimStartOf(line[..4], s, Whitespace);
    var t := Trim(line);
    assert t <= s && t != "";
    assert line[0] == ' ' && " " <= line;
    MarkerAt(alias);
    assert t[0] == line[4] && (|t| > 4 ==> t[4] == line[8]);
    assert "Host "[0] != line[0];
  }

  lemma BodyIsInside(e: Entry, alias: string)
    requires CleanEntry(e)
    ensures forall line | line in BodyLines(e) :: For(alias)(line) == Inside
  {
    BodyLinesAreBody(e);
    forall line | line in BodyLines(e) ensures For(alias)(line) == Inside {
      BodyLineIsInside(line, alias);
    }
  }

  lemma MarkerAt(alias: string)
    ensures var m := Marker(alias);
            m[0] == 'H' && m[4] == ' ' && m[5..] == alias && forall i | 0 <= i < 5 :: m[i] == "Host "[i]
  {
  }

  lemma MarkerIsClean(alias: string)
    requires CleanField(alias)
    ensures CleanLine(Marker(alias))
  {
    var m := Marker(alias);
    MarkerAt(alias);
    forall i | 0 <= i < |m| ensures m[i] != '\n' && m[i] != '\r' {
      if i < 5 { assert m[i] == "Host "[i]; } else { assert m[i] == alias[i - 5]; }
    }
  }

  lemma MarkerEnds(alias: string)
    ensures Whitespace(Marker(alias)[|Marker(alias)| - 1]) <==> !Recognised(alias)
  {
    MarkerAt(alias);
    assert alias != "" ==> Marker(alias)[|Marker(alias)| - 1] == alias[|alias| - 1];
  }

  lemma MarkerIsFixed(alias: string)
    requires Recognised(alias)
    ensures Trim(Marker(alias)) == Marker(alias)
  {
    MarkerAt(alias);
    MarkerEnds(alias);
    TrimFixed(Marker(alias));
  }

  /** No line is the `Host` line of an alias that is not recognised. */
  lemma NeverWanted(line: string, alias: string)
    requires !Recognised(alias)
    ensures For(alias)(line) != Wanted
  {
    MarkerEnds(alias);
    TrimEnds(line);
  }

  lemma TrimEnds(line: string)
    ensures Trim(line) == "" || !Whitespace(Trim(line)[|Trim(line)| - 1])
  {
  }

  lemma HostLineKind(line: string, alias: string)
    requires Trim(line) == line && EndsSection(line)
    ensures For(alias)(line) == if line == Marker(alias) then Wanted else Ends
  {
  }

  lemma MarkerEndsSection(alias: string)
    ensures EndsSection(Marker(alias))
  {
    assert StartsWith(Marker(alias), "Host ");
  }

  /** A `Host` line is read by its own alias, and ends the block of any other. */
  lemma MarkerIsMarker(alias: string, other: string)
    requires Recognised(alias)
    ensures For(other)(Marker(alias)) == if other == alias then Wanted else Ends
  {
    if other != alias { MarkersDiffer(alias, other); }
    MarkerEndsSection(alias);
    MarkerIsFixed(alias);
    HostLineKind(Marker(alias), other);
  }

  lemma MarkersDiffer(alias: string, other: string)
    requires alias != other
    ensures Marker(alias) != Marker(other)
  {
    MarkerAt(alias);
    MarkerAt(other);
  }

  lemma EmptyIsBlank(alias: string)
    ensures For(alias)("") == Blank
  {
    TrimFixed("");
    assert |Marker(alias)| > 0;
  }

  lemma EntryLinesAreClean(alias: string, e: Entry)
    requires CleanField(alias) && CleanEntry(e)
    ensures forall line | line in EntryLines(alias, e) :: CleanLine(line)
  {
    BodyLinesAreBody(e);
    MarkerIsClean(alias);
  }

  /** Of an entry, only the blank line before it stays. */
  lemma KeptOfEntry(alias: string, e: Entry)
    requires Recognised(alias) && CleanEntry(e)
    ensures Kept(EntryLines(alias, e), For(alias), false) == [""]
  {
    MarkerIsMarker(alias, alias);
    EmptyIsBlank(alias);
    BodyIsInside(e, alias);
    KeptOfBlock("", Marker(alias), BodyLines(e), For(alias));
  }

  lemma ScanEntry(alias: string, e: Entry, other: string)
    requires Recognised(alias) && CleanEntry(e)
    ensures Scan(EntryLines(alias, e), For(other)) == ([], if other == alias then [BodyLines(e)] else [])
  {
    MarkerIsMarker(alias, other);
    EmptyIsBlank(other);
    BodyIsInside(e, other);
    ScanBlock("", Marker(alias), BodyLines(e), For(other));
  }

  // ----- carriage returns -----

  lemma PrefixStripCr(line: string, prefix: string)
    requires prefix != "" && prefix[|prefix| - 1] != '\r'
    ensures StartsWith(StripCr(line), prefix) == StartsWith(line, prefix)
  {
    var s := StripCr(line);
    if |prefix| <= |s| {
      assert s[..|prefix|] == line[..|prefix|];
    } else if |prefix| <= |line| {
      assert line[|prefix| - 1] == '\r';
    }
  }

  lemma EndsAlike(a: string, b: string)
    ensures StartsWith(a, "Host ") == StartsWith(b, "Host ") && StartsWith(a, " ") == StartsWith(b, " ")
            && StartsWith(a, "\t") == StartsWith(b, "\t") && Trim(a) == Trim(b)
            ==> EndsSection(a) == EndsSection(b) && forall alias :: KindFor(a, alias) == KindFor(b, alias)
  {
  }

  /** To every alias a line is what it is without a carriage return at its end. */
  lemma KindStripCr(line: string, alias: string)
    ensures For(alias)(StripCr(line)) == For(alias)(line)
  {
    PrefixStripCr(line, "Host ");
    PrefixStripCr(line, " ");
    PrefixStripCr(line, "\t");
    TrimStripsCr(line);
    EndsAlike(StripCr(line), line);
  }

  lemma ForIgnoresCr(alias: string)
    ensures IgnoresCr(For(alias)) && For(alias)("") == Blank
  {
    forall line ensures For(alias)(StripCr(line)) == For(alias)(line) { KindStripCr(line, alias); }
    EmptyIsBlank(alias);
  }

  // ----- updates -----

  /** The lines of an updated configuration: those that stay, and the entry's. */
  lemma UpdatedLines(config: string, alias: string, e: Entry)
    requires CleanField(alias) && CleanEntry(e)
    ensures Lines(Update(config, alias, e)) == Stripped(Kept(Lines(config), For(alias), false)) + EntryLines(alias, e)
  {
    var kept, entry := Kept(Lines(config), For(alias), false), EntryLines(alias, e);
    LinesAreOneLine(config);
    KeptHasNoMarker(Lines(config), For(alias), false);
    EntryLinesAreClean(alias, e);
    forall line | line in kept + entry ensures OneLine(line) {
      assert line in kept || line in entry;
    }
    JoinAppend(kept, entry);
    LinesOfWhole(kept + entry);
    StrippedAppend(kept, entry);
    EntryIsClean(alias, e);
  }

  function UpdateAll(config: string, alias: string, entries: seq<Entry>): string {
    if entries == [] then config
    else Update(UpdateAll(config, alias, entries[..|entries| - 1]), alias, entries[|entries| - 1])
  }

  function Blocks(alias: string, entries: seq<Entry>): (r: seq<seq<string>>)
    ensures |r| == |entries|
  {
    seq(|entries|, i requires 0 <= i < |entries| => EntryLines(alias, entries[i]))
  }

  lemma BlocksAreTakenOut(alias: string, entries: seq<Entry>)
    requires Recognised(alias) && forall e | e in entries :: CleanEntry(e)
    ensures forall b | b in Blocks(alias, entries) :: Kept(b, For(alias), false) == [""]
  {
    forall b | b in Blocks(alias, entries) ensures Kept(b, For(alias), false) == [""] {
      var i :| 0 <= i < |entries| && Blocks(alias, entries)[i] == b;
      KeptOfEntry(alias, entries[i]);
    }
  }

  lemma BlocksLast(alias: string, entries: seq<Entry>) returns (block: seq<string>)
    requires entries != []
    ensures block == EntryLines(alias, entries[|entries| - 1])
    ensures Blocks(alias, entries) == Blocks(alias, entries[..|entries| - 1]) + [block]
  {
    block := EntryLines(alias, entries[|entries| - 1]);
  }

  lemma UpdatedBy(config: string, alias: string, e: Entry, block: seq<string>)
    requires CleanField(alias) && CleanEntry(e) && block == EntryLines(alias, e)
    ensures Lines(Update(config, alias, e)) == Stripped(Kept(Lines(config), For(alias), false)) + block
  {
    UpdatedLines(config, alias, e);
  }

  lemma {:induction false} LinesOfUpdates(config: string, alias: string, entries: seq<Entry>)
    requires CleanField(alias) && forall e | e in entries :: CleanEntry(e)
    ensures Lines(UpdateAll(config, alias, entries)) == LinesAfter(Lines(config), For(alias), Blocks(alias, entries))
    decreases |entries|
  {
    if entries != [] {
      var init, last := entries[..|entries| - 1], entries[|entries| - 1];
      LinesOfUpdates(config, alias, init);
      var block := BlocksLast(alias, entries);
      UpdatedBy(UpdateAll(config, alias, init), alias, last, block);
      LinesAfterLast(Lines(config), For(alias), Blocks(alias, init), block);
    }
  }

  /** After any number of updates: the other lines, one blank line for each entry replaced, and the last entry. */
  lemma LastUpdateWins(config: string, alias: string, entries: seq<Entry>)
    requires CleanField(alias) && Recognised(alias) && entries != []
    requires forall e | e in entries :: CleanEntry(e)
    ensures Lines(UpdateAll(config, alias, entries))
            == Settled(Kept(Lines(config), For(alias), false), |entries|, Blocks(alias, entries)[|entries| - 1])
  {
    BlocksAreTakenOut(alias, entries);
    LinesOfUpdates(config, alias, entries);
    LastOfBlocks(Lines(config), alias, Blocks(alias, entries));
  }

  /** For an alias that is not recognised the entries pile up. */
  lemma {:induction false} EntriesPileUp(config: string, alias: string, entries: seq<Entry>)
    requires CleanField(alias) && !Recognised(alias) && forall e | e in entries :: CleanEntry(e)
    ensures Lines(UpdateAll(config, alias, entries))
            == StrippedTimes(Lines(config), |entries|) + Flat(Blocks(alias, entries))
    decreases |entries|
  {
    if entries == [] {
      assert Lines(config) + [] == Lines(config);
    } else {
      var init, last := entries[..|entries| - 1], entries[|entries| - 1];
      EntriesPileUp(config, alias, init);
      var before := Lines(UpdateAll(config, alias, init));
      var block := BlocksLast(alias, entries);
      UpdatedBy(UpdateAll(config, alias, init), alias, last, block);
      NoneWanted(before, alias);
      KeptAll(before, For(alias));
      BlocksAreClean(alias, init);
      PileGrows(Lines(config), |init|, Blocks(alias, init), block);
    }
  }

  lemma BlocksAreClean(alias: string, entries: seq<Entry>)
    requires CleanField(alias) && forall e | e in entries :: CleanEntry(e)
    ensures forall b | b in Blocks(alias, entries) :: Stripped(b) == b
  {
    forall b | b in Blocks(alias, entries) ensures Stripped(b) == b {
      var i :| 0 <= i < |entries| && Blocks(alias, entries)[i] == b;
      EntryIsClean(alias, entries[i]);
    }
  }

  lemma EntryIsClean(alias: string, e: Entry)
    requires CleanField(alias) && CleanEntry(e)
    ensures Stripped(EntryLines(alias, e)) == EntryLines(alias, e)
  {
    var entry := EntryLines(alias, e);
    EntryLinesAreClean(alias, e);
    forall i | 0 <= i < |entry| ensures StripCr(entry[i]) == entry[i] { assert entry[i] in entry; }
  }

  lemma LastOfBlocks(lines: seq<string>, alias: string, blocks: seq<seq<string>>)
    requires blocks != [] && forall b | b in blocks :: Kept(b, For(alias), false) == [""]
    ensures LinesAfter(lines, For(alias), blocks) == Settled(Kept(lines, For(alias), false), |blocks|, blocks[|blocks| - 1])
  {
    var init, last := blocks[..|blocks| - 1], blocks[|blocks| - 1];
    assert init + [last] == blocks;
    ForIgnoresCr(alias);
    LastBlockStays(lines, For(alias), init, last);
  }

  lemma AliasesAreCompatible(line: string, alias: string, other: string)
    requires alias != other
    ensures Compatible(For(alias)(line), For(other)(line))
  {
    MarkersDiffer(alias, other);
    assert |Marker(alias)| > 0 && |Marker(other)| > 0;
  }

  /** An indented `Host` line of one alias stands in a block of the other. */
  predicate Entangled(lines: seq<string>, alias: string, other: string) {
    Nested(lines, For(alias), For(other), false) || Nested(lines, For(other), For(alias), false)
  }

  /** The lines of a configuration as an update writes them. */
  function Rewritten(config: string): seq<string> {
    Stripped(Lines(config))
  }

  /**
   * An update is a map update. If the alias's `Host` line can be recognised, the
   * alias then has exactly one block, with the new settings, and another alias
   * has the blocks it had, unless one of the two has an indented `Host` line in a
   * block of the other. If not, because the alias is empty or ends in white
   * space, nothing is taken out, the alias has no block, and the new one goes to
   * the alias that is left when the white space is trimmed away.
   */
  lemma UpdateIsMapUpdate(config: string, alias: string, e: Entry, other: string)
    requires CleanField(alias) && CleanEntry(e) && other != alias
    ensures Settings(Lines(Update(config, alias, e)), For(alias)) == if Recognised(alias) then [BodyLines(e)] else []
    ensures Recognised(alias) ==>
              (Settings(Lines(Update(config, alias, e)), For(other)) == Settings(Rewritten(config), For(other))
               <==> !Entangled(Rewritten(config), alias, other))
    ensures !Recognised(alias) ==>
              && Lines(Update(config, alias, e)) == Rewritten(config) + EntryLines(alias, e)
              && Settings(Lines(Update(config, alias, e)), For(other))
                 == Settings(Rewritten(config), For(other)) + if Gains(alias, other) then [BodyLines(e)] else []
  {
    UpdatedLines(config, alias, e);
    ForIgnoresCr(alias);
    KeptOfStripped(Lines(config), For(alias), false);
    if Recognised(alias) {
      ScanEntry(alias, e, alias);
      ScanEntry(alias, e, other);
      UpdateOfLines(Rewritten(config), alias, EntryLines(alias, e), BodyLines(e), other);
    } else {
      NoneWanted(Rewritten(config), alias);
      KeptAll(Rewritten(config), For(alias));
      NoneWanted(Rewritten(config) + EntryLines(alias, e), alias);
      NoMarkerNoBlock(Rewritten(config) + EntryLines(alias, e), For(alias));
      ScanUnrecognised(alias, e, other);
      SettingsAppend(Rewritten(config), EntryLines(alias, e), For(other));
    }
  }

  /** The `Host` line written for one alias is read for another: the one left when white space is trimmed away. */
  predicate Gains(alias: string, other: string) {
    other != "" && other == Shortened(alias)
  }

  lemma MarkerTrimmed(alias: string)
    ensures Trim(Marker(alias)) == if Shortened(alias) == "" then "Host" else Marker(Shortened(alias))
  {
    assert "Host " + alias == "Host" + " " + alias;
    assert "Host" + " " + Shortened(alias) == "Host " + Shortened(alias);
    TrimField("Host", alias);
  }

  lemma MarkerForOther(alias: string, other: string)
    requires !Recognised(alias)
    ensures For(other)(Marker(alias)) == if Gains(alias, other) then Wanted else Ends
  {
    MarkerTrimmed(alias);
    MarkerEndsSection(alias);
    assert |"Host"| < |Marker(other)|;
    if other != Shortened(alias) { MarkersDiffer(Shortened(alias), other); }
  }

  lemma ScanUnrecognised(alias: string, e: Entry, other: string)
    requires !Recognised(alias) && CleanEntry(e)
    ensures Scan(EntryLines(alias, e), For(other)) == ([], if Gains(alias, other) then [BodyLines(e)] else [])
  {
    MarkerForOther(alias, other);
    EmptyIsBlank(other);
    BodyIsInside(e, other);
    ScanBlock("", Marker(alias), BodyLines(e), For(other));
  }

  lemma AllCompatible(lines: seq<string>, alias: string, other: string)
    requires alias != other
    ensures forall line | line in lines :: Compatible(For(alias)(line), For(other)(line))
  {
    forall line | line in lines ensures Compatible(For(alias)(line), For(other)(line)) {
      AliasesAreCompatible(line, alias, other);
    }
  }

  lemma NoneWanted(lines: seq<string>, alias: string)
    requires !Recognised(alias)
    ensures forall line | line in lines :: For(alias)(line) != Wanted
  {
    forall line | line in lines ensures For(alias)(line) != Wanted { NeverWanted(line, alias); }
  }

  /** The same for lists of lines: a block that is read by the alias and by no other. */
  lemma UpdateOfLines(lines: seq<string>, alias: string, block: seq<string>, body: seq<string>, other: string)
    requires other != alias
    ensures var updated := Kept(lines, For(alias), false) + block;
            Scan(block, For(alias)) == ([], [body]) && Scan(block, For(other)) == ([], []) ==>
            && Settings(updated, For(alias)) == [body]
            && (Settings(updated, For(other)) == Settings(lines, For(other)) <==> !Entangled(lines, alias, other))
  {
    var kept := Kept(lines, For(alias), false);
    KeptHasNoMarker(lines, For(alias), false);
    NoMarkerNoBlock(kept, For(alias));
    if Scan(block, For(alias)) == ([], [body]) && Scan(block, For(other)) == ([], []) {
      SettingsAppend(kept, block, For(alias));
      SettingsAppend(kept, block, For(other));
      AllCompatible(lines, alias, other);
      OtherBlocksStayIff(lines, For(alias), For(other));
    }
  }

  /** With `Host` lines at the start of their lines no two aliases are entangled. */
  lemma UnindentedIsNotEntangled(lines: seq<string>, alias: string, other: string)
    requires alias != other
    requires forall line | line in lines && (Trim(line) == Marker(alias) || Trim(line) == Marker(other)) :: EndsSection(line)
    ensures !Entangled(lines, alias, other)
  {
    MarkersDiffer(alias, other);
    FlatIsUnnested(lines, For(alias), For(other), false);
    FlatIsUnnested(lines, For(other), For(alias), false);
  }
}
