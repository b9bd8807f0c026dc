/** The parts of Rust's `str` that the text editors use. */
module Text {
  import opened Wrappers

  /** `char::is_whitespace`: the Unicode White_Space property. */
  predicate Whitespace(c: char) {
    var n := c as int;
    || 0x09 <= n <= 0x0D || n == 0x20 || n == 0x85 || n == 0xA0 || n == 0x1680
    || 0x2000 <= n <= 0x200A || n == 0x2028 || n == 0x2029 || n == 0x202F || n == 0x205F || n == 0x3000
  }

  /** Everything from the first character that is not a `p`. */
  function TrimStart(s: string, p: char -> bool): (r: string)
    ensures r == "" || !p(r[0])
    ensures |r| <= |s| && r == s[|s| - |r|..]
    ensures forall i | 0 <= i < |s| - |r| :: p(s[i])
  {
    if s != "" && p(s[0]) then TrimStart(s[1..], p) else s
  }

  /** Everything up to the last character that is not a `p`. */
  function TrimEnd(s: string, p: char -> bool): (r: string)
    ensures r == "" || !p(r[|r| - 1])
    ensures r <= s
    ensures forall i | |r| <= i < |s| :: p(s[i])
  {
    if s != "" && p(s[|s| - 1]) then TrimEnd(s[..|s| - 1], p) else s
  }

  lemma TrimStartOf(left: string, x: string, p: char -> bool)
    requires (forall i | 0 <= i < |left| :: p(left[i])) && x != "" && !p(x[0])
    ensures TrimStart(left + x, p) == x
  {
    var s := left + x;
    var r := TrimStart(s, p);
    assert forall i | 0 <= i < |left| :: s[i] == left[i];
    assert s[|left|] == x[0];
    assert |s| - |r| == |left|;
    assert s[|left|..] == x;
  }

  lemma TrimEndOf(x: string, right: string, p: char -> bool)
    requires (x == "" || !p(x[|x| - 1])) && forall i | 0 <= i < |right| :: p(right[i])
    ensures TrimEnd(x + right, p) == x
  {
    var s := x + right;
    var r := TrimEnd(s, p);
    assert forall i | |x| <= i < |s| :: s[i] == right[i - |x|];
    assert x != "" ==> s[|x| - 1] == x[|x| - 1];
    assert |r| == |x|;
    assert s[..|x|] == x;
  }

  /** Trimming `p`s and then more at the end. */
  function Strip(s: string, p: char -> bool, q: char -> bool): (r: string)
    ensures |r| <= |s|
  {
    TrimEnd(TrimEnd(TrimStart(s, p), p), q)
  }

  lemma TrimStartParts(s: string, p: char -> bool) returns (head: string)
    ensures s == head + TrimStart(s, p) && forall i | 0 <= i < |head| :: p(head[i])
  {
    head := s[..|s| - |TrimStart(s, p)|];
  }

  lemma TrimEndParts(s: string, p: char -> bool) returns (tail: string)
    ensures s == TrimEnd(s, p) + tail && forall i | 0 <= i < |tail| :: p(tail[i])
  {
    tail := s[|TrimEnd(s, p)|..];
  }

  /** Trimming less first changes nothing. */
  lemma TrimEndMore(s: string, p: char -> bool, q: char -> bool)
    requires forall c :: p(c) ==> q(c)
    ensures TrimEnd(TrimEnd(s, p), q) == TrimEnd(s, q)
  {
    var outer := TrimEndParts(s, p);
    var inner := TrimEndParts(TrimEnd(s, p), q);
    var x := TrimEnd(TrimEnd(s, p), q);
    assert s == x + (inner + outer);
    TrimEndOf(x, inner + outer, q);
  }

  /** What does not end in a `p` stays whole. */
  lemma TrimEndKeeps(x: string, right: string, p: char -> bool)
    requires x != "" && !p(x[|x| - 1])
    ensures x + TrimEnd(right, p) == TrimEnd(x + right, p)
  {
    var tail := TrimEndParts(right, p);
    assert x + right == x + TrimEnd(right, p) + tail;
    TrimEndOf(x + TrimEnd(right, p), tail, p);
  }

  lemma StripOf(left: string, x: string, right: string, p: char -> bool, q: char -> bool)
    requires forall i | 0 <= i < |left| :: p(left[i])
    requires forall i | 0 <= i < |right| :: q(right[i])
    requires x != "" && !p(x[0]) && !p(x[|x| - 1]) && !q(x[|x| - 1])
    ensures Strip(left + x + right, p, q) == x
  {
    assert left + x + right == left + (x + right);
    assert (x + right)[0] == x[0];
    TrimStartOf(left, x + right, p);
    StripEndOf(x, right, p, q);
  }

  lemma StripEndOf(x: string, right: string, p: char -> bool, q: char -> bool)
    requires forall i | 0 <= i < |right| :: q(right[i])
    requires x != "" && !p(x[|x| - 1]) && !q(x[|x| - 1])
    ensures TrimEnd(TrimEnd(x + right, p), q) == x
  {
    TrimEndKeeps(x, right, p);
    var r := TrimEnd(right, p);
    assert forall i | 0 <= i < |r| :: r[i] == right[i];
    TrimEndOf(x, r, q);
  }

  lemma StripEndParts(t: string, p: char -> bool, q: char -> bool) returns (right: string)
    requires forall c :: p(c) ==> q(c)
    ensures t == TrimEnd(TrimEnd(t, p), q) + right && forall i | 0 <= i < |right| :: q(right[i])
  {
    var outer := TrimEndParts(t, p);
    var inner := TrimEndParts(TrimEnd(t, p), q);
    right := inner + outer;
  }

  lemma StripParts(s: string, p: char -> bool, q: char -> bool) returns (left: string, right: string)
    requires forall c :: p(c) ==> q(c)
    ensures s == left + Strip(s, p, q) + right
    ensures forall i | 0 <= i < |left| :: p(left[i])
    ensures forall i | 0 <= i < |right| :: q(right[i])
  {
    left := TrimStartParts(s, p);
    right := StripEndParts(TrimStart(s, p), p, q);
    Assoc(left, Strip(s, p, q), right);
  }

  /** `str::trim` */
  function Trim(s: string): (r: string)
    ensures |r| <= |s|
  {
    TrimEnd(TrimStart(s, Whitespace), Whitespace)
  }

  /** A text with nothing to trim is its own trim. */
  lemma TrimFixed(s: string)
    requires s == "" || (!Whitespace(s[0]) && !Whitespace(s[|s| - 1]))
    ensures Trim(s) == s
  {
  }

  /** `str::trim_end` */
  function Shortened(s: string): string {
    TrimEnd(s, Whitespace)
  }

  lemma SpaceBefore(s: string)
    requires forall i | 0 <= i < |s| :: Whitespace(s[i])
    ensures forall i | 0 <= i < |" " + s| :: Whitespace((" " + s)[i])
  {
  }

  lemma TrimWord(word: string, tail: string)
    requires word != "" && !Whitespace(word[0]) && !Whitespace(word[|word| - 1])
    requires forall i | 0 <= i < |tail| :: Whitespace(tail[i])
    ensures Trim(word + tail) == word
  {
    assert (word + tail)[0] == word[0];
    TrimEndOf(word, tail, Whitespace);
  }

  /** What trimming leaves of a key word and its text. */
  lemma TrimField(word: string, s: string)
    requires word != "" && !Whitespace(word[0]) && !Whitespace(word[|word| - 1])
    ensures Trim(word + " " + s) == if Shortened(s) == "" then word else word + " " + Shortened(s)
  {
    var short := Shortened(s);
    var tail := TrimEndParts(s, Whitespace);
    if short == "" {
      SpaceBefore(s);
      assert word + " " + s == word + (" " + s);
      TrimWord(word, " " + s);
    } else {
      assert word + " " + s == word + " " + short + tail;
      LongWord(word, short);
      TrimWord(word + " " + short, tail);
    }
  }

  lemma LongWord(word: string, short: string)
    requires word != "" && short != ""
    ensures (word + " " + short)[0] == word[0] && (word + " " + short)[|word + " " + short| - 1] == short[|short| - 1]
  {
  }

  /** The position of the first `c`, or the length if there is none. */
  function IndexOf(s: string, c: char): (k: nat)
    ensures k <= |s| && (k < |s| ==> s[k] == c) && forall i | 0 <= i < k :: s[i] != c
  {
    if s == "" || s[0] == c then 0 else 1 + IndexOf(s[1..], c)
  }

  function StripCr(line: string): string {
    if line != "" && line[|line| - 1] == '\r' then line[..|line| - 1] else line
  }

  /** `str::lines`: a carriage return is dropped only before a newline. */
  function Lines(s: string): seq<string>
    decreases |s|
  {
    if s == "" then []
    else
      var k := IndexOf(s, '\n');
      if k == |s| then [s] else [StripCr(s[..k])] + Lines(s[k + 1..])
  }

  /** Every line with its newline. */
  function Join(lines: seq<string>): string {
    if lines == [] then "" else Join(lines[..|lines| - 1]) + lines[|lines| - 1] + "\n"
  }

  lemma JoinMore(lines: seq<string>, line: string)
    ensures Join(lines + [line]) == Join(lines) + line + "\n"
  {
    assert (lines + [line])[..|lines|] == lines;
  }

  function Each(f: string -> string, lines: seq<string>): (r: seq<string>)
    ensures |r| == |lines| && forall i | 0 <= i < |lines| :: r[i] == f(lines[i])
  {
    seq(|lines|, i requires 0 <= i < |lines| => f(lines[i]))
  }

  lemma EachAppend(f: string -> string, a: seq<string>, b: seq<string>)
    ensures Each(f, a + b) == Each(f, a) + Each(f, b)
  {
  }

  lemma EachThree(f: string -> string, a: string, b: string, c: string)
    ensures Each(f, [a, b, c]) == [f(a), f(b), f(c)] && Each(f, [a, b]) == [f(a), f(b)] && Each(f, [a]) == [f(a)]
  {
  }

  predicate OneLine(line: string) {
    '\n' !in line
  }

  /** Lines as they are read back once they are written: without a carriage return at their ends. */
  function Stripped(lines: seq<string>): (r: seq<string>)
    ensures |r| == |lines| && forall i | 0 <= i < |lines| :: r[i] == StripCr(lines[i])
  {
    Each(StripCr, lines)
  }

  /** A line that is read back as it is written. */
  predicate CleanLine(line: string) {
    OneLine(line) && StripCr(line) == line
  }

  lemma {:induction false} JoinAppend(a: seq<string>, b: seq<string>)
    ensures Join(a + b) == Join(a) + Join(b)
  {
    if b == [] {
      assert a + b == a;
    } else {
      var init := b[..|b| - 1];
      assert (a + b)[..|a + b| - 1] == a + init;
      JoinAppend(a, init);
    }
  }

  lemma LinesOne(line: string, rest: string)
    requires OneLine(line)
    ensures Lines(line + "\n" + rest) == [StripCr(line)] + Lines(rest)
  {
    var s := line + "\n" + rest;
    assert s[|line|] == '\n' && forall i | 0 <= i < |line| :: s[i] == line[i];
    assert IndexOf(s, '\n') == |line|;
    assert s[..|line|] == line && s[|line| + 1..] == rest;
  }

  lemma JoinLast(lines: seq<string>, rest: string) returns (tail: string)
    requires lines != []
    ensures tail == lines[|lines| - 1] + "\n" + rest && Join(lines) + rest == Join(lines[..|lines| - 1]) + tail
  {
    tail := lines[|lines| - 1] + "\n" + rest;
    Gather(Join(lines[..|lines| - 1]), lines[|lines| - 1], "\n", rest);
  }

  lemma Gather(a: string, b: string, c: string, d: string)
    ensures a + b + c + d == a + (b + c + d)
  {
  }

  lemma Shift<T>(s: seq<T>, rest: seq<T>)
    requires s != []
    ensures s[..|s| - 1] + ([s[|s| - 1]] + rest) == s + rest
  {
  }

  lemma StrippedInit(lines: seq<string>)
    requires lines != []
    ensures Stripped(lines[..|lines| - 1]) == Stripped(lines)[..|lines| - 1]
  {
  }

  /** Lines that are written are read back, but for a carriage return at the end of one. */
  lemma {:induction false} LinesOfJoin(lines: seq<string>, rest: string)
    requires forall line | line in lines :: OneLine(line)
    ensures Lines(Join(lines) + rest) == Stripped(lines) + Lines(rest)
    decreases |lines|
  {
    if lines == [] {
      assert Join(lines) + rest == rest;
    } else {
      var init, last := lines[..|lines| - 1], lines[|lines| - 1];
      var tail := JoinLast(lines, rest);
      LinesOfJoin(init, tail);
      LinesOne(last, rest);
      StrippedInit(lines);
      Shift(Stripped(lines), Lines(rest));
    }
  }

  lemma LinesOfWhole(lines: seq<string>)
    requires forall line | line in lines :: OneLine(line)
    ensures Lines(Join(lines)) == Stripped(lines)
  {
    LinesOfJoin(lines, "");
    assert Join(lines) + "" == Join(lines) && Stripped(lines) + Lines("") == Stripped(lines);
  }

  lemma {:induction false} LinesAreOneLine(s: string)
    ensures forall line | line in Lines(s) :: OneLine(line)
    decreases |s|
  {
    if s != "" {
      var k := IndexOf(s, '\n');
      if k < |s| {
        LinesAreOneLine(s[k + 1..]);
        assert OneLine(StripCr(s[..k]));
      }
    }
  }

  lemma TrimStartEnds(s: string, c: char, p: char -> bool)
    requires p(c)
    ensures TrimStart(s + [c], p) == if TrimStart(s, p) == "" then "" else TrimStart(s, p) + [c]
  {
    var x := TrimStart(s, p);
    var head := TrimStartParts(s, p);
    if x == "" {
      AllTrimmed(s + [c], p);
    } else {
      assert s + [c] == head + (x + [c]);
      TrimStartOf(head, x + [c], p);
    }
  }

  lemma AllTrimmed(s: string, p: char -> bool)
    requires forall i | 0 <= i < |s| :: p(s[i])
    ensures TrimStart(s, p) == ""
  {
  }

  lemma TrimEndEnds(s: string, c: char, p: char -> bool)
    requires p(c)
    ensures TrimEnd(s + [c], p) == TrimEnd(s, p)
  {
    assert (s + [c])[..|s|] == s;
  }

  /** A carriage return at the end makes no difference to `trim`. */
  lemma TrimStripsCr(line: string)
    ensures Trim(StripCr(line)) == Trim(line)
  {
    if line != "" && line[|line| - 1] == '\r' {
      var s := StripCr(line);
      assert line == s + ['\r'];
      TrimStartEnds(s, '\r', Whitespace);
      TrimEndEnds(TrimStart(s, Whitespace), '\r', Whitespace);
    }
  }
}
