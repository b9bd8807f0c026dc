/**
 * Taking the URL out of a quoted and punctuated header token
 * (crates/preview-proxy/src/lib.rs `normalize_redirect_like_url_token`).
 */
module UrlToken {
  import opened Wrappers
  import opened Text

  predicate Quote(c: char) {
    c == '"' || c == '\''
  }

  /** What may trail a token. */
  predicate Trailing(c: char) {
    Whitespace(c) || c == ',' || c == ';'
  }

  predicate IsQuoted(s: string) {
    |s| >= 2 && Quote(s[0]) && s[|s| - 1] == s[0]
  }

  function TrimWrappingQuotes(s: string): (r: string)
    ensures IsQuoted(s) ==> s == [s[0]] + r + [s[0]]
    ensures !IsQuoted(s) ==> r == s
  {
    if |s| < 2 then s
    else
      var first, last := s[0], s[|s| - 1];
      var matchingDouble := first == '"' && last == '"';
      var matchingSingle := first == '\'' && last == '\'';
      if matchingDouble || matchingSingle then s[1..|s| - 1] else s
  }

  method TrimTrailingRedirectPunctuation(s: string) returns (trimmed: string)
    ensures trimmed == TrimEnd(s, Trailing)
  {
    var value := s;
    trimmed := TrimEnd(value, Whitespace);
    TrimEndMore(s, Whitespace, Trailing);
    while trimmed != "" && (trimmed[|trimmed| - 1] == ',' || trimmed[|trimmed| - 1] == ';')
      invariant trimmed == TrimEnd(value, Whitespace)
      invariant TrimEnd(trimmed, Trailing) == TrimEnd(s, Trailing)
      decreases |trimmed|
    {
      var shorter := trimmed[..|trimmed| - 1];
      value := TrimEnd(shorter, Whitespace);
      trimmed := TrimEnd(value, Whitespace);
      TrimEndMore(shorter, Whitespace, Trailing);
      TrimEndMore(value, Whitespace, Trailing);
    }
  }

  /** A token that is a plain URL: it needs no normalization. */
  predicate Plain(s: string) {
    && s != "" && !Trailing(s[|s| - 1])
    && forall i | 0 <= i < |s| :: !Whitespace(s[i]) && !Quote(s[i])
  }

  // ----- wrapped tokens -----

  /**
   * How a token can be wrapped: white space before it, white space, commas and
   * semicolons after it, and around that any number of quoted layers, each with
   * its own.
   */
  datatype Wrapping = Bare(left: string, right: string) | Quoted(left: string, quote: char, inner: Wrapping, right: string)

  ghost predicate ValidWrapping(w: Wrapping) {
    && (forall i | 0 <= i < |w.left| :: Whitespace(w.left[i]))
    && (forall i | 0 <= i < |w.right| :: Whitespace(w.right[i]) || w.right[i] == ',' || w.right[i] == ';')
    && (w.Quoted? ==> (w.quote == '"' || w.quote == '\'') && ValidWrapping(w.inner))
  }

  function Wrap(w: Wrapping, token: string): string {
    match w
    case Bare(left, right) => left + token + right
    case Quoted(left, quote, inner, right) => left + ([quote] + Wrap(inner, token) + [quote]) + right
  }

  // ----- normalization -----

  function Clean(s: string): (r: string)
    ensures |r| <= |s|
  {
    Strip(s, Whitespace, Trailing)
  }

  /** What is left when every layer is taken off. */
  function Peel(s: string): string
    decreases |s|
  {
    var c := Clean(s);
    if IsQuoted(c) then Peel(TrimWrappingQuotes(c)) else c
  }

  function Normalized(s: string): Option<string> {
    if Plain(Peel(s)) then Some(Peel(s)) else None
  }

  method NormalizeRedirectLikeUrlToken(value: string) returns (r: Option<string>)
    ensures r == Normalized(value)
  {
    var candidate := Trim(value);
    CleanOf(value);
    if candidate == "" {
      return None;
    }
    candidate := TrimTrailingRedirectPunctuation(candidate);
    ghost var of := value;
    while true
      invariant candidate == Clean(of) && Peel(of) == Peel(value)
      decreases |candidate|
    {
      OneLayer(of, candidate);
      var unquoted := Trim(TrimWrappingQuotes(candidate));
      if unquoted == candidate {
        break;
      }
      of := TrimWrappingQuotes(candidate);
      candidate := TrimTrailingRedirectPunctuation(unquoted);
    }
    NormalizedOf(value, of);
    if candidate == "" || exists i | 0 <= i < |candidate| :: Whitespace(candidate[i]) || Quote(candidate[i]) {
      return None;
    }
    return Some(candidate);
  }

  lemma CleanOf(s: string)
    ensures Clean(s) == TrimEnd(Trim(s), Trailing) && (Trim(s) == "" ==> Normalized(s) == None)
  {
  }

  lemma CleanIsStripped(s: string)
    ensures Clean(s) == "" || (!Whitespace(Clean(s)[0]) && !Trailing(Clean(s)[|Clean(s)| - 1]))
  {
    var right := TrimEndParts(TrimStart(s, Whitespace), Whitespace);
    var more := TrimEndParts(TrimEnd(TrimStart(s, Whitespace), Whitespace), Trailing);
  }

  /** The loop stops when there are no more quotes to take off, and else goes on inside them. */
  lemma OneLayer(s: string, c: string)
    requires c == Clean(s)
    ensures var u := TrimWrappingQuotes(c);
            && (Trim(u) == c <==> !IsQuoted(c)) && Clean(u) == TrimEnd(Trim(u), Trailing)
            && (IsQuoted(c) ==> Peel(s) == Peel(u) && |Clean(u)| < |c|)
  {
    CleanIsStripped(s);
    CleanOf(TrimWrappingQuotes(c));
    if IsQuoted(c) { PeelStep(s); } else { TrimFixed(c); }
  }

  /** With no quotes left to take off, the candidate is the result if it is a plain token. */
  lemma NormalizedOf(value: string, of: string)
    ensures var c := Clean(of);
            Peel(of) == Peel(value) && !IsQuoted(c) ==>
              Normalized(value) == if c == "" || exists i | 0 <= i < |c| :: Whitespace(c[i]) || Quote(c[i]) then None else Some(c)
  {
    PlainIff(of);
  }

  lemma PlainIff(s: string)
    ensures Plain(Clean(s)) <==> Clean(s) != "" && forall i | 0 <= i < |Clean(s)| :: !Whitespace(Clean(s)[i]) && !Quote(Clean(s)[i])
  {
    CleanIsStripped(s);
  }

  /** A plain token comes out of any wrapping. */
  lemma {:induction false} PeelOfWrap(w: Wrapping, token: string)
    requires ValidWrapping(w) && Plain(token)
    ensures Peel(Wrap(w, token)) == token
  {
    match w
    case Bare(left, right) =>
      StripOf(left, token, right, Whitespace, Trailing);
    case Quoted(left, quote, inner, right) =>
      PeelLayer(left, quote, Wrap(inner, token), right);
      PeelOfWrap(inner, token);
  }

  /** One layer of quotes, with what may stand around it, is taken off. */
  lemma PeelLayer(left: string, quote: char, inner: string, right: string)
    requires Quote(quote) && (forall i | 0 <= i < |left| :: Whitespace(left[i])) && forall i | 0 <= i < |right| :: Trailing(right[i])
    ensures Peel(left + ([quote] + inner + [quote]) + right) == Peel(inner)
  {
    var quoted := [quote] + inner + [quote];
    QuotedAgain(quote, inner);
    StripOf(left, quoted, right, Whitespace, Trailing);
    PeelStep(left + quoted + right);
  }

  lemma QuotedAgain(quote: char, inner: string)
    requires Quote(quote)
    ensures var quoted := [quote] + inner + [quote];
            && IsQuoted(quoted) && TrimWrappingQuotes(quoted) == inner
            && !Whitespace(quoted[0]) && !Trailing(quoted[|quoted| - 1])
  {
  }

  lemma PeelStep(s: string)
    ensures var c := Clean(s);
            IsQuoted(c) ==> Peel(s) == Peel(TrimWrappingQuotes(c)) && |TrimWrappingQuotes(c)| < |c|
  {
  }

  /** Whatever is peeled off is a wrapping. */
  lemma {:induction false} WrapOfPeel(s: string) returns (w: Wrapping)
    ensures ValidWrapping(w) && Wrap(w, Peel(s)) == s
    decreases |s|
  {
    var left, right := StripParts(s, Whitespace, Trailing);
    var c := Clean(s);
    if IsQuoted(c) {
      var inner := WrapOfPeel(TrimWrappingQuotes(c));
      w := Quoted(left, c[0], inner, right);
    } else {
      w := Bare(left, right);
    }
  }

  /** Not empty, with no white space and no quote in it, and no comma or semicolon at its end. */
  predicate IsToken(s: string) {
    s != "" && s[|s| - 1] != ',' && s[|s| - 1] != ';' && '"' !in s && '\'' !in s && forall i | 0 <= i < |s| :: !Whitespace(s[i])
  }

  lemma TokenIsPlain(s: string)
    ensures IsToken(s) <==> Plain(s)
  {
    if IsToken(s) {
      forall i | 0 <= i < |s| ensures !Quote(s[i]) {
        assert s[i] in s;
      }
    }
  }

  /** A value normalizes to a token exactly if it is that token in some wrapping. */
  lemma NormalizedIff(value: string, token: string)
    ensures Normalized(value) == Some(token) <==> IsToken(token) && exists w :: ValidWrapping(w) && Wrap(w, token) == value
  {
    TokenIsPlain(token);
    var w := WrapOfPeel(value);
    if Plain(token) && exists w :: ValidWrapping(w) && Wrap(w, token) == value {
      var w :| ValidWrapping(w) && Wrap(w, token) == value;
      PeelOfWrap(w, token);
    }
  }

  lemma {:induction false} WrapHolds(w: Wrapping, token: string) returns (at: nat)
    ensures at + |token| <= |Wrap(w, token)| && Wrap(w, token)[at..at + |token|] == token
  {
    match w
    case Bare(left, right) =>
      at := |left|;
    case Quoted(left, quote, inner, right) =>
      var k := WrapHolds(inner, token);
      at := |left| + 1 + k;
      var s := Wrap(inner, token);
      assert Wrap(w, token)[|left| + 1..|left| + 1 + |s|] == s;
      assert Wrap(w, token)[at..at + |token|] == s[k..k + |token|];
  }

  /** The token is a stretch of the value. */
  lemma NormalizedOccurs(value: string, token: string) returns (at: nat)
    requires Normalized(value) == Some(token)
    ensures at + |token| <= |value| && value[at..at + |token|] == token
  {
    var w := WrapOfPeel(value);
    at := WrapHolds(w, token);
  }

  /** Normalizing a token again changes nothing. */
  lemma NormalizedAgain(value: string, token: string)
    requires Normalized(value) == Some(token)
    ensures Normalized(token) == Some(token)
  {
    PlainIsNormal(token);
  }

  lemma PlainIsNormal(token: string)
    requires Plain(token)
    ensures Normalized(token) == Some(token)
  {
    assert Wrap(Bare("", ""), token) == token;
    PeelOfWrap(Bare("", ""), token);
  }
}
