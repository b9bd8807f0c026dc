/**
 * Finding a redirect in React flight data (crates/preview-proxy/src/lib.rs
 * `detect_rsc_redirect_in_body`).
 */
module RscRedirect {
  import opened Wrappers
  import opened Splitting
  import opened Decimal
  import Text
  import Utf8

  datatype RedirectInfo = RedirectInfo(url: string, redirectType: string, statusCode: nat)

  const MaxBody := 1_048_576
  const DigestPrefix: string := "\"digest\":\""
  const Name: string := "NEXT_REDIRECT"
  const Marker: string := "\"digest\":\"NEXT_REDIRECT;"

  /** `str::find` */
  function Find(text: string, pattern: string): (at: Option<nat>)
    ensures at.Some? ==> at.value <= |text| && pattern <= text[at.value..]
                         && forall i | 0 <= i < at.value :: !(pattern <= text[i..])
    ensures at.None? ==> forall i | 0 <= i <= |text| :: !(pattern <= text[i..])
  {
    if pattern <= text then Some(0)
    else if text == "" then None
    else
      Tails(text);
      match Find(text[1..], pattern)
      case None => None
      case Some(k) => Some(k + 1)
  }

  lemma Tails(text: string)
    ensures forall i | 1 <= i <= |text| :: text[i..] == text[1..][i - 1..]
  {
  }

  predicate IsType(s: string) {
    s == "push" || s == "replace"
  }

  predicate IsStatus(n: nat) {
    n == 301 || n == 302 || n == 303 || n == 307 || n == 308
  }

  /** `{name};{type};{url};{status};`, where the URL itself may hold semicolons. */
  function ParseDigest(digest: string): Option<RedirectInfo> {
    var parts := Split(digest, ';');
    var n := |parts|;
    if n < 5 || parts[0] != Name || !IsType(parts[1]) || parts[n - 1] != "" then None
    else
      match ParseUnsigned(parts[n - 2], 0x1_0000)
      case None => None
      case Some(status) =>
        if !IsStatus(status) then None
        else Some(RedirectInfo(JoinWith(parts[2..n - 2], ';'), parts[1], status))
  }

  function DetectInText(text: string): Option<RedirectInfo> {
    match Find(text, Marker)
    case None => None
    case Some(at) =>
      var remaining := text[at + |DigestPrefix|..];
      var end := Text.IndexOf(remaining, '"');
      if end == |remaining| then None else ParseDigest(remaining[..end])
  }

  function DetectRscRedirectInBody(body: seq<Byte>): Option<RedirectInfo> {
    if |body| > MaxBody then None else DetectInText(Utf8.DecodeLossy(body))
  }

  // ----- the digest -----

  function Digest(info: RedirectInfo, status: string): string {
    Fields("NEXT_REDIRECT", info.redirectType, info.url, status, ';')
  }

  function Fields<T>(a: seq<T>, b: seq<T>, c: seq<T>, d: seq<T>, sep: T): seq<T> {
    a + [sep] + b + [sep] + c + [sep] + d + [sep]
  }

  lemma SplitFields<T>(a: seq<T>, b: seq<T>, c: seq<T>, d: seq<T>, sep: T)
    requires sep !in a && sep !in b && sep !in d
    ensures Split(Fields(a, b, c, d, sep), sep) == [a, b] + Split(c, sep) + [d, []]
  {
    SplitWhole(a, sep);
    SplitWhole(b, sep);
    SplitWhole(d, sep);
    SplitAppend(a, b, sep);
    SplitAppend(a + [sep] + b, c, sep);
    SplitAppend(a + [sep] + b + [sep] + c, d, sep);
    SplitAppend(a + [sep] + b + [sep] + c + [sep] + d, [], sep);
    assert Fields(a, b, c, d, sep) + [] == Fields(a, b, c, d, sep);
    FiveParts(a, b, Split(c, sep), d);
  }

  lemma FiveParts<T>(a: seq<T>, b: seq<T>, c: seq<seq<T>>, d: seq<T>)
    ensures [a] + [b] + c + [d] + [[]] == [a, b] + c + [d, []]
  {
  }

  /** At least five parts are four fields and a remainder, the third field being all the parts in the middle. */
  lemma FieldsOfParts<T>(s: seq<T>, sep: T)
    requires |Split(s, sep)| >= 5
    ensures var parts := Split(s, sep);
            var n := |parts|;
            s == Fields(parts[0], parts[1], JoinWith(parts[2..n - 2], sep), parts[n - 2], sep) + parts[n - 1]
  {
    var parts := Split(s, sep);
    var n := |parts|;
    JoinSplit(s, sep);
    assert parts == parts[..2] + (parts[2..n - 2] + parts[n - 2..]);
    JoinFields(parts[..2], parts[2..n - 2], parts[n - 2..], sep);
  }

  lemma JoinFields<T>(first: seq<seq<T>>, middle: seq<seq<T>>, last: seq<seq<T>>, sep: T)
    requires |first| == 2 && middle != [] && |last| == 2
    ensures JoinWith(first + (middle + last), sep) == Fields(first[0], first[1], JoinWith(middle, sep), last[0], sep) + last[1]
  {
    JoinAppend(first, middle + last, sep);
    JoinAppend(middle, last, sep);
    JoinPair(first, sep);
    JoinPair(last, sep);
    Regroup(first[0] + [sep] + first[1], JoinWith(middle, sep), last[0], last[1], sep);
  }

  lemma Regroup<T>(a: seq<T>, b: seq<T>, c: seq<T>, d: seq<T>, sep: T)
    ensures a + [sep] + (b + [sep] + (c + [sep] + d)) == a + [sep] + b + [sep] + c + [sep] + d
  {
  }

  lemma JoinPair<T>(pair: seq<seq<T>>, sep: T)
    requires |pair| == 2
    ensures JoinWith(pair, sep) == pair[0] + [sep] + pair[1]
  {
    assert pair[1..] == [pair[1]];
  }

  /** A type and a status that the redirect may have, the status written as `status`. */
  predicate Allowed(info: RedirectInfo, status: string) {
    && info.redirectType in ["push", "replace"] && info.statusCode in [301, 302, 303, 307, 308]
    && ParseUnsigned(status, 65_536) == Some(info.statusCode)
  }

  lemma StatusHasNoSeparator(status: string, info: RedirectInfo)
    requires Allowed(info, status)
    ensures ';' !in status && '"' !in status
  {
    assert forall i | 0 <= i < |status| :: status[i] == '+' || '0' <= status[i] <= '9' by {
      if status[0] == '+' { assert forall i | 1 <= i < |status| :: status[i] == status[1..][i - 1]; }
    }
  }

  /** A digest parses to a redirect exactly if it is written as that redirect. */
  lemma ParseDigestIff(digest: string, info: RedirectInfo)
    ensures ParseDigest(digest) == Some(info) <==> exists status :: Allowed(info, status) && digest == Digest(info, status)
  {
    if ParseDigest(digest) == Some(info) {
      var parts := Split(digest, ';');
      FieldsOfParts(digest, ';');
      var status := parts[|parts| - 2];
      assert parts[|parts| - 1] == "";
      assert Allowed(info, status) && digest == Digest(info, status);
    }
    if status :| Allowed(info, status) && digest == Digest(info, status) {
      ParseOfDigest(info, status);
    }
  }

  lemma ParseOfDigest(info: RedirectInfo, status: string)
    requires Allowed(info, status)
    ensures ParseDigest(Digest(info, status)) == Some(info)
  {
    StatusHasNoSeparator(status, info);
    SplitFields(Name, info.redirectType, info.url, status, ';');
    var url := Split(info.url, ';');
    var parts := [Name, info.redirectType] + url + [status, ""];
    assert parts[2..|parts| - 2] == url;
    JoinSplit(info.url, ';');
  }

  // ----- the marker -----

  /** A pattern whose first two characters do not come back in it cannot overlap itself. */
  ghost predicate NoBorder(p: string) {
    |p| >= 2 && forall k | 0 < k < |p| :: p[k] == p[0] ==> k + 1 < |p| && p[k + 1] != p[1]
  }

  lemma MarkerHasNoBorder()
    ensures NoBorder(Marker)
  {
  }

  /** So the first one is the one after a text without it. */
  lemma FindAfter(before: string, p: string, rest: string)
    requires NoBorder(p) && Find(before, p).None?
    ensures Find(before + p + rest, p) == Some(|before|)
  {
    var text := before + p + rest;
    assert text[|before|..] == p + rest;
    forall i | 0 <= i < |before| ensures !(p <= text[i..]) {
      NotAt(before, p, rest, i);
    }
    FindIs(text, p, |before|);
  }

  lemma FindIs(text: string, p: string, at: nat)
    requires at <= |text| && p <= text[at..] && forall i | 0 <= i < at :: !(p <= text[i..])
    ensures Find(text, p) == Some(at)
  {
  }

  lemma NotAt(before: string, p: string, rest: string, i: nat)
    requires NoBorder(p) && Find(before, p).None? && i < |before|
    ensures !(p <= (before + p + rest)[i..])
  {
    Suffix(before, p, rest, i);
    assert !(p <= before[i..]);
    NotAcross(before[i..], p, rest);
  }

  lemma NotAcross(before: string, p: string, rest: string)
    requires NoBorder(p) && before != "" && !(p <= before)
    ensures !(p <= before + p + rest)
  {
    var text, k := before + p + rest, |before|;
    if |p| <= k {
      assert text[..|p|] == before[..|p|];
    } else {
      assert text[k] == p[0] && text[k + 1] == p[1];
    }
  }

  lemma Suffix(a: string, b: string, c: string, i: nat)
    requires i <= |a|
    ensures (a + b + c)[i..] == a[i..] + b + c
  {
  }

  lemma DigestAfterName(info: RedirectInfo, status: string) returns (tail: string)
    ensures Digest(info, status) == Name + ";" + tail
  {
    tail := info.redirectType + [';'] + info.url + [';'] + status + [';'];
    Nest(Name + [';'], info.redirectType, info.url, status, ';');
  }

  lemma Nest<T>(a: seq<T>, b: seq<T>, c: seq<T>, d: seq<T>, sep: T)
    ensures a + b + [sep] + c + [sep] + d + [sep] == a + (b + [sep] + c + [sep] + d + [sep])
  {
  }

  lemma Cut(before: string, prefix: string, name: string, tail: string, after: string)
    ensures var text := before + prefix + (name + tail) + after;
            text == before + (prefix + name) + (tail + after) && text[|before| + |prefix|..] == name + tail + after
  {
  }

  lemma Ends(digest: string, after: string)
    ensures (digest + after)[..|digest|] == digest
  {
  }

  /** No double quote stands inside the digest. */
  lemma QuoteEnds(info: RedirectInfo, status: string)
    requires Allowed(info, status)
    ensures '"' in Digest(info, status) <==> '"' in info.url
  {
    StatusHasNoSeparator(status, info);
    InFields(Name, info.redirectType, info.url, status, ';', '"');
  }

  lemma InFields<T>(a: seq<T>, b: seq<T>, c: seq<T>, d: seq<T>, sep: T, x: T)
    ensures x in Fields(a, b, c, d, sep) <==> x in a || x in b || x in c || x in d || x == sep
  {
  }

  lemma MarkerIsPrefix()
    ensures Marker == DigestPrefix + (Name + ";")
  {
  }

  lemma IndexOfFirst(s: string, rest: string)
    requires '"' !in s
    ensures Text.IndexOf(s + ("\"" + rest), '"') == |s|
  {
    var t := s + ("\"" + rest);
    assert t[|s|] == '"' && forall i | 0 <= i < |s| :: t[i] == s[i];
  }

  // ----- detection -----

  predicate Holds(text: string, info: RedirectInfo, before: string, status: string, after: string) {
    && Find(before, Marker).None?
    && Allowed(info, status) && '"' !in info.url
    && text == before + DigestPrefix + Digest(info, status) + ("\"" + after)
  }

  /** The text has the redirect in its first digest: `"digest":"NEXT_REDIRECT;` does not start anywhere before it. */
  predicate Stands(text: string, info: RedirectInfo, before: string, status: string, after: string) {
    && (forall i | 0 <= i <= |before| :: !("\"digest\":\"NEXT_REDIRECT;" <= before[i..]))
    && Allowed(info, status) && '"' !in info.url
    && text == before + "\"digest\":\"" + Digest(info, status) + ("\"" + after)
  }

  lemma StandsIff(text: string, info: RedirectInfo, before: string, status: string, after: string)
    ensures Stands(text, info, before, status, after) <==> Holds(text, info, before, status, after)
  {
  }

  /** The first marker is the one of the digest, which follows it up to the next double quote. */
  lemma MarkerIsFound(text: string, info: RedirectInfo, before: string, status: string, after: string)
    requires Holds(text, info, before, status, after)
    ensures Find(text, Marker) == Some(|before|)
    ensures |before| + |DigestPrefix| <= |text|
    ensures text[|before| + |DigestPrefix|..] == Digest(info, status) + ("\"" + after)
  {
    var tail := DigestAfterName(info, status);
    MarkerIsPrefix();
    Cut(before, DigestPrefix, Name + ";", tail, "\"" + after);
    MarkerHasNoBorder();
    FindAfter(before, Marker, tail + ("\"" + after));
  }

  /** A redirect with any URL free of double quotes, after any text free of the marker, is detected as it is. */
  lemma DetectsWhatIsHeld(text: string, info: RedirectInfo, before: string, status: string, after: string)
    requires Holds(text, info, before, status, after)
    ensures DetectInText(text) == Some(info)
  {
    var digest := Digest(info, status);
    MarkerIsFound(text, info, before, status, after);
    QuoteEnds(info, status);
    IndexOfFirst(digest, after);
    Ends(digest, "\"" + after);
    ParseOfDigest(info, status);
  }

  /** Whatever is detected is held by the text: the type and the URL occur in its first digest. */
  lemma DetectedIsHeld(text: string, info: RedirectInfo) returns (before: string, status: string, after: string)
    requires DetectInText(text) == Some(info)
    ensures Holds(text, info, before, status, after)
  {
    var at := Find(text, Marker).value;
    before := text[..at];
    var remaining := text[at + |DigestPrefix|..];
    var end := Text.IndexOf(remaining, '"');
    var digest := remaining[..end];
    after := remaining[end + 1..];
    ParseDigestIff(digest, info);
    status :| Allowed(info, status) && digest == Digest(info, status);
    QuoteEnds(info, status);
    MarkerIsPrefix();
    assert DigestPrefix <= Marker <= text[at..];
    Recompose(text, at, DigestPrefix, end);
    FirstIsFree(text, at, Marker);
  }

  lemma Recompose(text: string, at: nat, prefix: string, end: nat)
    requires at <= |text| && prefix <= text[at..] && at + |prefix| + end < |text|
    ensures var remaining := text[at + |prefix|..];
            text == text[..at] + prefix + remaining[..end] + ([remaining[end]] + remaining[end + 1..])
  {
    assert text[at..][..|prefix|] == prefix;
    assert text[at + |prefix|..] == text[at..][|prefix|..];
  }

  lemma FirstIsFree(text: string, at: nat, pattern: string)
    requires Find(text, pattern) == Some(at) && pattern != ""
    ensures Find(text[..at], pattern).None?
  {
    var before := text[..at];
    forall i | 0 <= i <= |before| ensures !(pattern <= before[i..]) {
      assert before[i..] == text[i..][..at - i];
    }
  }

  ghost predicate FirstDigestIs(text: string, info: RedirectInfo) {
    exists before, status, after :: Stands(text, info, before, status, after)
  }

  lemma TextIff(text: string, info: RedirectInfo)
    ensures DetectInText(text) == Some(info) <==> FirstDigestIs(text, info)
  {
    if DetectInText(text) == Some(info) {
      var before, status, after := DetectedIsHeld(text, info);
      StandsIff(text, info, before, status, after);
      assert FirstDigestIs(text, info);
    }
    if FirstDigestIs(text, info) {
      var before, status, after :| Stands(text, info, before, status, after);
      StandsIff(text, info, before, status, after);
      DetectsWhatIsHeld(text, info, before, status, after);
    }
  }

  /** A body, whatever its bytes, is found to redirect exactly if it is within the size limit and its first digest says so. */
  lemma DetectsIff(body: seq<Byte>, info: RedirectInfo)
    ensures DetectRscRedirectInBody(body) == Some(info)
            <==> |body| <= 1_048_576 && FirstDigestIs(Utf8.DecodeLossy(body), info)
  {
    TextIff(Utf8.DecodeLossy(body), info);
  }

  /** The digest Next.js writes, in any body within the limit, is read back. */
  lemma RoundTrip(before: string, info: RedirectInfo, after: string)
    requires forall i | 0 <= i <= |before| :: !("\"digest\":\"NEXT_REDIRECT;" <= before[i..])
    requires '"' !in info.url && info.redirectType in ["push", "replace"] && info.statusCode in [301, 302, 303, 307, 308]
    ensures var body := Utf8.Encode(before + "\"digest\":\"" + Digest(info, DecText(info.statusCode)) + ("\"" + after));
            |body| <= 1_048_576 ==> DetectRscRedirectInBody(body) == Some(info)
  {
    var status := DecText(info.statusCode);
    ParseText(info.statusCode, 0x1_0000);
    var text := before + "\"digest\":\"" + Digest(info, status) + ("\"" + after);
    assert Stands(text, info, before, status, after);
    assert FirstDigestIs(text, info);
    Utf8.DecodeEncode(text);
    Utf8.LossyDecode(Utf8.Encode(text));
    DetectsIff(Utf8.Encode(text), info);
  }
}
