/**
 * The texts that are signed: WebSocket frames (crates/relay-ws/src/crypto.rs),
 * HTTP requests and HTTP responses (crates/relay-control/src/signing.rs). All
 * three are fields joined by '|'.
 */
module SigningText {
  import opened Wrappers
  import opened Protocol
  import opened Decimal
  import opened Splitting

  type U64 = n: nat | n < 0x1_0000_0000_0000_0000
  type I64 = n: int | -0x8000_0000_0000_0000 <= n < 0x8000_0000_0000_0000

  /** A UUID by its canonical text: 36 characters, hex digits and four hyphens. */
  type Uuid = s: string | UuidText(s) witness NilUuid

  const NilUuid: string := "00000000-0000-0000-0000-000000000000"

  predicate HexDigit(c: char) {
    '0' <= c <= '9' || 'a' <= c <= 'f'
  }

  predicate UuidText(s: string) {
    && |s| == 36
    && forall i | 0 <= i < 36 :: if i == 8 || i == 13 || i == 18 || i == 23 then s[i] == '-' else HexDigit(s[i])
  }

  predicate BarFree(s: string) {
    forall i | 0 <= i < |s| :: s[i] != '|'
  }

  // ----- rendering of the fields -----

  function IntText(n: int): string {
    if n < 0 then "-" + DecText(-n) else DecText(n)
  }

  function TypeText(t: MessageType): (s: string)
    ensures BarFree(s) && |s| < 36
  {
    match t
    case TextType => "text"
    case BinaryType => "binary"
    case PingType => "ping"
    case PongType => "pong"
    case CloseType => "close"
  }

  function NibbleText(n: nat): (c: char)
    requires n < 16
    ensures HexDigit(c)
  {
    if n < 10 then ('0' as int + n) as char else ('a' as int + n - 10) as char
  }

  /**
   * Stands for the base64 text of the SHA-256 digest: an ideal digest, injective
   * and written in an alphabet without '|'.
   */
  function DigestText(payload: seq<Byte>): (s: string)
    ensures BarFree(s)
  {
    if payload == [] then ""
    else [NibbleText(payload[0] as int / 16), NibbleText(payload[0] as int % 16)] + DigestText(payload[1..])
  }

  // ----- the three signed texts -----

  function WsInput(session: Uuid, nonce: Uuid, seqNo: U64, t: MessageType, payload: seq<Byte>): string {
    "v1|" + (session + "|" + (nonce + "|" + (DecText(seqNo) + "|" + (TypeText(t) + "|" + DigestText(payload)))))
  }

  function RequestInput(timestamp: I64, verb: string, path: string, session: Uuid, nonce: Uuid, body: seq<Byte>): string {
    ((("v1|" + (IntText(timestamp) + "|" + (verb + "|" + path))) + "|" + session) + "|" + nonce) + "|" + DigestText(body)
  }

  function ResponseInput(timestamp: I64, status: U16, path: string, session: Uuid, requestNonce: Uuid,
                         responseNonce: Uuid, body: seq<Byte>): string
  {
    (((("v1|" + (IntText(timestamp) + "|" + (DecText(status) + "|" + path))) + "|" + session) + "|" + requestNonce)
     + "|" + responseNonce) + "|" + DigestText(body)
  }

  // ----- separators -----

  /** The first separator of a text is where the bar-free field before it ends. */
  lemma SplitFirst(a: string, x: string, b: string, y: string)
    requires BarFree(a) && BarFree(b) && a + "|" + x == b + "|" + y
    ensures a == b && x == y
  {
    var s := a + "|" + x;
    assert s[|a|] == '|' && s[|b|] == '|';
    assert forall i | 0 <= i < |a| :: s[i] == a[i];
    assert forall i | 0 <= i < |b| :: s[i] == b[i];
    assert |a| == |b|;
    assert a == s[..|a|] && b == s[..|a|] && x == s[|a| + 1..] && y == s[|a| + 1..];
  }

  /** The last separator of a text is where the bar-free field after it starts. */
  lemma SplitLast(x: string, a: string, y: string, b: string)
    requires BarFree(a) && BarFree(b) && x + "|" + a == y + "|" + b
    ensures a == b && x == y
  {
    var s := x + "|" + a;
    assert s[|x|] == '|' && s[|y|] == '|';
    assert forall i | |x| < i < |s| :: s[i] == a[i - |x| - 1];
    assert forall i | |y| < i < |s| :: s[i] == b[i - |y| - 1];
    assert |x| == |y|;
    assert x == s[..|x|] && y == s[..|x|] && a == s[|x| + 1..] && b == s[|x| + 1..];
  }

  lemma UuidBarFree(u: Uuid)
    ensures BarFree(u)
  {
    forall i | 0 <= i < 36 ensures u[i] != '|' {
      if i != 8 && i != 13 && i != 18 && i != 23 { assert HexDigit(u[i]); }
    }
  }

  // ----- each field can be read back -----

  lemma IntTextInjective(m: int, n: int)
    requires IntText(m) == IntText(n)
    ensures m == n
  {
    var s := IntText(m);
    assert (s[0] == '-' <==> m < 0) && (s[0] == '-' <==> n < 0);
    if m < 0 {
      assert DecText(-m) == s[1..] == DecText(-n);
      DecTextInjective(-m, -n);
    } else {
      DecTextInjective(m, n);
    }
  }

  lemma TypeTextInjective(t: MessageType, u: MessageType)
    requires TypeText(t) == TypeText(u)
    ensures t == u
  {
    assert TypeText(t)[1] == TypeText(u)[1];
  }

  lemma {:induction false} DigestTextInjective(p: seq<Byte>, q: seq<Byte>)
    requires DigestText(p) == DigestText(q)
    ensures p == q
  {
    if p != [] && q != [] {
      var s := DigestText(p);
      assert s[0] == NibbleText(q[0] as int / 16) && s[1] == NibbleText(q[0] as int % 16);
      assert s[2..] == DigestText(p[1..]) && s[2..] == DigestText(q[1..]);
      DigestTextInjective(p[1..], q[1..]);
      assert p == [p[0]] + p[1..] && q == [q[0]] + q[1..];
    }
  }

  // ----- main results -----

  /** A frame's signed text determines session, nonce, sequence number, type and payload. */
  lemma WsInputInjective(s: Uuid, n: Uuid, k: U64, t: MessageType, p: seq<Byte>,
                         s': Uuid, n': Uuid, k': U64, t': MessageType, p': seq<Byte>)
    requires WsInput(s, n, k, t, p) == WsInput(s', n', k', t', p')
    ensures s == s' && n == n' && k == k' && t == t' && p == p'
  {
    var x4, y4 := TypeText(t) + "|" + DigestText(p), TypeText(t') + "|" + DigestText(p');
    var x3, y3 := DecText(k) + "|" + x4, DecText(k') + "|" + y4;
    var x2, y2 := n + "|" + x3, n' + "|" + y3;
    var x1, y1 := s + "|" + x2, s' + "|" + y2;
    UuidBarFree(s); UuidBarFree(s'); UuidBarFree(n); UuidBarFree(n');
    assert x1 == y1 by {
      assert WsInput(s, n, k, t, p) == "v1|" + x1 && WsInput(s', n', k', t', p') == "v1|" + y1;
      assert x1 == ("v1|" + x1)[3..] && y1 == ("v1|" + y1)[3..];
    }
    SplitFirst(s, x2, s', y2);
    SplitFirst(n, x3, n', y3);
    SplitFirst(DecText(k), x4, DecText(k'), y4);
    SplitFirst(TypeText(t), DigestText(p), TypeText(t'), DigestText(p'));
    DecTextInjective(k, k');
    TypeTextInjective(t, t');
    DigestTextInjective(p, p');
  }

  /** Two bar-free fields at the left of a text. */
  lemma FirstTwo(a: string, b: string, rest: string)
    requires BarFree(a) && BarFree(b)
    ensures Split(a + "|" + (b + "|" + rest), '|') == [a, b] + Split(rest, '|')
  {
    SplitField(a, b + "|" + rest, '|');
    SplitField(b, rest, '|');
  }

  /** And three at its right. */
  lemma LastThree(x: string, a: string, b: string, c: string)
    requires BarFree(a) && BarFree(b) && BarFree(c)
    ensures Split(((x + "|" + a) + "|" + b) + "|" + c, '|') == Split(x, '|') + [a, b, c]
  {
    LastField((x + "|" + a) + "|" + b, c);
    LastField(x + "|" + a, b);
    LastField(x, a);
  }

  lemma LastField(x: string, a: string)
    requires BarFree(a)
    ensures Split(x + "|" + a, '|') == Split(x, '|') + [a]
  {
    SplitAppend(x, a, '|');
    SplitWhole(a, '|');
  }

  predicate IsTypeName(t: MessageType, name: string) {
    match t
    case TextType => name == "text"
    case BinaryType => name == "binary"
    case PingType => name == "ping"
    case PongType => name == "pong"
    case CloseType => name == "close"
  }

  /** The fields of a frame's signed text, in their order. */
  lemma WsInputFields(s: Uuid, n: Uuid, k: U64, t: MessageType, name: string, p: seq<Byte>)
    requires IsTypeName(t, name)
    ensures Split(WsInput(s, n, k, t, p), '|') == ["v1", s, n, DecText(k), name, DigestText(p)]
  {
    var dec, dig := DecText(k), DigestText(p);
    UuidBarFree(s); UuidBarFree(n);
    WsInputIs(s, n, k, t, name, p);
    SixFields("v1", s, n, dec, name, dig);
  }

  lemma WsInputIs(s: Uuid, n: Uuid, k: U64, t: MessageType, name: string, p: seq<Byte>)
    requires IsTypeName(t, name)
    ensures BarFree(name) && name == TypeText(t)
    ensures WsInput(s, n, k, t, p) == "v1" + "|" + (s + "|" + (n + "|" + (DecText(k) + "|" + (name + "|" + DigestText(p)))))
  {
    var rest := s + "|" + (n + "|" + (DecText(k) + "|" + (name + "|" + DigestText(p))));
    assert "v1|" + rest == "v1" + "|" + rest;
  }

  lemma SixFields(a: string, b: string, c: string, d: string, e: string, f: string)
    requires BarFree(a) && BarFree(b) && BarFree(c) && BarFree(d) && BarFree(e) && BarFree(f)
    ensures Split(a + "|" + (b + "|" + (c + "|" + (d + "|" + (e + "|" + f)))), '|') == [a, b, c, d, e, f]
  {
    FirstTwo(a, b, c + "|" + (d + "|" + (e + "|" + f)));
    FirstTwo(c, d, e + "|" + f);
    LastField(e, f);
    SplitWhole(e, '|');
  }

  /** The fields of a request's signed text, in their order; a '|' in the method or the path makes more of them. */
  lemma RequestInputFields(ts: I64, m: string, path: string, s: Uuid, n: Uuid, body: seq<Byte>)
    ensures Split(RequestInput(ts, m, path, s, n, body), '|')
            == ["v1", IntText(ts)] + (Split(m, '|') + Split(path, '|')) + [s, n, DigestText(body)]
  {
    var left := "v1|" + (IntText(ts) + "|" + (m + "|" + path));
    UuidBarFree(s); UuidBarFree(n);
    LastThree(left, s, n, DigestText(body));
    LeftSplit(left, ts, m + "|" + path);
    SplitAppend(m, path, '|');
  }

  lemma LeftSplit(left: string, ts: I64, rest: string)
    requires left == "v1|" + (IntText(ts) + "|" + rest)
    ensures Split(left, '|') == ["v1", IntText(ts)] + Split(rest, '|')
  {
    var x := IntText(ts) + "|" + rest;
    assert "v1|" + x == "v1" + "|" + x;
    FirstTwo("v1", IntText(ts), rest);
  }

  /** And of a response's. */
  lemma ResponseInputFields(ts: I64, c: U16, path: string, s: Uuid, r: Uuid, n: Uuid, body: seq<Byte>)
    ensures Split(ResponseInput(ts, c, path, s, r, n, body), '|')
            == ["v1", IntText(ts)] + ([DecText(c)] + Split(path, '|') + [s]) + [r, n, DigestText(body)]
  {
    var left := "v1|" + (IntText(ts) + "|" + (DecText(c) + "|" + path));
    UuidBarFree(s); UuidBarFree(r); UuidBarFree(n);
    LastThree(left + "|" + s, r, n, DigestText(body));
    LastField(left, s);
    LeftSplit(left, ts, DecText(c) + "|" + path);
    SplitField(DecText(c), path, '|');
  }

  /** Two equal tails of a signed text: the three fixed-alphabet fields at its right end agree. */
  lemma RightFields(x: string, s: Uuid, n: Uuid, p: seq<Byte>, x': string, s': Uuid, n': Uuid, p': seq<Byte>)
    requires ((x + "|" + s) + "|" + n) + "|" + DigestText(p) == ((x' + "|" + s') + "|" + n') + "|" + DigestText(p')
    ensures x == x' && s == s' && n == n' && p == p'
  {
    UuidBarFree(s); UuidBarFree(s'); UuidBarFree(n); UuidBarFree(n');
    SplitLast((x + "|" + s) + "|" + n, DigestText(p), (x' + "|" + s') + "|" + n', DigestText(p'));
    SplitLast(x + "|" + s, n, x' + "|" + s', n');
    SplitLast(x, s, x', s');
    DigestTextInjective(p, p');
  }

  lemma LeftFields(ts: I64, rest: string, ts': I64, rest': string)
    requires "v1|" + (IntText(ts) + "|" + rest) == "v1|" + (IntText(ts') + "|" + rest')
    ensures ts == ts' && rest == rest'
  {
    var x1, y1 := IntText(ts) + "|" + rest, IntText(ts') + "|" + rest';
    assert x1 == ("v1|" + x1)[3..] && y1 == ("v1|" + y1)[3..];
    SplitFirst(IntText(ts), rest, IntText(ts'), rest');
    IntTextInjective(ts, ts');
  }

  /**
   * Two requests have one signed text exactly if they agree in timestamp,
   * session, nonce and body, and in method and path read as one text. Where the
   * methods hold no '|' they then agree in both, whatever the paths hold.
   */
  lemma RequestInputInjective(ts: I64, m: string, path: string, s: Uuid, n: Uuid, body: seq<Byte>,
                              ts': I64, m': string, path': string, s': Uuid, n': Uuid, body': seq<Byte>)
    ensures RequestInput(ts, m, path, s, n, body) == RequestInput(ts', m', path', s', n', body')
            <==> ts == ts' && m + "|" + path == m' + "|" + path' && s == s' && n == n' && body == body'
    ensures BarFree(m) && BarFree(m') && m + "|" + path == m' + "|" + path' ==> m == m' && path == path'
  {
    if RequestInput(ts, m, path, s, n, body) == RequestInput(ts', m', path', s', n', body') {
      RightFields("v1|" + (IntText(ts) + "|" + (m + "|" + path)), s, n, body,
                  "v1|" + (IntText(ts') + "|" + (m' + "|" + path')), s', n', body');
      LeftFields(ts, m + "|" + path, ts', m' + "|" + path');
    }
    if BarFree(m) && BarFree(m') && m + "|" + path == m' + "|" + path' {
      SplitFirst(m, path, m', path');
    }
  }

  /** Likewise for a response, with no condition at all. */
  lemma ResponseInputInjective(ts: I64, c: U16, path: string, s: Uuid, r: Uuid, n: Uuid, body: seq<Byte>,
                               ts': I64, c': U16, path': string, s': Uuid, r': Uuid, n': Uuid, body': seq<Byte>)
    requires ResponseInput(ts, c, path, s, r, n, body) == ResponseInput(ts', c', path', s', r', n', body')
    ensures ts == ts' && c == c' && path == path' && s == s' && r == r' && n == n' && body == body'
  {
    var left, left' := "v1|" + (IntText(ts) + "|" + (DecText(c) + "|" + path)),
                       "v1|" + (IntText(ts') + "|" + (DecText(c') + "|" + path'));
    RightFields(left + "|" + s, r, n, body, left' + "|" + s', r', n', body');
    UuidBarFree(s); UuidBarFree(s');
    SplitLast(left, s, left', s');
    LeftFields(ts, DecText(c) + "|" + path, ts', DecText(c') + "|" + path');
    SplitFirst(DecText(c), path, DecText(c'), path');
    DecTextInjective(c, c');
  }

  lemma Shift(a: string, x: string, b: string)
    ensures a + "|" + (x + "|" + b) == (a + "|" + x) + "|" + b
  {
  }

  lemma WsInputLastFields(s: Uuid, n: Uuid, k: U64, t: MessageType, q: seq<Byte>)
    ensures WsInput(s, n, k, t, q) == (("v1|" + (s + "|" + (n + "|" + DecText(k)))) + "|" + TypeText(t)) + "|" + DigestText(q)
  {
    var dec, typ, dig := DecText(k), TypeText(t), DigestText(q);
    Shift(dec, typ, dig);
    Shift(n, dec + "|" + typ, dig);
    Shift(s, n + "|" + (dec + "|" + typ), dig);
    Shift(n, dec, typ);
    Shift(s, n + "|" + dec, typ);
    assert "v1|" + ((s + "|" + (n + "|" + dec)) + "|" + typ) == ("v1|" + (s + "|" + (n + "|" + dec))) + "|" + typ;
    assert "v1|" + ((s + "|" + (n + "|" + (dec + "|" + typ))) + "|" + dig)
        == ("v1|" + (s + "|" + (n + "|" + (dec + "|" + typ)))) + "|" + dig;
  }

  /** Any text whose last two fields are a UUID and a digest is not a frame's signed text. */
  lemma UuidFieldIsNoType(x: string, u: Uuid, p: seq<Byte>, s: Uuid, n: Uuid, k: U64, t: MessageType, q: seq<Byte>)
    ensures (x + "|" + u) + "|" + DigestText(p) != WsInput(s, n, k, t, q)
  {
    var y := "v1|" + (s + "|" + (n + "|" + DecText(k)));
    WsInputLastFields(s, n, k, t, q);
    if (x + "|" + u) + "|" + DigestText(p) == (y + "|" + TypeText(t)) + "|" + DigestText(q) {
      UuidBarFree(u);
      SplitLast(x + "|" + u, DigestText(p), y + "|" + TypeText(t), DigestText(q));
      SplitLast(x, u, y, TypeText(t));
      assert false;
    }
  }

  /** No signature over a request or a response can stand for one over a frame. */
  lemma FramesAreSeparate(ts: I64, m: string, c: U16, path: string, s: Uuid, r: Uuid, n: Uuid, body: seq<Byte>,
                          s': Uuid, n': Uuid, k: U64, t: MessageType, p: seq<Byte>)
    ensures RequestInput(ts, m, path, s, n, body) != WsInput(s', n', k, t, p)
    ensures ResponseInput(ts, c, path, s, r, n, body) != WsInput(s', n', k, t, p)
  {
    var req := "v1|" + (IntText(ts) + "|" + (m + "|" + path));
    var resp := "v1|" + (IntText(ts) + "|" + (DecText(c) + "|" + path));
    UuidFieldIsNoType(req + "|" + s, n, body, s', n', k, t, p);
    UuidFieldIsNoType((resp + "|" + s) + "|" + r, n, body, s', n', k, t, p);
  }

  /**
   * A request text and a response text coincide exactly when they agree in
   * timestamp, nonces and body, the request is signed in the session the response
   * names as its request nonce, and the request's method and path read as the
   * response's status, path and session. For a method without '|' that makes it
   * the status code in decimal, and the session one more field of the path.
   */
  lemma RequestIsResponse(ts: I64, m: string, path: string, s: Uuid, n: Uuid, body: seq<Byte>,
                          ts': I64, c: U16, path': string, s': Uuid, r: Uuid, n': Uuid, body': seq<Byte>)
    ensures RequestInput(ts, m, path, s, n, body) == ResponseInput(ts', c, path', s', r, n', body') <==>
              ts == ts' && m + "|" + path == DecText(c) + "|" + (path' + "|" + s') && s == r && n == n' && body == body'
    ensures BarFree(m) ==>
              (m + "|" + path == DecText(c) + "|" + (path' + "|" + s') <==> m == DecText(c) && path == path' + "|" + s')
  {
    var left := "v1|" + (IntText(ts) + "|" + (m + "|" + path));
    var rest' := DecText(c) + "|" + (path' + "|" + s');
    var left' := "v1|" + (IntText(ts') + "|" + rest');
    assert left' == ("v1|" + (IntText(ts') + "|" + (DecText(c) + "|" + path'))) + "|" + s';
    if RequestInput(ts, m, path, s, n, body) == ResponseInput(ts', c, path', s', r, n', body') {
      RightFields(left, s, n, body, left', r, n', body');
      LeftFields(ts, m + "|" + path, ts', rest');
    }
    if BarFree(m) && m + "|" + path == rest' {
      SplitFirst(m, path, DecText(c), path' + "|" + s');
    }
  }
}
