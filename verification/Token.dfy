/** The unpadded URL-safe base64 of section 5 of RFC 4648, and the three-part token of RFC 7515 made of
    it (crates/choir-bridge/src/github.rs). */
module Token {
  import opened Basics
  import opened Sequences
  import opened Utf8
  import Decimal
  import Text

  /** The alphabet: 64 characters, none of them a dot. */
  function Sign(v: nat): (c: char)
    requires v < 64
    ensures c != '.' && Value(c) == v
  {
    if v < 26 then 'A' + v as char
    else if v < 52 then 'a' + (v - 26) as char
    else if v < 62 then '0' + (v - 52) as char
    else if v == 62 then '-' else '_'
  }

  function Value(c: char): nat {
    if 'A' <= c <= 'Z' then c as nat - 'A' as nat
    else if 'a' <= c <= 'z' then c as nat - 'a' as nat + 26
    else if '0' <= c <= '9' then c as nat - '0' as nat + 52
    else if c == '-' then 62
    else if c == '_' then 63
    else 64
  }

  /** A byte of a chunk, zero past its end. */
  function At(b: seq<byte>, k: nat): nat {
    if k < |b| then b[k] else 0
  }

  function Packed(x: nat, y: nat, z: nat): nat {
    x * 0x10000 + y * 0x100 + z
  }

  lemma {:induction false} PackedBounds(x: byte, y: byte, z: byte)
    ensures Packed(x, y, z) / 0x40000 < 64
  {
  }

  /** One group: three bytes in four characters, or fewer of each at the end. */
  function Group(b: seq<byte>): (s: string)
    requires 1 <= |b| <= 3
    ensures |s| == |b| + 1
  {
    var n := Packed(At(b, 0), At(b, 1), At(b, 2));
    PackedBounds(At(b, 0), At(b, 1), At(b, 2));
    [Sign(n / 0x40000), Sign(n / 0x1000 % 64)]
    + (if |b| > 1 then [Sign(n / 64 % 64)] else [])
    + if |b| > 2 then [Sign(n % 64)] else []
  }

  function Encoded(b: seq<byte>): string {
    if b == [] then ""
    else if |b| <= 3 then Group(b)
    else Group(b[..3]) + Encoded(b[3..])
  }

  method EncodeChunk(chunk: seq<byte>) returns (out: string)
    requires 1 <= |chunk| <= 3
    ensures out == Group(chunk)
  {
    var b1, b2 := 0, 0;
    if |chunk| > 1 {
      b1 := chunk[1];
    }
    if |chunk| > 2 {
      b2 := chunk[2];
    }
    var n := Packed(chunk[0], b1, b2);
    PackedBounds(chunk[0], b1, b2);
    assert n == Packed(At(chunk, 0), At(chunk, 1), At(chunk, 2)) && n / 0x40000 % 64 == n / 0x40000;
    out := [Sign(n / 0x40000 % 64)];
    out := out + [Sign(n / 0x1000 % 64)];
    if |chunk| > 1 {
      out := out + [Sign(n / 64 % 64)];
    }
    if |chunk| > 2 {
      out := out + [Sign(n % 64)];
    }
  }

  method B64Url(bytes: seq<byte>) returns (out: string)
    ensures out == Encoded(bytes)
  {
    out := "";
    var i := 0;
    while i < |bytes|
      invariant i <= |bytes|
      invariant out + Encoded(bytes[i..]) == Encoded(bytes)
    {
      var k := if i + 3 <= |bytes| then 3 else |bytes| - i;
      Next(bytes[i..]);
      var chunk := bytes[i..][..k];
      var four := EncodeChunk(chunk);
      assert bytes[i..][k..] == bytes[i + k..];
      Assoc(out, four, Encoded(bytes[i + k..]));
      out := out + four;
      i := i + k;
    }
    assert out + "" == out;
  }

  lemma {:induction false} Next(b: seq<byte>)
    requires b != []
    ensures var k := if |b| <= 3 then |b| else 3;
      Encoded(b) == Group(b[..k]) + Encoded(b[k..])
  {
    if |b| <= 3 {
      assert b[..|b|] == b && b[|b|..] == [];
    }
  }

  /** The decoder of the RFC: six bits a character, eight bits a byte. */
  function Decoded(s: string): seq<int> {
    if |s| < 2 then []
    else
      var v0, v1 := Value(s[0]), Value(s[1]);
      if |s| == 2 then [v0 * 4 + v1 / 16]
      else
        var v2 := Value(s[2]);
        if |s| == 3 then [v0 * 4 + v1 / 16, v1 % 16 * 16 + v2 / 4]
        else [v0 * 4 + v1 / 16, v1 % 16 * 16 + v2 / 4, v2 % 4 * 64 + Value(s[3])] + Decoded(s[4..])
  }

  lemma {:induction false} Pieces(a: nat, b: nat, c: nat, d: nat, e: nat, f: nat)
    requires b < 4 && c < 16 && d < 16 && e < 4 && f < 64
    ensures var n := 0x40000 * a + 0x1000 * (16 * b + c) + 64 * (4 * d + e) + f;
      && n / 0x40000 == a && n / 0x1000 % 64 == 16 * b + c && n / 64 % 64 == 4 * d + e && n % 64 == f
  {
    var x, y := 16 * b + c, 4 * d + e;
    UpperPieces(a, x, 64 * y + f);
    LowerPieces(64 * a + x, y, f);
  }

  lemma {:induction false} UpperPieces(a: nat, x: nat, low: nat)
    requires x < 64 && low < 0x1000
    ensures (0x40000 * a + 0x1000 * x + low) / 0x40000 == a && (0x40000 * a + 0x1000 * x + low) / 0x1000 % 64 == x
  {
    assert (0x40000 * a + 0x1000 * x + low) / 0x1000 == 64 * a + x;
  }

  lemma {:induction false} LowerPieces(high: nat, y: nat, f: nat)
    requires y < 64 && f < 64
    ensures (0x1000 * high + 64 * y + f) / 64 % 64 == y && (0x1000 * high + 64 * y + f) % 64 == f
  {
    assert (0x1000 * high + 64 * y + f) / 64 == 64 * high + y;
  }

  /** The four six-bit pieces of three bytes. */
  lemma {:induction false} Sextets(x: byte, y: byte, z: byte)
    ensures var n := Packed(x, y, z);
      && n / 0x40000 == x / 4 && n / 0x1000 % 64 == x % 4 * 16 + y / 16
      && n / 64 % 64 == y % 16 * 4 + z / 64 && n % 64 == z % 64
  {
    Pieces(x / 4, x % 4, y / 16, y % 16, z / 64, z % 64);
    assert Packed(x, y, z) == 0x40000 * (x / 4) + 0x1000 * (16 * (x % 4) + y / 16) + 64 * (4 * (y % 16) + z / 64) + z % 64;
  }

  lemma {:induction false} Rejoin(x: byte, y: byte, z: byte)
    ensures x / 4 * 4 + (x % 4 * 16 + y / 16) / 16 == x
    ensures (x % 4 * 16 + y / 16) % 16 * 16 + (y % 16 * 4 + z / 64) / 4 == y
    ensures (y % 16 * 4 + z / 64) % 4 * 64 + z % 64 == z
  {
  }

  lemma {:induction false} DecodeFour(s: string, v0: nat, v1: nat, v2: nat, v3: nat)
    requires |s| == 4 && Value(s[0]) == v0 && Value(s[1]) == v1 && Value(s[2]) == v2 && Value(s[3]) == v3
    ensures Decoded(s) == [v0 * 4 + v1 / 16, v1 % 16 * 16 + v2 / 4, v2 % 4 * 64 + v3]
  {
    assert s[4..] == "";
  }

  lemma {:induction false} ThreeDecode(b: seq<byte>)
    requires |b| == 3
    ensures Decoded(Group(b)) == b
  {
    var x, y, z := b[0], b[1], b[2];
    Sextets(x, y, z);
    DecodeFour(Group(b), x / 4, x % 4 * 16 + y / 16, y % 16 * 4 + z / 64, z % 64);
    Rejoin(x, y, z);
  }

  lemma {:induction false} FewerDecode(b: seq<byte>)
    requires 1 <= |b| <= 2
    ensures Decoded(Group(b)) == b
  {
    Sextets(b[0], At(b, 1), 0);
    Rejoin(b[0], At(b, 1), 0);
  }

  lemma {:induction false} GroupDecodes(b: seq<byte>)
    requires 1 <= |b| <= 3
    ensures Decoded(Group(b)) == b
  {
    if |b| == 3 {
      ThreeDecode(b);
    } else {
      FewerDecode(b);
    }
  }

  /** Decoding gives the bytes back, whatever they are. */
  lemma {:induction false} DecodedEncoded(b: seq<byte>)
    ensures Decoded(Encoded(b)) == b
  {
    if b == [] {
    } else if |b| <= 3 {
      GroupDecodes(b);
    } else {
      DecodedEncoded(b[3..]);
      GroupDecodes(b[..3]);
      DecodedFirst(Group(b[..3]), Encoded(b[3..]));
      assert b == b[..3] + b[3..];
    }
  }

  lemma {:induction false} DecodedFirst(g: string, rest: string)
    requires |g| == 4
    ensures Decoded(g + rest) == Decoded(g) + Decoded(rest)
  {
    assert g[4..] == "" && (g + rest)[4..] == rest;
    var three := Decoded(g)[..3];
    assert Decoded(g) == three && Decoded(g + rest) == three + Decoded(rest);
  }

  /** Four characters for three bytes, rounded up: ceil(4n/3), and no padding. */
  lemma {:induction false} EncodedLength(b: seq<byte>)
    ensures |Encoded(b)| == (4 * |b| + 2) / 3
  {
    if |b| > 3 {
      EncodedLength(b[3..]);
    }
  }

  lemma {:induction false} EncodedHasNoDot(b: seq<byte>)
    ensures forall c :: c in Encoded(b) ==> c != '.' && Value(c) < 64
  {
    if |b| > 3 {
      EncodedHasNoDot(b[3..]);
    }
  }

  // ---- the token ----------------------------------------------------------------------------------

  function Assembled(header: seq<byte>, payload: seq<byte>, signature: seq<byte>): string {
    Encoded(header) + (['.'] + (Encoded(payload) + (['.'] + Encoded(signature))))
  }

  const HEADER: string := "{\"alg\":\"RS256\"," + "\"typ\":\"JWT\"}"

  /** The claims for `app` at `now`: backdated a minute against clock skew, good for nine more. */
  function Claims(app: string, now: nat): string
    requires now >= 60
  {
    Spelled("{\"iat\":", "\"exp\":", ",\"iss\":\"", "\"}", app, now)
  }

  function Spelled(iat: string, exp: string, iss: string, end: string, app: string, now: nat): string
    requires now >= 60
  {
    iat + (Decimal.Print(now - 60) + ([','] + Expiry(exp, iss, end, app, now)))
  }

  function Expiry(exp: string, iss: string, end: string, app: string, now: nat): string {
    exp + (Decimal.Print(now + 540) + (iss + (app + end)))
  }

  /** The token, or nothing when the key cannot sign. */
  method AppJwt(app: string, now: nat, sign: string -> Option<seq<byte>>) returns (token: Option<string>)
    requires now >= 60
    ensures var header, payload := Encode(HEADER), Encode(Claims(app, now));
      var signature := sign(Encoded(header) + "." + Encoded(payload));
      token == if signature.None? then None else Some(Assembled(header, payload, signature.value))
  {
    var h := B64Url(Encode(HEADER));
    var p := B64Url(Encode(Claims(app, now)));
    var signingInput := h + "." + p;
    var signature := sign(signingInput);
    if signature.None? {
      return None;
    }
    var s := B64Url(signature.value);
    InFive(h, ".", p, ".", s);
    token := Some(signingInput + "." + s);
  }

  lemma {:induction false} SpelledReads(iat: string, exp: string, iss: string, end: string, app: string, now: nat, app': string, now': nat)
    requires now >= 60 && now' >= 60 && Spelled(iat, exp, iss, end, app, now) == Spelled(iat, exp, iss, end, app', now')
    ensures app == app' && now == now'
  {
    var a, b := Decimal.Print(now - 60), Decimal.Print(now' - 60);
    var x, y := Expiry(exp, iss, end, app, now), Expiry(exp, iss, end, app', now');
    Text.SameRest(iat, a + ([','] + x), b + ([','] + y));
    Text.Cut(a, b, ',', x, y);
    Decimal.PrintInjective(now - 60, now' - 60);
    var expiry := Decimal.Print(now + 540);
    Text.SameRest(exp, expiry + (iss + (app + end)), expiry + (iss + (app' + end)));
    Text.SameRest(expiry, iss + (app + end), iss + (app' + end));
    Text.SameRest(iss, app + end, app' + end);
    Text.SameTail(app, app', end);
  }

  // ---- reading the claims -----------------------------------------------------------------------------

  predicate Numeral(s: string) {
    forall i :: 0 <= i < |s| ==> '0' <= s[i] <= '9'
  }

  /** The number behind the first colon, up to the first comma, and what follows that. */
  function NumberField(t: string): Option<(nat, string)> {
    var k, n := Text.Find(t, ':'), Text.Find(t, ',');
    if k < n < |t| && Numeral(t[k + 1..n]) then Some((Decimal.Read(t[k + 1..n]), t[n + 1..])) else None
  }

  lemma {:induction false} FieldReads(name: string, n: nat, rest: string)
    requires name != "" && name[|name| - 1] == ':' && ':' !in name[..|name| - 1] && ',' !in name
    ensures NumberField(name + (Decimal.Print(n) + ([','] + rest))) == Some((n, rest))
  {
    MarksAt(name, Decimal.Print(n), rest);
    Decimal.ReadPrint(n);
  }

  /** Where the colon and the comma are, and what is between and behind them. */
  lemma {:induction false} MarksAt(name: string, digits: string, rest: string)
    requires name != "" && name[|name| - 1] == ':' && ':' !in name[..|name| - 1] && ',' !in name && ',' !in digits
    ensures var t, k, c := name + (digits + ([','] + rest)), |name| - 1, |name| + |digits|;
      c < |t| && Text.Find(t, ':') == k && Text.Find(t, ',') == c && t[k + 1..c] == digits && t[c + 1..] == rest
  {
    var t, k, c := name + (digits + ([','] + rest)), |name| - 1, |name| + |digits|;
    assert t[k] == ':' && t[c] == ',';
    assert forall i :: 0 <= i < k ==> t[i] == name[..k][i];
    assert forall i :: 0 <= i < |name| ==> t[i] == name[i];
    assert forall i :: |name| <= i < c ==> t[i] == digits[i - |name|];
    Text.FindIs(t, ':', k);
    Text.FindIs(t, ',', c);
  }

  /** A token is dated a minute back and good for ten minutes from there, the longest that is accepted;
      and behind the two times it names the app. */
  lemma {:induction false} ClaimsSay(app: string, now: nat)
    requires now >= 60
    ensures var issued := NumberField(Claims(app, now));
      && issued.Some? && issued.value.0 == now - 60
      && var expires := NumberField(issued.value.1);
      expires.Some? && expires.value == (issued.value.0 + 600, "\"iss\":\"" + (app + "\"}"))
  {
    var rest := "\"iss\":\"" + (app + "\"}");
    var exp := "\"exp\":" + (Decimal.Print(now + 540) + ([','] + rest));
    SpelledOut(app, now, rest);
    FieldReads("{\"iat\":", now - 60, exp);
    FieldReads("\"exp\":", now + 540, rest);
  }

  lemma {:induction false} SpelledOut(app: string, now: nat, rest: string)
    requires now >= 60 && rest == "\"iss\":\"" + (app + "\"}")
    ensures Claims(app, now) == "{\"iat\":" + (Decimal.Print(now - 60) + ([','] + ("\"exp\":" + (Decimal.Print(now + 540) + ([','] + rest)))))
  {
    assert ",\"iss\":\"" == [','] + "\"iss\":\"";
    assert ",\"iss\":\"" + (app + "\"}") == [','] + rest;
  }

  /** The claims tell the app and the time. */
  lemma {:induction false} ClaimsRead(app: string, now: nat, app': string, now': nat)
    requires now >= 60 && now' >= 60
    ensures Claims(app, now) == Claims(app', now') <==> app == app' && now == now'
  {
    if Claims(app, now) == Claims(app', now') {
      SpelledReads("{\"iat\":", "\"exp\":", ",\"iss\":\"", "\"}", app, now, app', now');
    }
  }

  /** Taken apart at its dots a token is its header, its payload and its signature. */
  lemma {:induction false} TokenSplits(h: seq<byte>, p: seq<byte>, s: seq<byte>)
    ensures Text.SplitOn(Assembled(h, p, s), '.') == [Encoded(h), Encoded(p), Encoded(s)]
  {
    EncodedHasNoDot(h);
    EncodedHasNoDot(p);
    EncodedHasNoDot(s);
    ThreeParts(Encoded(h), Encoded(p), Encoded(s));
  }

  lemma {:induction false} ThreeParts(a: string, b: string, c: string)
    requires '.' !in a && '.' !in b && '.' !in c
    ensures Text.SplitOn(a + (['.'] + (b + (['.'] + c))), '.') == [a, b, c]
  {
    FirstPart(a, b + (['.'] + c));
    FirstPart(b, c);
    Text.FindIs(c, '.', |c|);
  }

  lemma {:induction false} FirstPart(part: string, rest: string)
    requires '.' !in part
    ensures Text.SplitOn(part + (['.'] + rest), '.') == [part] + Text.SplitOn(rest, '.')
  {
    var t := part + (['.'] + rest);
    assert t[|part|] == '.' && t[..|part|] == part && t[|part| + 1..] == rest;
    Text.FindIs(t, '.', |part|);
  }

  /** The three parts can be read back out of a token. */
  lemma {:induction false} TokenReads(h: seq<byte>, p: seq<byte>, s: seq<byte>, h': seq<byte>, p': seq<byte>, s': seq<byte>)
    requires Assembled(h, p, s) == Assembled(h', p', s')
    ensures h == h' && p == p' && s == s'
  {
    EncodedHasNoDot(h);
    EncodedHasNoDot(h');
    EncodedHasNoDot(p);
    EncodedHasNoDot(p');
    Text.Cut(Encoded(h), Encoded(h'), '.', Encoded(p) + (['.'] + Encoded(s)), Encoded(p') + (['.'] + Encoded(s')));
    Text.Cut(Encoded(p), Encoded(p'), '.', Encoded(s), Encoded(s'));
    DecodedEncoded(h);
    DecodedEncoded(h');
    DecodedEncoded(p);
    DecodedEncoded(p');
    DecodedEncoded(s);
    DecodedEncoded(s');
  }
}
