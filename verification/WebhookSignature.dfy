/**
 * The webhook signature header: what the sender prints (webhooks index.ts) and what the SDK verifies
 * (sdk webhooks.ts). The HMAC is any function from secret and material to bytes.
 */
module WebhookSignature {
  import opened Collections
  import opened Decimals
  import opened Rounding
  import opened Texts

  type Byte = bv8

  type Mac = (string, string) -> seq<Byte>

  // ----- hex

  function NibbleChar(n: Byte): char
    requires n < 16
  {
    if n == 0 then '0' else if n == 1 then '1' else if n == 2 then '2' else if n == 3 then '3'
    else if n == 4 then '4' else if n == 5 then '5' else if n == 6 then '6' else if n == 7 then '7'
    else if n == 8 then '8' else if n == 9 then '9' else if n == 10 then 'a' else if n == 11 then 'b'
    else if n == 12 then 'c' else if n == 13 then 'd' else if n == 14 then 'e' else 'f'
  }

  /** Hex digits of either case. */
  function CharNibble(c: char): Option<Byte> {
    if c == '0' then Some(0) else if c == '1' then Some(1) else if c == '2' then Some(2) else if c == '3' then Some(3)
    else if c == '4' then Some(4) else if c == '5' then Some(5) else if c == '6' then Some(6)
    else if c == '7' then Some(7) else if c == '8' then Some(8) else if c == '9' then Some(9)
    else if c == 'a' || c == 'A' then Some(10) else if c == 'b' || c == 'B' then Some(11)
    else if c == 'c' || c == 'C' then Some(12) else if c == 'd' || c == 'D' then Some(13)
    else if c == 'e' || c == 'E' then Some(14) else if c == 'f' || c == 'F' then Some(15)
    else None
  }

  function HexPair(b: Byte): (pair: string)
    ensures |pair| == 2
  {
    [NibbleChar(b >> 4), NibbleChar(b & 15)]
  }

  function HexOf(bytes: seq<Byte>): string {
    if bytes == [] then "" else HexPair(bytes[0]) + HexOf(bytes[1..])
  }

  function PairByte(high: char, low: char): Byte
    requires CharNibble(high).Some? && CharNibble(low).Some?
  {
    (CharNibble(high).value << 4) | CharNibble(low).value
  }

  predicate AllNibbles(s: string) { forall i | 0 <= i < |s| :: CharNibble(s[i]).Some? }

  function DecodePairs(hex: string): (bytes: seq<Byte>)
    requires |hex| % 2 == 0 && AllNibbles(hex)
    ensures |bytes| == |hex| / 2 && forall i | 0 <= i < |bytes| :: bytes[i] == PairByte(hex[2 * i], hex[2 * i + 1])
  {
    seq(|hex| / 2, i requires 0 <= i < |hex| / 2 => PairByte(hex[2 * i], hex[2 * i + 1]))
  }

  function BytesOf(hex: string): Option<seq<Byte>> {
    if |hex| % 2 != 0 || !AllNibbles(hex) then None else Some(DecodePairs(hex))
  }

  method HexToBytes(hex: string) returns (r: Option<seq<Byte>>)
    ensures r == BytesOf(hex)
  {
    hide CharNibble, PairByte;
    if |hex| % 2 != 0 || exists i | 0 <= i < |hex| :: CharNibble(hex[i]).None? {
      return None;
    }
    var bytes := new Byte[|hex| / 2];
    for i := 0 to bytes.Length
      invariant forall j | 0 <= j < i :: bytes[j] == PairByte(hex[2 * j], hex[2 * j + 1])
    {
      bytes[i] := PairByte(hex[2 * i], hex[2 * i + 1]);
    }
    assert bytes[..] == DecodePairs(hex);
    r := Some(bytes[..]);
  }

  lemma NibbleRoundTrip(n: Byte)
    requires n < 16
    ensures CharNibble(NibbleChar(n)) == Some(n)
  {
  }

  lemma JoinNibbles(b: Byte)
    ensures b >> 4 < 16 && b & 15 < 16 && ((b >> 4) << 4) | (b & 15) == b
  {
  }

  lemma PairRoundTrip(b: Byte)
    ensures b >> 4 < 16 && b & 15 < 16
    ensures var high, low := HexPair(b)[0], HexPair(b)[1];
      CharNibble(high).Some? && CharNibble(low).Some? && PairByte(high, low) == b
  {
    hide CharNibble, NibbleChar;
    JoinNibbles(b);
    NibbleRoundTrip(b >> 4);
    NibbleRoundTrip(b & 15);
  }

  lemma {:induction false} HexAt(bytes: seq<Byte>, i: nat)
    requires i < |bytes|
    ensures |HexOf(bytes)| == 2 * |bytes|
    ensures HexOf(bytes)[2 * i] == HexPair(bytes[i])[0] && HexOf(bytes)[2 * i + 1] == HexPair(bytes[i])[1]
  {
    hide HexPair;
    HexLength(bytes);
    if i > 0 {
      HexAt(bytes[1..], i - 1);
      assert HexOf(bytes)[2..] == HexOf(bytes[1..]);
    }
  }

  lemma {:induction false} HexLength(bytes: seq<Byte>)
    ensures |HexOf(bytes)| == 2 * |bytes|
  {
    if bytes != [] { HexLength(bytes[1..]); }
  }

  /** Hex decoding inverts hex encoding. */
  lemma HexRoundTrip(bytes: seq<Byte>)
    ensures BytesOf(HexOf(bytes)) == Some(bytes)
  {
    hide CharNibble, HexPair, PairByte, HexOf;
    var hex := HexOf(bytes);
    HexLength(bytes);
    forall i | 0 <= i < |hex| ensures CharNibble(hex[i]).Some? {
      HexAt(bytes, i / 2);
      PairRoundTrip(bytes[i / 2]);
      assert i == 2 * (i / 2) || i == 2 * (i / 2) + 1;
    }
    forall i | 0 <= i < |bytes| ensures PairByte(hex[2 * i], hex[2 * i + 1]) == bytes[i] {
      HexAt(bytes, i);
      PairRoundTrip(bytes[i]);
    }
    assert DecodePairs(hex) == bytes;
  }

  // ----- constant-time comparison

  /** Folding the XOR of every pair with OR leaves zero exactly when the bytes are equal. */
  method TimingSafeEqual(a: seq<Byte>, b: seq<Byte>) returns (equal: bool)
    ensures equal <==> a == b
  {
    if |a| != |b| { return false; }
    var diff: Byte := 0;
    for i := 0 to |a|
      invariant diff == 0 <==> a[..i] == b[..i]
    {
      DifferenceKeeps(diff, a[i], b[i]);
      diff := diff | (a[i] ^ b[i]);
      assert a[..i + 1] == a[..i] + [a[i]] && b[..i + 1] == b[..i] + [b[i]];
    }
    assert a[..|a|] == a && b[..|b|] == b;
    equal := diff == 0;
  }

  lemma DifferenceKeeps(diff: Byte, x: Byte, y: Byte)
    ensures diff | (x ^ y) == 0 <==> diff == 0 && x == y
  {
  }

  // ----- the header

  datatype ParsedSignature = ParsedSignature(timestamp: int, signature: string)

  function Find(s: string, c: char): (i: int)
    ensures -1 <= i < |s|
    ensures i >= 0 ==> s[i] == c && forall j | 0 <= j < i :: s[j] != c
    ensures i < 0 ==> c !in s
  {
    if s == "" then -1
    else if s[0] == c then 0
    else
      var i := Find(s[1..], c);
      if i < 0 then -1 else i + 1
  }

  function Split(s: string, c: char): (parts: seq<string>)
    ensures parts != []
    decreases |s|
  {
    var i := Find(s, c);
    if i < 0 then [s] else [s[..i]] + Split(s[i + 1..], c)
  }

  function AddPart(parts: map<string, string>, pair: string): map<string, string> {
    var i := Find(pair, '=');
    if i < 0 then parts else parts[Trim(pair[..i]) := Trim(pair[i + 1..])]
  }

  function PartsOf(pairs: seq<string>): map<string, string> {
    if pairs == [] then map[] else AddPart(PartsOf(pairs[..|pairs| - 1]), pairs[|pairs| - 1])
  }

  /** `Number(s)` on integer numerals; white space alone reads as zero. */
  function NumberOf(s: string): Option<int> {
    var t := Trim(s);
    var negative := t != "" && t[0] == '-';
    var digits := if negative || (t != "" && t[0] == '+') then t[1..] else t;
    if t == "" then Some(0)
    else if digits == "" || !AllDigits(digits) then None
    else
      var n: int := Value(digits);
      Some(if negative then -n else n)
  }

  /** The text writes n: in digits, with a sign or none. */
  predicate Writes(t: string, digits: string, n: int) {
    && digits != "" && AllDigits(digits)
    && (if t == "-" + digits then n == 0 - Value(digits) else (t == digits || t == "+" + digits) && n == Value(digits))
  }

  /** Timestamps are read from such texts, white space around them aside; white space alone is 0. */
  lemma NumbersExactly(s: string, n: int)
    ensures NumberOf(s) == Some(n) <==> (Trim(s) == "" && n == 0) || exists digits: string :: Writes(Trim(s), digits, n)
  {
    var t := Trim(s);
    if t != "" {
      assert t == [t[0]] + t[1..];
      if NumberOf(s) == Some(n) {
        var digits := if t[0] == '-' || t[0] == '+' then t[1..] else t;
        assert IsDigit(digits[0]);
        assert Writes(t, digits, n);
      }
      if digits: string :| Writes(t, digits, n) {
        assert IsDigit(digits[0]);
        assert ("-" + digits)[1..] == digits && ("+" + digits)[1..] == digits;
      }
    }
  }

  function FromParts(parts: map<string, string>): Option<ParsedSignature> {
    if "t" !in parts || NumberOf(parts["t"]).None? || "v1" !in parts || parts["v1"] == "" then None
    else Some(ParsedSignature(NumberOf(parts["t"]).value, parts["v1"]))
  }

  function Parse(header: string): Option<ParsedSignature> { FromParts(PartsOf(Split(header, ','))) }

  method ParseSignatureHeader(header: string) returns (r: Option<ParsedSignature>)
    ensures r == Parse(header)
  {
    var parts: map<string, string> := map[];
    var pairs := Split(header, ',');
    for i := 0 to |pairs|
      invariant parts == PartsOf(pairs[..i])
    {
      assert pairs[..i + 1][..i] == pairs[..i];
      var index := Find(pairs[i], '=');
      if index == -1 { continue; }
      parts := parts[Trim(pairs[i][..index]) := Trim(pairs[i][index + 1..])];
    }
    assert pairs[..|pairs|] == pairs;
    r := FromParts(parts);
  }

  // ----- signing and verifying

  function Material(timestamp: int, body: string): string { Integer(timestamp) + "." + body }

  function SignPayload(body: string, secret: string, timestamp: int, mac: Mac): string {
    "t=" + Integer(timestamp) + ",v1=" + HexOf(mac(secret, Material(timestamp, body)))
  }

  predicate InTolerance(timestamp: int, tolerance: int, nowMs: nat) {
    tolerance <= 0 || Abs(nowMs / 1000 - timestamp) <= tolerance
  }

  predicate Verifies(body: string, header: Option<string>, secret: string, tolerance: int, nowMs: nat, mac: Mac) {
    header.Some? && header.value != "" && Parse(header.value).Some? &&
    var parsed := Parse(header.value).value;
    && InTolerance(parsed.timestamp, tolerance, nowMs)
    && BytesOf(parsed.signature) == Some(mac(secret, Material(parsed.timestamp, body)))
  }

  method VerifyWebhookSignature(
      body: string, header: Option<string>, secret: string, tolerance: int, nowMs: nat, mac: Mac) returns (valid: bool)
    ensures valid <==> Verifies(body, header, secret, tolerance, nowMs, mac)
  {
    hide Parse, BytesOf;
    if header.None? || header.value == "" { return false; }
    var parsed := ParseSignatureHeader(header.value);
    if parsed.None? { return false; }
    if tolerance > 0 && Abs(nowMs / 1000 - parsed.value.timestamp) > tolerance { return false; }
    var given := HexToBytes(parsed.value.signature);
    if given.None? { return false; }
    var expected := mac(secret, Material(parsed.value.timestamp, body));
    valid := TimingSafeEqual(expected, given.value);
  }

  // ----- the header parses back

  predicate Solid(s: string) { forall c | c in s :: !IsSpace(c) && c != ',' }

  lemma IntegerSolid(n: int)
    ensures Integer(n) != "" && Solid(Integer(n)) && '.' !in Integer(n)
  {
    var digits := Decimal(if n < 0 then -n else n);
    forall c | c in Integer(n) ensures !IsSpace(c) && c != ',' && c != '.' {
      assert c == '-' || c in digits;
    }
  }

  lemma NibbleSolid(n: Byte)
    requires n < 16
    ensures !IsSpace(NibbleChar(n)) && NibbleChar(n) != ','
  {
  }

  lemma {:induction false} HexSolid(bytes: seq<Byte>)
    ensures Solid(HexOf(bytes))
  {
    hide NibbleChar, IsSpace;
    if bytes != [] {
      HexSolid(bytes[1..]);
      JoinNibbles(bytes[0]);
      NibbleSolid(bytes[0] >> 4);
      NibbleSolid(bytes[0] & 15);
    }
  }

  lemma TrimSolid(s: string)
    requires Solid(s)
    ensures Trim(s) == s
  {
    if s != "" {
      assert s[0] in s && s[|s| - 1] in s;
    }
    TrimNothing(s);
  }

  lemma NumberOfInteger(n: int)
    ensures NumberOf(Integer(n)) == Some(n)
  {
    IntegerSolid(n);
    TrimSolid(Integer(n));
    if n < 0 {
      ValueOfDecimal(-n);
      assert Integer(n)[1..] == Decimal(-n);
    } else {
      ValueOfDecimal(n);
      var s := Decimal(n);
      assert IsDigit(s[0]);
    }
  }

  lemma FindAfter(head: string, c: char, tail: string)
    requires c !in head
    ensures Find(head + [c] + tail, c) == |head|
  {
    var s := head + [c] + tail;
    assert s[|head|] == c;
    forall j | 0 <= j < |head| ensures s[j] != c { assert s[j] == head[j] && head[j] in head; }
  }

  lemma SplitPair(a: string, b: string)
    requires ',' !in a && ',' !in b
    ensures Split(a + "," + b, ',') == [a, b]
  {
    var s := a + "," + b;
    FindAfter(a, ',', b);
    assert s[..|a|] == a && s[|a| + 1..] == b;
    assert Split(b, ',') == [b];
  }

  lemma PartOf(parts: map<string, string>, key: string, value: string)
    requires Solid(key) && Solid(value) && '=' !in key
    ensures AddPart(parts, key + "=" + value) == parts[key := value]
  {
    var pair := key + "=" + value;
    FindAfter(key, '=', value);
    assert pair[..|key|] == key && pair[|key| + 1..] == value;
    TrimSolid(key);
    TrimSolid(value);
  }

  lemma HeaderParses(timestamp: int, bytes: seq<Byte>)
    requires bytes != []
    ensures Parse("t=" + Integer(timestamp) + ",v1=" + HexOf(bytes)) == Some(ParsedSignature(timestamp, HexOf(bytes)))
  {
    hide Split, AddPart, NumberOf, HexOf, Integer;
    var t, hex := Integer(timestamp), HexOf(bytes);
    IntegerSolid(timestamp);
    HexSolid(bytes);
    HexLength(bytes);
    var first, second := "t" + "=" + t, "v1" + "=" + hex;
    assert "t=" + t + ",v1=" + hex == first + "," + second;
    SolidPair("t", t);
    SolidPair("v1", hex);
    SplitPair(first, second);
    PartOf(map[], "t", t);
    PartOf(map["t" := t], "v1", hex);
    assert [first, second][..1] == [first] && [first][..0] == [];
    assert PartsOf([first]) == map["t" := t];
    assert PartsOf([first, second]) == map["t" := t]["v1" := hex];
    NumberOfInteger(timestamp);
  }

  lemma SolidPair(key: string, value: string)
    requires key == "t" || key == "v1"
    requires Solid(value)
    ensures Solid(key) && '=' !in key && ',' !in key + "=" + value
  {
  }

  /**
   * For any MAC, the SDK accepts the sender's header for a body and a secret exactly when the delivery is
   * within tolerance and the two MACs coincide; the sender's own body and secret always make them coincide.
   */
  lemma VerifierAcceptsExactly(
      body: string, secret: string, timestamp: int, mac: Mac,
      received: string, held: string, tolerance: int, nowMs: nat)
    requires |mac(secret, Integer(timestamp) + "." + body)| == 32
    ensures Verifies(received, Some(SignPayload(body, secret, timestamp, mac)), held, tolerance, nowMs, mac)
      <==> (tolerance <= 0 || -tolerance <= nowMs / 1000 - timestamp <= tolerance)
           && mac(held, Integer(timestamp) + "." + received) == mac(secret, Integer(timestamp) + "." + body)
  {
    hide Parse, HexOf, BytesOf;
    var bytes := mac(secret, Material(timestamp, body));
    HeaderParses(timestamp, bytes);
    HexRoundTrip(bytes);
  }

  /** The signed material determines the timestamp and the body, so neither can be swapped under a signature. */
  lemma MaterialIsInjective(t: int, body: string, u: int, other: string)
    requires Material(t, body) == Material(u, other)
    ensures t == u && body == other
  {
    IntegerSolid(t);
    IntegerSolid(u);
    FindAfter(Integer(t), '.', body);
    FindAfter(Integer(u), '.', other);
    var s := Material(t, body);
    assert s[..|Integer(t)|] == Integer(t) && s[..|Integer(u)|] == Integer(u);
    assert s[|Integer(t)| + 1..] == body && s[|Integer(u)| + 1..] == other;
    NumberOfInteger(t);
    NumberOfInteger(u);
  }

  /** Timestamps are written in decimal, most significant digit first, negative ones with a minus sign. */
  lemma {:induction false} IntegerText(n: nat, d: nat)
    requires d < 10
    ensures Integer(d) == ["0123456789"[d]]
    ensures n > 0 ==> Integer(10 * n + d) == Integer(n) + ["0123456789"[d]]
    ensures n > 0 ==> Integer(-(n as int)) == "-" + Integer(n)
  {
    assert (10 * n + d) / 10 == n && (10 * n + d) % 10 == d;
  }

  /** The sender writes lower-case hex, two digits a byte, the high half first. */
  lemma HexText(bytes: seq<Byte>, i: nat)
    requires i < |bytes|
    ensures |HexOf(bytes)| == 2 * |bytes|
    ensures bytes[i] as int / 16 < 16
    ensures HexOf(bytes)[2 * i] == "0123456789abcdef"[bytes[i] as int / 16]
    ensures HexOf(bytes)[2 * i + 1] == "0123456789abcdef"[bytes[i] as int % 16]
  {
    hide HexOf;
    HexAt(bytes, i);
    HalvesAre(bytes[i]);
    NibbleText(bytes[i] >> 4);
    NibbleText(bytes[i] & 15);
  }

  lemma HalvesAre(b: Byte)
    ensures (b >> 4) as int == b as int / 16 && (b & 15) as int == b as int % 16 && b as int / 16 < 16
  {
    assert b >> 4 == b / 16 && b & 15 == b % 16;
  }

  lemma NibbleText(n: Byte)
    requires n < 16
    ensures NibbleChar(n) == "0123456789abcdef"[n as int]
  {
  }

  /** The receiver decodes exactly the even-length strings of hex digits, in either letter case alike. */
  lemma HexOfEitherCase(s: string)
    ensures BytesOf(s).Some? <==> |s| % 2 == 0 && AllHex(s)
    ensures BytesOf(Upper(s)) == BytesOf(s) == BytesOf(Lower(s))
  {
    hide CharNibble, PairByte, IsHex;
    forall i | 0 <= i < |s|
      ensures CharNibble(Upper(s)[i]) == CharNibble(s[i]) == CharNibble(Lower(s)[i])
      ensures CharNibble(s[i]).Some? <==> IsHex(s[i])
    {
      NibbleOfEitherCase(s[i]);
    }
    if |s| % 2 == 0 && AllNibbles(s) {
      SameBytes(s, Upper(s));
      SameBytes(s, Lower(s));
    }
  }

  lemma SameBytes(s: string, t: string)
    requires |s| == |t| && |s| % 2 == 0 && AllNibbles(s)
    requires forall i | 0 <= i < |s| :: CharNibble(s[i]) == CharNibble(t[i])
    ensures BytesOf(s) == BytesOf(t)
  {
    hide CharNibble;
    forall i | 0 <= i < |t| ensures CharNibble(t[i]).Some? { assert CharNibble(s[i]) == CharNibble(t[i]); }
    var a, b := DecodePairs(s), DecodePairs(t);
    forall i | 0 <= i < |a| ensures a[i] == b[i] {
      assert CharNibble(s[2 * i]) == CharNibble(t[2 * i]) && CharNibble(s[2 * i + 1]) == CharNibble(t[2 * i + 1]);
    }
    assert a == b;
  }

  lemma NibbleOfEitherCase(c: char)
    ensures CharNibble(c).Some? <==> IsHex(c)
    ensures 'a' <= c <= 'z' ==> CharNibble(c - 'a' + 'A') == CharNibble(c)
    ensures 'A' <= c <= 'Z' ==> CharNibble(c - 'A' + 'a') == CharNibble(c)
  {
  }

  // ----- the fields of a header

  /** A pair is cut at its first equals sign and trimmed on both sides; one without an equals sign is ignored. */
  lemma PairText(parts: map<string, string>, name: string, value: string)
    requires '=' !in name
    ensures AddPart(parts, name + "=" + value) == parts[Trim(name) := Trim(value)]
    ensures AddPart(parts, name) == parts
  {
    FindAfter(name, '=', value);
    var pair := name + "=" + value;
    assert pair[..|name|] == name && pair[|name| + 1..] == value;
  }

  /** Pairs are cut at every comma. */
  lemma PairsText(first: string, later: string)
    requires ',' !in first
    ensures Split(first + "," + later, ',') == [first] + Split(later, ',') && Split(first, ',') == [first]
  {
    FindAfter(first, ',', later);
    var s := first + "," + later;
    assert s[..|first|] == first && s[|first| + 1..] == later;
  }

  /** The last pair of a name wins, and a header needs a finite timestamp and a digest. */
  lemma LastPairWins(pairs: seq<string>, name: string, value: string)
    requires '=' !in name
    ensures PartsOf(pairs + [name + "=" + value]) == PartsOf(pairs)[Trim(name) := Trim(value)]
    ensures var parts := PartsOf(pairs);
      FromParts(parts).Some? <==> "t" in parts && NumberOf(parts["t"]).Some? && "v1" in parts && parts["v1"] != ""
  {
    PairText(PartsOf(pairs), name, value);
    assert (pairs + [name + "=" + value])[..|pairs|] == pairs;
  }
}
