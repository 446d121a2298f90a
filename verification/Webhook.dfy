/**
 * Webhook verification. A string is a sequence of runes; HMAC-SHA256, RFC 3339 dates and the clock come from outside.
 * Times are nanoseconds since the epoch.
 */
module Webhook {
  import opened Options

  datatype Error = InvalidSignature | MissingTimestamp | InvalidTimestamp | TimestampExpired

  datatype Parsed = Time(at: int) | Bad(error: Error)

  /** `hmacHex(secret, message)` is the digest in hexadecimal. */
  datatype Library = Library(hmacHex: (string, string) -> string, rfc3339: string -> Option<int>, isSpace: char -> bool)

  predicate HexDigit(c: char) {
    '0' <= c <= '9' || 'a' <= c <= 'f'
  }

  predicate Hex(s: string) {
    |s| == 64 && forall i | 0 <= i < |s| :: HexDigit(s[i])
  }

  /**
   * Digests are 64 hexadecimal digits and graphic characters are not white space. No timestamp goes on, after a dot, as
   * another one: a date ends with its zone, and a fraction of a second stands before that.
   */
  ghost predicate Sound(lib: Library) {
    && (forall secret, message :: Hex(lib.hmacHex(secret, message)))
    && (forall c | '!' <= c <= '~' :: !lib.isSpace(c))
    && (forall a, b :: IsTimestamp(lib, a) && lib.rfc3339(b).Some? ==> !(a + "." <= b))
  }

  /** A trimmed string the verifier reads as a time. */
  predicate IsTimestamp(lib: Library, s: string) {
    ParseInt64(s).Some? || lib.rfc3339(s).Some?
  }

  const MAX_INT64: int := 0x7fff_ffff_ffff_ffff
  const MIN_INT64: int := -0x8000_0000_0000_0000
  const SECOND: int := 1_000_000_000
  const MILLISECOND: int := 1_000_000
  const DEFAULT_TOLERANCE: int := 300 * SECOND

  // ---------------------------------------------------------------------------------------------------------
  // Strings
  // ---------------------------------------------------------------------------------------------------------

  function TrimLeft(lib: Library, s: string): string {
    if s != "" && lib.isSpace(s[0]) then TrimLeft(lib, s[1..]) else s
  }

  function TrimRight(lib: Library, s: string): string {
    if s != "" && lib.isSpace(s[|s| - 1]) then TrimRight(lib, s[..|s| - 1]) else s
  }

  function TrimSpace(lib: Library, s: string): string {
    TrimRight(lib, TrimLeft(lib, s))
  }

  predicate Contains(s: string, sub: string) {
    exists i | 0 <= i <= |s| :: sub <= s[i..]
  }

  /** The parts between commas; `current` is what has been read of the first. */
  function SplitCommas(s: string, current: string): seq<string> {
    if s == "" then [current]
    else if s[0] == ',' then [current] + SplitCommas(s[1..], "")
    else SplitCommas(s[1..], current + [s[0]])
  }

  function TrimPrefix(s: string, prefix: string): string {
    if prefix <= s then s[|prefix|..] else s
  }

  function Digits(s: string): Option<nat> {
    if s == "" then None
    else if !('0' <= s[|s| - 1] <= '9') then None
    else
      var d := s[|s| - 1] as int - '0' as int;
      if |s| == 1 then Some(d)
      else
        var rest := Digits(s[..|s| - 1]);
        if rest.None? then None else Some(10 * rest.value + d)
  }

  /** strconv.ParseInt(s, 10, 64): a sign and digits, within the range of an int64. */
  function ParseInt64(s: string): Option<int> {
    var signed := s != "" && (s[0] == '-' || s[0] == '+');
    var digits := Digits(if signed then s[1..] else s);
    if digits.None? then None
    else
      var magnitude: int := digits.value;
      var n := if signed && s[0] == '-' then -magnitude else magnitude;
      if MIN_INT64 <= n <= MAX_INT64 then Some(n) else None
  }

  // ---------------------------------------------------------------------------------------------------------
  // Signatures and timestamps
  // ---------------------------------------------------------------------------------------------------------

  function ComputeWebhookSignature(lib: Library, secret: string, timestamp: string, payload: string): string {
    "v1=" + lib.hmacHex(secret, timestamp + "." + payload)
  }

  /** Seconds up to 10^11, milliseconds above. */
  function ReadNumber(n: int): int {
    if n > 100_000_000_000 then n * MILLISECOND else n * SECOND
  }

  /** A number or an RFC 3339 date. */
  function ParseWebhookTimestamp(lib: Library, timestamp: string): Parsed {
    var clean := TrimSpace(lib, timestamp);
    if clean == "" then Bad(MissingTimestamp)
    else
      var sec := ParseInt64(clean);
      if sec.Some? then Time(ReadNumber(sec.value))
      else
        var date := lib.rfc3339(clean);
        if date.Some? then Time(date.value) else Bad(InvalidTimestamp)
  }

  predicate Tagged(sig: string) {
    Contains(sig, "t=") && Contains(sig, "v1=")
  }

  function Parts(lib: Library, sig: string): seq<string> {
    var parts := SplitCommas(sig, "");
    seq(|parts|, i requires 0 <= i < |parts| => TrimSpace(lib, parts[i]))
  }

  /** The value of the first `t=` part that has one. */
  function FirstStamp(parts: seq<string>): string {
    if parts == [] then ""
    else if "t=" <= parts[0] && parts[0] != "t=" then parts[0][2..]
    else FirstStamp(parts[1..])
  }

  /** The value of the last `v1=` part. */
  function LastSignature(parts: seq<string>): string {
    if parts == [] then ""
    else if "v1=" <= parts[|parts| - 1] then parts[|parts| - 1][3..]
    else LastSignature(parts[..|parts| - 1])
  }

  /** The timestamp that counts: the header's, or else the one in a tagged signature. */
  function StampOf(lib: Library, sig: string, header: string): string {
    if header != "" || !Tagged(sig) then header else FirstStamp(Parts(lib, sig))
  }

  /** The signature that counts: a tagged one's last `v1=` part if that is not empty, or else the whole. */
  function SignatureOf(lib: Library, sig: string): string {
    if Tagged(sig) && LastSignature(Parts(lib, sig)) != "" then "v1=" + LastSignature(Parts(lib, sig)) else sig
  }

  lemma {:induction false} StampSoFar(before: seq<string>, part: string)
    ensures FirstStamp(before + [part])
            == if FirstStamp(before) != "" then FirstStamp(before) else if "t=" <= part then part[2..] else ""
  {
    if before == [] {
      assert [part][1..] == [];
      assert "t=" <= part && part[2..] == "" ==> part == "t=";
    } else {
      assert (before + [part])[1..] == before[1..] + [part];
      StampSoFar(before[1..], part);
    }
  }

  // ---------------------------------------------------------------------------------------------------------
  // What is read from a header
  // ---------------------------------------------------------------------------------------------------------

  predicate AllSpace(lib: Library, s: string) {
    forall i | 0 <= i < |s| :: lib.isSpace(s[i])
  }

  predicate Solid(lib: Library, s: string) {
    s == "" || (!lib.isSpace(s[0]) && !lib.isSpace(s[|s| - 1]))
  }

  lemma {:induction false} TrimmedLeftOff(lib: Library, s: string) returns (a: string)
    ensures s == a + TrimLeft(lib, s) && AllSpace(lib, a)
    ensures TrimLeft(lib, s) != "" ==> !lib.isSpace(TrimLeft(lib, s)[0])
  {
    a := "";
    if s != "" && lib.isSpace(s[0]) {
      var rest := TrimmedLeftOff(lib, s[1..]);
      a := [s[0]] + rest;
      assert s == [s[0]] + s[1..];
    }
  }

  lemma {:induction false} TrimmedRightOff(lib: Library, s: string) returns (b: string)
    ensures s == TrimRight(lib, s) + b && AllSpace(lib, b)
    ensures TrimRight(lib, s) != "" ==> !lib.isSpace(TrimRight(lib, s)[|TrimRight(lib, s)| - 1])
  {
    b := "";
    if s != "" && lib.isSpace(s[|s| - 1]) {
      var rest := TrimmedRightOff(lib, s[..|s| - 1]);
      b := rest + [s[|s| - 1]];
      assert s == s[..|s| - 1] + [s[|s| - 1]];
    }
  }

  /** Trimming takes white space off both ends, and all of it. */
  lemma TrimmedExactly(lib: Library, s: string) returns (a: string, b: string)
    ensures s == a + TrimSpace(lib, s) + b && AllSpace(lib, a) && AllSpace(lib, b) && Solid(lib, TrimSpace(lib, s))
  {
    a := TrimmedLeftOff(lib, s);
    b := TrimmedRightOff(lib, TrimLeft(lib, s));
    var t := TrimSpace(lib, s);
    assert t != "" ==> TrimLeft(lib, s)[0] == t[0];
  }

  function JoinCommas(parts: seq<string>): string {
    if parts == [] then "" else if |parts| == 1 then parts[0] else parts[0] + "," + JoinCommas(parts[1..])
  }

  /** Splitting undoes joining. */
  lemma {:induction false} SplitJoined(parts: seq<string>)
    requires parts != [] && forall i | 0 <= i < |parts| :: ',' !in parts[i]
    ensures SplitCommas(JoinCommas(parts), "") == parts
  {
    var part := parts[0];
    assert "" + part == part;
    if |parts| == 1 {
      SplitPlain(part, "", "");
      assert part + "" == part;
    } else {
      var rest := "," + JoinCommas(parts[1..]);
      assert JoinCommas(parts) == part + rest;
      SplitPlain(part, rest, "");
      assert rest[1..] == JoinCommas(parts[1..]);
      SplitJoined(parts[1..]);
    }
  }

  predicate HasStamp(part: string) {
    "t=" <= part && |part| > 2
  }

  lemma {:induction false} FirstStampIs(parts: seq<string>, i: nat)
    requires i <= |parts| && (i < |parts| ==> HasStamp(parts[i]))
    requires forall j | 0 <= j < i :: !HasStamp(parts[j])
    ensures FirstStamp(parts) == if i < |parts| then parts[i][2..] else ""
  {
    if i > 0 {
      assert !HasStamp(parts[0]);
      assert "t=" <= parts[0] ==> parts[0] == "t=";
      FirstStampIs(parts[1..], i - 1);
    }
  }

  lemma {:induction false} LastSignatureIs(parts: seq<string>, i: int)
    requires -1 <= i < |parts| && (i >= 0 ==> "v1=" <= parts[i])
    requires forall j | i < j < |parts| :: !("v1=" <= parts[j])
    ensures LastSignature(parts) == if i >= 0 then parts[i][3..] else ""
  {
    if i < |parts| - 1 {
      LastSignatureIs(parts[..|parts| - 1], i);
    }
  }

  /**
   * The timestamp that counts is the header's, if there is one, and otherwise, in a signature that holds both tags, the
   * first part's that has one (`i`, or none); the signature that counts is then the last `v1=` part (`k`, or none), if
   * it is not empty, and otherwise the whole header. Parts stand between commas and are trimmed.
   */
  lemma TaggedReading(lib: Library, parts: seq<string>, header: string, i: nat, k: int)
    requires parts != [] && forall j | 0 <= j < |parts| :: ',' !in parts[j]
    requires i <= |parts| && (i < |parts| ==> HasStamp(TrimSpace(lib, parts[i])))
    requires forall j | 0 <= j < i :: !HasStamp(TrimSpace(lib, parts[j]))
    requires -1 <= k < |parts| && (k >= 0 ==> "v1=" <= TrimSpace(lib, parts[k]))
    requires forall j | k < j < |parts| :: !("v1=" <= TrimSpace(lib, parts[j]))
    ensures var sig := JoinCommas(parts);
            var tagged := Contains(sig, "t=") && Contains(sig, "v1=");
            && StampOf(lib, sig, header)
               == (if header != "" then header
                   else if tagged && i < |parts| then TrimSpace(lib, parts[i])[2..] else "")
            && SignatureOf(lib, sig)
               == (if tagged && k >= 0 && |TrimSpace(lib, parts[k])| > 3 then TrimSpace(lib, parts[k]) else sig)
  {
    hide TrimSpace, Contains, SplitCommas, FirstStamp, LastSignature;
    var sig := JoinCommas(parts);
    SplitJoined(parts);
    var trimmed := Parts(lib, sig);
    FirstStampIs(trimmed, i);
    LastSignatureIs(trimmed, k);
    assert k >= 0 ==> "v1=" + trimmed[k][3..] == trimmed[k];
  }

  /** One pass over the parts, keeping the first timestamp and the last signature. */
  method ParseTaggedSignature(lib: Library, sig: string, currentTS: string) returns (cleanSig: string, ts: string)
    ensures cleanSig == SignatureOf(lib, sig)
    ensures ts == StampOf(lib, sig, currentTS)
  {
    cleanSig, ts := sig, currentTS;
    if Contains(sig, "t=") && Contains(sig, "v1=") {
      var parts := SplitCommas(sig, "");
      ghost var trimmed := Parts(lib, sig);
      var sigV1 := "";
      for i := 0 to |parts|
        invariant sigV1 == LastSignature(trimmed[..i])
        invariant ts == if currentTS != "" then currentTS else FirstStamp(trimmed[..i])
      {
        var part := TrimSpace(lib, parts[i]);
        assert trimmed[..i + 1] == trimmed[..i] + [part];
        StampSoFar(trimmed[..i], part);
        assert trimmed[..i + 1][..i] == trimmed[..i];
        assert "v1=" <= part ==> part[0] == 'v';
        assert "t=" <= part ==> part[0] == 't';
        if "t=" <= part && ts == "" {
          ts := TrimPrefix(part, "t=");
        } else if "v1=" <= part {
          sigV1 := TrimPrefix(part, "v1=");
        }
      }
      assert trimmed[..|parts|] == trimmed;
      if sigV1 != "" {
        cleanSig := "v1=" + sigV1;
      }
    }
  }

  // ---------------------------------------------------------------------------------------------------------
  // Verification
  // ---------------------------------------------------------------------------------------------------------

  /** time.Since: the difference, or the end of the int64 range it lies beyond. */
  function Since(now: int, at: int): (d: int)
    ensures MIN_INT64 <= d <= MAX_INT64
  {
    if now - at > MAX_INT64 then MAX_INT64 else if now - at < MIN_INT64 then MIN_INT64 else now - at
  }

  /** Negation of an int64, which leaves the smallest one as it is. */
  function Negated(d: int): (r: int)
    requires MIN_INT64 <= d <= MAX_INT64
    ensures MIN_INT64 <= r <= MAX_INT64
  {
    if d == MIN_INT64 then MIN_INT64 else -d
  }

  function Distance(a: int, b: int): nat {
    if a <= b then b - a else a - b
  }

  /**
   * What the freshness check lets through: a timestamp within the tolerance, one so far ahead that the difference
   * cannot be negated, and, with the largest tolerance, anything in the past.
   */
  predicate Fresh(now: int, at: int, tolerance: int) {
    || Distance(now, at) <= tolerance
    || at - now >= -MIN_INT64
    || (tolerance == MAX_INT64 && at <= now)
  }

  function ToleranceOf(tolerance: int): int {
    if tolerance <= 0 then DEFAULT_TOLERANCE else tolerance
  }

  /** The outcome of Verify; `None` means accepted. */
  function Outcome(lib: Library, secret: string, tolerance: int, now: int,
                   timestamp: string, signature: string, payload: string): Option<Error> {
    var sig := TrimSpace(lib, signature);
    if sig == "" || secret == "" then Some(InvalidSignature)
    else
      var stamp := StampOf(lib, sig, TrimSpace(lib, timestamp));
      if stamp == "" then Some(MissingTimestamp)
      else
        var at := ParseWebhookTimestamp(lib, stamp);
        if at.Bad? then Some(at.error)
        else if !Fresh(now, at.at, ToleranceOf(tolerance)) then Some(TimestampExpired)
        else
          var digest := lib.hmacHex(secret, stamp + "." + payload);
          if SignatureOf(lib, sig) in {"v1=" + digest, "sha256=" + digest} then None else Some(InvalidSignature)
  }

  class WebhookVerifier {
    var secret: string
    var tolerance: int

    constructor (secret: string, tolerance: int)
      requires tolerance <= MAX_INT64
      ensures this.secret == secret && this.tolerance == if tolerance > 0 then tolerance else 300_000_000_000
      ensures 0 < this.tolerance <= MAX_INT64
    {
      this.secret := secret;
      this.tolerance := if tolerance <= 0 then DEFAULT_TOLERANCE else tolerance;
    }

    method Verify(lib: Library, now: int, timestamp: string, signature: string, payload: string)
      returns (r: Option<Error>)
      requires MIN_INT64 <= tolerance <= MAX_INT64
      ensures r == Outcome(lib, secret, tolerance, now, timestamp, signature, payload)
    {
      hide SignatureOf, StampOf, TrimSpace;
      var cleanSig := TrimSpace(lib, signature);
      if cleanSig == "" || secret == "" {
        return Some(InvalidSignature);
      }
      ghost var sig := cleanSig;
      var cleanTS;
      cleanSig, cleanTS := ParseTaggedSignature(lib, cleanSig, TrimSpace(lib, timestamp));
      if cleanTS == "" {
        return Some(MissingTimestamp);
      }
      var ts := ParseWebhookTimestamp(lib, cleanTS);
      if ts.Bad? {
        return Some(ts.error);
      }
      var limit := tolerance;
      if limit <= 0 {
        limit := DEFAULT_TOLERANCE;
      }
      var diff := Since(now, ts.at);
      if diff < 0 {
        diff := Negated(diff);
      }
      assert diff > limit <==> !Fresh(now, ts.at, limit);
      if diff > limit {
        return Some(TimestampExpired);
      }
      var expectedV1 := ComputeWebhookSignature(lib, secret, cleanTS, payload);
      if expectedV1 == cleanSig {
        return None;
      }
      var v1Hex := TrimPrefix(expectedV1, "v1=");
      assert v1Hex == lib.hmacHex(secret, cleanTS + "." + payload);
      if VerifyLegacyWebhookSignature(cleanSig, v1Hex) {
        return None;
      }
      return Some(InvalidSignature);
    }
  }

  predicate VerifyLegacyWebhookSignature(cleanSig: string, v1Hex: string) {
    "sha256=" + v1Hex == cleanSig
  }

  // ---------------------------------------------------------------------------------------------------------
  // The three formats
  // ---------------------------------------------------------------------------------------------------------

  /** Digits, possibly after a sign. */
  predicate Decimal(s: string) {
    && s != "" && (s[0] in {'-', '+'} || '0' <= s[0] <= '9')
    && forall i | 1 <= i < |s| :: '0' <= s[i] <= '9'
  }

  lemma {:induction false} DigitsOnly(s: string)
    requires Digits(s).Some?
    ensures s != "" && forall i | 0 <= i < |s| :: '0' <= s[i] <= '9'
  {
    if |s| > 1 {
      var front := s[..|s| - 1];
      DigitsOnly(front);
      assert forall i | 0 <= i < |front| :: s[i] == front[i];
    }
  }

  lemma ParsedIsDecimal(s: string)
    requires ParseInt64(s).Some?
    ensures Decimal(s)
  {
    var digits := if s[0] == '-' || s[0] == '+' then s[1..] else s;
    DigitsOnly(digits);
    assert digits == s[1..] ==> forall i | 1 <= i < |s| :: s[i] == digits[i - 1];
  }

  predicate Graphic(s: string) {
    forall i | 0 <= i < |s| :: '!' <= s[i] <= '~'
  }

  lemma NothingTrimmed(lib: Library, s: string)
    requires Sound(lib) && Graphic(s)
    ensures TrimSpace(lib, s) == s
  {
  }

  lemma {:induction false} SplitPlain(s: string, rest: string, current: string)
    requires ',' !in s
    ensures SplitCommas(s + rest, current) == SplitCommas(rest, current + s)
    decreases |s|
  {
    if s == "" {
      assert s + rest == rest && current + s == current;
    } else {
      assert (s + rest)[1..] == s[1..] + rest;
      SplitPlain(s[1..], rest, current + [s[0]]);
      assert current + [s[0]] + s[1..] == current + s;
    }
  }

  lemma SplitTwo(a: string, b: string)
    requires ',' !in a && ',' !in b
    ensures SplitCommas(a + "," + b, "") == [a, b]
  {
    assert a + "," + b == a + ("," + b);
    SplitPlain(a, "," + b, "");
    assert "" + a == a && ("," + b)[1..] == b;
    SplitPlain(b, "", "");
    assert b + "" == b && "" + b == b;
  }

  /** An equals sign after anything but a `t`, and none after it, makes no tag. */
  lemma Untagged(prefix: string, hex: string)
    requires Hex(hex) && |prefix| >= 2 && prefix[|prefix| - 1] == '=' && prefix[|prefix| - 2] != 't'
    requires '=' !in prefix[..|prefix| - 1]
    ensures !Contains(prefix + hex, "t=")
  {
    var s := prefix + hex;
    assert forall i | 0 <= i < |hex| :: HexDigit(hex[i]);
    assert forall i | 0 <= i < |prefix| - 1 :: prefix[i] == prefix[..|prefix| - 1][i];
    assert forall i | 0 <= i < |s| :: s[i] == '=' ==> i == |prefix| - 1;
    forall i | 0 <= i <= |s| ensures !("t=" <= s[i..]) {
      if i + 1 < |s| {
        assert s[i..][1] == s[i + 1] && s[i..][0] == s[i];
      }
    }
  }

  /** What a header can give as a timestamp: not empty, trimmed, and with a comma only outside a tagged signature. */
  predicate Stampable(lib: Library, stamp: string, format: Format) {
    stamp != "" && TrimSpace(lib, stamp) == stamp && (',' in stamp ==> format.Plain? || format.Legacy?)
  }

  lemma TaggedForm(lib: Library, stamp: string, hex: string)
    requires Sound(lib) && stamp != "" && TrimSpace(lib, stamp) == stamp && ',' !in stamp && Hex(hex)
    ensures var sig := "t=" + stamp + ",v1=" + hex;
            && Tagged(sig) && Parts(lib, sig) == ["t=" + stamp, "v1=" + hex]
            && (forall header :: StampOf(lib, sig, header) == if header == "" then stamp else header)
            && SignatureOf(lib, sig) == "v1=" + hex
            && TrimSpace(lib, sig) == sig
  {
    hide TrimSpace, SplitCommas;
    var a, b := "t=" + stamp, "v1=" + hex;
    var sig := "t=" + stamp + ",v1=" + hex;
    assert sig == a + "," + b;
    assert "t=" <= sig[0..];
    assert "v1=" <= sig[|a| + 1..];
    HexHasNoComma(hex);
    SplitTwo(a, b);
    SolidForms(lib, stamp, hex);
    var parts := Parts(lib, sig);
    assert parts == [a, b];
    assert parts[0][2..] == stamp && parts[1][3..] == hex;
  }

  lemma HexHasNoComma(hex: string)
    requires Hex(hex)
    ensures ',' !in hex && ',' !in "v1=" + hex
  {
    assert forall i | 0 <= i < |hex| :: HexDigit(hex[i]);
  }

  /** Nothing is trimmed off a string with solid ends. */
  lemma SolidStays(lib: Library, s: string)
    requires Solid(lib, s)
    ensures TrimSpace(lib, s) == s
  {
  }

  lemma SolidForms(lib: Library, stamp: string, hex: string)
    requires Sound(lib) && stamp != "" && TrimSpace(lib, stamp) == stamp && Hex(hex)
    ensures TrimSpace(lib, "t=" + stamp) == "t=" + stamp && TrimSpace(lib, "v1=" + hex) == "v1=" + hex
    ensures TrimSpace(lib, "t=" + stamp + ",v1=" + hex) == "t=" + stamp + ",v1=" + hex
  {
    hide TrimSpace;
    var a, b := TrimmedExactly(lib, stamp);
    assert HexDigit(hex[63]);
    assert !lib.isSpace('t') && !lib.isSpace('v') && !lib.isSpace(hex[63]);
    SolidStays(lib, "t=" + stamp);
    SolidStays(lib, "v1=" + hex);
    SolidStays(lib, "t=" + stamp + ",v1=" + hex);
  }

  /** The signature a format carries, whatever the header says. */
  lemma PlainForms(lib: Library, header: string, hex: string)
    requires Sound(lib) && Hex(hex)
    ensures forall sig | sig in {"v1=" + hex, "sha256=" + hex} ::
              StampOf(lib, sig, header) == header && SignatureOf(lib, sig) == sig && TrimSpace(lib, sig) == sig
  {
    Untagged("v1=", hex);
    Untagged("sha256=", hex);
    GraphicForms(hex);
    NothingTrimmed(lib, "v1=" + hex);
    NothingTrimmed(lib, "sha256=" + hex);
  }

  lemma GraphicForms(hex: string)
    requires Hex(hex)
    ensures Graphic("v1=" + hex) && Graphic("sha256=" + hex)
  {
    assert forall i | 0 <= i < |hex| :: HexDigit(hex[i]);
  }

  /** The formats of one signature: plain, legacy, and tagged with the header's timestamp left out or given. */
  datatype Format = Plain | Legacy | TaggedOnly | TaggedAndHeader

  function HeaderIn(format: Format, stamp: string): string {
    if format.TaggedOnly? then "" else stamp
  }

  function SignatureIn(format: Format, stamp: string, digest: string): string {
    match format
    case Plain => "v1=" + digest
    case Legacy => "sha256=" + digest
    case _ => "t=" + stamp + ",v1=" + digest
  }

  lemma FormatRead(lib: Library, stamp: string, digest: string, format: Format)
    requires Sound(lib) && Stampable(lib, stamp, format) && Hex(digest)
    ensures var sig := SignatureIn(format, stamp, digest);
            && sig != "" && TrimSpace(lib, sig) == sig
            && StampOf(lib, sig, HeaderIn(format, stamp)) == stamp
            && SignatureOf(lib, sig) == (if format.Legacy? then "sha256=" + digest else "v1=" + digest)
  {
    hide TrimSpace, Tagged, Parts;
    if format.Plain? || format.Legacy? {
      PlainForms(lib, stamp, digest);
    } else {
      TaggedForm(lib, stamp, digest);
    }
  }

  lemma NumberStampable(lib: Library, stamp: string, format: Format)
    requires Sound(lib) && ParseInt64(stamp).Some?
    ensures Stampable(lib, stamp, format)
  {
    hide ParseInt64, TrimSpace;
    ParsedIsDecimal(stamp);
    NothingTrimmed(lib, stamp);
  }

  /**
   * The verdict on any digest in any format. A timestamp is a number of seconds up to 10^11, of milliseconds above, or
   * else an RFC 3339 date; unless it is one of these it is invalid, unless it is fresh it has expired, and then exactly
   * the right digest is accepted.
   */
  lemma FormatsAgree(lib: Library, secret: string, tolerance: int, now: int, stamp: string, payload: string,
                     format: Format, digest: string)
    requires Sound(lib) && secret != "" && Stampable(lib, stamp, format) && Hex(digest)
    ensures var n, date := ParseInt64(stamp), lib.rfc3339(stamp);
            var time := if n.Some? then Some(n.value * if n.value > 100_000_000_000 then 1_000_000 else 1_000_000_000)
                        else date;
            Outcome(lib, secret, tolerance, now, HeaderIn(format, stamp), SignatureIn(format, stamp, digest), payload)
            == if time.None? then Some(InvalidTimestamp)
               else if !Fresh(now, time.value, if tolerance > 0 then tolerance else 300_000_000_000) then
                 Some(TimestampExpired)
               else if digest == lib.hmacHex(secret, stamp + "." + payload) then None
               else Some(InvalidSignature)
  {
    hide TrimSpace, StampOf, SignatureOf, SignatureIn, ParseInt64, Fresh;
    FormatRead(lib, stamp, digest, format);
    EmptyTrimmed(lib);
    SameDigest(digest, lib.hmacHex(secret, stamp + "." + payload));
  }

  lemma EmptyTrimmed(lib: Library)
    ensures TrimSpace(lib, "") == ""
  {
  }

  lemma SameDigest(d: string, d': string)
    ensures "v1=" + d == "v1=" + d' <==> d == d'
    ensures "sha256=" + d == "sha256=" + d' <==> d == d'
    ensures "v1=" + d != "sha256=" + d'
  {
    assert ("v1=" + d)[3..] == d && ("v1=" + d')[3..] == d';
    assert ("sha256=" + d)[7..] == d && ("sha256=" + d')[7..] == d';
    assert ("v1=" + d)[0] == 'v' && ("sha256=" + d')[0] == 's';
  }

  /** Without a secret or a signature nothing is accepted; without a timestamp a plain signature is not looked at. */
  lemma MissingParts(lib: Library, secret: string, tolerance: int, now: int, timestamp: string, signature: string,
                     payload: string, digest: string)
    requires Sound(lib) && Hex(digest)
    ensures secret == "" || AllSpace(lib, signature) ==>
              Outcome(lib, secret, tolerance, now, timestamp, signature, payload) == Some(InvalidSignature)
    ensures secret != "" && AllSpace(lib, timestamp) ==>
              forall sig | sig in {"v1=" + digest, "sha256=" + digest} ::
                Outcome(lib, secret, tolerance, now, timestamp, sig, payload) == Some(MissingTimestamp)
  {
    hide TrimSpace, StampOf, SignatureOf, ParseWebhookTimestamp, Fresh;
    if AllSpace(lib, signature) {
      BlankTrimmed(lib, signature);
    }
    if AllSpace(lib, timestamp) {
      BlankTrimmed(lib, timestamp);
      PlainForms(lib, "", digest);
    }
  }

  lemma BlankTrimmed(lib: Library, s: string)
    requires AllSpace(lib, s)
    ensures TrimSpace(lib, s) == ""
  {
    var a, b := TrimmedExactly(lib, s);
    var t := TrimSpace(lib, s);
    assert forall i | 0 <= i < |t| :: s[|a| + i] == t[i];
  }

  /** A right signature over a number above 10^11 is accepted exactly while these milliseconds are fresh. */
  lemma MillisecondsAccepted(lib: Library, secret: string, tolerance: int, now: int, n: int, payload: string)
    requires Sound(lib) && secret != "" && 0 < tolerance <= MAX_INT64
    requires 100_000_000_000 < n <= MAX_INT64 && Distance(now, n * 1_000_000) <= MAX_INT64
    ensures var stamp := FormatInt(n);
            Outcome(lib, secret, tolerance, now, stamp, "v1=" + lib.hmacHex(secret, stamp + "." + payload), payload)
            == None
            <==> Distance(now, n * 1_000_000) <= tolerance
  {
    hide Outcome, ParseInt64, FormatInt, TrimSpace, ParseWebhookTimestamp;
    var stamp := FormatInt(n);
    FormattedParses(n);
    NumberStampable(lib, stamp, Plain);
    FormatsAgree(lib, secret, tolerance, now, stamp, payload, Plain, lib.hmacHex(secret, stamp + "." + payload));
  }

  /** When the difference fits in an int64 of nanoseconds, and can be negated, fresh means within the tolerance. */
  lemma FreshWithinRange(now: int, at: int, tolerance: int)
    requires 0 < tolerance <= MAX_INT64
    ensures Distance(now, at) <= MAX_INT64 ==> (Fresh(now, at, tolerance) <==> Distance(now, at) <= tolerance)
    ensures Fresh(now, at, tolerance) && Distance(now, at) > tolerance
            <==> at - now > MAX_INT64 || (tolerance == MAX_INT64 && now - at > MAX_INT64)
  {
  }

  /** A right signature whose timestamp lies 292 years ahead is accepted, although the tolerance is five minutes. */
  lemma FarFutureAccepted(lib: Library, payload: string)
    requires Sound(lib)
    ensures var digest := lib.hmacHex("key", "9223372037" + "." + payload);
            Outcome(lib, "key", DEFAULT_TOLERANCE, 0, "9223372037", "v1=" + digest, payload) == None
  {
    hide Outcome;
    var stamp := "9223372037";
    StampValue(stamp);
    NumberStampable(lib, stamp, Plain);
    FormatsAgree(lib, "key", DEFAULT_TOLERANCE, 0, stamp, payload, Plain, lib.hmacHex("key", stamp + "." + payload));
  }

  lemma StampValue(stamp: string)
    requires stamp == "9223372037"
    ensures ParseInt64(stamp) == Some(9223372037)
  {
    assert stamp[..9] == "922337203" && stamp[..9][..8] == "92233720" && stamp[..9][..8][..7] == "9223372";
    assert Digits("9") == Some(9);
    assert "92"[..1] == "9" && Digits("92") == Some(92);
    assert "922"[..2] == "92" && Digits("922") == Some(922);
    assert "9223"[..3] == "922" && Digits("9223") == Some(9223);
    assert "92233"[..4] == "9223" && Digits("92233") == Some(92233);
    assert "922337"[..5] == "92233" && Digits("922337") == Some(922337);
    assert "9223372"[..6] == "922337" && Digits("9223372") == Some(9223372);
    assert "92233720"[..7] == "9223372" && Digits("92233720") == Some(92233720);
    assert "922337203"[..8] == "92233720" && Digits("922337203") == Some(922337203);
  }

  predicate EndsSolid(lib: Library, s: string) {
    s == "" || !lib.isSpace(s[|s| - 1])
  }

  lemma {:induction false} TrimmedRight(lib: Library, s: string)
    ensures EndsSolid(lib, TrimRight(lib, s))
    ensures EndsSolid(lib, s) ==> TrimRight(lib, s) == s
  {
    if s != "" && lib.isSpace(s[|s| - 1]) {
      TrimmedRight(lib, s[..|s| - 1]);
    }
  }

  lemma {:induction false} TrimmedLeft(lib: Library, s: string)
    requires EndsSolid(lib, s)
    ensures EndsSolid(lib, TrimLeft(lib, s))
  {
    if s != "" && lib.isSpace(s[0]) {
      TrimmedLeft(lib, s[1..]);
    }
  }

  /** Only white space in front is left to trim. */
  lemma OnlyLeft(lib: Library, s: string)
    requires EndsSolid(lib, s)
    ensures TrimSpace(lib, s) == TrimLeft(lib, s)
  {
    TrimmedLeft(lib, s);
    TrimmedRight(lib, TrimLeft(lib, s));
  }

  lemma {:induction false} FirstStampSolid(lib: Library, parts: seq<string>)
    requires forall i | 0 <= i < |parts| :: EndsSolid(lib, parts[i])
    ensures EndsSolid(lib, FirstStamp(parts))
  {
    if parts != [] {
      FirstStampSolid(lib, parts[1..]);
      assert EndsSolid(lib, parts[0]);
    }
  }

  /** The timestamp a request is judged by. */
  function JudgedStamp(lib: Library, timestamp: string, signature: string): string {
    StampOf(lib, TrimSpace(lib, signature), TrimSpace(lib, timestamp))
  }

  lemma JudgedStampSolid(lib: Library, timestamp: string, signature: string)
    ensures EndsSolid(lib, JudgedStamp(lib, timestamp, signature))
  {
    var sig := TrimSpace(lib, signature);
    TrimmedRight(lib, TrimLeft(lib, timestamp));
    var parts := SplitCommas(sig, "");
    forall i | 0 <= i < |parts| ensures EndsSolid(lib, TrimSpace(lib, parts[i])) {
      TrimmedRight(lib, TrimLeft(lib, parts[i]));
    }
    FirstStampSolid(lib, Parts(lib, sig));
  }

  lemma {:induction false} TrimLeftPrefix(lib: Library, a: string, b: string)
    requires a + "." <= b && TrimLeft(lib, a) != ""
    ensures TrimLeft(lib, a) + "." <= TrimLeft(lib, b)
    decreases |a|
  {
    assert b[0] == a[0];
    if lib.isSpace(a[0]) {
      assert a[1..] + "." == (a + ".")[1..];
      assert (a + ".")[1..] <= b[1..];
      TrimLeftPrefix(lib, a[1..], b[1..]);
    }
  }

  /** No accepted timestamp goes on, after a dot, as another accepted one. */
  lemma NoLongerStamp(lib: Library, stamp: string, stamp': string)
    requires Sound(lib) && EndsSolid(lib, stamp) && EndsSolid(lib, stamp')
    requires ParseWebhookTimestamp(lib, stamp).Time? && ParseWebhookTimestamp(lib, stamp').Time?
    ensures !(stamp + "." <= stamp')
  {
    hide ParseInt64;
    OnlyLeft(lib, stamp);
    OnlyLeft(lib, stamp');
    var a, b := TrimSpace(lib, stamp), TrimSpace(lib, stamp');
    assert IsTimestamp(lib, a) && a != "";
    if stamp + "." <= stamp' {
      TrimLeftPrefix(lib, stamp, stamp');
      NumbersHaveNoDot(b, |a|);
    }
  }

  lemma NumbersHaveNoDot(s: string, k: nat)
    requires 0 < k < |s| && s[k] == '.'
    ensures ParseInt64(s).None?
  {
    if ParseInt64(s).Some? {
      ParsedIsDecimal(s);
    }
  }

  /** The signed message determines timestamp and payload, for all timestamps Verify accepts. */
  lemma MessageBinds(lib: Library, stamp: string, payload: string, stamp': string, payload': string)
    requires Sound(lib) && EndsSolid(lib, stamp) && EndsSolid(lib, stamp')
    requires ParseWebhookTimestamp(lib, stamp).Time? && ParseWebhookTimestamp(lib, stamp').Time?
    requires stamp + "." + payload == stamp' + "." + payload'
    ensures stamp == stamp' && payload == payload'
  {
    hide ParseWebhookTimestamp, Sound;
    var m, m' := stamp + "." + payload, stamp' + "." + payload';
    NoLongerStamp(lib, stamp, stamp');
    NoLongerStamp(lib, stamp', stamp);
    Prefixes(stamp + ".", payload, stamp' + ".", payload');
    assert |stamp| == |stamp'|;
    assert stamp == m[..|stamp|] && stamp' == m'[..|stamp'|];
    assert payload == m[|stamp| + 1..] && payload' == m'[|stamp'| + 1..];
  }

  /** Of two prefixes of one string, the shorter is a prefix of the other, even without its last character. */
  lemma Prefixes(a: string, b: string, a': string, b': string)
    requires a + b == a' + b' && a != "" && a' != ""
    ensures |a| < |a'| ==> a <= a'[..|a'| - 1]
    ensures |a'| < |a| ==> a' <= a[..|a| - 1]
  {
    assert forall i | 0 <= i < |a| :: (a + b)[i] == a[i];
    assert forall i | 0 <= i < |a'| :: (a' + b')[i] == a'[i];
  }

  /**
   * One signature, sent in any format, is good for one timestamp and one payload only: two accepted requests that carry
   * it agree on both, or their messages are a collision of the digest.
   */
  lemma SignatureBinds(lib: Library, secret: string, tolerance: int, signature: string,
                       now: int, timestamp: string, payload: string, now': int, timestamp': string, payload': string)
    requires Sound(lib)
    requires Outcome(lib, secret, tolerance, now, timestamp, signature, payload) == None
    requires Outcome(lib, secret, tolerance, now', timestamp', signature, payload') == None
    ensures var stamp, stamp' := JudgedStamp(lib, timestamp, signature), JudgedStamp(lib, timestamp', signature);
            var message, message' := stamp + "." + payload, stamp' + "." + payload';
            || (stamp == stamp' && payload == payload')
            || (message != message' && lib.hmacHex(secret, message) == lib.hmacHex(secret, message'))
  {
    hide StampOf, SignatureOf, TrimSpace, ParseWebhookTimestamp, Fresh, Sound, EndsSolid;
    var stamp, stamp' := JudgedStamp(lib, timestamp, signature), JudgedStamp(lib, timestamp', signature);
    var message, message' := stamp + "." + payload, stamp' + "." + payload';
    OneDigest(SignatureOf(lib, TrimSpace(lib, signature)), lib.hmacHex(secret, message), lib.hmacHex(secret, message'));
    JudgedStampSolid(lib, timestamp, signature);
    JudgedStampSolid(lib, timestamp', signature);
    if message == message' {
      MessageBinds(lib, stamp, payload, stamp', payload');
    }
  }

  lemma OneDigest(sig: string, d: string, d': string)
    requires sig in {"v1=" + d, "sha256=" + d} && sig in {"v1=" + d', "sha256=" + d'}
    ensures d == d'
  {
    if sig[0] == 'v' {
      assert d == sig[3..] == d';
    } else {
      assert d == sig[7..] == d';
    }
  }

  // ---------------------------------------------------------------------------------------------------------
  // The sender
  // ---------------------------------------------------------------------------------------------------------

  function FormatNat(n: nat): string {
    (if n < 10 then "" else FormatNat(n / 10)) + [(n % 10 + '0' as int) as char]
  }

  /** strconv.FormatInt(n, 10) */
  function FormatInt(n: int): string {
    if n < 0 then "-" + FormatNat(-n) else FormatNat(n)
  }

  lemma {:induction false} FormattedDigits(n: nat)
    ensures Digits(FormatNat(n)) == Some(n)
    ensures FormatNat(n) != "" && '0' <= FormatNat(n)[0] <= '9'
  {
    var s := FormatNat(n);
    if n >= 10 {
      FormattedDigits(n / 10);
      assert s[..|s| - 1] == FormatNat(n / 10);
    }
  }

  lemma FormattedParses(n: int)
    requires MIN_INT64 <= n <= MAX_INT64
    ensures ParseInt64(FormatInt(n)) == Some(n)
  {
    hide Digits, FormatNat;
    var s := FormatInt(n);
    if n < 0 {
      FormattedDigits(-n);
      assert s[0] == '-' && s[1..] == FormatNat(-n);
    } else {
      FormattedDigits(n);
      assert s[0] == FormatNat(n)[0];
    }
  }

  /** The second the sender's clock shows. */
  function UnixSecond(sent: int): int {
    sent / SECOND
  }

  /**
   * What Send puts into its headers at time `sent`, the whole second it was sent in and its signature, a receiver with
   * the same secret accepts at time `now` if and only if the time it reads is fresh: up to second 10^11 that second, so
   * it does for as long as the tolerance lasts, and after it milliseconds.
   */
  lemma DeliveryAccepted(lib: Library, secret: string, tolerance: int, sent: int, now: int, payload: string)
    requires Sound(lib) && secret != "" && MIN_INT64 <= UnixSecond(sent) <= MAX_INT64
    ensures var second := UnixSecond(sent);
            var stamp := FormatInt(second);
            var outcome := Outcome(lib, secret, tolerance, now, stamp,
                                   ComputeWebhookSignature(lib, secret, stamp, payload), payload);
            var limit := if tolerance > 0 then tolerance else 300_000_000_000;
            && second * 1_000_000_000 <= sent < (second + 1) * 1_000_000_000
            && ParseInt64(stamp) == Some(second)
            && (outcome == None
                <==> Fresh(now, second * if second > 100_000_000_000 then 1_000_000 else 1_000_000_000, limit))
            && (second <= 100_000_000_000 && sent <= now <= second * 1_000_000_000 + limit ==> outcome == None)
  {
    hide Outcome, ParseInt64, FormatInt, TrimSpace, ParseWebhookTimestamp;
    var stamp := FormatInt(UnixSecond(sent));
    FormattedParses(UnixSecond(sent));
    NumberStampable(lib, stamp, Plain);
    FormatsAgree(lib, secret, tolerance, now, stamp, payload, Plain, lib.hmacHex(secret, stamp + "." + payload));
  }
}
