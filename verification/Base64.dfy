/** Standard base64 (section 4 of RFC 4648) and the 76-character line wrapper (section 6.8 of RFC 2045). */
module Base64 {
  import opened Options
  import opened MimeText

  const LINE: nat := 76

  function Digit(i: nat): char
    requires i < 64
  {
    if i < 26 then ('A' as int + i) as char
    else if i < 52 then ('a' as int + i - 26) as char
    else if i < 62 then ('0' as int + i - 52) as char
    else if i == 62 then '+'
    else '/'
  }

  function Value(c: char): Option<nat> {
    if 'A' <= c <= 'Z' then Some(c as int - 'A' as int)
    else if 'a' <= c <= 'z' then Some(c as int - 'a' as int + 26)
    else if '0' <= c <= '9' then Some(c as int - '0' as int + 52)
    else if c == '+' then Some(62)
    else if c == '/' then Some(63)
    else None
  }

  /** Four characters for three bytes. */
  function Quad(a: byte, b: byte, d: byte): (q: string)
    ensures |q| == 4
  {
    var x, y, z := a as nat, b as nat, d as nat;
    [Digit(x / 4), Digit(x % 4 * 16 + y / 16), Digit(y % 16 * 4 + z / 64), Digit(z % 64)]
  }

  function Encode(data: seq<byte>): string
    decreases |data|
  {
    if |data| == 0 then ""
    else if |data| == 1 then Quad(data[0], 0, 0)[..2] + "=="
    else if |data| == 2 then Quad(data[0], data[1], 0)[..3] + "="
    else Quad(data[0], data[1], data[2]) + Encode(data[3..])
  }

  function First(v0: nat, v1: nat): byte {
    ((v0 * 4 + v1 / 16) % 256) as byte
  }

  function Second(v1: nat, v2: nat): byte {
    ((v1 % 16 * 16 + v2 / 4) % 256) as byte
  }

  function Third(v2: nat, v3: nat): byte {
    ((v2 % 4 * 64 + v3) % 256) as byte
  }

  /** Four characters stand for three bytes, or for fewer when padded; padding ends the text. */
  function Decode(s: string): Option<seq<byte>>
    decreases |s|
  {
    if s == "" then Some([])
    else if |s| < 4 || Value(s[0]).None? || Value(s[1]).None? then None
    else
      var v0, v1 := Value(s[0]).value, Value(s[1]).value;
      if s[2..] == "==" then Some([First(v0, v1)])
      else if Value(s[2]).None? then None
      else
        var v2 := Value(s[2]).value;
        if s[3..] == "=" then Some([First(v0, v1), Second(v1, v2)])
        else if Value(s[3]).None? then None
        else
          var rest := Decode(s[4..]);
          if rest.None? then None
          else Some([First(v0, v1), Second(v1, v2), Third(v2, Value(s[3]).value)] + rest.value)
  }

  lemma DigitValue(i: nat)
    requires i < 64
    ensures Value(Digit(i)) == Some(i) && Digit(i) != '='
  {
  }

  /** Three bytes survive being cut into four 6-bit groups. */
  lemma Sextets(a: nat, b: nat, d: nat)
    requires a < 256 && b < 256 && d < 256
    ensures a / 4 < 64 && a % 4 * 16 + b / 16 < 64 && b % 16 * 4 + d / 64 < 64 && d % 64 < 64
    ensures (a / 4 * 4 + (a % 4 * 16 + b / 16) / 16) % 256 == a
    ensures ((a % 4 * 16 + b / 16) % 16 * 16 + (b % 16 * 4 + d / 64) / 4) % 256 == b
    ensures ((b % 16 * 4 + d / 64) % 4 * 64 + d % 64) % 256 == d
  {
  }

  lemma QuadDecodes(a: byte, b: byte, d: byte)
    ensures var q := Quad(a, b, d);
            && (forall i | 0 <= i < 4 :: Value(q[i]).Some? && q[i] != '=')
            && First(Value(q[0]).value, Value(q[1]).value) == a
            && Second(Value(q[1]).value, Value(q[2]).value) == b
            && Third(Value(q[2]).value, Value(q[3]).value) == d
  {
    hide Value, Digit;
    var x, y, z := a as nat, b as nat, d as nat;
    Sextets(x, y, z);
    DigitValue(x / 4);
    DigitValue(x % 4 * 16 + y / 16);
    DigitValue(y % 16 * 4 + z / 64);
    DigitValue(z % 64);
  }

  lemma DecodeQuad(q: string, rest: string, a: byte, b: byte, d: byte)
    requires |q| == 4 && forall i | 0 <= i < 4 :: Value(q[i]).Some? && q[i] != '='
    requires First(Value(q[0]).value, Value(q[1]).value) == a
    requires Second(Value(q[1]).value, Value(q[2]).value) == b
    requires Third(Value(q[2]).value, Value(q[3]).value) == d
    ensures Decode(q + rest) == if Decode(rest).None? then None else Some([a, b, d] + Decode(rest).value)
    ensures Decode(q[..3] + "=") == Some([a, b])
    ensures Decode(q[..2] + "==") == Some([a])
  {
    hide Value, First, Second, Third;
    var s, t, u := q + rest, q[..3] + "=", q[..2] + "==";
    assert s[4..] == rest && s[2] == q[2] && s[3] == q[3];
    assert t[2] == q[2] && t[3..] == "=";
    assert u[2..] == "==";
  }

  /** Decoding gives back every byte string. */
  lemma {:induction false} DecodeEncode(data: seq<byte>)
    ensures Decode(Encode(data)) == Some(data)
    decreases |data|
  {
    hide Quad, Value, First, Second, Third, Decode;
    if |data| == 0 {
      DecodeNothing();
    } else if |data| == 1 {
      QuadDecodes(data[0], 0, 0);
      DecodeQuad(Quad(data[0], 0, 0), "", data[0], 0, 0);
      assert data == [data[0]];
    } else if |data| == 2 {
      QuadDecodes(data[0], data[1], 0);
      DecodeQuad(Quad(data[0], data[1], 0), "", data[0], data[1], 0);
      assert data == [data[0], data[1]];
    } else {
      QuadDecodes(data[0], data[1], data[2]);
      DecodeEncode(data[3..]);
      DecodeQuad(Quad(data[0], data[1], data[2]), Encode(data[3..]), data[0], data[1], data[2]);
      assert data == [data[0], data[1], data[2]] + data[3..];
    }
  }

  lemma DecodeNothing()
    ensures Decode("") == Some([])
  {
  }

  predicate InAlphabet(c: char) {
    Value(c).Some? || c == '='
  }

  /** The encoding has four characters for every three bytes begun, all from the alphabet or padding. */
  lemma {:induction false} EncodedText(data: seq<byte>)
    ensures |Encode(data)| == (|data| + 2) / 3 * 4
    ensures forall i | 0 <= i < |Encode(data)| :: InAlphabet(Encode(data)[i])
    decreases |data|
  {
    hide Quad, Value;
    if |data| == 1 {
      QuadDecodes(data[0], 0, 0);
    } else if |data| == 2 {
      QuadDecodes(data[0], data[1], 0);
    } else if |data| >= 3 {
      QuadDecodes(data[0], data[1], data[2]);
      EncodedText(data[3..]);
    }
  }

  // ---------------------------------------------------------------------------------------------------------
  // Line wrapping
  // ---------------------------------------------------------------------------------------------------------

  function Wrapped(s: string): seq<string> {
    if |s| <= LINE then [s] else [s[..LINE]] + Wrapped(s[LINE..])
  }

  /** The lines writeBase64 prints. */
  function Base64Lines(data: seq<byte>): seq<string> {
    Wrapped(Encode(data))
  }

  method WriteBase64(buf: Buffer, data: seq<byte>)
    modifies buf
    ensures buf.text == old(buf.text) + Unlines(Base64Lines(data))
  {
    var encoded := Encode(data);
    while |encoded| > LINE
      invariant buf.text + Unlines(Wrapped(encoded)) == old(buf.text) + Unlines(Base64Lines(data))
      decreases |encoded|
    {
      ghost var first, rest := encoded[..LINE], Wrapped(encoded[LINE..]);
      assert ([first] + rest)[1..] == rest;
      assert Unlines([first] + rest) == first + CRLF + Unlines(rest);
      buf.WriteString(encoded[..LINE] + CRLF);
      encoded := encoded[LINE..];
    }
    assert Unlines([encoded]) == encoded + CRLF;
    buf.WriteString(encoded + CRLF);
  }

  /** Lines are at most 76 characters, there are max(1, ceil(n / 76)) of them, and together they are the text. */
  lemma {:induction false} WrappedShape(s: string)
    ensures forall i | 0 <= i < |Wrapped(s)| :: |Wrapped(s)[i]| <= 76
    ensures |Wrapped(s)| == if s == "" then 1 else (|s| + 75) / 76
    ensures Concat(Wrapped(s)) == s
    ensures forall i, c | 0 <= i < |Wrapped(s)| && c in Wrapped(s)[i] :: c in s
    decreases |s|
  {
    if |s| > LINE {
      WrappedShape(s[LINE..]);
      var first, rest := s[..LINE], Wrapped(s[LINE..]);
      assert ([first] + rest)[1..] == rest;
      assert first + s[LINE..] == s;
    } else {
      assert [s][1..] == [];
    }
  }

  /** A line that can neither be broken, nor end a header block, nor look like a boundary. */
  predicate BodyLine(line: string) {
    Clean(line) && (line != "" ==> line[0] != '-')
  }

  /**
   * For every byte string: lines of at most 76 characters, max(1, ceil(n / 76)) of them for n encoded characters, none
   * of them starting with a dash, and dropping the line breaks and decoding gives the bytes back.
   */
  lemma Base64Written(data: seq<byte>)
    ensures var lines := Base64Lines(data);
            var n := (|data| + 2) / 3 * 4;
            && (forall i | 0 <= i < |lines| :: |lines[i]| <= 76 && BodyLine(lines[i]))
            && |lines| == (if n == 0 then 1 else (n + 75) / 76)
            && Concat(lines) == Encode(data)
            && Decode(Concat(lines)) == Some(data)
            && (forall reader :: Lines(reader, Unlines(lines)) == lines)
  {
    var s, lines := Encode(data), Base64Lines(data);
    EncodedText(data);
    WrappedShape(s);
    DecodeEncode(data);
    hide Encode, Wrapped, Decode, Value;
    forall i | 0 <= i < |lines| ensures BodyLine(lines[i]) {
      AlphabetLine(lines[i], s);
    }
    forall reader: Reader ensures Lines(reader, Unlines(lines)) == lines {
      forall i | 0 <= i < |lines| ensures OneLine(reader, lines[i]) {
        CleanIsOneLine(reader, lines[i]);
      }
      LinesOfUnlines(reader, lines);
    }
  }

  lemma AlphabetLine(line: string, s: string)
    requires forall i | 0 <= i < |s| :: InAlphabet(s[i])
    requires forall c | c in line :: c in s
    ensures BodyLine(line)
  {
    assert forall i | 0 <= i < |line| :: line[i] in s;
    assert forall c | c in s :: InAlphabet(c);
  }
}
