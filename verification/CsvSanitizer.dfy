/** The cell sanitizer: what it trims, when it adds a quote, and why its output is safe to open in a spreadsheet. */
module CsvSanitizer {
  import opened Options

  const SPACE: byte := 0x20
  const LF: byte := 0x0A
  const CR: byte := 0x0D
  const TAB: byte := 0x09
  const APOSTROPHE: byte := 0x27
  const EQUALS: byte := 0x3D
  const AT: byte := 0x40
  const PLUS: byte := 0x2B
  const MINUS: byte := 0x2D

  /** The no-break space U+00A0 in UTF-8. */
  const NBSP: seq<byte> := [0xC2, 0xA0]
  const CRLF: seq<byte> := [CR, LF]

  /** The length of the whitespace token a string starts with, 0 if there is none. */
  function TokenLength(s: seq<byte>): (n: nat)
    ensures n <= |s|
  {
    if s == [] then 0
    else if s[0] == SPACE || s[0] == LF then 1
    else if CRLF <= s || NBSP <= s then 2
    else 0
  }

  function Trimmed(s: seq<byte>): seq<byte> {
    if TokenLength(s) == 0 then s else Trimmed(s[TokenLength(s)..])
  }

  /** A string made of white space: blanks, line feeds, CRLF pairs and no-break spaces (U+00A0 in UTF-8). */
  predicate TokenRun(s: seq<byte>) {
    || s == []
    || ((s[0] == 0x20 || s[0] == 0x0A) && TokenRun(s[1..]))
    || (([0x0D, 0x0A] <= s || [0xC2, 0xA0] <= s) && TokenRun(s[2..]))
  }

  method TrimLeadingCSVWhitespace(val: seq<byte>) returns (rest: seq<byte>)
    ensures rest == Trimmed(val)
  {
    rest := val;
    while rest != []
      invariant Trimmed(rest) == Trimmed(val)
      decreases |rest|
    {
      if rest[0] == SPACE || rest[0] == LF {
        rest := rest[1..];
      } else if CRLF <= rest {
        rest := rest[2..];
      } else if NBSP <= rest {
        rest := rest[|NBSP|..];
      } else {
        return;
      }
    }
  }

  /** A token at the front stays one, whatever follows. */
  lemma TokenExtends(p: seq<byte>, rest: seq<byte>)
    requires TokenLength(p) > 0
    ensures TokenLength(p + rest) == TokenLength(p)
  {
    assert (p + rest)[0] == p[0];
    assert |p| >= 2 ==> (p + rest)[..2] == p[..2];
  }

  lemma {:induction false} TrimRun(p: seq<byte>, rest: seq<byte>)
    requires TokenRun(p)
    ensures Trimmed(p + rest) == Trimmed(rest)
    decreases |p|
  {
    if p == [] {
      assert p + rest == rest;
    } else {
      var n := TokenLength(p);
      TokenExtends(p, rest);
      assert (p + rest)[n..] == p[n..] + rest;
      TrimRun(p[n..], rest);
    }
  }

  lemma TokenAlone(s: seq<byte>)
    ensures TokenLength(s[..TokenLength(s)]) == TokenLength(s)
  {
  }

  /** A token in front of a run makes a longer run. */
  lemma RunGrows(token: seq<byte>, run: seq<byte>)
    requires token != [] && TokenLength(token) == |token| && TokenRun(run)
    ensures TokenRun(token + run)
  {
    TokenExtends(token, run);
    hide TokenLength;
    assert (token + run)[|token|..] == run;
  }

  lemma {:induction false} TrimSplits(s: seq<byte>)
    ensures |Trimmed(s)| <= |s| && s[|s| - |Trimmed(s)|..] == Trimmed(s)
    ensures TokenRun(s[..|s| - |Trimmed(s)|])
    ensures TokenLength(Trimmed(s)) == 0
    decreases |s|
  {
    hide TokenLength;
    var n := TokenLength(s);
    if n > 0 {
      TrimSplits(s[n..]);
      var k := |s| - |Trimmed(s)|;
      TokenAlone(s);
      RunGrows(s[..n], s[n..][..k - n]);
      assert s[..k] == s[..n] + s[n..][..k - n];
    } else {
      assert s[..0] == [];
    }
  }

  /** What is trimmed is made of whitespace tokens, and no longer prefix of the cell is. */
  lemma TrimmedIsLongest(s: seq<byte>, m: nat)
    requires m <= |s|
    ensures var n := |s| - |Trimmed(s)|;
            && 0 <= n && s[n..] == Trimmed(s) && TokenRun(s[..n])
            && (n < m ==> !TokenRun(s[..m]))
  {
    hide TokenLength, Trimmed;
    TrimSplits(s);
    if TokenRun(s[..m]) {
      RunSkipped(s, m);
      TrimSplits(s[m..]);
    }
  }

  /**
   * Starts a formula: with an equals sign, an at sign, a tab, a carriage return of its own, or a plus or minus sign
   * that does not begin a number. `isNumber` trims white space and parses a float.
   */
  predicate FormulaAt(isNumber: seq<byte> -> bool, s: seq<byte>) {
    && s != []
    && (|| s[0] == 0x3D || s[0] == 0x40 || s[0] == 0x09
        || (s[0] == 0x0D && !([0x0D, 0x0A] <= s))
        || ((s[0] == 0x2B || s[0] == 0x2D) && !isNumber(s)))
  }

  /** A formula behind nothing but whitespace tokens. */
  ghost predicate Dangerous(isNumber: seq<byte> -> bool, cell: seq<byte>) {
    exists n | 0 <= n <= |cell| :: TokenRun(cell[..n]) && FormulaAt(isNumber, cell[n..])
  }

  function SanitizeCSVCell(isNumber: seq<byte> -> bool, val: seq<byte>): seq<byte> {
    if val == [] then val
    else
      var trimmed := Trimmed(val);
      if trimmed == [] then val
      else if trimmed[0] in {EQUALS, AT, TAB, CR} then [APOSTROPHE] + val
      else if trimmed[0] in {PLUS, MINUS} then if isNumber(trimmed) then val else [APOSTROPHE] + val
      else val
  }

  /** The cell sanitizer as it runs: trim, look at the first character, and quote if need be. */
  method Sanitize(isNumber: seq<byte> -> bool, val: seq<byte>) returns (cell: seq<byte>)
    ensures cell == if Dangerous(isNumber, val) then [0x27] + val else val
    ensures cell == SanitizeCSVCell(isNumber, val)
  {
    SanitizesExactly(isNumber, val);
    if val == [] {
      return val;
    }
    var trimmed := TrimLeadingCSVWhitespace(val);
    if trimmed == [] {
      return val;
    }
    if trimmed[0] in {EQUALS, AT, TAB, CR} {
      return [APOSTROPHE] + val;
    }
    if trimmed[0] in {PLUS, MINUS} {
      if isNumber(trimmed) {
        return val;
      }
      return [APOSTROPHE] + val;
    }
    return val;
  }

  lemma RunSkipped(s: seq<byte>, n: nat)
    requires n <= |s| && TokenRun(s[..n])
    ensures Trimmed(s) == Trimmed(s[n..])
  {
    hide Trimmed, TokenRun;
    TrimRun(s[..n], s[n..]);
    assert s[..n] + s[n..] == s;
  }

  lemma DangerousExactly(isNumber: seq<byte> -> bool, cell: seq<byte>)
    ensures Dangerous(isNumber, cell) <==> FormulaAt(isNumber, Trimmed(cell))
  {
    hide TokenRun, Trimmed;
    TrimSplits(cell);
    if FormulaAt(isNumber, Trimmed(cell)) {
      assert TokenRun(cell[..|cell| - |Trimmed(cell)|]);
    }
    if Dangerous(isNumber, cell) {
      var n :| 0 <= n <= |cell| && TokenRun(cell[..n]) && FormulaAt(isNumber, cell[n..]);
      RunSkipped(cell, n);
      NoTokenAtFormula(isNumber, cell[n..]);
    }
  }

  lemma NoTokenAtFormula(isNumber: seq<byte> -> bool, s: seq<byte>)
    requires FormulaAt(isNumber, s)
    ensures Trimmed(s) == s
  {
    assert TokenLength(s) == 0;
  }

  /** A quote is put in front of exactly the dangerous cells, and every other cell is left alone. */
  lemma SanitizesExactly(isNumber: seq<byte> -> bool, val: seq<byte>)
    ensures SanitizeCSVCell(isNumber, val) == if Dangerous(isNumber, val) then [0x27] + val else val
  {
    DangerousExactly(isNumber, val);
    TrimSplits(val);
  }

  /** No cell that leaves the sanitizer is dangerous, so sanitizing twice is sanitizing once. */
  lemma SanitizedIsSafe(isNumber: seq<byte> -> bool, val: seq<byte>)
    ensures !Dangerous(isNumber, SanitizeCSVCell(isNumber, val))
    ensures SanitizeCSVCell(isNumber, SanitizeCSVCell(isNumber, val)) == SanitizeCSVCell(isNumber, val)
  {
    var out := SanitizeCSVCell(isNumber, val);
    SanitizesExactly(isNumber, val);
    SanitizesExactly(isNumber, out);
    DangerousExactly(isNumber, out);
  }

  /** Signed numbers are shown as they are, whatever white space comes first. */
  lemma NumbersKept(isNumber: seq<byte> -> bool, blank: seq<byte>, number: seq<byte>)
    requires TokenRun(blank) && number != [] && (number[0] == 0x2B || number[0] == 0x2D) && isNumber(number)
    ensures SanitizeCSVCell(isNumber, blank + number) == blank + number
  {
    TrimRun(blank, number);
    assert TokenLength(number) == 0;
  }
}
