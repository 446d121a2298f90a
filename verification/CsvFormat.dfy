/** Comma-separated records after section 2 of RFC 4180: how a record is written, and the reader that gets it back. */
module CsvFormat {
  import opened Options

  const QUOTE: byte := 0x22
  const LF: byte := 0x0A
  const CR: byte := 0x0D

  type Field = seq<byte>
  type Record = seq<Field>

  /**
   * The choices of the CSV library: the delimiters it accepts, the fields it quotes although it need not, and what it
   * makes of the content of a quoted field when lines end in CRLF.
   */
  datatype Library = Library(accepts: seq<byte> -> bool, quotesAnyway: Field -> bool, rewrite: Field -> Field)

  /** The UTF-8 form of a rune that can separate fields: its first byte does not come again, and it breaks no line. */
  predicate ValidDelimiter(delim: seq<byte>) {
    delim != [] && delim[0] !in delim[1..] && QUOTE !in delim && LF !in delim && CR !in delim
  }

  ghost predicate Sound(lib: Library) {
    forall d :: lib.accepts(d) ==> ValidDelimiter(d)
  }

  function LineEnd(useCRLF: bool): seq<byte> {
    if useCRLF then [CR, LF] else [LF]
  }

  // ---------------------------------------------------------------------------------------------------------
  // Writing
  // ---------------------------------------------------------------------------------------------------------

  predicate Contains(s: seq<byte>, sub: seq<byte>) {
    exists i | 0 <= i <= |s| :: sub <= s[i..]
  }

  predicate NeedsQuotes(lib: Library, delim: seq<byte>, f: Field) {
    Contains(f, delim) || QUOTE in f || LF in f || CR in f || lib.quotesAnyway(f)
  }

  /** What a reader gets for a field: with LF line ends the field itself. */
  function Shown(lib: Library, delim: seq<byte>, useCRLF: bool, f: Field): Field {
    if useCRLF && NeedsQuotes(lib, delim, f) then lib.rewrite(f) else f
  }

  function Doubled(f: Field): seq<byte> {
    if f == [] then []
    else if f[0] == QUOTE then [QUOTE, QUOTE] + Doubled(f[1..])
    else [f[0]] + Doubled(f[1..])
  }

  function WriteField(lib: Library, delim: seq<byte>, useCRLF: bool, f: Field): seq<byte> {
    if NeedsQuotes(lib, delim, f) then [QUOTE] + Doubled(Shown(lib, delim, useCRLF, f)) + [QUOTE] else f
  }

  function WriteRecord(lib: Library, delim: seq<byte>, useCRLF: bool, r: Record): seq<byte> {
    if r == [] then LineEnd(useCRLF)
    else if |r| == 1 then WriteField(lib, delim, useCRLF, r[0]) + LineEnd(useCRLF)
    else WriteField(lib, delim, useCRLF, r[0]) + delim + WriteRecord(lib, delim, useCRLF, r[1..])
  }

  function WriteRecords(lib: Library, delim: seq<byte>, useCRLF: bool, rs: seq<Record>): seq<byte> {
    if rs == [] then [] else WriteRecord(lib, delim, useCRLF, rs[0]) + WriteRecords(lib, delim, useCRLF, rs[1..])
  }

  function ShownRecord(lib: Library, delim: seq<byte>, useCRLF: bool, r: Record): Record {
    seq(|r|, i requires 0 <= i < |r| => Shown(lib, delim, useCRLF, r[i]))
  }

  function ShownRecords(lib: Library, delim: seq<byte>, useCRLF: bool, rs: seq<Record>): seq<Record> {
    seq(|rs|, i requires 0 <= i < |rs| => ShownRecord(lib, delim, useCRLF, rs[i]))
  }

  // ---------------------------------------------------------------------------------------------------------
  // Reading
  // ---------------------------------------------------------------------------------------------------------

  /** A field and the text after it. */
  datatype Read = Read(field: Field, rest: seq<byte>)

  /** Up to the next delimiter, line end or end of text; a quote may only open a field. */
  function ReadPlain(delim: seq<byte>, end: seq<byte>, s: seq<byte>, field: Field): (r: Option<Read>)
    ensures r.Some? ==> |r.value.rest| <= |s|
    decreases |s|
  {
    if s == [] || delim <= s || end <= s then Some(Read(field, s))
    else if s[0] == 0x22 then None
    else ReadPlain(delim, end, s[1..], field + [s[0]])
  }

  /** Up to the closing quote; two quotes stand for one. */
  function ReadQuoted(s: seq<byte>, field: Field): (r: Option<Read>)
    ensures r.Some? ==> |r.value.rest| < |s|
    decreases |s|
  {
    if s == [] then None
    else if s[0] != 0x22 then ReadQuoted(s[1..], field + [s[0]])
    else if |s| >= 2 && s[1] == 0x22 then ReadQuoted(s[2..], field + [0x22])
    else Some(Read(field, s[1..]))
  }

  function ReadField(delim: seq<byte>, end: seq<byte>, s: seq<byte>): (r: Option<Read>)
    ensures r.Some? ==> |r.value.rest| <= |s|
  {
    if s != [] && s[0] == 0x22 then ReadQuoted(s[1..], []) else ReadPlain(delim, end, s, [])
  }

  /** All records; `record` holds the fields read so far of the first one. The last line end may be missing. */
  function ReadRecords(delim: seq<byte>, end: seq<byte>, s: seq<byte>, record: Record): Option<seq<Record>>
    requires delim != [] && end != []
    decreases |s|
  {
    if s == [] && record == [] then Some([])
    else
      var f := ReadField(delim, end, s);
      if f.None? then None
      else
        var fields, rest := record + [f.value.field], f.value.rest;
        if rest == [] then Some([fields])
        else if delim <= rest then
          if rest == delim then Some([fields + [[]]]) else ReadRecords(delim, end, rest[|delim|..], fields)
        else if end <= rest then
          var more := ReadRecords(delim, end, rest[|end|..], []);
          if more.None? then None else Some([fields] + more.value)
        else None
  }

  // ---------------------------------------------------------------------------------------------------------
  // Reading back what was written
  // ---------------------------------------------------------------------------------------------------------

  /** What may follow a field: a delimiter or a line end. */
  predicate Stops(delim: seq<byte>, end: seq<byte>, rest: seq<byte>) {
    delim <= rest || end <= rest
  }

  predicate ValidEnd(end: seq<byte>) {
    end == [LF] || end == [CR, LF]
  }

  lemma {:induction false} ReadDoubled(f: Field, rest: seq<byte>, field: Field)
    requires rest == [] || rest[0] != QUOTE
    ensures ReadQuoted(Doubled(f) + [QUOTE] + rest, field) == Some(Read(field + f, rest))
    decreases |f|
  {
    var s := Doubled(f) + [QUOTE] + rest;
    if f == [] {
      assert s == [QUOTE] + rest && s[1..] == rest && field + f == field;
    } else if f[0] == QUOTE {
      assert s == [QUOTE, QUOTE] + (Doubled(f[1..]) + [QUOTE] + rest);
      assert s[2..] == Doubled(f[1..]) + [QUOTE] + rest;
      ReadDoubled(f[1..], rest, field + [QUOTE]);
      assert field + [QUOTE] + f[1..] == field + f;
    } else {
      assert s == [f[0]] + (Doubled(f[1..]) + [QUOTE] + rest);
      assert s[1..] == Doubled(f[1..]) + [QUOTE] + rest;
      ReadDoubled(f[1..], rest, field + [f[0]]);
      assert field + [f[0]] + f[1..] == field + f;
    }
  }

  /** A delimiter that begins with a field lies in the field, or goes on with what follows the field. */
  lemma DelimiterAhead(delim: seq<byte>, f: Field, rest: seq<byte>)
    requires f != [] && rest != [] && delim != []
    ensures delim <= f + rest ==> Contains(f, delim) || rest[0] in delim[1..]
  {
    if delim <= f + rest {
      if |delim| <= |f| {
        assert delim <= f[0..];
      } else {
        assert delim[1..][|f| - 1] == (f + rest)[|f|];
      }
    }
  }

  /** No delimiter begins inside a plain field, not even one that would end in what follows. */
  lemma NoEarlyDelimiter(delim: seq<byte>, end: seq<byte>, f: Field, rest: seq<byte>)
    requires ValidDelimiter(delim) && ValidEnd(end) && Stops(delim, end, rest)
    requires f != [] && !Contains(f, delim)
    ensures !(delim <= f + rest)
  {
    hide Contains;
    DelimiterAhead(delim, f, rest);
    assert rest[0] == delim[0] || rest[0] == LF || rest[0] == CR;
    assert forall b :: b in delim[1..] ==> b in delim;
  }

  lemma NoEarlyEnd(end: seq<byte>, f: Field, rest: seq<byte>)
    requires ValidEnd(end) && f != [] && LF !in f && CR !in f
    ensures !(end <= f + rest)
  {
    assert (f + rest)[0] == f[0];
  }

  lemma ContainsTail(f: Field, delim: seq<byte>)
    requires f != [] && Contains(f[1..], delim)
    ensures Contains(f, delim)
  {
    var i :| 0 <= i <= |f[1..]| && delim <= f[1..][i..];
    assert f[1..][i..] == f[i + 1..];
  }

  lemma {:induction false} ReadUnquoted(delim: seq<byte>, end: seq<byte>, f: Field, rest: seq<byte>, field: Field)
    requires ValidDelimiter(delim) && ValidEnd(end) && Stops(delim, end, rest)
    requires !Contains(f, delim) && QUOTE !in f && LF !in f && CR !in f
    ensures ReadPlain(delim, end, f + rest, field) == Some(Read(field + f, rest))
    decreases |f|
  {
    hide Contains, ValidDelimiter;
    if f == [] {
      assert f + rest == rest && field + f == field;
    } else {
      var s := f + rest;
      NoEarlyDelimiter(delim, end, f, rest);
      NoEarlyEnd(end, f, rest);
      assert s[0] == f[0] && s[1..] == f[1..] + rest;
      if Contains(f[1..], delim) {
        ContainsTail(f, delim);
      }
      ReadUnquoted(delim, end, f[1..], rest, field + [f[0]]);
      assert field + [f[0]] + f[1..] == field + f;
    }
  }

  lemma ReadQuotedField(delim: seq<byte>, end: seq<byte>, shown: Field, rest: seq<byte>)
    requires rest == [] || rest[0] != QUOTE
    ensures ReadField(delim, end, [QUOTE] + Doubled(shown) + [QUOTE] + rest) == Some(Read(shown, rest))
  {
    hide ReadQuoted, ReadPlain, Doubled;
    var s := [QUOTE] + Doubled(shown) + [QUOTE] + rest;
    assert s[0] == QUOTE && s[1..] == Doubled(shown) + [QUOTE] + rest;
    ReadDoubled(shown, rest, []);
    assert [] + shown == shown;
  }

  lemma ReadPlainField(delim: seq<byte>, end: seq<byte>, f: Field, rest: seq<byte>)
    requires ValidDelimiter(delim) && ValidEnd(end) && Stops(delim, end, rest)
    requires !Contains(f, delim) && QUOTE !in f && LF !in f && CR !in f
    ensures ReadField(delim, end, f + rest) == Some(Read(f, rest))
  {
    hide ReadQuoted, ReadPlain, Contains, ValidDelimiter, Stops;
    StopIsNoQuote(delim, end, rest);
    ReadUnquoted(delim, end, f, rest, []);
    assert [] + f == f;
    var first := (f + rest)[0];
    assert first == if f == [] then rest[0] else f[0];
  }

  /** A written field is read as what it shows. */
  lemma ReadWrittenField(lib: Library, delim: seq<byte>, useCRLF: bool, f: Field, rest: seq<byte>)
    requires ValidDelimiter(delim) && Stops(delim, LineEnd(useCRLF), rest)
    ensures ReadField(delim, LineEnd(useCRLF), WriteField(lib, delim, useCRLF, f) + rest)
            == Some(Read(Shown(lib, delim, useCRLF, f), rest))
  {
    hide Contains, ReadField, Doubled, ValidDelimiter, Stops;
    StopIsNoQuote(delim, LineEnd(useCRLF), rest);
    if NeedsQuotes(lib, delim, f) {
      ReadQuotedField(delim, LineEnd(useCRLF), Shown(lib, delim, useCRLF, f), rest);
    } else {
      ReadPlainField(delim, LineEnd(useCRLF), f, rest);
    }
  }

  lemma StopIsNoQuote(delim: seq<byte>, end: seq<byte>, rest: seq<byte>)
    requires ValidDelimiter(delim) && ValidEnd(end) && Stops(delim, end, rest)
    ensures rest != [] && rest[0] != QUOTE
    ensures delim <= rest ==> !(end <= rest)
  {
    assert delim[0] in delim;
  }

  /** One field and its delimiter. */
  lemma ReadOneField(lib: Library, delim: seq<byte>, useCRLF: bool, f: Field, rest: seq<byte>, record: Record)
    requires ValidDelimiter(delim) && rest != []
    ensures ReadRecords(delim, LineEnd(useCRLF), WriteField(lib, delim, useCRLF, f) + delim + rest, record)
            == ReadRecords(delim, LineEnd(useCRLF), rest, record + [Shown(lib, delim, useCRLF, f)])
  {
    hide WriteField, Shown, ReadField, ValidDelimiter;
    var s := WriteField(lib, delim, useCRLF, f) + (delim + rest);
    assert s == WriteField(lib, delim, useCRLF, f) + delim + rest;
    ReadWrittenField(lib, delim, useCRLF, f, delim + rest);
    assert (delim + rest)[|delim|..] == rest;
    assert delim != [] by { SomeDelimiter(delim); }
  }

  lemma SomeDelimiter(delim: seq<byte>)
    requires ValidDelimiter(delim)
    ensures delim != []
  {
  }

  /** The last field of a record and its line end. */
  lemma ReadLastField(lib: Library, delim: seq<byte>, useCRLF: bool, f: Field, rest: seq<byte>, record: Record)
    requires ValidDelimiter(delim)
    ensures ReadRecords(delim, LineEnd(useCRLF), WriteField(lib, delim, useCRLF, f) + LineEnd(useCRLF) + rest, record)
            == (var more := ReadRecords(delim, LineEnd(useCRLF), rest, []);
                if more.None? then None else Some([record + [Shown(lib, delim, useCRLF, f)]] + more.value))
  {
    hide WriteField, Shown, ReadField, ValidDelimiter;
    var end := LineEnd(useCRLF);
    var s := WriteField(lib, delim, useCRLF, f) + (end + rest);
    assert s == WriteField(lib, delim, useCRLF, f) + end + rest;
    ReadWrittenField(lib, delim, useCRLF, f, end + rest);
    assert (end + rest)[|end|..] == rest;
    assert delim != [] by { SomeDelimiter(delim); }
    if delim <= end + rest {
      StopIsNoQuote(delim, end, end + rest);
    }
  }

  lemma {:induction false} ReadWrittenRecord(lib: Library, delim: seq<byte>, useCRLF: bool, r: Record, rest: seq<byte>,
                                             record: Record)
    requires ValidDelimiter(delim) && r != []
    ensures ReadRecords(delim, LineEnd(useCRLF), WriteRecord(lib, delim, useCRLF, r) + rest, record)
            == (var more := ReadRecords(delim, LineEnd(useCRLF), rest, []);
                if more.None? then None else Some([record + ShownRecord(lib, delim, useCRLF, r)] + more.value))
    decreases |r|
  {
    hide ReadRecords, WriteField, Shown;
    var first := Shown(lib, delim, useCRLF, r[0]);
    if |r| == 1 {
      ReadLastField(lib, delim, useCRLF, r[0], rest, record);
      assert ShownRecord(lib, delim, useCRLF, r) == [first];
    } else {
      var tail := WriteRecord(lib, delim, useCRLF, r[1..]) + rest;
      assert WriteRecord(lib, delim, useCRLF, r) + rest == WriteField(lib, delim, useCRLF, r[0]) + delim + tail;
      RecordEnds(lib, delim, useCRLF, r[1..]);
      ReadOneField(lib, delim, useCRLF, r[0], tail, record);
      ReadWrittenRecord(lib, delim, useCRLF, r[1..], rest, record + [first]);
      assert record + [first] + ShownRecord(lib, delim, useCRLF, r[1..])
             == record + ShownRecord(lib, delim, useCRLF, r);
    }
  }

  lemma {:induction false} RecordEnds(lib: Library, delim: seq<byte>, useCRLF: bool, r: Record)
    ensures WriteRecord(lib, delim, useCRLF, r) != []
  {
    hide WriteField;
    if |r| > 1 {
      RecordEnds(lib, delim, useCRLF, r[1..]);
    }
  }

  /** A record without fields is written as an empty line, which reads as one empty field. */
  lemma ReadEmptyRecord(lib: Library, delim: seq<byte>, useCRLF: bool, rest: seq<byte>)
    requires ValidDelimiter(delim)
    ensures ReadRecords(delim, LineEnd(useCRLF), WriteRecord(lib, delim, useCRLF, []) + rest, [])
            == (var more := ReadRecords(delim, LineEnd(useCRLF), rest, []);
                if more.None? then None else Some([[[]]] + more.value))
  {
    var end := LineEnd(useCRLF);
    var s := end + rest;
    StopIsNoQuote(delim, end, s);
    assert s[|end|..] == rest;
    var nothing: Record := [];
    assert ReadField(delim, end, s) == Some(Read([], s));
    assert nothing + [[]] == [[]];
  }

  /** A file of one record without fields is a line end, and reads as one record of one empty field. */
  lemma OneEmptyRecord(lib: Library, delim: seq<byte>)
    requires ValidDelimiter(delim)
    ensures WriteRecords(lib, delim, true, [[]]) == [CR, LF]
    ensures ReadRecords(delim, LineEnd(true), [CR, LF], []) == Some([[[]]])
  {
    var rs: seq<Record>, nothing: seq<byte> := [[]], [];
    assert rs[1..] == [];
    ReadEmptyRecord(lib, delim, true, nothing);
    NothingToRead(delim, LineEnd(true));
    assert WriteRecord(lib, delim, true, []) + nothing == [CR, LF];
    var records, none: seq<Record> := [[[]]], [];
    assert records + none == records;
    hide ReadRecords;
    var more := ReadRecords(delim, LineEnd(true), nothing, []);
    assert more == Some([]);
  }

  function Padded(r: Record): Record {
    if r == [] then [[]] else r
  }

  function PaddedRecords(rs: seq<Record>): seq<Record> {
    seq(|rs|, i requires 0 <= i < |rs| => Padded(rs[i]))
  }

  lemma ReadFirstRecord(lib: Library, delim: seq<byte>, useCRLF: bool, r: Record, rest: seq<byte>)
    requires ValidDelimiter(delim)
    ensures ReadRecords(delim, LineEnd(useCRLF), WriteRecord(lib, delim, useCRLF, r) + rest, [])
            == (var more := ReadRecords(delim, LineEnd(useCRLF), rest, []);
                if more.None? then None else Some([Padded(ShownRecord(lib, delim, useCRLF, r))] + more.value))
  {
    hide WriteRecord, ShownRecord, ValidDelimiter, ReadRecords;
    ShownLength(lib, delim, useCRLF, r);
    if r == [] {
      ReadEmptyRecord(lib, delim, useCRLF, rest);
    } else {
      ReadWrittenRecord(lib, delim, useCRLF, r, rest, []);
      assert [] + ShownRecord(lib, delim, useCRLF, r) == ShownRecord(lib, delim, useCRLF, r);
    }
  }

  lemma PaddedShown(lib: Library, delim: seq<byte>, useCRLF: bool, rs: seq<Record>)
    requires rs != []
    ensures PaddedRecords(ShownRecords(lib, delim, useCRLF, rs))
            == [Padded(ShownRecord(lib, delim, useCRLF, rs[0]))]
                + PaddedRecords(ShownRecords(lib, delim, useCRLF, rs[1..]))
  {
    hide ShownRecord, Padded;
  }

  lemma {:induction false} ReadWrittenRecords(lib: Library, delim: seq<byte>, useCRLF: bool, rs: seq<Record>)
    requires ValidDelimiter(delim)
    ensures ReadRecords(delim, LineEnd(useCRLF), WriteRecords(lib, delim, useCRLF, rs), [])
            == Some(PaddedRecords(ShownRecords(lib, delim, useCRLF, rs)))
    decreases |rs|
  {
    hide WriteRecord, ShownRecord, ValidDelimiter, ReadRecords, Padded;
    if rs == [] {
      NothingToRead(delim, LineEnd(useCRLF));
      assert PaddedRecords(ShownRecords(lib, delim, useCRLF, rs)) == [];
    } else {
      ReadWrittenRecords(lib, delim, useCRLF, rs[1..]);
      ReadFirstRecord(lib, delim, useCRLF, rs[0], WriteRecords(lib, delim, useCRLF, rs[1..]));
      PaddedShown(lib, delim, useCRLF, rs);
    }
  }

  lemma NothingToRead(delim: seq<byte>, end: seq<byte>)
    requires ValidDelimiter(delim) && end != []
    ensures ReadRecords(delim, end, [], []) == Some([])
  {
  }

  lemma ShownLength(lib: Library, delim: seq<byte>, useCRLF: bool, r: Record)
    ensures |ShownRecord(lib, delim, useCRLF, r)| == |r|
  {
  }

  /**
   * Records read back field by field, if and only if none of them is empty. With LF line ends the fields themselves
   * come back; with CRLF a quoted field comes back as the library rewrote it.
   */
  lemma CsvRoundTrip(lib: Library, delim: seq<byte>, useCRLF: bool, rs: seq<Record>)
    requires ValidDelimiter(delim)
    ensures ReadRecords(delim, if useCRLF then [0x0D, 0x0A] else [0x0A], WriteRecords(lib, delim, useCRLF, rs), [])
            == Some(ShownRecords(lib, delim, useCRLF, rs))
            <==> [] !in rs
    ensures !useCRLF ==> ShownRecords(lib, delim, useCRLF, rs) == rs
  {
    hide ReadRecords, WriteRecords;
    ReadWrittenRecords(lib, delim, useCRLF, rs);
    var shown := ShownRecords(lib, delim, useCRLF, rs);
    if [] in rs {
      var i :| 0 <= i < |rs| && rs[i] == [];
      assert PaddedRecords(shown)[i] != shown[i];
    } else {
      assert forall i | 0 <= i < |rs| :: rs[i] in rs;
      assert PaddedRecords(shown) == shown;
    }
    if !useCRLF {
      forall i | 0 <= i < |rs| ensures shown[i] == rs[i] {
        assert ShownRecord(lib, delim, useCRLF, rs[i]) == rs[i];
      }
    }
  }
}
