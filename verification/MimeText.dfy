/** Text made of CRLF-terminated lines, and the buffer the printers append to. */
module MimeText {

  const CRLF: string := "\r\n"

  /** A string no line break can hide in. */
  predicate Clean(s: string) {
    '\r' !in s && '\n' !in s
  }

  /** Where a reader ends lines: at CRLF only, at LF with or without a CR before it, or at CR, LF and CRLF alike. */
  datatype Reader = Strict | Lenient | Universal

  /** A string this reader takes for one line. */
  predicate OneLine(reader: Reader, s: string) {
    match reader
    case Strict => forall i | 0 <= i < |s| - 1 :: !(s[i] == '\r' && s[i + 1] == '\n')
    case Lenient => '\n' !in s
    case Universal => Clean(s)
  }

  function Unlines(lines: seq<string>): string {
    if lines == [] then "" else lines[0] + CRLF + Unlines(lines[1..])
  }

  function Concat(lines: seq<string>): string {
    if lines == [] then "" else lines[0] + Concat(lines[1..])
  }

  /** A line ends here after a single character. */
  predicate Breaks(reader: Reader, c: char) {
    match reader
    case Strict => false
    case Lenient => c == '\n'
    case Universal => c == '\r' || c == '\n'
  }

  /** The lines of a text; `current` is what has been read of the line being read. */
  function SplitLines(reader: Reader, s: string, current: string): seq<string>
    decreases |s|
  {
    if s == "" then if current == "" then [] else [current]
    else if |s| >= 2 && s[0] == '\r' && s[1] == '\n' then [current] + SplitLines(reader, s[2..], "")
    else if Breaks(reader, s[0]) then [current] + SplitLines(reader, s[1..], "")
    else SplitLines(reader, s[1..], current + [s[0]])
  }

  function Lines(reader: Reader, s: string): seq<string> {
    SplitLines(reader, s, "")
  }

  lemma {:induction false} UnlinesAppend(a: seq<string>, b: seq<string>)
    ensures Unlines(a + b) == Unlines(a) + Unlines(b)
  {
    if a == [] {
      assert a + b == b;
    } else {
      assert (a + b)[1..] == a[1..] + b;
      UnlinesAppend(a[1..], b);
    }
  }

  lemma {:induction false} ConcatAppend(a: seq<string>, b: seq<string>)
    ensures Concat(a + b) == Concat(a) + Concat(b)
  {
    if a == [] {
      assert a + b == b;
    } else {
      assert (a + b)[1..] == a[1..] + b;
      ConcatAppend(a[1..], b);
    }
  }

  lemma CleanIsOneLine(reader: Reader, s: string)
    requires Clean(s)
    ensures OneLine(reader, s)
  {
    assert reader.Strict? ==> forall i | 0 <= i < |s| :: s[i] in s;
  }

  lemma {:induction false} ReadLine(reader: Reader, line: string, rest: string, current: string)
    requires OneLine(reader, line)
    ensures SplitLines(reader, line + CRLF + rest, current) == [current + line] + SplitLines(reader, rest, "")
    decreases |line|
  {
    var s := line + CRLF + rest;
    if line == "" {
      assert s[2..] == rest;
      assert current + line == current;
    } else {
      assert s[1..] == line[1..] + CRLF + rest;
      assert s[0] == line[0] && s[1] == if |line| > 1 then line[1] else '\r';
      assert line[0] in line && (|line| > 1 ==> line[1] in line);
      ReadLine(reader, line[1..], rest, current + [line[0]]);
      assert current + [line[0]] + line[1..] == current + line;
    }
  }

  /** Splitting gives back the lines, provided the reader takes each of them for one. */
  lemma {:induction false} LinesOfUnlines(reader: Reader, lines: seq<string>)
    requires forall i | 0 <= i < |lines| :: OneLine(reader, lines[i])
    ensures Lines(reader, Unlines(lines)) == lines
  {
    if lines != [] {
      ReadLine(reader, lines[0], Unlines(lines[1..]), "");
      LinesOfUnlines(reader, lines[1..]);
      assert "" + lines[0] == lines[0];
    }
  }

  /** Whatever the text, what splitting calls a line is one line. */
  lemma {:induction false} SplitGivesLines(reader: Reader, s: string, current: string)
    requires OneLine(reader, current)
    requires reader.Strict? && current != "" && current[|current| - 1] == '\r' && s != "" ==> s[0] != '\n'
    ensures forall i | 0 <= i < |SplitLines(reader, s, current)| :: OneLine(reader, SplitLines(reader, s, current)[i])
    decreases |s|
  {
    if s != "" {
      if |s| >= 2 && s[0] == '\r' && s[1] == '\n' {
        SplitGivesLines(reader, s[2..], "");
      } else if Breaks(reader, s[0]) {
        SplitGivesLines(reader, s[1..], "");
      } else {
        SplitGivesLines(reader, s[1..], current + [s[0]]);
      }
    }
  }

  /** bytes.Buffer, as far as the printers use it. */
  class Buffer {
    var text: string

    constructor ()
      ensures text == ""
    {
      text := "";
    }

    method WriteString(s: string)
      modifies this
      ensures text == old(text) + s
    {
      text := text + s;
    }
  }
}
