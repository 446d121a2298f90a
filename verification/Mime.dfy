/**
 * The email builder as a printer with an inverse: a parser after section 5.1.1 of RFC 2046 gets back the nested parts,
 * their headers and their bytes from the text the builder appends to its buffer.
 */
module Mime {
  import opened Options
  import opened MimeText
  import opened Base64

  datatype Attachment = Attachment(filename: string, contentType: string, data: seq<byte>)

  /** createdAt is None for the zero time. */
  datatype Message = Message(
    title: string, body: seq<byte>, htmlBody: seq<byte>, recipients: seq<string>, attachments: seq<Attachment>,
    createdAt: Option<int>)

  datatype EmailConfig = EmailConfig(fromAddress: string, fromName: string, host: string)

  /**
   * What the builder gets from elsewhere: the word encoders, the quoting and the date format of the standard library,
   * trimming, the clock, the name of the machine (None if that is an error), and the message id and random boundary
   * suffixes of this call.
   */
  datatype Library = Library(
    qEncode: string -> string,
    bEncode: string -> string,
    quote: string -> string,
    trim: string -> string,
    formatDate: int -> string, now: int, machine: Option<string>,
    messageId: string, mixedSuffix: string, altSuffix: string)

  /** Encoders break no line, and neither do the values made for this call. */
  ghost predicate Sound(lib: Library) {
    && (forall s :: Clean(s) ==> Clean(lib.qEncode(s)))
    && (forall s :: Clean(s) ==> Clean(lib.bEncode(s)))
    && (forall s :: Clean(s) ==> Clean(lib.quote(s)))
    && (forall s :: Clean(s) ==> Clean(lib.trim(s)))
    && (forall t :: Clean(lib.formatDate(t)))
    && Clean(lib.messageId) && Clean(lib.mixedSuffix) && Clean(lib.altSuffix)
  }

  /** sanitizeCRLF drops every CR and LF and nothing else. */
  function SanitizeCRLF(s: string): (r: string)
    ensures Clean(r)
    ensures Clean(s) ==> r == s
  {
    if s == "" then ""
    else if s[0] == '\r' || s[0] == '\n' then SanitizeCRLF(s[1..])
    else [s[0]] + SanitizeCRLF(s[1..])
  }

  /** Of a string, exactly its CRs and LFs are dropped, and the rest keeps its order. */
  lemma {:induction false} SanitizeDropsOnly(a: string, c: char, b: string)
    ensures SanitizeCRLF(a + [c] + b) == SanitizeCRLF(a) + (if c == '\r' || c == '\n' then "" else [c])
            + SanitizeCRLF(b)
    decreases |a|
  {
    if a == "" {
      assert (a + [c] + b)[1..] == b;
    } else {
      assert (a + [c] + b)[1..] == a[1..] + [c] + b;
      SanitizeDropsOnly(a[1..], c, b);
    }
  }

  predicate Ascii(s: string) {
    forall i | 0 <= i < |s| :: s[i] < '\U{0080}'
  }

  function FormattedFilename(lib: Library, filename: string): string {
    if Ascii(filename) then lib.quote(filename) else lib.bEncode(filename)
  }

  /** Non-ASCII names become encoded words, ASCII names are quoted. */
  method FormatAttachmentFilename(lib: Library, filename: string) returns (formatted: string)
    ensures formatted == if forall i | 0 <= i < |filename| :: filename[i] < '\U{0080}' then lib.quote(filename)
                         else lib.bEncode(filename)
    ensures formatted == FormattedFilename(lib, filename)
  {
    for i := 0 to |filename|
      invariant Ascii(filename[..i])
    {
      if filename[i] >= '\U{0080}' {
        return lib.bEncode(filename);
      }
    }
    assert filename[..|filename|] == filename;
    return lib.quote(filename);
  }

  // ---------------------------------------------------------------------------------------------------------
  // The printed lines
  // ---------------------------------------------------------------------------------------------------------

  const TYPE: string := "Content-Type: "
  const ENCODING: string := "Content-Transfer" + "-Encoding: base64"
  const MIXED: string := TYPE + "multipart/mixed" + "; boundary="
  const ALTERNATIVE: string := TYPE + "multipart/alternative" + "; boundary="
  const PLAIN_TYPE: string := TYPE + "text/plain" + "; charset=UTF-8"
  const HTML_TYPE: string := TYPE + "text/html" + "; charset=UTF-8"
  const DISPOSITION: string := "Content-Disposition: " + "attachment; filename="

  function MixedBoundary(lib: Library): string {
    "boundary_mixed_" + lib.mixedSuffix
  }

  function AltBoundary(lib: Library): string {
    "boundary_alt_" + lib.altSuffix
  }

  /** With a display name both parts are sanitized; without one the address is used as it is. */
  function FromHeader(cfg: EmailConfig, lib: Library): string {
    if cfg.fromName != "" then
      lib.qEncode(SanitizeCRLF(cfg.fromName)) + " <" + SanitizeCRLF(cfg.fromAddress) + ">"
    else cfg.fromAddress
  }

  function CleanRecipients(lib: Library, recipients: seq<string>): seq<string> {
    if recipients == [] then []
    else
      var clean := lib.trim(SanitizeCRLF(recipients[0]));
      (if clean != "" then [clean] else []) + CleanRecipients(lib, recipients[1..])
  }

  function Join(parts: seq<string>): string {
    if parts == [] then "" else if |parts| == 1 then parts[0] else parts[0] + ", " + Join(parts[1..])
  }

  /** Parts are joined by a comma and a blank, wherever the list is cut. */
  lemma {:induction false} JoinSeparates(a: seq<string>, b: seq<string>)
    requires a != [] && b != []
    ensures Join(a + b) == Join(a) + ", " + Join(b)
    decreases |a|
  {
    if |a| == 1 {
      assert (a + b)[1..] == b;
    } else {
      assert (a + b)[1..] == a[1..] + b;
      JoinSeparates(a[1..], b);
    }
  }

  /**
   * A reader of an address list: the parts between commas with a blank; `current` is what has been read of the first.
   */
  function SplitList(s: string, current: string): seq<string> {
    if s == "" then [current]
    else if ", " <= s then [current] + SplitList(s[2..], "")
    else SplitList(s[1..], current + [s[0]])
  }

  predicate HasSeparator(s: string) {
    exists i | 0 <= i <= |s| :: ", " <= s[i..]
  }

  lemma {:induction false} SplitPart(part: string, rest: string, current: string)
    requires !HasSeparator(part) && (rest == "" || ", " <= rest)
    ensures SplitList(part + rest, current) == SplitList(rest, current + part)
    decreases |part|
  {
    if part == "" {
      assert part + rest == rest && current + part == current;
    } else {
      assert !(", " <= part[0..]);
      assert (part + rest)[1..] == part[1..] + rest;
      assert |part| == 1 && ", " <= rest ==> (part + rest)[1] == ',';
      assert forall i | 0 <= i <= |part[1..]| :: part[1..][i..] == part[i + 1..];
      SplitPart(part[1..], rest, current + [part[0]]);
      assert current + [part[0]] + part[1..] == current + part;
    }
  }

  /** Joined parts read back as they were, if the separator is in none of them. */
  lemma {:induction false} SplitJoined(parts: seq<string>)
    requires parts != [] && forall i | 0 <= i < |parts| :: !HasSeparator(parts[i])
    ensures SplitList(Join(parts), "") == parts
    decreases |parts|
  {
    if |parts| == 1 {
      SplitPart(parts[0], "", "");
      assert parts[0] + "" == parts[0] && "" + parts[0] == parts[0];
    } else {
      var rest := ", " + Join(parts[1..]);
      assert Join(parts) == parts[0] + rest;
      SplitPart(parts[0], rest, "");
      assert "" + parts[0] == parts[0] && rest[2..] == Join(parts[1..]);
      SplitJoined(parts[1..]);
    }
  }

  /** Each recipient is kept in its place, trimmed and without CR and LF, unless nothing is left of it. */
  lemma {:induction false} RecipientsKept(lib: Library, a: seq<string>, r: string, b: seq<string>)
    ensures CleanRecipients(lib, []) == []
    ensures var clean := lib.trim(SanitizeCRLF(r));
            CleanRecipients(lib, a + [r] + b)
            == CleanRecipients(lib, a) + (if clean == "" then [] else [clean]) + CleanRecipients(lib, b)
    decreases |a|
  {
    hide SanitizeCRLF;
    if a == [] {
      assert (a + [r] + b)[1..] == b;
    } else {
      assert (a + [r] + b)[1..] == a[1..] + [r] + b;
      RecipientsKept(lib, a[1..], r, b);
    }
  }

  /** The message's own time, or that of sending. */
  function MessageTime(lib: Library, msg: Message): int {
    if msg.createdAt.None? then lib.now else msg.createdAt.value
  }

  /** The configured host, the machine's name, or localhost. */
  function HostName(cfg: EmailConfig, lib: Library): string {
    if cfg.host != "" then cfg.host
    else if lib.machine.Some? && lib.machine.value != "" then lib.machine.value
    else "localhost"
  }

  function TopHeaders(cfg: EmailConfig, lib: Library, msg: Message): seq<string> {
    ["From: " + FromHeader(cfg, lib),
     "To: " + Join(CleanRecipients(lib, msg.recipients)),
     "Subject: " + lib.qEncode(SanitizeCRLF(msg.title)),
     "Date: " + lib.formatDate(MessageTime(lib, msg)),
     "Message-ID: <" + lib.messageId + "@" + SanitizeCRLF(HostName(cfg, lib)) + ">",
     "MIME-Version: 1.0"]
  }

  /** A base64 part; the builder ends text parts with one more empty line. */
  function PartLines(headers: seq<string>, data: seq<byte>): seq<string> {
    headers + [""] + Base64Lines(data)
  }

  function TextHeaders(contentType: string): seq<string> {
    [contentType, ENCODING]
  }

  function AltLines(lib: Library, msg: Message): seq<string> {
    var b := AltBoundary(lib);
    ["--" + b] + PartLines(TextHeaders(PLAIN_TYPE), msg.body) + [""]
    + ["--" + b] + PartLines(TextHeaders(HTML_TYPE), msg.htmlBody) + [""]
    + ["--" + b + "--"]
  }

  /** The message without its attachments. */
  function ContentLines(lib: Library, msg: Message): seq<string> {
    if msg.htmlBody != [] then [ALTERNATIVE + AltBoundary(lib), ""] + AltLines(lib, msg)
    else PartLines(TextHeaders(PLAIN_TYPE), msg.body) + [""]
  }

  function AttachmentHeaders(lib: Library, att: Attachment): seq<string> {
    var sanitized := SanitizeCRLF(att.contentType);
    var contentType := if sanitized == "" then "application/octet-stream" else sanitized;
    var filename := FormattedFilename(lib, SanitizeCRLF(att.filename));
    [TYPE + contentType + "; name=" + filename,
     ENCODING,
     DISPOSITION + filename]
  }

  function AttachmentLines(lib: Library, att: Attachment): seq<string> {
    ["", "--" + MixedBoundary(lib)] + PartLines(AttachmentHeaders(lib, att), att.data)
  }

  function AttachmentsLines(lib: Library, atts: seq<Attachment>): seq<string> {
    if atts == [] then [] else AttachmentLines(lib, atts[0]) + AttachmentsLines(lib, atts[1..])
  }

  /** Everything after the top headers of a message with attachments. */
  function MixedLines(lib: Library, msg: Message): seq<string> {
    [MIXED + MixedBoundary(lib), "", "--" + MixedBoundary(lib)] + ContentLines(lib, msg)
    + AttachmentsLines(lib, msg.attachments) + ["", "--" + MixedBoundary(lib) + "--"]
  }

  function MessageLines(cfg: EmailConfig, lib: Library, msg: Message): seq<string> {
    TopHeaders(cfg, lib, msg)
    + (if msg.attachments == [] then ContentLines(lib, msg) else MixedLines(lib, msg))
  }

  // ---------------------------------------------------------------------------------------------------------
  // The parser
  // ---------------------------------------------------------------------------------------------------------

  /** What a reader sees: a decoded part, or parts within a part. */
  datatype Entity =
    | Leaf(headers: seq<string>, content: Option<seq<byte>>)
    | Multi(headers: seq<string>, parts: seq<Entity>)

  predicate Begins(line: string, prefix: string) {
    prefix <= line
  }

  /** A boundary need only appear at the start of a line, right after two dashes. */
  predicate IsDelimiter(line: string, boundary: string) {
    Begins(line, "--" + boundary)
  }

  predicate IsClose(line: string, boundary: string) {
    Begins(line, "--" + boundary + "--")
  }

  function HeaderCount(lines: seq<string>): (n: nat)
    ensures n <= |lines|
  {
    if lines == [] || lines[0] == "" then 0 else 1 + HeaderCount(lines[1..])
  }

  /** The bodies between delimiter lines, from inside a part whose lines so far are `current`. */
  function Collect(lines: seq<string>, boundary: string, current: seq<string>): (parts: seq<seq<string>>)
    ensures forall i | 0 <= i < |parts| :: |parts[i]| <= |current| + |lines|
    decreases |lines|
  {
    if lines == [] || IsClose(lines[0], boundary) then [current]
    else if IsDelimiter(lines[0], boundary) then [current] + Collect(lines[1..], boundary, [])
    else Collect(lines[1..], boundary, current + [lines[0]])
  }

  /** Everything before the first delimiter is preamble. */
  function SplitParts(lines: seq<string>, boundary: string): (parts: seq<seq<string>>)
    ensures forall i | 0 <= i < |parts| :: |parts[i]| <= |lines|
    decreases |lines|
  {
    if lines == [] || IsClose(lines[0], boundary) then []
    else if IsDelimiter(lines[0], boundary) then Collect(lines[1..], boundary, [])
    else SplitParts(lines[1..], boundary)
  }

  /** The boundary parameter of the first multipart content type, if there is one. */
  function BoundaryOf(headers: seq<string>): Option<string> {
    if headers == [] then None
    else if Begins(headers[0], MIXED) then Some(headers[0][|MIXED|..])
    else if Begins(headers[0], ALTERNATIVE) then Some(headers[0][|ALTERNATIVE|..])
    else BoundaryOf(headers[1..])
  }

  /** Only entities without a base64 encoding can be composite (section 6.4 of RFC 2045). */
  function Parse(lines: seq<string>): Entity
    decreases |lines|
  {
    var n := HeaderCount(lines);
    var headers, rest := lines[..n], lines[n..];
    if rest == [] then Leaf(headers, None)
    else if ENCODING in headers || BoundaryOf(headers).None? then Leaf(headers, Decode(Concat(rest[1..])))
    else
      var parts := SplitParts(rest[1..], BoundaryOf(headers).value);
      Multi(headers, seq(|parts|, i requires 0 <= i < |parts| => Parse(parts[i])))
  }

  // ---------------------------------------------------------------------------------------------------------
  // What the message means
  // ---------------------------------------------------------------------------------------------------------

  function TextLeaf(contentType: string, data: seq<byte>): Entity {
    Leaf(TextHeaders(contentType), Some(data))
  }

  /** The body alone, or the body and its HTML alternative, under the given headers. */
  function Content(lib: Library, msg: Message, headers: seq<string>): Entity {
    if msg.htmlBody != [] then
      Multi(headers + [ALTERNATIVE + AltBoundary(lib)],
            [TextLeaf(PLAIN_TYPE, msg.body), TextLeaf(HTML_TYPE, msg.htmlBody)])
    else Leaf(headers + TextHeaders(PLAIN_TYPE), Some(msg.body))
  }

  function AttachmentLeaf(lib: Library, att: Attachment): Entity {
    Leaf(AttachmentHeaders(lib, att), Some(att.data))
  }

  function Meaning(cfg: EmailConfig, lib: Library, msg: Message): Entity {
    var top := TopHeaders(cfg, lib, msg);
    if msg.attachments == [] then Content(lib, msg, top)
    else
      Multi(top + [MIXED + MixedBoundary(lib)],
            [Content(lib, msg, [])]
            + seq(|msg.attachments|, i requires 0 <= i < |msg.attachments| => AttachmentLeaf(lib, msg.attachments[i])))
  }

  // ---------------------------------------------------------------------------------------------------------
  // The builder
  // ---------------------------------------------------------------------------------------------------------

  method WriteLine(buf: Buffer, line: string)
    modifies buf
    ensures buf.text == old(buf.text) + Unlines([line])
  {
    assert Unlines([line]) == line + CRLF;
    buf.WriteString(line + CRLF);
  }

  lemma NoRecipients(lib: Library, recipients: seq<string>)
    ensures recipients[0..] == recipients && recipients[|recipients|..] == [] && CleanRecipients(lib, []) == []
  {
  }

  lemma NextRecipient(lib: Library, recipients: seq<string>, i: nat, clean: seq<string>)
    requires i < |recipients|
    ensures var r := lib.trim(SanitizeCRLF(recipients[i]));
            clean + CleanRecipients(lib, recipients[i..])
            == (if r != "" then clean + [r] else clean) + CleanRecipients(lib, recipients[i + 1..])
  {
    hide SanitizeCRLF;
    assert recipients[i..][1..] == recipients[i + 1..];
  }

  class EmailSender {
    const cfg: EmailConfig

    constructor (cfg: EmailConfig)
      ensures this.cfg == cfg
    {
      this.cfg := cfg;
    }

    /** Recipients without line breaks; those that come out empty are dropped, the others keep their order. */
    method SanitizedRecipients(lib: Library, recipients: seq<string>) returns (clean: seq<string>)
      ensures clean == CleanRecipients(lib, recipients)
    {
      hide CleanRecipients, SanitizeCRLF;
      clean := [];
      NoRecipients(lib, recipients);
      for i := 0 to |recipients|
        invariant CleanRecipients(lib, recipients) == clean + CleanRecipients(lib, recipients[i..])
      {
        NextRecipient(lib, recipients, i, clean);
        var r := lib.trim(SanitizeCRLF(recipients[i]));
        if r != "" {
          clean := clean + [r];
        }
      }
      NoRecipients(lib, recipients);
    }

    method WriteTop(buf: Buffer, lib: Library, msg: Message)
      modifies buf
      ensures buf.text == old(buf.text) + Unlines(TopHeaders(cfg, lib, msg))
    {
      hide Unlines, Join;
      var fromHeader := cfg.fromAddress;
      if cfg.fromName != "" {
        fromHeader := lib.qEncode(SanitizeCRLF(cfg.fromName)) + " <" + SanitizeCRLF(cfg.fromAddress) + ">";
      }
      var recipients := SanitizedRecipients(lib, msg.recipients);
      var from, to := "From: " + fromHeader, "To: " + Join(recipients);
      var subject := "Subject: " + lib.qEncode(SanitizeCRLF(msg.title));
      var msgDate := lib.now;
      if msg.createdAt.Some? {
        msgDate := msg.createdAt.value;
      }
      var date := "Date: " + lib.formatDate(msgDate);
      var hostname := cfg.host;
      if hostname == "" {
        if lib.machine.Some? && lib.machine.value != "" {
          hostname := lib.machine.value;
        } else {
          hostname := "localhost";
        }
      }
      var id := "Message-ID: <" + lib.messageId + "@" + SanitizeCRLF(hostname) + ">";
      WriteSix(buf, from, to, subject, date, id, "MIME-Version: 1.0");
      assert [from, to, subject, date, id, "MIME-Version: 1.0"] == TopHeaders(cfg, lib, msg);
    }

    method WriteSix(buf: Buffer, a: string, b: string, c: string, d: string, e: string, f: string)
      modifies buf
      ensures buf.text == old(buf.text) + Unlines([a, b, c, d, e, f])
    {
      hide Unlines;
      WriteLine(buf, a);
      WriteLine(buf, b);
      WriteLine(buf, c);
      WriteLine(buf, d);
      WriteLine(buf, e);
      WriteLine(buf, f);
      UnlinesOfFive([a], [b], [c], [d], [e]);
      UnlinesAppend([a] + [b] + [c] + [d] + [e], [f]);
      assert [a] + [b] + [c] + [d] + [e] + [f] == [a, b, c, d, e, f];
    }

    /** A text part with the empty line after it. */
    method WriteText(buf: Buffer, contentType: string, data: seq<byte>)
      modifies buf
      ensures buf.text == old(buf.text) + Unlines(PartLines(TextHeaders(contentType), data) + [""])
    {
      hide Unlines, Base64Lines;
      WriteLine(buf, contentType);
      WriteLine(buf, ENCODING);
      WriteLine(buf, "");
      WriteBase64(buf, data);
      WriteLine(buf, "");
      UnlinesOfFive([contentType], [ENCODING], [""], Base64Lines(data), [""]);
      assert [contentType] + [ENCODING] + [""] + Base64Lines(data) + [""]
             == PartLines(TextHeaders(contentType), data) + [""];
    }

    /** One text part of the alternative, with its delimiter before and its empty line after. */
    method WriteAlternative(buf: Buffer, boundary: string, contentType: string, data: seq<byte>)
      modifies buf
      ensures buf.text == old(buf.text) + Unlines(["--" + boundary] + PartLines(TextHeaders(contentType), data) + [""])
    {
      hide Unlines, PartLines;
      WriteLine(buf, "--" + boundary);
      WriteText(buf, contentType, data);
      var lines := PartLines(TextHeaders(contentType), data);
      UnlinesAppend(["--" + boundary], lines + [""]);
      assert ["--" + boundary] + (lines + [""]) == ["--" + boundary] + lines + [""];
    }

    method WriteContent(buf: Buffer, lib: Library, msg: Message)
      modifies buf
      ensures buf.text == old(buf.text) + Unlines(ContentLines(lib, msg))
    {
      hide Unlines, PartLines, AltBoundary;
      var b := AltBoundary(lib);
      if msg.htmlBody != [] {
        WriteLine(buf, ALTERNATIVE + b);
        WriteLine(buf, "");
        WriteAlternative(buf, b, PLAIN_TYPE, msg.body);
        WriteAlternative(buf, b, HTML_TYPE, msg.htmlBody);
        WriteLine(buf, "--" + b + "--");
        ghost var p := ["--" + b] + PartLines(TextHeaders(PLAIN_TYPE), msg.body) + [""];
        ghost var h := ["--" + b] + PartLines(TextHeaders(HTML_TYPE), msg.htmlBody) + [""];
        UnlinesOfFive([ALTERNATIVE + b], [""], p, h, ["--" + b + "--"]);
        assert ContentLines(lib, msg) == [ALTERNATIVE + b] + [""] + p + h + ["--" + b + "--"];
      } else {
        WriteText(buf, PLAIN_TYPE, msg.body);
      }
    }

    method WriteAttachment(buf: Buffer, lib: Library, att: Attachment)
      modifies buf
      ensures buf.text == old(buf.text) + Unlines(AttachmentLines(lib, att))
    {
      hide Unlines, MixedBoundary, FormattedFilename, Base64Lines;
      var contentType := SanitizeCRLF(att.contentType);
      if contentType == "" {
        contentType := "application/octet-stream";
      }
      var filename := FormatAttachmentFilename(lib, SanitizeCRLF(att.filename));
      var typed, disposition := TYPE + contentType + "; name=" + filename,
                                DISPOSITION + filename;
      WriteAttachmentPart(buf, "--" + MixedBoundary(lib), typed, disposition, att.data);
      AttachmentPieces(lib, att, typed, disposition);
    }

    method WriteAttachmentPart(buf: Buffer, open: string, typed: string, disposition: string, data: seq<byte>)
      modifies buf
      ensures buf.text
              == old(buf.text) + Unlines([""] + [open] + [typed] + [ENCODING] + [disposition] + [""]
                                         + Base64Lines(data))
    {
      hide Unlines, Base64Lines;
      WriteLine(buf, "");
      WriteLine(buf, open);
      WriteLine(buf, typed);
      WriteLine(buf, ENCODING);
      WriteLine(buf, disposition);
      WriteLine(buf, "");
      WriteBase64(buf, data);
      UnlinesOfSeven([""], [open], [typed], [ENCODING], [disposition], [""], Base64Lines(data));
    }

    method WriteAttachments(buf: Buffer, lib: Library, atts: seq<Attachment>)
      modifies buf
      ensures buf.text == old(buf.text) + Unlines(AttachmentsLines(lib, atts))
    {
      hide AttachmentLines, Unlines;
      NoLines();
      for i := 0 to |atts|
        invariant buf.text == old(buf.text) + Unlines(AttachmentsLines(lib, atts[..i]))
      {
        WriteAttachment(buf, lib, atts[i]);
        assert atts[..i + 1] == atts[..i] + [atts[i]];
        AttachmentsAppend(lib, atts[..i], atts[i]);
        UnlinesAppend(AttachmentsLines(lib, atts[..i]), AttachmentLines(lib, atts[i]));
      }
      assert atts[..|atts|] == atts;
    }

    method BuildMIMEMessage(lib: Library, msg: Message) returns (text: string)
      ensures text == Unlines(MessageLines(cfg, lib, msg))
    {
      hide MessageLines, TopHeaders, ContentLines, AttachmentsLines, MixedBoundary, Unlines;
      var buf := new Buffer();
      var mixed := MixedBoundary(lib);
      WriteTop(buf, lib, msg);
      var hasAttachments := |msg.attachments| > 0;
      if hasAttachments {
        WriteLine(buf, MIXED + mixed);
        WriteLine(buf, "");
        WriteLine(buf, "--" + mixed);
      }
      WriteContent(buf, lib, msg);
      WriteAttachments(buf, lib, msg.attachments);
      if hasAttachments {
        WriteLine(buf, "");
        WriteLine(buf, "--" + mixed + "--");
      }
      text := buf.text;
      if hasAttachments {
        MixedText(cfg, lib, msg);
      } else {
        PlainText(cfg, lib, msg);
      }
    }
  }

  lemma PlainText(cfg: EmailConfig, lib: Library, msg: Message)
    requires msg.attachments == []
    ensures Unlines(MessageLines(cfg, lib, msg))
            == "" + Unlines(TopHeaders(cfg, lib, msg)) + Unlines(ContentLines(lib, msg))
               + Unlines(AttachmentsLines(lib, msg.attachments))
  {
    hide TopHeaders, ContentLines;
    UnlinesAppend(TopHeaders(cfg, lib, msg), ContentLines(lib, msg));
    assert Unlines(AttachmentsLines(lib, msg.attachments)) == "";
  }

  lemma NoLines()
    ensures Unlines([]) == ""
  {
  }

  lemma UnlinesOfFive(a: seq<string>, b: seq<string>, c: seq<string>, d: seq<string>, e: seq<string>)
    ensures Unlines(a + b + c + d + e) == Unlines(a) + Unlines(b) + Unlines(c) + Unlines(d) + Unlines(e)
  {
    hide Unlines;
    UnlinesAppend(a, b);
    UnlinesAppend(a + b, c);
    UnlinesAppend(a + b + c, d);
    UnlinesAppend(a + b + c + d, e);
  }

  lemma {:induction false} AttachmentsAppend(lib: Library, atts: seq<Attachment>, att: Attachment)
    ensures AttachmentsLines(lib, atts + [att]) == AttachmentsLines(lib, atts) + AttachmentLines(lib, att)
  {
    if atts == [] {
      assert [att][1..] == [];
    } else {
      assert (atts + [att])[1..] == atts[1..] + [att];
      AttachmentsAppend(lib, atts[1..], att);
    }
  }

  lemma UnlinesOfSeven(a: seq<string>, b: seq<string>, c: seq<string>, d: seq<string>, e: seq<string>,
                       f: seq<string>, g: seq<string>)
    ensures Unlines(a + b + c + d + e + f + g)
            == Unlines(a) + Unlines(b) + Unlines(c) + Unlines(d) + Unlines(e) + Unlines(f) + Unlines(g)
  {
    hide Unlines;
    UnlinesOfFive(a, b, c, d, e);
    UnlinesAppend(a + b + c + d + e, f);
    UnlinesAppend(a + b + c + d + e + f, g);
  }

  /** The pieces of an attachment, one by one. */
  lemma AttachmentPieces(lib: Library, att: Attachment, typed: string, disposition: string)
    requires AttachmentHeaders(lib, att) == [typed, ENCODING, disposition]
    ensures AttachmentLines(lib, att)
            == [""] + ["--" + MixedBoundary(lib)] + [typed] + [ENCODING] + [disposition] + [""] + Base64Lines(att.data)
  {
    hide AttachmentHeaders, Base64Lines, MixedBoundary;
  }

  /** The pieces of a message with attachments, one by one. */
  lemma MixedPieces(cfg: EmailConfig, lib: Library, msg: Message, type_: string, open: string, close: string)
    requires msg.attachments != [] && type_ == MIXED + MixedBoundary(lib)
    requires open == "--" + MixedBoundary(lib) && close == "--" + MixedBoundary(lib) + "--"
    ensures MessageLines(cfg, lib, msg)
            == TopHeaders(cfg, lib, msg) + [type_] + [""] + [open] + ContentLines(lib, msg)
               + AttachmentsLines(lib, msg.attachments) + [""] + [close]
  {
    hide TopHeaders, ContentLines, AttachmentsLines, MixedBoundary;
    Regroup(TopHeaders(cfg, lib, msg), type_, "", open, ContentLines(lib, msg), AttachmentsLines(lib, msg.attachments),
            close);
  }

  lemma MixedText(cfg: EmailConfig, lib: Library, msg: Message)
    requires msg.attachments != []
    ensures var mixed := MixedBoundary(lib);
            Unlines(MessageLines(cfg, lib, msg))
            == "" + Unlines(TopHeaders(cfg, lib, msg)) + Unlines([MIXED + mixed]) + Unlines([""])
                + Unlines(["--" + mixed])
               + Unlines(ContentLines(lib, msg)) + Unlines(AttachmentsLines(lib, msg.attachments)) + Unlines([""])
               + Unlines(["--" + mixed + "--"])
  {
    hide Unlines, MessageLines, TopHeaders, ContentLines, AttachmentsLines, MixedBoundary;
    var top, mixed, content := TopHeaders(cfg, lib, msg), MixedBoundary(lib), ContentLines(lib, msg);
    var atts := AttachmentsLines(lib, msg.attachments);
    var front := top + [MIXED + mixed] + [""] + ["--" + mixed] + content + atts + [""];
    assert "" + Unlines(top) == Unlines(top);
    MixedPieces(cfg, lib, msg, MIXED + mixed, "--" + mixed, "--" + mixed + "--");
    UnlinesOfSeven(top, [MIXED + mixed], [""], ["--" + mixed], content, atts, [""]);
    UnlinesAppend(front, ["--" + mixed + "--"]);
  }

  lemma Regroup<T>(a: seq<T>, b: T, c: T, d: T, e: seq<T>, f: seq<T>, h: T)
    ensures a + ([b, c, d] + e + f + [c, h]) == a + [b] + [c] + [d] + e + f + [c] + [h]
  {
  }

  // ---------------------------------------------------------------------------------------------------------
  // Parsing the lines
  // ---------------------------------------------------------------------------------------------------------

  /** A line no boundary can match, because it does not begin with a dash. */
  predicate NoDash(line: string) {
    line == "" || line[0] != '-'
  }

  lemma {:induction false} HeadersCounted(headers: seq<string>, rest: seq<string>)
    requires forall i | 0 <= i < |headers| :: headers[i] != ""
    requires rest != [] ==> rest[0] == ""
    ensures HeaderCount(headers + rest) == |headers|
  {
    if headers == [] {
      assert headers + rest == rest;
    } else {
      assert (headers + rest)[1..] == headers[1..] + rest;
      HeadersCounted(headers[1..], rest);
    }
  }

  lemma {:induction false} BlankLines(tail: seq<string>)
    requires forall i | 0 <= i < |tail| :: tail[i] == ""
    ensures Concat(tail) == ""
  {
    if tail != [] {
      BlankLines(tail[1..]);
    }
  }

  lemma BodyDecodes(data: seq<byte>, tail: seq<string>)
    requires forall i | 0 <= i < |tail| :: tail[i] == ""
    ensures Decode(Concat(Base64Lines(data) + tail)) == Some(data)
  {
    hide Decode, Concat, Base64Lines;
    ConcatAppend(Base64Lines(data), tail);
    BlankLines(tail);
    assert Concat(Base64Lines(data)) + "" == Concat(Base64Lines(data));
    Base64Written(data);
  }

  lemma EncodedIsLeaf(headers: seq<string>, body: seq<string>)
    requires ENCODING in headers && forall i | 0 <= i < |headers| :: headers[i] != ""
    ensures Parse(headers + ([""] + body)) == Leaf(headers, Decode(Concat(body)))
  {
    hide Decode, Concat, BoundaryOf, SplitParts, HeaderCount;
    var rest := [""] + body;
    var lines := headers + rest;
    HeadersCounted(headers, rest);
    assert lines[..|headers|] == headers && lines[|headers|..] == rest;
    assert rest[1..] == body;
  }

  /** A base64 part reads as its headers and its bytes, whatever empty lines follow. */
  lemma LeafParses(headers: seq<string>, data: seq<byte>, tail: seq<string>)
    requires ENCODING in headers && forall i | 0 <= i < |headers| :: headers[i] != ""
    requires forall i | 0 <= i < |tail| :: tail[i] == ""
    ensures Parse(PartLines(headers, data) + tail) == Leaf(headers, Some(data))
  {
    hide Decode, Concat, Base64Lines, Parse;
    var body := Base64Lines(data) + tail;
    assert PartLines(headers, data) + tail == headers + ([""] + body);
    EncodedIsLeaf(headers, body);
    BodyDecodes(data, tail);
  }

  lemma {:induction false} CollectPlain(xs: seq<string>, rest: seq<string>, b: string, current: seq<string>)
    requires forall i | 0 <= i < |xs| :: !IsDelimiter(xs[i], b)
    ensures Collect(xs + rest, b, current) == Collect(rest, b, current + xs)
    decreases |xs|
  {
    if xs == [] {
      assert xs + rest == rest && current + xs == current;
    } else {
      assert (xs + rest)[1..] == xs[1..] + rest;
      CloseIsDelimiter(xs[0], b);
      CollectPlain(xs[1..], rest, b, current + [xs[0]]);
      assert current + [xs[0]] + xs[1..] == current + xs;
    }
  }

  lemma CloseIsDelimiter(line: string, b: string)
    ensures IsClose(line, b) ==> IsDelimiter(line, b)
  {
    assert "--" + b <= "--" + b + "--";
  }

  lemma NoDashNoDelimiter(line: string, b: string)
    requires NoDash(line)
    ensures !IsDelimiter(line, b)
  {
    assert ("--" + b)[0] == '-';
  }

  /** One delimiter line ends the current part and opens the next. */
  lemma CollectDelimiter(b: string, rest: seq<string>, current: seq<string>)
    ensures Collect(["--" + b] + rest, b, current) == [current] + Collect(rest, b, [])
    ensures Collect(["--" + b + "--"] + rest, b, current) == [current]
  {
    assert (["--" + b] + rest)[1..] == rest;
    assert !IsClose("--" + b, b);
    assert IsClose("--" + b + "--", b);
  }

  lemma PartHasNoDash(headers: seq<string>, data: seq<byte>)
    requires forall i | 0 <= i < |headers| :: NoDash(headers[i])
    ensures forall i | 0 <= i < |PartLines(headers, data)| :: NoDash(PartLines(headers, data)[i])
  {
    Base64Written(data);
  }

  lemma PartNoDelimiter(headers: seq<string>, data: seq<byte>, tail: seq<string>, b: string)
    requires forall i | 0 <= i < |headers| :: NoDash(headers[i])
    requires tail == [] || tail == [""]
    ensures forall i | 0 <= i < |PartLines(headers, data) + tail| ::
              !IsDelimiter((PartLines(headers, data) + tail)[i], b)
  {
    PartHasNoDash(headers, data);
    var lines := PartLines(headers, data) + tail;
    forall i | 0 <= i < |lines| ensures !IsDelimiter(lines[i], b) {
      assert NoDash(lines[i]);
      NoDashNoDelimiter(lines[i], b);
    }
  }

  /** The alternative splits into exactly its two parts. */
  lemma AltSplits(lib: Library, msg: Message, tail: seq<string>)
    ensures SplitParts(AltLines(lib, msg) + tail, AltBoundary(lib))
            == [PartLines(TextHeaders(PLAIN_TYPE), msg.body) + [""],
                PartLines(TextHeaders(HTML_TYPE), msg.htmlBody) + [""]]
  {
    hide PartLines;
    var b := AltBoundary(lib);
    var p1, p2 := PartLines(TextHeaders(PLAIN_TYPE), msg.body) + [""],
        PartLines(TextHeaders(HTML_TYPE), msg.htmlBody) + [""];
    PartNoDelimiter(TextHeaders(PLAIN_TYPE), msg.body, [""], b);
    PartNoDelimiter(TextHeaders(HTML_TYPE), msg.htmlBody, [""], b);
    var end := ["--" + b + "--"] + tail;
    var second := ["--" + b] + (p2 + end);
    var all := ["--" + b] + (p1 + second);
    assert AltLines(lib, msg) + tail == all;
    FirstDelimiter(b, p1 + second);
    CollectPlain(p1, second, b, []);
    CollectDelimiter(b, p2 + end, [] + p1);
    CollectPlain(p2, end, b, []);
    CollectDelimiter(b, tail, [] + p2);
    assert [] + p1 == p1 && [] + p2 == p2;
  }

  /** Headers that say nothing about the structure of the entity. */
  ghost predicate Neutral(headers: seq<string>) {
    forall i | 0 <= i < |headers| :: headers[i] != "" && headers[i][0] != 'C'
  }

  lemma {:induction false} NeutralBoundary(headers: seq<string>, last: string)
    requires Neutral(headers)
    ensures BoundaryOf(headers + [last]) == BoundaryOf([last])
    ensures ENCODING !in headers
  {
    if headers == [] {
      assert headers + [last] == [last];
    } else {
      assert (headers + [last])[1..] == headers[1..] + [last];
      NeutralBoundary(headers[1..], last);
      BoundaryTypes();
      assert ENCODING[0] == 'C';
      assert headers == [headers[0]] + headers[1..];
    }
  }

  lemma BoundaryRead(lib: Library)
    ensures BoundaryOf([ALTERNATIVE + AltBoundary(lib)]) == Some(AltBoundary(lib))
    ensures BoundaryOf([MIXED + MixedBoundary(lib)]) == Some(MixedBoundary(lib))
    ensures ALTERNATIVE + AltBoundary(lib) != ENCODING && MIXED + MixedBoundary(lib) != ENCODING
  {
    var a, m := ALTERNATIVE + AltBoundary(lib), MIXED + MixedBoundary(lib);
    assert a[24] == 'a' && MIXED[24] == 'm';
    assert !Begins(a, MIXED);
    assert Begins(a, ALTERNATIVE) && a[|ALTERNATIVE|..] == AltBoundary(lib);
    assert Begins(m, MIXED) && m[|MIXED|..] == MixedBoundary(lib);
    assert ENCODING[8] == 'T' && ENCODING[9] == 'r' && a[9] == 'y' && m[9] == 'y';
  }

  /** A composite entity reads as the entities between its boundaries. */
  lemma MultiParses(headers: seq<string>, last: string, b: string, body: seq<string>, parts: seq<seq<string>>)
    requires Neutral(headers) && last != "" && last != ENCODING
    requires BoundaryOf([last]) == Some(b) && SplitParts(body, b) == parts
    ensures var e := Parse(headers + [last, ""] + body);
            && e.Multi? && e.headers == headers + [last] && |e.parts| == |parts|
            && (forall i | 0 <= i < |parts| :: e.parts[i] == Parse(parts[i]))
  {
    var hs, rest := headers + [last], [""] + body;
    var lines := headers + [last, ""] + body;
    assert lines == hs + rest;
    HeadersCounted(hs, rest);
    assert lines[..|hs|] == hs && lines[|hs|..] == rest && rest[1..] == body;
    NeutralBoundary(headers, last);
  }

  /** The message without its attachments reads as its body, or as body and HTML in that order. */
  lemma ContentParses(lib: Library, msg: Message, headers: seq<string>, tail: seq<string>)
    requires Neutral(headers) && (tail == [] || tail == [""])
    ensures Parse(headers + ContentLines(lib, msg) + tail) == Content(lib, msg, headers)
  {
    if msg.htmlBody != [] {
      AlternativeParses(lib, msg, headers, tail);
    } else {
      PlainParses(lib, msg, headers, tail);
    }
  }

  lemma PlainParses(lib: Library, msg: Message, headers: seq<string>, tail: seq<string>)
    requires Neutral(headers) && (tail == [] || tail == [""]) && msg.htmlBody == []
    ensures Parse(headers + ContentLines(lib, msg) + tail) == Content(lib, msg, headers)
  {
    hide Parse, Base64Lines;
    var text := TextHeaders(PLAIN_TYPE);
    var hs := headers + text;
    assert hs[|headers| + 1] == ENCODING;
    LeafParses(hs, msg.body, [""] + tail);
    assert headers + ContentLines(lib, msg) + tail == PartLines(hs, msg.body) + ([""] + tail);
  }

  lemma AlternativeParses(lib: Library, msg: Message, headers: seq<string>, tail: seq<string>)
    requires Neutral(headers) && (tail == [] || tail == [""]) && msg.htmlBody != []
    ensures Parse(headers + ContentLines(lib, msg) + tail) == Content(lib, msg, headers)
  {
    hide Parse, AltLines, AltBoundary, PartLines, SplitParts, BoundaryOf;
    var last, body := ALTERNATIVE + AltBoundary(lib), AltLines(lib, msg) + tail;
    var p1, p2 := PartLines(TextHeaders(PLAIN_TYPE), msg.body) + [""],
        PartLines(TextHeaders(HTML_TYPE), msg.htmlBody) + [""];
    AltSplits(lib, msg, tail);
    BoundaryRead(lib);
    MultiParses(headers, last, AltBoundary(lib), body, [p1, p2]);
    LeafParses(TextHeaders(PLAIN_TYPE), msg.body, [""]);
    LeafParses(TextHeaders(HTML_TYPE), msg.htmlBody, [""]);
    assert headers + ContentLines(lib, msg) + tail == headers + [last, ""] + body;
    var e := Parse(headers + [last, ""] + body);
    assert e.parts == [TextLeaf(PLAIN_TYPE, msg.body), TextLeaf(HTML_TYPE, msg.htmlBody)];
  }

  // ---------------------------------------------------------------------------------------------------------
  // The outer level
  // ---------------------------------------------------------------------------------------------------------

  /** The alternative boundary never matches the mixed one, whatever the random suffixes are. */
  lemma AltIsNotMixed(lib: Library, ending: string)
    ensures !IsDelimiter("--" + AltBoundary(lib) + ending, MixedBoundary(lib))
  {
    var line, mark := "--" + AltBoundary(lib) + ending, "--" + MixedBoundary(lib);
    assert line[11] == 'a' && mark[11] == 'm';
  }

  lemma BoundaryTypes()
    ensures ALTERNATIVE[0] == 'C' && MIXED[0] == 'C'
  {
    assert TYPE[0] == 'C';
  }

  lemma AltHeaderNoDelimiter(lib: Library, b: string)
    ensures !IsDelimiter(ALTERNATIVE + AltBoundary(lib), b) && !IsDelimiter("", b)
  {
    hide IsDelimiter;
    NoDashNoDelimiter("", b);
    BoundaryTypes();
    NoDashNoDelimiter(ALTERNATIVE + AltBoundary(lib), b);
  }

  lemma ContentNoDelimiter(lib: Library, msg: Message)
    ensures forall i | 0 <= i < |ContentLines(lib, msg)| :: !IsDelimiter(ContentLines(lib, msg)[i], MixedBoundary(lib))
  {
    hide PartLines, IsDelimiter, AltBoundary, MixedBoundary, TextHeaders;
    var b, lines := MixedBoundary(lib), ContentLines(lib, msg);
    TextNoDelimiter(PLAIN_TYPE, msg.body, b);
    TextNoDelimiter(HTML_TYPE, msg.htmlBody, b);
    var p1, p2 := PartLines(TextHeaders(PLAIN_TYPE), msg.body) + [""],
        PartLines(TextHeaders(HTML_TYPE), msg.htmlBody) + [""];
    var open, close := "--" + AltBoundary(lib), "--" + AltBoundary(lib) + "--";
    AltIsNotMixed(lib, "");
    AltIsNotMixed(lib, "--");
    assert open + "" == open;
    AltHeaderNoDelimiter(lib, b);
    if msg.htmlBody != [] {
      assert lines == [ALTERNATIVE + AltBoundary(lib), "", open] + p1 + [open] + p2 + [close];
    } else {
      assert lines == p1;
    }
  }

  lemma TextNoDelimiter(contentType: string, data: seq<byte>, b: string)
    requires contentType == PLAIN_TYPE || contentType == HTML_TYPE
    ensures var lines := PartLines(TextHeaders(contentType), data) + [""];
            forall i | 0 <= i < |lines| :: !IsDelimiter(lines[i], b)
  {
    hide PartLines, IsDelimiter;
    PartNoDelimiter(TextHeaders(contentType), data, [""], b);
  }

  lemma AttachmentNoDash(lib: Library, att: Attachment)
    ensures forall i | 0 <= i < |AttachmentHeaders(lib, att)| :: NoDash(AttachmentHeaders(lib, att)[i])
  {
  }

  function AttachmentParts(lib: Library, atts: seq<Attachment>): seq<seq<string>> {
    seq(|atts|, i requires 0 <= i < |atts| => PartLines(AttachmentHeaders(lib, atts[i]), atts[i].data) + [""])
  }

  /** The current part ends where the first attachment begins, and each attachment is one part. */
  lemma {:induction false} AttachmentsSplit(lib: Library, atts: seq<Attachment>, current: seq<string>)
    ensures Collect(AttachmentsLines(lib, atts) + ["", "--" + MixedBoundary(lib) + "--"], MixedBoundary(lib), current)
            == [current + [""]] + AttachmentParts(lib, atts)
    decreases |atts|
  {
    hide PartLines, AttachmentHeaders, MixedBoundary, Collect;
    var b := MixedBoundary(lib);
    var end := ["", "--" + b + "--"];
    NoDashNoDelimiter("", b);
    if atts == [] {
      assert AttachmentsLines(lib, atts) + end == [""] + (["--" + b + "--"] + []);
      CollectPlain([""], ["--" + b + "--"] + [], b, current);
      CollectDelimiter(b, [], current + [""]);
    } else {
      var part, rest := PartLines(AttachmentHeaders(lib, atts[0]), atts[0].data),
          AttachmentsLines(lib, atts[1..]) + end;
      assert AttachmentsLines(lib, atts) + end == [""] + (["--" + b] + (part + rest));
      CollectPlain([""], ["--" + b] + (part + rest), b, current);
      CollectDelimiter(b, part + rest, current + [""]);
      AttachmentNoDash(lib, atts[0]);
      PartNoDelimiter(AttachmentHeaders(lib, atts[0]), atts[0].data, [], b);
      assert part + [] == part;
      CollectPlain(part, rest, b, []);
      assert [] + part == part;
      AttachmentsSplit(lib, atts[1..], part);
      assert AttachmentParts(lib, atts) == [part + [""]] + AttachmentParts(lib, atts[1..]);
    }
  }

  /** The mixed body splits into the content and the attachments, in order. */
  lemma MixedSplits(lib: Library, msg: Message)
    ensures var b := MixedBoundary(lib);
            SplitParts(["--" + b] + ContentLines(lib, msg) + AttachmentsLines(lib, msg.attachments)
                       + ["", "--" + b + "--"], b)
            == [ContentLines(lib, msg) + [""]] + AttachmentParts(lib, msg.attachments)
  {
    hide MixedBoundary, ContentLines, AttachmentsLines, AttachmentParts, Collect;
    var b, content := MixedBoundary(lib), ContentLines(lib, msg);
    var rest := AttachmentsLines(lib, msg.attachments) + ["", "--" + b + "--"];
    var all := ["--" + b] + ContentLines(lib, msg) + AttachmentsLines(lib, msg.attachments) + ["", "--" + b + "--"];
    assert all == ["--" + b] + (content + rest);
    FirstDelimiter(b, content + rest);
    ContentNoDelimiter(lib, msg);
    CollectPlain(content, rest, b, []);
    assert [] + content == content;
    AttachmentsSplit(lib, msg.attachments, content);
  }

  lemma FirstDelimiter(b: string, rest: seq<string>)
    ensures SplitParts(["--" + b] + rest, b) == Collect(rest, b, [])
  {
    hide Collect;
    assert (["--" + b] + rest)[1..] == rest;
    assert !IsClose("--" + b, b) && IsDelimiter("--" + b, b);
  }

  lemma TopIsNeutral(cfg: EmailConfig, lib: Library, msg: Message)
    ensures Neutral(TopHeaders(cfg, lib, msg))
  {
  }

  /** The printed lines parse to the message's meaning. */
  lemma MessageParses(cfg: EmailConfig, lib: Library, msg: Message)
    ensures Parse(MessageLines(cfg, lib, msg)) == Meaning(cfg, lib, msg)
  {
    hide Parse, TopHeaders, ContentLines, AttachmentsLines, Neutral, MixedBoundary;
    var top, b := TopHeaders(cfg, lib, msg), MixedBoundary(lib);
    TopIsNeutral(cfg, lib, msg);
    if msg.attachments == [] {
      ContentParses(lib, msg, top, []);
      assert MessageLines(cfg, lib, msg) == top + ContentLines(lib, msg) + [];
    } else {
      MixedParses(lib, msg, top);
      assert MessageLines(cfg, lib, msg)
          == top + [MIXED + b, ""]
             + (["--" + b] + ContentLines(lib, msg) + AttachmentsLines(lib, msg.attachments) + ["", "--" + b + "--"]);
    }
  }

  lemma MixedParses(lib: Library, msg: Message, top: seq<string>)
    requires Neutral(top)
    ensures var b := MixedBoundary(lib);
            Parse(top + [MIXED + b, ""]
                  + (["--" + b] + ContentLines(lib, msg) + AttachmentsLines(lib, msg.attachments)
                     + ["", "--" + b + "--"]))
            == Multi(top + [MIXED + b],
                     [Content(lib, msg, [])]
                     + seq(|msg.attachments|,
                           i requires 0 <= i < |msg.attachments| => AttachmentLeaf(lib, msg.attachments[i])))
  {
    hide Parse, PartLines, SplitParts, BoundaryOf, ContentLines, AttachmentsLines, Content, AttachmentHeaders,
         MixedBoundary, Neutral;
    var b, atts := MixedBoundary(lib), msg.attachments;
    var body := ["--" + b] + ContentLines(lib, msg) + AttachmentsLines(lib, atts) + ["", "--" + b + "--"];
    var parts := [ContentLines(lib, msg) + [""]] + AttachmentParts(lib, atts);
    MixedSplits(lib, msg);
    BoundaryRead(lib);
    MultiParses(top, MIXED + b, b, body, parts);
    NothingIsNeutral();
    ContentParses(lib, msg, [], [""]);
    assert [] + ContentLines(lib, msg) + [""] == ContentLines(lib, msg) + [""];
    var leaves := seq(|atts|, i requires 0 <= i < |atts| => AttachmentLeaf(lib, atts[i]));
    var e := Parse(top + [MIXED + b, ""] + body);
    forall i | 0 <= i < |parts| ensures e.parts[i] == ([Content(lib, msg, [])] + leaves)[i] {
      if i > 0 {
        AttachmentParses(lib, atts[i - 1]);
      }
    }
    assert e.parts == [Content(lib, msg, [])] + leaves;
  }

  lemma NothingIsNeutral()
    ensures Neutral([])
  {
  }

  lemma AttachmentParses(lib: Library, att: Attachment)
    ensures Parse(PartLines(AttachmentHeaders(lib, att), att.data) + [""]) == AttachmentLeaf(lib, att)
  {
    assert AttachmentHeaders(lib, att)[1] == ENCODING;
    LeafParses(AttachmentHeaders(lib, att), att.data, [""]);
  }

  // ---------------------------------------------------------------------------------------------------------
  // From text to meaning
  // ---------------------------------------------------------------------------------------------------------

  ghost predicate AllClean(lines: seq<string>) {
    forall i | 0 <= i < |lines| :: Clean(lines[i])
  }

  lemma {:induction false} RecipientsClean(lib: Library, recipients: seq<string>)
    requires Sound(lib)
    ensures AllClean(CleanRecipients(lib, recipients))
  {
    if recipients != [] {
      RecipientsClean(lib, recipients[1..]);
    }
  }

  lemma {:induction false} JoinClean(parts: seq<string>)
    requires AllClean(parts)
    ensures Clean(Join(parts))
  {
    if |parts| > 1 {
      JoinClean(parts[1..]);
    }
  }

  lemma EncodingClean()
    ensures Clean(ENCODING)
  {
  }

  lemma TypesClean()
    ensures Clean(ENCODING) && Clean(PLAIN_TYPE) && Clean(HTML_TYPE)
  {
    EncodingClean();
  }

  lemma BoundaryTypesClean()
    ensures Clean(MIXED) && Clean(ALTERNATIVE)
  {
  }

  lemma CleanAdd(a: string, b: string)
    requires Clean(a) && Clean(b)
    ensures Clean(a + b)
  {
  }

  lemma WordsClean()
    ensures Clean("From: ") && Clean("To: ") && Clean("Subject: ") && Clean("Date: ") && Clean("Message-ID: <")
            && Clean("@") && Clean(">")
    ensures Clean("MIME-Version: 1.0")
  {
  }

  /** Whatever the fields hold, no header but From can be broken into two. */
  lemma TopClean(cfg: EmailConfig, lib: Library, msg: Message)
    requires Sound(lib)
    ensures AllClean(TopHeaders(cfg, lib, msg)[1..])
  {
    hide Join, CleanRecipients, SanitizeCRLF, FromHeader, HostName, Clean;
    RecipientsClean(lib, msg.recipients);
    JoinClean(CleanRecipients(lib, msg.recipients));
    WordsClean();
    CleanAdd("To: ", Join(CleanRecipients(lib, msg.recipients)));
    CleanAdd("Subject: ", lib.qEncode(SanitizeCRLF(msg.title)));
    CleanAdd("Date: ", lib.formatDate(MessageTime(lib, msg)));
    CleanAdd("Message-ID: <", lib.messageId);
    CleanAdd("Message-ID: <" + lib.messageId, "@");
    CleanAdd("Message-ID: <" + lib.messageId + "@", SanitizeCRLF(HostName(cfg, lib)));
    CleanAdd("Message-ID: <" + lib.messageId + "@" + SanitizeCRLF(HostName(cfg, lib)), ">");
  }

  lemma BoundariesClean(lib: Library)
    requires Sound(lib)
    ensures Clean(MIXED + MixedBoundary(lib)) && Clean("--" + MixedBoundary(lib))
            && Clean("--" + MixedBoundary(lib) + "--")
    ensures Clean(ALTERNATIVE + AltBoundary(lib)) && Clean("--" + AltBoundary(lib))
            && Clean("--" + AltBoundary(lib) + "--")
  {
    BoundaryTypesClean();
  }

  lemma PartClean(headers: seq<string>, data: seq<byte>)
    requires AllClean(headers)
    ensures AllClean(PartLines(headers, data) + [""])
    ensures AllClean(PartLines(headers, data))
  {
    hide Base64Lines;
    Base64Written(data);
  }

  lemma TextHeadersClean()
    ensures AllClean(TextHeaders(PLAIN_TYPE)) && AllClean(TextHeaders(HTML_TYPE))
  {
    hide Clean;
    TypesClean();
  }

  lemma ContentClean(lib: Library, msg: Message)
    requires Sound(lib)
    ensures AllClean(ContentLines(lib, msg))
  {
    BoundariesClean(lib);
    TextHeadersClean();
    PartClean(TextHeaders(PLAIN_TYPE), msg.body);
    PartClean(TextHeaders(HTML_TYPE), msg.htmlBody);
    assert Clean("");
    hide PartLines, TextHeaders, AltBoundary, Clean;
    var open, close := "--" + AltBoundary(lib), "--" + AltBoundary(lib) + "--";
    var p1, p2 := PartLines(TextHeaders(PLAIN_TYPE), msg.body) + [""],
        PartLines(TextHeaders(HTML_TYPE), msg.htmlBody) + [""];
    if msg.htmlBody != [] {
      assert ContentLines(lib, msg) == [ALTERNATIVE + AltBoundary(lib), "", open] + p1 + [open] + p2 + [close];
    } else {
      assert ContentLines(lib, msg) == p1;
    }
  }

  lemma AttachmentClean(lib: Library, att: Attachment)
    requires Sound(lib)
    ensures AllClean(AttachmentHeaders(lib, att))
  {
    hide SanitizeCRLF, Ascii;
    TypesClean();
  }

  lemma {:induction false} AttachmentsClean(lib: Library, atts: seq<Attachment>)
    requires Sound(lib)
    ensures AllClean(AttachmentsLines(lib, atts))
  {
    hide PartLines, AttachmentHeaders, MixedBoundary;
    if atts != [] {
      BoundariesClean(lib);
      AttachmentClean(lib, atts[0]);
      PartClean(AttachmentHeaders(lib, atts[0]), atts[0].data);
      AttachmentsClean(lib, atts[1..]);
      assert Clean("");
    }
  }

  /** After the first line, no printed line can be broken into two. */
  lemma MessageClean(cfg: EmailConfig, lib: Library, msg: Message)
    requires Sound(lib)
    ensures MessageLines(cfg, lib, msg)[0] == "From: " + FromHeader(cfg, lib)
    ensures AllClean(MessageLines(cfg, lib, msg)[1..])
  {
    hide TopHeaders, ContentLines, AttachmentsLines, MixedBoundary, AltBoundary, Clean, FromHeader, Sound;
    TopClean(cfg, lib, msg);
    TopFirst(cfg, lib, msg);
    BodyClean(lib, msg);
    var top, lines := TopHeaders(cfg, lib, msg), MessageLines(cfg, lib, msg);
    if msg.attachments == [] {
      assert lines[1..] == top[1..] + ContentLines(lib, msg);
    } else {
      assert lines[1..] == top[1..] + MixedLines(lib, msg);
    }
  }

  lemma BodyClean(lib: Library, msg: Message)
    requires Sound(lib)
    ensures AllClean(ContentLines(lib, msg)) && AllClean(MixedLines(lib, msg))
  {
    assert Clean("");
    hide ContentLines, AttachmentsLines, MixedBoundary, AltBoundary, Clean, Sound;
    ContentClean(lib, msg);
    AttachmentsClean(lib, msg.attachments);
    BoundariesClean(lib);
  }

  lemma TopFirst(cfg: EmailConfig, lib: Library, msg: Message)
    ensures |TopHeaders(cfg, lib, msg)| > 0 && TopHeaders(cfg, lib, msg)[0] == "From: " + FromHeader(cfg, lib)
  {
  }

  lemma ParseHeaders(lines: seq<string>)
    ensures Parse(lines).headers == lines[..HeaderCount(lines)]
  {
    hide HeaderCount, BoundaryOf, SplitParts, Decode, Concat;
  }

  lemma MeaningHeaders(cfg: EmailConfig, lib: Library, msg: Message)
    ensures |Meaning(cfg, lib, msg).headers| > 0
    ensures Meaning(cfg, lib, msg).headers[0] == "From: " + FromHeader(cfg, lib)
  {
    hide FromHeader, MixedBoundary, AltBoundary, TextHeaders;
  }

  /**
   * For each kind of reader, the text reads back as exactly the nested parts and bytes it was built from, if and only
   * if the reader takes the From line for one line. The builder sanitizes every other field, but uses the configured
   * address as it is when there is no display name.
   */
  lemma MimeRoundTrip(reader: Reader, cfg: EmailConfig, lib: Library, msg: Message)
    requires Sound(lib)
    ensures Parse(Lines(reader, Unlines(MessageLines(cfg, lib, msg)))) == Meaning(cfg, lib, msg)
            <==> OneLine(reader, "From: " + FromHeader(cfg, lib))
  {
    hide Parse, MessageLines, Meaning, FromHeader, Unlines, SplitLines, HeaderCount, Sound, OneLine, Clean;
    var lines, from := MessageLines(cfg, lib, msg), "From: " + FromHeader(cfg, lib);
    MessageClean(cfg, lib, msg);
    if OneLine(reader, from) {
      forall i | 0 <= i < |lines| ensures OneLine(reader, lines[i]) {
        if i > 0 {
          assert lines[i] == lines[1..][i - 1];
          CleanIsOneLine(reader, lines[i]);
        }
      }
      LinesOfUnlines(reader, lines);
      MessageParses(cfg, lib, msg);
    }
    var read := Lines(reader, Unlines(lines));
    NothingIsOneLine(reader);
    SplitGivesLines(reader, Unlines(lines), "");
    ParseHeaders(read);
    MeaningHeaders(cfg, lib, msg);
    if Parse(read) == Meaning(cfg, lib, msg) {
      assert from == read[..HeaderCount(read)][0] == read[0];
    }
  }

  lemma NothingIsOneLine(reader: Reader)
    ensures OneLine(reader, "")
  {
  }

  /** All readers get the message back if and only if there is a display name or the address is free of CR and LF. */
  lemma EveryReaderRoundTrip(cfg: EmailConfig, lib: Library, msg: Message)
    requires Sound(lib)
    ensures (forall reader :: Parse(Lines(reader, Unlines(MessageLines(cfg, lib, msg)))) == Meaning(cfg, lib, msg))
            <==> cfg.fromName != "" || Clean(cfg.fromAddress)
  {
    hide Parse, MessageLines, Meaning, Unlines, SplitLines, SanitizeCRLF;
    var from := "From: " + FromHeader(cfg, lib);
    assert Clean(from) <==> cfg.fromName != "" || Clean(cfg.fromAddress);
    forall reader: Reader
      ensures Parse(Lines(reader, Unlines(MessageLines(cfg, lib, msg)))) == Meaning(cfg, lib, msg)
              <==> OneLine(reader, from)
      ensures Clean(from) ==> OneLine(reader, from)
    {
      MimeRoundTrip(reader, cfg, lib, msg);
      if Clean(from) {
        CleanIsOneLine(reader, from);
      }
    }
    MimeRoundTrip(Universal, cfg, lib, msg);
  }

  /** A line break between two clean strings makes two lines: CRLF for every reader, LF for all but the strict one. */
  lemma BrokenLines(reader: Reader, a: string, b: string)
    requires Clean(a) && Clean(b)
    ensures !OneLine(reader, a + "\r\n" + b)
    ensures OneLine(reader, a + "\n" + b) <==> reader == Strict
  {
    var crlf, lf := a + "\r\n" + b, a + "\n" + b;
    assert crlf[|a|] == '\r' && crlf[|a| + 1] == '\n' && lf[|a|] == '\n';
    assert '\r' !in lf;
    assert forall i | 0 <= i < |lf| :: lf[i] in lf;
  }

  /**
   * Two addresses that do not read back: one with CRLF for every reader, one with a bare LF for all but the strict one.
   */
  lemma BrokenFrom(lib: Library, msg: Message, reader: Reader, host: string)
    requires Sound(lib)
    ensures var crlf, lf := EmailConfig("a@b.c" + "\r\n" + "Bcc: d@e.f", "", host),
                            EmailConfig("a@b.c" + "\n" + "Bcc: d@e.f", "", host);
            && Parse(Lines(reader, Unlines(MessageLines(crlf, lib, msg)))) != Meaning(crlf, lib, msg)
            && (Parse(Lines(reader, Unlines(MessageLines(lf, lib, msg)))) == Meaning(lf, lib, msg)
                <==> reader == Strict)
  {
    hide Parse, MessageLines, Meaning, Unlines, SplitLines, OneLine, Sound;
    var crlf, lf := EmailConfig("a@b.c" + "\r\n" + "Bcc: d@e.f", "", host),
        EmailConfig("a@b.c" + "\n" + "Bcc: d@e.f", "", host);
    MimeRoundTrip(reader, crlf, lib, msg);
    MimeRoundTrip(reader, lf, lib, msg);
    BrokenLines(reader, "From: " + "a@b.c", "Bcc: d@e.f");
    assert "From: " + crlf.fromAddress == "From: " + "a@b.c" + "\r\n" + "Bcc: d@e.f";
    assert "From: " + lf.fromAddress == "From: " + "a@b.c" + "\n" + "Bcc: d@e.f";
  }

  /** The value of the first header of this name. */
  function HeaderValue(headers: seq<string>, name: string): Option<string> {
    if headers == [] then None
    else if Begins(headers[0], name + ": ") then Some(headers[0][|name| + 2..])
    else HeaderValue(headers[1..], name)
  }

  lemma ValueHere(headers: seq<string>, name: string, value: string)
    requires headers != [] && headers[0] == name + ": " + value
    ensures HeaderValue(headers, name) == Some(value)
  {
    assert headers[0][|name| + 2..] == value;
  }

  /** A name that none of the first n headers begins with the letter of. */
  lemma {:induction false} ValueAfter(headers: seq<string>, n: nat, name: string)
    requires n <= |headers| && name != ""
    requires forall i | 0 <= i < n :: headers[i] != "" && headers[i][0] != name[0]
    ensures HeaderValue(headers, name) == HeaderValue(headers[n..], name)
  {
    if n == 0 {
      assert headers[0..] == headers;
    } else {
      assert (name + ": ")[0] == name[0];
      assert headers[1..][n - 1..] == headers[n..];
      ValueAfter(headers[1..], n - 1, name);
    }
  }

  /**
   * The headers a reader finds on top: sender, encoded title and date from the message as it was given, and an id at
   * the configured host. A message without a time is dated at sending.
   */
  lemma TopValues(cfg: EmailConfig, lib: Library, msg: Message)
    ensures var top := TopHeaders(cfg, lib, msg);
            && HeaderValue(top, "From")
               == Some(if cfg.fromName == "" then cfg.fromAddress
                       else lib.qEncode(SanitizeCRLF(cfg.fromName)) + " <" + SanitizeCRLF(cfg.fromAddress) + ">")
            && HeaderValue(top, "To") == Some(Join(CleanRecipients(lib, msg.recipients)))
            && HeaderValue(top, "Subject") == Some(lib.qEncode(SanitizeCRLF(msg.title)))
            && HeaderValue(top, "Date")
               == Some(lib.formatDate(if msg.createdAt.Some? then msg.createdAt.value else lib.now))
            && (var host := if cfg.host != "" then cfg.host
                            else if lib.machine.Some? && lib.machine.value != "" then lib.machine.value
                            else "localhost";
                HeaderValue(top, "Message-ID") == Some("<" + lib.messageId + "@" + SanitizeCRLF(host) + ">"))
            && HeaderValue(top, "MIME-Version") == Some("1.0")
  {
    hide HeaderValue, Join, CleanRecipients, SanitizeCRLF;
    var top := TopHeaders(cfg, lib, msg);
    ValueHere(top, "From", FromHeader(cfg, lib));
    ValueHere(top[1..], "To", Join(CleanRecipients(lib, msg.recipients)));
    ValueHere(top[2..], "Subject", lib.qEncode(SanitizeCRLF(msg.title)));
    ValueHere(top[3..], "Date", lib.formatDate(MessageTime(lib, msg)));
    var id := "<" + lib.messageId + "@" + SanitizeCRLF(HostName(cfg, lib)) + ">";
    assert top[4] == "Message-ID: " + id;
    ValueHere(top[4..], "Message-ID", id);
    ValueAfter(top, 1, "To");
    ValueAfter(top, 2, "Subject");
    ValueAfter(top, 3, "Date");
    ValueAfter(top, 4, "Message-ID");
    VersionValue(top);
  }

  lemma VersionValue(top: seq<string>)
    requires |top| == 6 && top[5] == "MIME-Version: 1.0"
    requires forall i | 0 <= i < 4 :: top[i] != "" && top[i][0] != 'M'
    requires "Message-ID: " <= top[4]
    ensures HeaderValue(top, "MIME-Version") == Some("1.0")
  {
    ValueAfter(top, 4, "MIME-Version");
    assert top[4][1] == 'e';
    assert !Begins(top[4..][0], "MIME-Version" + ": ");
    ValueHere(top[5..], "MIME-Version", "1.0");
    assert top[4..][1..] == top[5..];
  }

  /**
   * A reader who splits the To value at the commas gets exactly the cleaned recipients in their order, if the separator
   * is in none of them; without recipients the value is empty.
   */
  lemma ToReadsBack(cfg: EmailConfig, lib: Library, msg: Message)
    ensures var to, clean := HeaderValue(TopHeaders(cfg, lib, msg), "To"), CleanRecipients(lib, msg.recipients);
            && to.Some?
            && (clean == [] ==> to.value == "")
            && (clean != [] && (forall i | 0 <= i < |clean| :: !HasSeparator(clean[i]))
                ==> SplitList(to.value, "") == clean)
  {
    hide HeaderValue, TopHeaders, CleanRecipients, SplitList, HasSeparator;
    TopValues(cfg, lib, msg);
    var clean := CleanRecipients(lib, msg.recipients);
    if clean != [] && forall i | 0 <= i < |clean| :: !HasSeparator(clean[i]) {
      SplitJoined(clean);
    }
  }

  /**
   * On every attachment a reader finds its sanitized type, or the default one, its file name, quoted if it is ASCII and
   * as an encoded word otherwise, and how it is encoded.
   */
  lemma AttachmentValues(lib: Library, att: Attachment)
    ensures var headers, kind, plain := AttachmentHeaders(lib, att), SanitizeCRLF(att.contentType),
                                        SanitizeCRLF(att.filename);
            var name := if forall i | 0 <= i < |plain| :: plain[i] < '\U{0080}' then lib.quote(plain)
                        else lib.bEncode(plain);
            && HeaderValue(headers, "Content-Type")
               == Some((if kind == "" then "application/octet-stream" else kind) + "; name=" + name)
            && HeaderValue(headers, "Content-Disposition") == Some("attachment; filename=" + name)
            && HeaderValue(headers, "Content-Transfer" + "-Encoding") == Some("base64")
  {
    hide SanitizeCRLF, FormattedFilename, HeaderValue;
    var headers, name := AttachmentHeaders(lib, att), FormattedFilename(lib, SanitizeCRLF(att.filename));
    var kind := SanitizeCRLF(att.contentType);
    var shown := if kind == "" then "application/octet-stream" else kind;
    NameFormat(lib, SanitizeCRLF(att.filename));
    assert TYPE == "Content-Type" + ": ";
    assert headers[0] == "Content-Type" + ": " + (shown + "; name=" + name);
    ValueHere(headers, "Content-Type", shown + "; name=" + name);
    assert headers[2] == "Content-Disposition" + ": " + ("attachment; filename=" + name);
    EncodingValue(headers[0], shown + "; name=" + name, headers[1..]);
    assert [headers[0]] + headers[1..] == headers;
    TypeIsOther(headers[0], shown + "; name=" + name);
    DispositionValue(headers, "attachment; filename=" + name);
  }

  lemma NameFormat(lib: Library, filename: string)
    ensures FormattedFilename(lib, filename)
            == if forall i | 0 <= i < |filename| :: filename[i] < '\U{0080}' then lib.quote(filename)
               else lib.bEncode(filename)
  {
  }

  /** Content-Type does not begin like the two headers after it. */
  lemma TypeIsOther(header: string, value: string)
    requires header == "Content-Type" + ": " + value
    ensures !Begins(header, "Content-Transfer" + "-Encoding" + ": ") && !Begins(header, "Content-Disposition" + ": ")
  {
    assert header[8] == 'T' && header[9] == 'y';
    assert ("Content-Transfer" + "-Encoding" + ": ")[9] == 'r';
    assert ("Content-Disposition" + ": ")[8] == 'D';
  }

  lemma EncodingValue(first: string, value: string, rest: seq<string>)
    requires first == "Content-Type" + ": " + value && rest != [] && rest[0] == ENCODING
    ensures HeaderValue([first] + rest, "Content-Transfer" + "-Encoding") == Some("base64")
  {
    hide HeaderValue;
    TypeIsOther(first, value);
    assert ENCODING == "Content-Transfer" + "-Encoding" + ": " + "base64";
    ValueHere(rest, "Content-Transfer" + "-Encoding", "base64");
    SkipOne([first] + rest, "Content-Transfer" + "-Encoding");
    assert ([first] + rest)[1..] == rest;
  }

  lemma SkipOne(headers: seq<string>, name: string)
    requires headers != [] && !Begins(headers[0], name + ": ")
    ensures HeaderValue(headers, name) == HeaderValue(headers[1..], name)
  {
  }

  lemma DispositionValue(headers: seq<string>, value: string)
    requires |headers| == 3 && headers[1] == ENCODING && headers[2] == "Content-Disposition" + ": " + value
    requires !Begins(headers[0], "Content-Disposition" + ": ")
    ensures HeaderValue(headers, "Content-Disposition") == Some(value)
  {
    hide HeaderValue;
    assert ENCODING[8] == 'T' && ("Content-Disposition" + ": ")[8] == 'D';
    SkipOne(headers, "Content-Disposition");
    SkipOne(headers[1..], "Content-Disposition");
    assert headers[1..][1..] == headers[2..];
    ValueHere(headers[2..], "Content-Disposition", value);
  }

  /** The types of the text parts and of the parts made of others, and the encoding of all text. */
  lemma PartTypes(boundary: string)
    ensures HeaderValue(TextHeaders(PLAIN_TYPE), "Content-Type") == Some("text/plain" + "; charset=UTF-8")
    ensures HeaderValue(TextHeaders(HTML_TYPE), "Content-Type") == Some("text/html" + "; charset=UTF-8")
    ensures HeaderValue(TextHeaders(PLAIN_TYPE), "Content-Transfer" + "-Encoding") == Some("base64")
    ensures HeaderValue(TextHeaders(HTML_TYPE), "Content-Transfer" + "-Encoding") == Some("base64")
    ensures HeaderValue([MIXED + boundary], "Content-Type") == Some("multipart/mixed" + "; boundary=" + boundary)
    ensures HeaderValue([ALTERNATIVE + boundary], "Content-Type")
            == Some("multipart/alternative" + "; boundary=" + boundary)
  {
    hide HeaderValue;
    TypeValue(PLAIN_TYPE, "text/plain" + "; charset=UTF-8", [ENCODING]);
    TypeValue(HTML_TYPE, "text/html" + "; charset=UTF-8", [ENCODING]);
    EncodingValue(PLAIN_TYPE, "text/plain" + "; charset=UTF-8", [ENCODING]);
    EncodingValue(HTML_TYPE, "text/html" + "; charset=UTF-8", [ENCODING]);
    assert [PLAIN_TYPE] + [ENCODING] == TextHeaders(PLAIN_TYPE);
    assert [HTML_TYPE] + [ENCODING] == TextHeaders(HTML_TYPE);
    TypeValue(MIXED + boundary, "multipart/mixed" + "; boundary=" + boundary, []);
    TypeValue(ALTERNATIVE + boundary, "multipart/alternative" + "; boundary=" + boundary, []);
    assert [MIXED + boundary] + [] == [MIXED + boundary];
    assert [ALTERNATIVE + boundary] + [] == [ALTERNATIVE + boundary];
  }

  lemma TypeValue(header: string, value: string, rest: seq<string>)
    requires header == TYPE + value
    ensures HeaderValue([header] + rest, "Content-Type") == Some(value)
    ensures header == "Content-Type" + ": " + value
  {
    assert TYPE == "Content-Type" + ": ";
    ValueHere([header] + rest, "Content-Type", value);
  }

  /** Send cleans the recipients before the builder does: the To line names exactly the recipients of the envelope. */
  lemma {:induction false} EnvelopeIsTo(lib: Library, recipients: seq<string>)
    requires Sound(lib) && forall s :: lib.trim(lib.trim(s)) == lib.trim(s)
    ensures CleanRecipients(lib, CleanRecipients(lib, recipients)) == CleanRecipients(lib, recipients)
    decreases |recipients|
  {
    if recipients != [] {
      var clean, rest := lib.trim(SanitizeCRLF(recipients[0])), CleanRecipients(lib, recipients[1..]);
      EnvelopeIsTo(lib, recipients[1..]);
      if clean != "" {
        assert ([clean] + rest)[1..] == rest;
        assert lib.trim(SanitizeCRLF(clean)) == clean;
        assert CleanRecipients(lib, [clean] + rest) == [clean] + CleanRecipients(lib, rest);
      } else {
        assert CleanRecipients(lib, recipients) == rest;
      }
    }
  }
}
