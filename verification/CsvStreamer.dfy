/**
 * The CSV streamer over a writer that never fails. `log` is the abstract history of a streamer; every method ties the
 * bytes sent and buffered to it, and the lemmas say what the history means to a reader.
 */
module CsvStreamer {
  import opened Options
  import CsvFormat
  import CsvSanitizer

  /** The UTF-8 byte order mark. */
  const BOM: seq<byte> := [0xEF, 0xBB, 0xBF]

  datatype CSVOptions = CSVOptions(
    delimiter: seq<byte>, useCRLF: bool, includeBOM: bool, flushInterval: int, sanitizeFormulas: bool)

  datatype Setting =
    | WithDelimiter(delimiter: seq<byte>)
    | WithCRLF(crlf: bool)
    | WithBOM(bom: bool)
    | WithFlushInterval(interval: int)
    | WithFormulaSanitization(enabled: bool)

  function DefaultCSVOptions(): CSVOptions {
    CSVOptions([0x2C], true, true, 100, true)
  }

  function Set(o: CSVOptions, setting: Setting): CSVOptions {
    match setting
    case WithDelimiter(d) => o.(delimiter := d)
    case WithCRLF(crlf) => o.(useCRLF := crlf)
    case WithBOM(bom) => o.(includeBOM := bom)
    case WithFlushInterval(n) => o.(flushInterval := n)
    case WithFormulaSanitization(enabled) => o.(sanitizeFormulas := enabled)
  }

  /** The settings in order: of two for the same option the later one wins. */
  function Configured(o: CSVOptions, settings: seq<Setting>): CSVOptions
    decreases |settings|
  {
    if settings == [] then o else Configured(Set(o, settings[0]), settings[1..])
  }

  predicate InForce(o: CSVOptions, setting: Setting) {
    match setting
    case WithDelimiter(d) => o.delimiter == d
    case WithCRLF(crlf) => o.useCRLF == crlf
    case WithBOM(bom) => o.includeBOM == bom
    case WithFlushInterval(n) => o.flushInterval == n
    case WithFormulaSanitization(enabled) => o.sanitizeFormulas == enabled
  }

  predicate SameOption(a: Setting, b: Setting) {
    || (a.WithDelimiter? && b.WithDelimiter?) || (a.WithCRLF? && b.WithCRLF?) || (a.WithBOM? && b.WithBOM?)
    || (a.WithFlushInterval? && b.WithFlushInterval?)
    || (a.WithFormulaSanitization? && b.WithFormulaSanitization?)
  }

  predicate Untouched(settings: seq<Setting>, setting: Setting) {
    forall j | 0 <= j < |settings| :: !SameOption(setting, settings[j])
  }

  lemma {:induction false} StaysInForce(o: CSVOptions, settings: seq<Setting>, setting: Setting)
    requires InForce(o, setting) && Untouched(settings, setting)
    ensures InForce(Configured(o, settings), setting)
    decreases |settings|
  {
    if settings != [] {
      assert !SameOption(setting, settings[0]);
      StaysInForce(Set(o, settings[0]), settings[1..], setting);
    }
  }

  /** Of the settings for one option the last one is in force. */
  lemma {:induction false} LastInForce(o: CSVOptions, settings: seq<Setting>, i: nat)
    requires i < |settings| && Untouched(settings[i + 1..], settings[i])
    ensures InForce(Configured(o, settings), settings[i])
    decreases |settings|
  {
    if i == 0 {
      StaysInForce(Set(o, settings[0]), settings[1..], settings[0]);
    } else {
      assert settings[1..][i..] == settings[i + 1..];
      LastInForce(Set(o, settings[0]), settings[1..], i - 1);
    }
  }

  /**
   * The last setting for an option is in force, or its default: a comma, CRLF line ends, a byte order mark, a flush
   * every 100 rows, and sanitizing.
   */
  lemma SettingsInForce(settings: seq<Setting>)
    ensures var o := Configured(DefaultCSVOptions(), settings);
            && (forall i | 0 <= i < |settings| && Untouched(settings[i + 1..], settings[i]) :: InForce(o, settings[i]))
            && (forall d | d in [WithDelimiter([0x2C]), WithCRLF(true), WithBOM(true), WithFlushInterval(100),
                                 WithFormulaSanitization(true)] && Untouched(settings, d) :: InForce(o, d))
  {
    hide Configured, Untouched;
    forall i | 0 <= i < |settings| && Untouched(settings[i + 1..], settings[i])
      ensures InForce(Configured(DefaultCSVOptions(), settings), settings[i])
    {
      LastInForce(DefaultCSVOptions(), settings, i);
    }
    forall d | d in [WithDelimiter([0x2C]), WithCRLF(true), WithBOM(true), WithFlushInterval(100),
                     WithFormulaSanitization(true)] && Untouched(settings, d)
      ensures InForce(Configured(DefaultCSVOptions(), settings), d)
    {
      StaysInForce(DefaultCSVOptions(), settings, d);
    }
  }

  datatype Column<-T> = Column(header: seq<byte>, extractor: T -> seq<byte>)

  /** Everything a streamer is made with. */
  datatype Spec<-T> = Spec(
    lib: CsvFormat.Library, isNumber: seq<byte> -> bool, columns: seq<Column<T>>, options: CSVOptions)

  /** What happened so far: how often a mark was due, whether the header is written, and the rows. */
  datatype Log<+T> = Log(boms: nat, header: bool, rows: seq<T>)

  function Fresh<T>(): Log<T> {
    Log(0, false, [])
  }

  predicate Accepts<T>(spec: Spec<T>) {
    spec.lib.accepts(spec.options.delimiter)
  }

  // ---------------------------------------------------------------------------------------------------------
  // What is written
  // ---------------------------------------------------------------------------------------------------------

  function Cell<T>(spec: Spec<T>, value: seq<byte>): seq<byte> {
    if spec.options.sanitizeFormulas then CsvSanitizer.SanitizeCSVCell(spec.isNumber, value) else value
  }

  function HeaderRecord<T>(spec: Spec<T>): CsvFormat.Record {
    seq(|spec.columns|, i requires 0 <= i < |spec.columns| => Cell(spec, spec.columns[i].header))
  }

  function RowRecord<T>(spec: Spec<T>, item: T): CsvFormat.Record {
    seq(|spec.columns|, i requires 0 <= i < |spec.columns| => Cell(spec, spec.columns[i].extractor(item)))
  }

  function RowRecords<T>(spec: Spec<T>, rows: seq<T>): seq<CsvFormat.Record> {
    seq(|rows|, i requires 0 <= i < |rows| => RowRecord(spec, rows[i]))
  }

  function Written(spec: CSVOptions, lib: CsvFormat.Library, rs: seq<CsvFormat.Record>): seq<byte> {
    CsvFormat.WriteRecords(lib, spec.delimiter, spec.useCRLF, rs)
  }

  function Boms(n: nat): seq<byte> {
    if n == 0 then [] else Boms(n - 1) + BOM
  }

  /** The header, if it is written, and the rows in order. */
  function Records<T>(spec: Spec<T>, log: Log<T>): seq<CsvFormat.Record> {
    if log.header then [HeaderRecord(spec)] + RowRecords(spec, log.rows) else []
  }

  /** The bytes a history stands for. */
  function Text<T>(spec: Spec<T>, log: Log<T>): seq<byte> {
    Boms(if spec.options.includeBOM then log.boms else 0) + Written(spec.options, spec.lib, Records(spec, log))
  }

  lemma {:induction false} WrittenAppend(options: CSVOptions, lib: CsvFormat.Library, a: seq<CsvFormat.Record>,
                                         r: CsvFormat.Record)
    ensures Written(options, lib, a + [r])
            == Written(options, lib, a) + CsvFormat.WriteRecord(lib, options.delimiter, options.useCRLF, r)
  {
    hide CsvFormat.WriteRecord;
    if a == [] {
      assert a + [r] == [r];
      assert [r][1..] == [];
    } else {
      assert (a + [r])[1..] == a[1..] + [r];
      WrittenAppend(options, lib, a[1..], r);
    }
  }

  // ---------------------------------------------------------------------------------------------------------
  // Calls
  // ---------------------------------------------------------------------------------------------------------

  function AfterHeader<T>(spec: Spec<T>, log: Log<T>): Log<T> {
    if log.header then log else Log(log.boms + 1, Accepts(spec), log.rows)
  }

  /** A row writes the header first; without a header there is no row. */
  function AfterRow<T>(spec: Spec<T>, log: Log<T>, item: T): Log<T> {
    var l := AfterHeader(spec, log);
    if l.header then l.(rows := l.rows + [item]) else l
  }

  /** Rows are written one by one until one fails. */
  function AfterRows<T>(spec: Spec<T>, log: Log<T>, items: seq<T>): Log<T>
    decreases |items|
  {
    if items == [] then log
    else if !Accepts(spec) then AfterRow(spec, log, items[0])
    else AfterRows(spec, AfterRow(spec, log, items[0]), items[1..])
  }

  lemma HeaderText<T>(spec: Spec<T>, log: Log<T>)
    requires !log.header && log.rows == []
    ensures Text(spec, AfterHeader(spec, log))
            == Text(spec, log) + (if spec.options.includeBOM then BOM else [])
               + (if Accepts(spec) then
                    CsvFormat.WriteRecord(spec.lib, spec.options.delimiter, spec.options.useCRLF, HeaderRecord(spec))
                  else [])
  {
    hide CsvFormat.WriteRecord, HeaderRecord;
    assert Records(spec, log) == [];
    var after := AfterHeader(spec, log);
    WrittenAppend(spec.options, spec.lib, [], HeaderRecord(spec));
    assert Accepts(spec) ==> Records(spec, after) == [] + [HeaderRecord(spec)];
  }

  lemma RowText<T>(spec: Spec<T>, log: Log<T>, item: T)
    requires log.header
    ensures Text(spec, AfterRow(spec, log, item))
            == Text(spec, log)
               + CsvFormat.WriteRecord(spec.lib, spec.options.delimiter, spec.options.useCRLF, RowRecord(spec, item))
  {
    hide CsvFormat.WriteRecord, HeaderRecord, RowRecord, Boms, Written;
    WrittenAppend(spec.options, spec.lib, Records(spec, log), RowRecord(spec, item));
    assert RowRecords(spec, log.rows + [item]) == RowRecords(spec, log.rows) + [RowRecord(spec, item)];
    assert Records(spec, AfterRow(spec, log, item)) == Records(spec, log) + [RowRecord(spec, item)];
  }

  /** The history up to the last row at which the flush interval was reached. */
  function Settled<T>(spec: Spec<T>, log: Log<T>): Log<T>
    requires spec.options.flushInterval > 0
  {
    log.(rows := log.rows[..|log.rows| - |log.rows| % spec.options.flushInterval])
  }

  /**
   * Sent and buffered bytes are the history. Nothing is buffered before the header, so that the mark, which goes
   * straight to the sink, overtakes nothing; and with a positive flush interval all but the rows since its last
   * multiple is sent.
   */
  ghost predicate Consistent<T>(spec: Spec<T>, base: seq<byte>, log: Log<T>, sent: seq<byte>, buffered: seq<byte>) {
    && sent + buffered == base + Text(spec, log)
    && (log.header ==> Accepts(spec))
    && (!log.header ==> log.rows == [] && buffered == [])
    && (log.header && spec.options.flushInterval > 0 ==> base + Text(spec, Settled(spec, log)) <= sent)
  }

  lemma NoHeaderYet<T>(spec: Spec<T>, base: seq<byte>, log: Log<T>, sent: seq<byte>, buffered: seq<byte>)
    requires Consistent(spec, base, log, sent, buffered)
    ensures log.header ==> Accepts(spec)
    ensures !log.header ==> log.rows == [] && buffered == []
  {
  }

  lemma HeaderConsistent<T>(spec: Spec<T>, base: seq<byte>, log: Log<T>, sent: seq<byte>, buffered: seq<byte>,
                            sent': seq<byte>, buffered': seq<byte>)
    requires Consistent(spec, base, log, sent, buffered) && !log.header && buffered' == []
    requires sent' == sent + (if spec.options.includeBOM then BOM else [])
                      + (if Accepts(spec) then
                           CsvFormat.WriteRecord(spec.lib, spec.options.delimiter, spec.options.useCRLF,
                                                 HeaderRecord(spec))
                         else [])
    ensures Consistent(spec, base, AfterHeader(spec, log), sent', buffered')
  {
    hide CsvFormat.WriteRecord, Text, HeaderRecord;
    HeaderText(spec, log);
    assert sent == base + Text(spec, log);
    assert sent' + buffered' == base + Text(spec, AfterHeader(spec, log));
    if Accepts(spec) && spec.options.flushInterval > 0 {
      assert Settled(spec, AfterHeader(spec, log)) == AfterHeader(spec, log);
    }
  }

  lemma RowConsistent<T>(spec: Spec<T>, base: seq<byte>, log: Log<T>, sent: seq<byte>, buffered: seq<byte>, item: T,
                         sent': seq<byte>, buffered': seq<byte>)
    requires Consistent(spec, base, log, sent, buffered) && log.header && sent <= sent'
    requires sent' + buffered'
             == sent + buffered
                + CsvFormat.WriteRecord(spec.lib, spec.options.delimiter, spec.options.useCRLF, RowRecord(spec, item))
    requires spec.options.flushInterval > 0 && (|log.rows| + 1) % spec.options.flushInterval == 0 ==> buffered' == []
    ensures Consistent(spec, base, AfterRow(spec, log, item), sent', buffered')
  {
    hide CsvFormat.WriteRecord, Text, RowRecord;
    var after, n := AfterRow(spec, log, item), spec.options.flushInterval;
    RowText(spec, log, item);
    assert sent' + buffered' == base + Text(spec, after);
    if n > 0 {
      SameSettled(|log.rows|, n);
      if (|log.rows| + 1) % n == 0 {
        assert Settled(spec, after) == after;
        assert sent' + [] == sent';
      } else {
        assert Settled(spec, after) == Settled(spec, log);
      }
    }
  }

  lemma SameSettled(n: nat, interval: int)
    requires interval > 0
    ensures (n + 1) % interval != 0 ==> n + 1 - (n + 1) % interval == n - n % interval
  {
    var q, r := n / interval, n % interval;
    assert n == q * interval + r;
    if r + 1 == interval {
      assert n + 1 == (q + 1) * interval + 0;
      Remainder(q + 1, 0, interval);
    } else {
      Remainder(q, r + 1, interval);
    }
  }

  lemma Remainder(q: int, r: int, interval: int)
    requires 0 <= r < interval
    ensures (q * interval + r) % interval == r
  {
    var x := q * interval + r;
    var d := x / interval - q;
    assert x == (x / interval) * interval + x % interval;
    assert d * interval + x % interval == r;
    NonZeroMultiple(d, interval);
  }

  lemma NonZeroMultiple(d: int, interval: int)
    requires interval > 0
    ensures d > 0 ==> d * interval >= interval
    ensures d < 0 ==> d * interval <= -interval
  {
  }

  // ---------------------------------------------------------------------------------------------------------
  // The streamer
  // ---------------------------------------------------------------------------------------------------------

  /** An io.Writer that takes everything it is given. */
  class Sink {
    var sent: seq<byte>

    constructor ()
      ensures sent == []
    {
      sent := [];
    }

    method Write(p: seq<byte>)
      modifies this
      ensures sent == old(sent) + p
    {
      sent := sent + p;
    }
  }

  /** encoding/csv's Writer: records go to a buffer, which may spill into the sink at any time. */
  class CsvWriter {
    const out: Sink
    const lib: CsvFormat.Library
    const comma: seq<byte>
    const useCRLF: bool
    var buffered: seq<byte>

    constructor (out: Sink, lib: CsvFormat.Library, comma: seq<byte>, useCRLF: bool)
      ensures this.out == out && this.lib == lib && this.comma == comma && this.useCRLF == useCRLF && buffered == []
    {
      this.out, this.lib, this.comma, this.useCRLF, buffered := out, lib, comma, useCRLF, [];
    }

    method Write(record: CsvFormat.Record) returns (ok: bool)
      modifies this, out
      ensures ok <==> lib.accepts(comma)
      ensures !ok ==> out.sent == old(out.sent) && buffered == old(buffered)
      ensures ok ==> out.sent + buffered
                     == old(out.sent) + old(buffered) + CsvFormat.WriteRecord(lib, comma, useCRLF, record)
      ensures old(out.sent) <= out.sent
    {
      if !lib.accepts(comma) {
        return false;
      }
      hide CsvFormat.WriteRecord;
      var line := CsvFormat.WriteRecord(lib, comma, useCRLF, record);
      var all := buffered + line;
      var spilled: nat :| spilled <= |all|;
      assert out.sent + all[..spilled] + all[spilled..] == out.sent + buffered + line;
      out.Write(all[..spilled]);
      buffered := all[spilled..];
      return true;
    }

    method Flush()
      modifies this, out
      ensures buffered == [] && out.sent == old(out.sent) + old(buffered)
    {
      out.Write(buffered);
      buffered := [];
    }
  }

  class CSVStreamer<T> {
    const w: Sink
    const csvWriter: CsvWriter
    const spec: Spec<T>
    var headerWritten: bool
    var rowCount: nat

    /** What the sink held before this streamer, and the history since. */
    ghost const base: seq<byte>
    ghost var log: Log<T>

    ghost predicate Valid()
      reads this, w, csvWriter
    {
      && csvWriter.out == w && csvWriter.lib == spec.lib
      && csvWriter.comma == spec.options.delimiter && csvWriter.useCRLF == spec.options.useCRLF
      && headerWritten == log.header && rowCount == |log.rows|
      && Consistent(spec, base, log, w.sent, csvWriter.buffered)
    }

    constructor (w: Sink, lib: CsvFormat.Library, isNumber: seq<byte> -> bool, columns: seq<Column<T>>,
                 settings: seq<Setting>)
      ensures Valid() && fresh(csvWriter) && this.w == w && base == w.sent && log == Fresh()
      ensures spec == Spec(lib, isNumber, columns, Configured(DefaultCSVOptions(), settings))
    {
      var cfg := DefaultCSVOptions();
      for i := 0 to |settings|
        invariant Configured(cfg, settings[i..]) == Configured(DefaultCSVOptions(), settings)
      {
        cfg := Set(cfg, settings[i]);
        assert settings[i..][1..] == settings[i + 1..];
      }
      this.w := w;
      csvWriter := new CsvWriter(w, lib, cfg.delimiter, cfg.useCRLF);
      spec := Spec(lib, isNumber, columns, cfg);
      headerWritten, rowCount := false, 0;
      base, log := w.sent, Fresh();
    }

    /** The mark, if wanted, goes straight to the sink; the header follows through the buffer, which is then flushed. */
    method WriteHeader() returns (ok: bool)
      requires Valid()
      modifies this, w, csvWriter
      ensures Valid() && log == AfterHeader(spec, old(log))
      ensures ok <==> log.header
      ensures !old(log).header ==> csvWriter.buffered == []
    {
      hide CsvFormat.WriteRecord, Text, HeaderRecord, Consistent;
      NoHeaderYet(spec, base, log, w.sent, csvWriter.buffered);
      if headerWritten {
        return true;
      }
      ghost var before, sent, buffered := log, w.sent, csvWriter.buffered;
      if spec.options.includeBOM {
        w.Write(BOM);
      }
      var headers := HeaderCells();
      log := AfterHeader(spec, log);
      ok := csvWriter.Write(headers);
      if !ok {
        HeaderConsistent(spec, base, before, sent, buffered, w.sent, csvWriter.buffered);
        return;
      }
      csvWriter.Flush();
      headerWritten := true;
      HeaderConsistent(spec, base, before, sent, buffered, w.sent, csvWriter.buffered);
    }

    method HeaderCells() returns (headers: CsvFormat.Record)
      ensures headers == HeaderRecord(spec)
    {
      headers := [];
      for i := 0 to |spec.columns|
        invariant headers == HeaderRecord(spec)[..i]
      {
        var h := spec.columns[i].header;
        if spec.options.sanitizeFormulas {
          h := CsvSanitizer.Sanitize(spec.isNumber, h);
        }
        headers := headers + [h];
      }
    }

    method RowCells(item: T) returns (row: CsvFormat.Record)
      ensures row == RowRecord(spec, item)
    {
      row := [];
      for i := 0 to |spec.columns|
        invariant row == RowRecord(spec, item)[..i]
      {
        var cell := spec.columns[i].extractor(item);
        if spec.options.sanitizeFormulas {
          cell := CsvSanitizer.Sanitize(spec.isNumber, cell);
        }
        row := row + [cell];
      }
    }

    method WriteRow(item: T) returns (ok: bool)
      requires Valid()
      modifies this, w, csvWriter
      ensures Valid() && log == AfterRow(spec, old(log), item)
      ensures ok <==> Accepts(spec)
      ensures ok && spec.options.flushInterval > 0 && rowCount % spec.options.flushInterval == 0
              ==> csvWriter.buffered == []
    {
      hide CsvFormat.WriteRecord, Text, RowRecord, Consistent;
      NoHeaderYet(spec, base, log, w.sent, csvWriter.buffered);
      if !headerWritten {
        ok := WriteHeader();
        if !ok {
          return;
        }
      }
      var row := RowCells(item);
      ghost var before, sent, buffered := log, w.sent, csvWriter.buffered;
      ok := csvWriter.Write(row);
      log := AfterRow(spec, log, item);
      rowCount := rowCount + 1;
      if spec.options.flushInterval > 0 && rowCount % spec.options.flushInterval == 0 {
        csvWriter.Flush();
      }
      RowConsistent(spec, base, before, sent, buffered, item, w.sent, csvWriter.buffered);
    }

    method WriteRows(items: seq<T>) returns (ok: bool)
      requires Valid()
      modifies this, w, csvWriter
      ensures Valid() && log == AfterRows(spec, old(log), items)
      ensures ok <==> Accepts(spec) || items == []
    {
      for i := 0 to |items|
        invariant Valid()
        invariant i > 0 ==> Accepts(spec)
        invariant AfterRows(spec, log, items[i..]) == AfterRows(spec, old(log), items)
      {
        assert items[i..][1..] == items[i + 1..];
        ok := WriteRow(items[i]);
        if !ok {
          return;
        }
      }
      return true;
    }

    method RowCount() returns (n: nat)
      requires Valid()
      ensures n == |log.rows|
    {
      return rowCount;
    }

    method Flush() returns (ok: bool)
      requires Valid()
      modifies this, w, csvWriter
      ensures Valid() && ok && log == old(log)
      ensures w.sent == base + Text(spec, log) && csvWriter.buffered == []
    {
      hide Text;
      csvWriter.Flush();
      return true;
    }

    method Close() returns (ok: bool)
      requires Valid()
      modifies this, w, csvWriter
      ensures Valid() && ok && log == old(log)
      ensures w.sent == base + Text(spec, log) && csvWriter.buffered == []
    {
      ok := Flush();
    }
  }

  // ---------------------------------------------------------------------------------------------------------
  // Whole histories
  // ---------------------------------------------------------------------------------------------------------

  /** Flushing and closing leave the history alone. */
  datatype Call<+T> = Header | Row(item: T) | Rows(items: seq<T>) | Flushing

  function After<T>(spec: Spec<T>, log: Log<T>, call: Call<T>): Log<T> {
    match call
    case Header => AfterHeader(spec, log)
    case Row(item) => AfterRow(spec, log, item)
    case Rows(items) => AfterRows(spec, log, items)
    case Flushing => log
  }

  function AfterAll<T>(spec: Spec<T>, log: Log<T>, calls: seq<Call<T>>): Log<T>
    decreases |calls|
  {
    if calls == [] then log else AfterAll(spec, After(spec, log, calls[0]), calls[1..])
  }

  predicate Writes<T>(call: Call<T>) {
    call.Header? || call.Row? || (call.Rows? && |call.items| > 0)
  }

  function Items<T>(call: Call<T>): seq<T> {
    match call
    case Row(item) => [item]
    case Rows(items) => items
    case _ => []
  }

  function AllItems<T>(calls: seq<Call<T>>): seq<T> {
    if calls == [] then [] else Items(calls[0]) + AllItems(calls[1..])
  }

  function WriteCount<T>(calls: seq<Call<T>>): nat {
    if calls == [] then 0 else (if Writes(calls[0]) then 1 else 0) + WriteCount(calls[1..])
  }

  /** One history is the other with more rows. */
  function Extended<T>(log: Log<T>, writes: bool, items: seq<T>): Log<T> {
    if log.header then log.(rows := log.rows + items)
    else if writes then Log(log.boms + 1, true, log.rows + items)
    else log
  }

  lemma {:induction false} RowsExtend<T>(spec: Spec<T>, log: Log<T>, items: seq<T>)
    requires Accepts(spec)
    ensures AfterRows(spec, log, items) == Extended(log, items != [], items)
    decreases |items|
  {
    if items != [] {
      var next := AfterRow(spec, log, items[0]);
      RowsExtend(spec, next, items[1..]);
      assert [items[0]] + items[1..] == items;
      assert log.rows + [items[0]] + items[1..] == log.rows + items;
    } else {
      assert log.rows + items == log.rows;
    }
  }

  lemma {:induction false} CallsExtend<T>(spec: Spec<T>, log: Log<T>, calls: seq<Call<T>>)
    requires Accepts(spec) && (log.header || log.rows == [])
    ensures AfterAll(spec, log, calls) == Extended(log, WriteCount(calls) > 0, AllItems(calls))
    decreases |calls|
  {
    if calls == [] {
      assert log.rows + [] == log.rows;
    } else {
      var next := After(spec, log, calls[0]);
      OneCallExtends(spec, log, calls[0]);
      CallsExtend(spec, next, calls[1..]);
      assert log.rows + Items(calls[0]) + AllItems(calls[1..]) == log.rows + AllItems(calls);
      assert !Writes(calls[0]) ==> Items(calls[0]) + AllItems(calls[1..]) == AllItems(calls[1..]);
    }
  }

  lemma OneCallExtends<T>(spec: Spec<T>, log: Log<T>, call: Call<T>)
    requires Accepts(spec)
    ensures After(spec, log, call) == Extended(log, Writes(call), Items(call))
  {
    if call.Rows? {
      RowsExtend(spec, log, call.items);
    }
    assert log.rows + [] == log.rows;
  }

  lemma {:induction false} RefusedCalls<T>(spec: Spec<T>, log: Log<T>, calls: seq<Call<T>>)
    requires !Accepts(spec) && !log.header
    ensures AfterAll(spec, log, calls) == Log(log.boms + WriteCount(calls), false, log.rows)
    decreases |calls|
  {
    if calls != [] {
      RefusedCalls(spec, After(spec, log, calls[0]), calls[1..]);
    }
  }

  /**
   * Any mix of calls, with a delimiter the library accepts, amounts to the mark, one header if any header or row was
   * written, and all rows in order; with another delimiter, to one mark for every call that had something to write.
   */
  lemma HistoryOfCalls<T>(spec: Spec<T>, calls: seq<Call<T>>)
    ensures AfterAll(spec, Fresh(), calls)
            == if Accepts(spec) then Log(if WriteCount(calls) > 0 then 1 else 0, WriteCount(calls) > 0, AllItems(calls))
               else Log(WriteCount(calls), false, [])
  {
    if Accepts(spec) {
      CallsExtend(spec, Fresh(), calls);
      ItemsAreWritten(calls);
      assert [] + AllItems(calls) == AllItems(calls);
    } else {
      RefusedCalls(spec, Fresh(), calls);
    }
  }

  lemma {:induction false} ItemsAreWritten<T>(calls: seq<Call<T>>)
    ensures WriteCount(calls) == 0 ==> AllItems(calls) == []
  {
    if calls != [] {
      ItemsAreWritten(calls[1..]);
    }
  }

  /** What a reader sees who drops the three bytes of the mark. */
  function ReadBack<T>(spec: Spec<T>, text: seq<byte>): Option<seq<CsvFormat.Record>>
    requires spec.options.delimiter != []
    requires spec.options.includeBOM ==> |text| >= 3
  {
    CsvFormat.ReadRecords(spec.options.delimiter, if spec.options.useCRLF then [0x0D, 0x0A] else [0x0A],
                          if spec.options.includeBOM then text[3..] else text, [])
  }

  /** A value with an apostrophe before it, if sanitizing is on and the value is dangerous. */
  ghost function Guarded<T>(spec: Spec<T>, value: seq<byte>): seq<byte> {
    if spec.options.sanitizeFormulas && CsvSanitizer.Dangerous(spec.isNumber, value) then [0x27] + value else value
  }

  /** With CRLF line ends the library may have rewritten it. */
  ghost predicate ShownFor<T>(spec: Spec<T>, field: CsvFormat.Field, value: seq<byte>) {
    || field == Guarded(spec, value)
    || (spec.options.useCRLF && field == spec.lib.rewrite(Guarded(spec, value)))
  }

  /** One record of headers, and one for each item with its column values, all in the order of the columns. */
  ghost predicate ReadsAs<T>(spec: Spec<T>, records: seq<CsvFormat.Record>, items: seq<T>) {
    && |records| == 1 + |items|
    && (forall j | 0 <= j < |records| :: |records[j]| == |spec.columns|)
    && (forall i | 0 <= i < |spec.columns| :: ShownFor(spec, records[0][i], spec.columns[i].header))
    && (forall j, i | 0 <= j < |items| && 0 <= i < |spec.columns| ::
          ShownFor(spec, records[j + 1][i], spec.columns[i].extractor(items[j])))
  }

  /**
   * After any calls that wrote something, the file reads as the headers and then the rows, cell by cell, if and only if
   * there is at least one column.
   */
  lemma FileReadsBack<T>(spec: Spec<T>, calls: seq<Call<T>>)
    requires CsvFormat.Sound(spec.lib) && Accepts(spec) && WriteCount(calls) > 0
    ensures spec.options.delimiter != []
    ensures var text := Text(spec, AfterAll(spec, Fresh(), calls));
            && (spec.options.includeBOM ==> [0xEF, 0xBB, 0xBF] <= text)
            && (var read := ReadBack(spec, text);
                spec.columns != [] <==> read.Some? && ReadsAs(spec, read.value, AllItems(calls)))
  {
    hide CsvFormat.ReadRecords, CsvFormat.WriteRecords, CsvFormat.ShownRecords, CsvFormat.PaddedRecords, HeaderRecord,
         RowRecords, AfterAll, Boms, ReadsAs;
    var log := AfterAll(spec, Fresh(), calls);
    var records := [HeaderRecord(spec)] + RowRecords(spec, AllItems(calls));
    HistoryOfCalls(spec, calls);
    assert Records(spec, log) == records;
    OneMark();
    var mark, written := if spec.options.includeBOM then BOM else [], Written(spec.options, spec.lib, records);
    assert Text(spec, log) == mark + written;
    assert (mark + written)[|mark|..] == written;
    CsvFormat.ReadWrittenRecords(spec.lib, spec.options.delimiter, spec.options.useCRLF, records);
    ReadsAsWritten(spec, AllItems(calls));
  }

  /** The records written are shown as they should be, unless they are padded for want of a column. */
  lemma ReadsAsWritten<T>(spec: Spec<T>, items: seq<T>)
    ensures var records := [HeaderRecord(spec)] + RowRecords(spec, items);
            var shown := CsvFormat.ShownRecords(spec.lib, spec.options.delimiter, spec.options.useCRLF, records);
            spec.columns != [] <==> ReadsAs(spec, CsvFormat.PaddedRecords(shown), items)
  {
    var records := [HeaderRecord(spec)] + RowRecords(spec, items);
    var read := CsvFormat.PaddedRecords(
      CsvFormat.ShownRecords(spec.lib, spec.options.delimiter, spec.options.useCRLF, records));
    hide CsvFormat.NeedsQuotes, CsvSanitizer.SanitizeCSVCell, CsvSanitizer.Dangerous;
    if spec.columns != [] {
      forall j, i | 0 <= j < |records| && 0 <= i < |spec.columns|
        ensures |read[j]| == |spec.columns|
        ensures read[j][i]
                == CsvFormat.Shown(spec.lib, spec.options.delimiter, spec.options.useCRLF, records[j][i])
      {
      }
      forall i | 0 <= i < |spec.columns| ensures ShownFor(spec, read[0][i], spec.columns[i].header) {
        CellIsGuarded(spec, spec.columns[i].header);
      }
      forall j, i | 0 <= j < |items| && 0 <= i < |spec.columns|
        ensures ShownFor(spec, read[j + 1][i], spec.columns[i].extractor(items[j]))
      {
        CellIsGuarded(spec, spec.columns[i].extractor(items[j]));
      }
    } else {
      assert read[0] == [[]];
    }
  }

  lemma CellIsGuarded<T>(spec: Spec<T>, value: seq<byte>)
    ensures Cell(spec, value) == Guarded(spec, value)
  {
    hide CsvSanitizer.SanitizeCSVCell, CsvSanitizer.Dangerous;
    CsvSanitizer.SanitizesExactly(spec.isNumber, value);
  }

  lemma OneMark()
    ensures Boms(0) == [] && Boms(1) == BOM
  {
    assert Boms(1) == Boms(0) + BOM;
  }

  /**
   * Without columns, writing the header puts an empty line into the file, which reads as one record of one empty field.
   */
  lemma NoColumns<T>(lib: CsvFormat.Library, isNumber: seq<byte> -> bool)
    requires CsvFormat.Sound(lib) && lib.accepts(DefaultCSVOptions().delimiter)
    ensures var spec: Spec<T> := Spec(lib, isNumber, [], DefaultCSVOptions());
            var text := Text(spec, AfterAll(spec, Fresh(), [Header]));
            text == [0xEF, 0xBB, 0xBF, 0x0D, 0x0A] && ReadBack(spec, text) == Some([[[]]])
  {
    var spec: Spec<T> := Spec(lib, isNumber, [], DefaultCSVOptions());
    HistoryOfCalls(spec, [Header]);
    WrittenAlone(spec);
    OneMark();
    CsvFormat.OneEmptyRecord(lib, spec.options.delimiter);
    hide CsvFormat.ReadRecords, CsvFormat.WriteRecords, AfterAll, Records;
    var text := Text(spec, AfterAll(spec, Fresh(), [Header]));
    assert text == BOM + [CsvFormat.CR, CsvFormat.LF];
    assert text[|BOM|..] == [CsvFormat.CR, CsvFormat.LF];
  }

  lemma WrittenAlone<T>(spec: Spec<T>)
    requires spec.columns == []
    ensures WriteCount<T>([Header]) == 1 && AllItems<T>([Header]) == []
    ensures Records(spec, Log(1, true, [])) == [[]]
  {
    var calls: seq<Call<T>> := [Header];
    assert calls[1..] == [];
  }

  /** With sanitization on, no header or row cell is dangerous to open; with LF line ends none of the file is. */
  lemma NoFormulaWritten<T>(spec: Spec<T>, value: seq<byte>, records: seq<CsvFormat.Record>, items: seq<T>)
    requires spec.options.sanitizeFormulas && ReadsAs(spec, records, items)
    ensures !CsvSanitizer.Dangerous(spec.isNumber, Guarded(spec, value))
    ensures !spec.options.useCRLF ==>
              forall j, i | 0 <= j < |records| && 0 <= i < |records[j]| ::
                !CsvSanitizer.Dangerous(spec.isNumber, records[j][i])
  {
    hide CsvSanitizer.Dangerous;
    GuardedIsSafe(spec, value);
    if !spec.options.useCRLF {
      forall j, i | 0 <= j < |records| && 0 <= i < |records[j]|
        ensures !CsvSanitizer.Dangerous(spec.isNumber, records[j][i])
      {
        var shown := if j == 0 then spec.columns[i].header else spec.columns[i].extractor(items[j - 1]);
        assert j > 0 ==> records[j] == records[(j - 1) + 1];
        assert ShownFor(spec, records[j][i], shown);
        GuardedIsSafe(spec, shown);
      }
    }
  }

  lemma GuardedIsSafe<T>(spec: Spec<T>, value: seq<byte>)
    requires spec.options.sanitizeFormulas
    ensures !CsvSanitizer.Dangerous(spec.isNumber, Guarded(spec, value))
  {
    hide CsvSanitizer.SanitizeCSVCell, CsvSanitizer.Dangerous;
    CsvSanitizer.SanitizesExactly(spec.isNumber, value);
    CsvSanitizer.SanitizedIsSafe(spec.isNumber, value);
  }

  /**
   * With a delimiter the library refuses, the file holds nothing but one mark for every call that should have written.
   */
  lemma RefusedFile<T>(spec: Spec<T>, calls: seq<Call<T>>)
    requires !Accepts(spec)
    ensures var text := Text(spec, AfterAll(spec, Fresh(), calls));
            && |text| == (if spec.options.includeBOM then 3 * WriteCount(calls) else 0)
            && forall i | 0 <= i < |text| :: text[i] == [0xEF, 0xBB, 0xBF][i % 3]
  {
    HistoryOfCalls(spec, calls);
    MarksOnly(if spec.options.includeBOM then WriteCount(calls) else 0);
    hide AfterAll, Boms;
    var log := AfterAll(spec, Fresh(), calls);
    assert Records(spec, log) == [];
    assert Text(spec, log) == Boms(if spec.options.includeBOM then WriteCount(calls) else 0) + [];
  }

  lemma {:induction false} MarksOnly(n: nat)
    ensures |Boms(n)| == 3 * n && forall i | 0 <= i < 3 * n :: Boms(n)[i] == [0xEF, 0xBB, 0xBF][i % 3]
  {
    if n > 0 {
      MarksOnly(n - 1);
    }
  }
}
