/** FailsToDeliverUniverseDownloader: the merge writer behind the per-issuer and
    per-date CSV stores, the staging of one archive's records, and the run loop
    over the discovered distributions. */
module Downloader {
  import opened Wrappers
  import opened Text
  import opened Calendar
  import opened Sorting
  import opened Records
  import opened Ticker

  // ---------- the CSV stores and the merge writer ----------

  /** The two stores: <destination>/<ticker>.csv holds one issuer's history,
      <destination>/universe/<YYYYMMDD>.csv one distribution's universe. */
  datatype StoreKind = IssuerHistory | UniverseSnapshot

  datatype StoreFile = StoreFile(kind: StoreKind, name: string)

  /** A store file's lines, or None when the file does not exist. */
  function Find(store: map<StoreFile, seq<string>>, f: StoreFile): (r: Option<seq<string>>)
    ensures r.Some? <==> f in store
  {
    if f in store then Some(store[f]) else None
  }

  function NonEmptyLines(lines: seq<string>): set<string>
  {
    set l | l in lines && l != []
  }

  /** The rows the writer keeps: the existing file's non-empty lines and the new non-empty lines. */
  function MergedRows(existing: Option<seq<string>>, contents: seq<string>): set<string>
  {
    (if existing.Some? then NonEmptyLines(existing.value) else {}) + NonEmptyLines(contents)
  }

  /** date(1900, 1, 1): the key of an issuer row whose first field is not a date. */
  const FallbackDate := Date(1900, 1, 1)

  /** The sort key of an issuer row: its first comma field read as YYYYMMDD. */
  function RowDate(row: string): (d: Date)
    ensures ParseDate8(FirstField(row)).Some? ==> d == ParseDate8(FirstField(row)).value
    ensures ParseDate8(FirstField(row)).None? ==> d == FallbackDate
    ensures d == FallbackDate || (InPythonRange(d) && FormatDate8(d) == FirstField(row))
  {
    match ParseDate8(FirstField(row))
    case Some(d) =>
      FormatParseDate8(FirstField(row));
      d
    case None => FallbackDate
  }

  /** The order each store is sorted by: universe files by their first comma field as
      text, issuer files by the date in their first comma field. */
  function RowLe(kind: StoreKind): (string, string) -> bool
  {
    if kind == UniverseSnapshot then (a: string, b: string) => LexLe(FirstField(a), FirstField(b))
    else (a: string, b: string) => AtOrBefore(RowDate(a), RowDate(b))
  }

  lemma RowLeTotal(kind: StoreKind)
    ensures Total(RowLe(kind))
  {
    forall a: string, b: string ensures RowLe(kind)(a, b) || RowLe(kind)(b, a) {
      if kind == UniverseSnapshot {
        LexLeTotal(FirstField(a), FirstField(b));
      } else {
        AtOrBeforeTotal(RowDate(a), RowDate(b));
      }
    }
  }

  /** A store file before and after _save_content_to_file(contents): nothing happens when
      contents is empty or no non-empty row results; otherwise the file holds exactly the
      merged rows, each once, sorted by the store's key. */
  ghost predicate SavedAs(kind: StoreKind, before: Option<seq<string>>, contents: seq<string>, after: Option<seq<string>>)
  {
    if contents == [] || MergedRows(before, contents) == {} then after == before
    else
      && after.Some?
      && (forall l :: l in after.value <==> l in MergedRows(before, contents))
      && Distinct(after.value)
      && SortedBy(after.value, RowLe(kind))
  }

  lemma NonEmptyLinesAppend(a: seq<string>, b: seq<string>)
    ensures NonEmptyLines(a + b) == NonEmptyLines(a) + NonEmptyLines(b)
  {
  }

  /** Merging c1 and then c2 into a file leaves what merging c1 + c2 at once would: the
      rows kept are the union either way. */
  lemma SavedAsCompose(kind: StoreKind, a: Option<seq<string>>, c1: seq<string>, b: Option<seq<string>>,
                       c2: seq<string>, c: Option<seq<string>>)
    requires SavedAs(kind, a, c1, b) && SavedAs(kind, b, c2, c)
    ensures SavedAs(kind, a, c1 + c2, c)
  {
    NonEmptyLinesAppend(c1, c2);
    if c1 == [] {
      assert c1 + c2 == c2;
    } else if MergedRows(a, c1) != {} {
      assert NonEmptyLines(b.value) == MergedRows(a, c1);
    }
  }

  lemma NonEmptyLinesStep(lines: seq<string>, i: nat)
    requires i < |lines|
    ensures NonEmptyLines(lines[..i + 1]) == NonEmptyLines(lines[..i]) + (if lines[i] != [] then {lines[i]} else {})
  {
    assert lines[..i + 1] == lines[..i] + [lines[i]];
  }

  /** The merge half of _save_content_to_file: the sorted rows to write, or None when
      the file is left alone. */
  method MergeRows(existing: Option<seq<string>>, contents: seq<string>, kind: StoreKind) returns (merged: Option<seq<string>>)
    ensures merged.None? <==> contents == [] || MergedRows(existing, contents) == {}
    ensures merged.Some? ==> SavedAs(kind, existing, contents, merged)
  {
    if contents == [] {
      return None;
    }
    var allLines: set<string> := {};
    if existing.Some? {
      var lines := existing.value;
      for i := 0 to |lines|
        invariant allLines == NonEmptyLines(lines[..i])
      {
        NonEmptyLinesStep(lines, i);
        if lines[i] != [] {
          allLines := allLines + {lines[i]};
        }
      }
      assert lines[..|lines|] == lines;
    }
    ghost var base := allLines;
    for i := 0 to |contents|
      invariant allLines == base + NonEmptyLines(contents[..i])
    {
      NonEmptyLinesStep(contents, i);
      if contents[i] != [] {
        allLines := allLines + {contents[i]};
      }
    }
    assert contents[..|contents|] == contents;
    if allLines == {} {
      return None;
    }
    RowLeTotal(kind);
    var ordered := SortSet(allLines, RowLe(kind));
    SetPermutationDistinct(ordered, allLines);
    return Some(ordered);
  }

  /** Writing the same lines a second time leaves the same rows: the merge is idempotent. */
  lemma MergeIdempotent(kind: StoreKind, before: Option<seq<string>>, contents: seq<string>,
                        once: Option<seq<string>>, twice: Option<seq<string>>)
    requires SavedAs(kind, before, contents, once)
    requires SavedAs(kind, once, contents, twice)
    ensures forall l :: (twice.Some? && l in twice.value) <==> (once.Some? && l in once.value)
  {
    if contents != [] && MergedRows(before, contents) != {} {
      assert MergedRows(once, contents) == MergedRows(before, contents);
    }
  }

  /** No row is ever lost: every non-empty line of the old file survives a merge. */
  lemma MergeKeepsRows(kind: StoreKind, before: Option<seq<string>>, contents: seq<string>, after: Option<seq<string>>)
    requires SavedAs(kind, before, contents, after)
    requires before.Some?
    ensures after.Some?
    ensures forall l :: l in before.value && l != [] ==> l in after.value
  {
  }

  // ---------- staging one archive ----------

  /** A record that passed every filter, with the ticker it is filed under. */
  datatype Staged = Staged(ticker: string, record: FailRecord)

  predicate IsLineBreak(c: char) { c == '\r' || c == '\n' }

  /** What one decoded archive line contributes: its record when the line parses, its
      ticker cleans to something non-empty, and that ticker is allowed (when a set is given). */
  function StageLine(raw: string, allowed: Option<set<string>>): (r: seq<Staged>)
    ensures |r| <= 1
  {
    match TryParseRawLine(TrimRightBy(raw, IsLineBreak))
    case None => []
    case Some(rec) =>
      var ticker := NormalizedTicker(rec.symbol);
      if ticker == [] then []
      else if allowed.Some? && ticker !in allowed.value then []
      else [Staged(ticker, rec)]
  }

  /** A staged record can be written: its dates render as YYYYMMDD and its quantity is positive. */
  predicate Writable(s: Staged)
  {
    InPythonRange(s.record.settlementDate) && s.record.quantity > 0
  }

  predicate AllWritable(staged: seq<Staged>)
  {
    forall i :: 0 <= i < |staged| ==> Writable(staged[i])
  }

  /** Every staged record: a clean, allowed ticker and a record that can be written. */
  predicate ValidStaged(s: Staged, allowed: Option<set<string>>)
  {
    && Writable(s)
    && s.ticker != [] && s.ticker == NormalizedTicker(s.record.symbol)
    && (allowed.Some? ==> s.ticker in allowed.value)
  }

  predicate AllValid(staged: seq<Staged>, allowed: Option<set<string>>)
  {
    forall i :: 0 <= i < |staged| ==> ValidStaged(staged[i], allowed)
  }

  lemma ValidIsWritable(staged: seq<Staged>, allowed: Option<set<string>>)
    requires AllValid(staged, allowed)
    ensures AllWritable(staged)
  {
  }

  /** The records of a run of archive lines, in line order. */
  function StagedRecords(lines: seq<string>, allowed: Option<set<string>>): (r: seq<Staged>)
    ensures |r| <= |lines|
    ensures AllValid(r, allowed)
    ensures AllWritable(r)
  {
    if lines == [] then []
    else StagedRecords(lines[..|lines| - 1], allowed) + StageLine(lines[|lines| - 1], allowed)
  }

  /** Nothing a line contributes is lost: every line's record is among the staged records. */
  lemma {:induction false} StagedRecordsComplete(lines: seq<string>, allowed: Option<set<string>>, i: nat, s: Staged)
    requires i < |lines| && s in StageLine(lines[i], allowed)
    ensures s in StagedRecords(lines, allowed)
    decreases |lines|
  {
    var init, last := lines[..|lines| - 1], lines[|lines| - 1];
    assert StagedRecords(lines, allowed) == StagedRecords(init, allowed) + StageLine(last, allowed);
    if i < |init| {
      assert init[i] == lines[i];
      StagedRecordsComplete(init, allowed, i, s);
    } else {
      assert i == |lines| - 1;
    }
  }

  /** Nothing is invented: every staged record is what some line contributes. */
  lemma {:induction false} StagedRecordsSound(lines: seq<string>, allowed: Option<set<string>>, s: Staged)
    requires s in StagedRecords(lines, allowed)
    ensures exists i :: 0 <= i < |lines| && StageLine(lines[i], allowed) == [s]
    decreases |lines|
  {
    var init, last := lines[..|lines| - 1], lines[|lines| - 1];
    if s in StagedRecords(init, allowed) {
      StagedRecordsSound(init, allowed, s);
      var i :| 0 <= i < |init| && StageLine(init[i], allowed) == [s];
      assert lines[i] == init[i];
    } else {
      assert StageLine(last, allowed) == [s];
      assert lines[|lines| - 1] == last;
    }
  }

  /** The lines of an archive entry after its header line. */
  function DataLines(entry: seq<string>): seq<string>
  {
    if entry == [] then [] else entry[1..]
  }

  /** The price column of both stores: the cleaned price text, or 0.000000 for the default. */
  function PriceColumn(p: Price): string
  {
    if p.Quoted? then p.text else "0.000000"
  }

  /** A row of an issuer file: publication date, settlement date, CUSIP, quantity, price. */
  function IssuerLine(processDate: Date, rec: FailRecord): string
    requires InPythonRange(processDate) && InPythonRange(rec.settlementDate) && rec.quantity >= 0
  {
    Join([FormatDate8(processDate), FormatDate8(rec.settlementDate), rec.cusip,
          NatToDecimal(rec.quantity), PriceColumn(rec.price)], ',')
  }

  /** A row of a universe file: symbol id (the ticker itself), ticker, CUSIP, quantity,
      settlement date, price. */
  function UniverseLine(symbolId: string, ticker: string, rec: FailRecord): string
    requires InPythonRange(rec.settlementDate) && rec.quantity >= 0
  {
    Join([symbolId, ticker, rec.cusip, NatToDecimal(rec.quantity),
          FormatDate8(rec.settlementDate), PriceColumn(rec.price)], ',')
  }

  function UniverseLinesOf(staged: seq<Staged>): (r: seq<string>)
    requires AllWritable(staged)
    ensures |r| == |staged|
    ensures forall k :: 0 <= k < |r| ==> r[k] != []
  {
    if staged == [] then []
    else
      var last := staged[|staged| - 1];
      UniverseLineNonEmpty(last.ticker, last.record);
      UniverseLinesOf(staged[..|staged| - 1]) + [UniverseLine(last.ticker, last.ticker, last.record)]
  }

  function TickersOf(staged: seq<Staged>): set<string>
  {
    set s | s in staged :: s.ticker
  }

  /** The lines of one ticker's issuer file, in line order. */
  function IssuerLinesOf(staged: seq<Staged>, ticker: string, processDate: Date): (r: seq<string>)
    requires AllWritable(staged) && InPythonRange(processDate)
    ensures ticker !in TickersOf(staged) ==> r == []
    ensures |r| <= |staged|
  {
    if staged == [] then []
    else
      var init := staged[..|staged| - 1];
      var last := staged[|staged| - 1];
      assert TickersOf(init) <= TickersOf(staged);
      IssuerLinesOf(init, ticker, processDate)
        + (if last.ticker == ticker then [IssuerLine(processDate, last.record)] else [])
  }

  /** The filed names: <ticker lower-cased>.csv and universe/<YYYYMMDD>.csv. */
  function IssuerFile(ticker: string): StoreFile
  {
    StoreFile(IssuerHistory, Lower(ticker))
  }

  function UniverseFile(d: Date): StoreFile
    requires InPythonRange(d)
  {
    StoreFile(UniverseSnapshot, FormatDate8(d))
  }

  function IssuerFilesOf(tickers: set<string>): set<StoreFile>
  {
    set t | t in tickers :: IssuerFile(t)
  }

  /** The lines staged for one issuer file, in line order: those of the tickers filed there. */
  function IssuerLinesFor(staged: seq<Staged>, f: StoreFile, processDate: Date): seq<string>
    requires AllWritable(staged) && InPythonRange(processDate)
  {
    if staged == [] then []
    else
      var init := staged[..|staged| - 1];
      var last := staged[|staged| - 1];
      IssuerLinesFor(init, f, processDate)
        + (if IssuerFile(last.ticker) == f then [IssuerLine(processDate, last.record)] else [])
  }

  /** Each issuer file of the staged tickers with the lines merged into it. */
  function IssuerRowsOf(staged: seq<Staged>, processDate: Date): (r: map<StoreFile, seq<string>>)
    requires AllWritable(staged) && InPythonRange(processDate)
    ensures r.Keys == IssuerFilesOf(TickersOf(staged))
  {
    map f | f in IssuerFilesOf(TickersOf(staged)) :: IssuerLinesFor(staged, f, processDate)
  }

  /** Clean tickers get files of their own, so a ticker's file receives exactly its lines. */
  lemma {:induction false} IssuerLinesForTicker(staged: seq<Staged>, allowed: Option<set<string>>,
                                                ticker: string, processDate: Date)
    requires AllValid(staged, allowed) && CleanTicker(ticker) && InPythonRange(processDate)
    ensures IssuerLinesFor(staged, IssuerFile(ticker), processDate) == IssuerLinesOf(staged, ticker, processDate)
  {
    if staged != [] {
      var init, last := staged[..|staged| - 1], staged[|staged| - 1];
      assert AllValid(init, allowed) by {
        forall i | 0 <= i < |init| ensures ValidStaged(init[i], allowed) {
          assert init[i] == staged[i];
        }
      }
      IssuerLinesForTicker(init, allowed, ticker, processDate);
      if IssuerFile(last.ticker) == IssuerFile(ticker) {
        IssuerFileInjective(last.ticker, ticker);
      }
    }
  }

  /** The rows of every issuer file of an archive, read per ticker: the file of each staged
      ticker, with that ticker's lines. */
  lemma IssuerRowsTicker(staged: seq<Staged>, allowed: Option<set<string>>, processDate: Date)
    requires AllValid(staged, allowed) && InPythonRange(processDate)
    ensures forall t :: t in TickersOf(staged) ==>
      IssuerRowsOf(staged, processDate)[IssuerFile(t)] == IssuerLinesOf(staged, t, processDate)
  {
    forall t | t in TickersOf(staged)
      ensures IssuerRowsOf(staged, processDate)[IssuerFile(t)] == IssuerLinesOf(staged, t, processDate)
    {
      var i :| 0 <= i < |staged| && staged[i].ticker == t;
      assert t == NormalizedTicker(staged[i].record.symbol);
      IssuerLinesForTicker(staged, allowed, t, processDate);
    }
  }

  lemma StagedAppend(staged: seq<Staged>, x: Staged, processDate: Date)
    requires AllWritable(staged) && Writable(x) && InPythonRange(processDate)
    ensures AllWritable(staged + [x])
    ensures UniverseLinesOf(staged + [x]) == UniverseLinesOf(staged) + [UniverseLine(x.ticker, x.ticker, x.record)]
    ensures TickersOf(staged + [x]) == TickersOf(staged) + {x.ticker}
    ensures forall t ::
      IssuerLinesOf(staged + [x], t, processDate) ==
      IssuerLinesOf(staged, t, processDate) + (if x.ticker == t then [IssuerLine(processDate, x.record)] else [])
  {
    assert (staged + [x])[..|staged|] == staged;
  }

  /** symbol_lines.setdefault(ticker, []): the ticker's list so far, or a new empty one. */
  function SetDefault(m: map<string, seq<string>>, ticker: string): seq<string>
  {
    if ticker in m then m[ticker] else []
  }

  /** symbol_lines.setdefault(ticker, []).append(line) keeps the map equal to the
      per-ticker lines of the records staged so far. */
  lemma SymbolLinesStep(m: map<string, seq<string>>, staged: seq<Staged>, x: Staged, processDate: Date, line: string)
    requires AllWritable(staged) && Writable(x) && InPythonRange(processDate)
    requires m.Keys == TickersOf(staged)
    requires forall t :: t in m ==> m[t] == IssuerLinesOf(staged, t, processDate)
    requires line == IssuerLine(processDate, x.record)
    ensures var m' := m[x.ticker := SetDefault(m, x.ticker) + [line]];
      && m'.Keys == TickersOf(staged + [x])
      && forall t :: t in m' ==> m'[t] == IssuerLinesOf(staged + [x], t, processDate)
  {
    StagedAppend(staged, x, processDate);
  }

  lemma DataLinesStep(entry: seq<string>, i: nat, allowed: Option<set<string>>)
    requires 1 <= i < |entry|
    ensures StagedRecords(DataLines(entry[..i + 1]), allowed)
      == StagedRecords(DataLines(entry[..i]), allowed) + StageLine(entry[i], allowed)
  {
    var lines := DataLines(entry[..i + 1]);
    assert lines[..|lines| - 1] == DataLines(entry[..i]);
    assert lines[|lines| - 1] == entry[i];
  }

  /** The filters one data line of the archive goes through: rstrip("\r\n"), the
      parser, the ticker cleaner and the allowed set; None where the loop continues. */
  method StageRawLine(raw: string, allowed: Option<set<string>>) returns (staged: Option<Staged>)
    ensures staged.None? ==> StageLine(raw, allowed) == []
    ensures staged.Some? ==> StageLine(raw, allowed) == [staged.value] && Writable(staged.value)
    ensures var rec := TryParseRawLine(TrimRightBy(raw, IsLineBreak));
      staged.Some? <==>
        && rec.Some? && NormalizedTicker(rec.value.symbol) != []
        && (allowed.Some? ==> NormalizedTicker(rec.value.symbol) in allowed.value)
    ensures staged.Some? ==>
      && ValidStaged(staged.value, allowed)
      && staged.value.record == TryParseRawLine(TrimRightBy(raw, IsLineBreak)).value
  {
    var line := TrimRightBy(raw, IsLineBreak);
    var record := TryParseRawLine(line);
    if record.None? {
      return None;
    }
    var ticker := NormalizeTicker(record.value.symbol);
    if ticker == [] {
      return None;
    }
    if allowed.Some? && ticker !in allowed.value {
      return None;
    }
    return Some(Staged(ticker, record.value));
  }

  /** The buffers the line loop fills, for the records staged so far: one universe line per
      record in order, and for each ticker its issuer lines in order. */
  ghost predicate StagingOf(staged: seq<Staged>, processDate: Date,
                            universeLines: seq<string>, symbolLines: map<string, seq<string>>, processed: nat)
    requires AllWritable(staged) && InPythonRange(processDate)
  {
    && processed == |staged|
    && universeLines == UniverseLinesOf(staged)
    && symbolLines.Keys == TickersOf(staged)
    && (forall t :: t in symbolLines ==> symbolLines[t] == IssuerLinesOf(staged, t, processDate))
  }

  lemma StagingOfAppend(staged: seq<Staged>, x: Staged, processDate: Date,
                        universeLines: seq<string>, symbolLines: map<string, seq<string>>, processed: nat,
                        universeLines': seq<string>, symbolLines': map<string, seq<string>>, processed': nat)
    requires AllWritable(staged) && Writable(x) && InPythonRange(processDate)
    requires StagingOf(staged, processDate, universeLines, symbolLines, processed)
    requires universeLines' == universeLines + [UniverseLine(x.ticker, x.ticker, x.record)]
    requires symbolLines' == symbolLines[x.ticker := SetDefault(symbolLines, x.ticker) + [IssuerLine(processDate, x.record)]]
    requires processed' == processed + 1
    ensures AllWritable(staged + [x])
    ensures StagingOf(staged + [x], processDate, universeLines', symbolLines', processed')
  {
    SymbolLinesStep(symbolLines, staged, x, processDate, IssuerLine(processDate, x.record));
    StagedAppend(staged, x, processDate);
  }

  /** The number of lines held in all the lists of a map. */
  ghost function TotalLines(m: map<string, seq<string>>): nat
    decreases |m.Keys|
  {
    if m == map[] then 0
    else
      var k :| k in m;
      assert |(m - {k}).Keys| < |m.Keys| by { assert (m - {k}).Keys == m.Keys - {k}; }
      |m[k]| + TotalLines(m - {k})
  }

  /** Any one list can be taken out first. */
  lemma {:induction false} TotalLinesRemove(m: map<string, seq<string>>, k: string)
    requires k in m
    ensures TotalLines(m) == |m[k]| + TotalLines(m - {k})
    decreases |m.Keys|
  {
    var j :| j in m && TotalLines(m) == |m[j]| + TotalLines(m - {j});
    if j != k {
      assert (m - {j}).Keys == m.Keys - {j} && (m - {k}).Keys == m.Keys - {k};
      TotalLinesRemove(m - {j}, k);
      TotalLinesRemove(m - {k}, j);
      assert m - {j} - {k} == m - {k} - {j};
    }
  }

  /** setdefault(k, []).append(line) adds one line to the total. */
  lemma TotalLinesAppend(m: map<string, seq<string>>, k: string, line: string)
    ensures TotalLines(m[k := SetDefault(m, k) + [line]]) == TotalLines(m) + 1
  {
    var m' := m[k := SetDefault(m, k) + [line]];
    TotalLinesRemove(m', k);
    assert m' - {k} == m - {k};
    if k in m {
      TotalLinesRemove(m, k);
    } else {
      assert m - {k} == m;
    }
  }

  /** The per-ticker lists of the records staged so far. */
  ghost predicate SymbolLinesOf(staged: seq<Staged>, processDate: Date, m: map<string, seq<string>>)
    requires AllWritable(staged) && InPythonRange(processDate)
  {
    && m.Keys == TickersOf(staged)
    && forall t :: t in m ==> m[t] == IssuerLinesOf(staged, t, processDate)
  }

  lemma SymbolLinesTotalStep(init: seq<Staged>, x: Staged, processDate: Date,
                             m0: map<string, seq<string>>, m: map<string, seq<string>>)
    requires AllWritable(init) && Writable(x) && InPythonRange(processDate)
    requires SymbolLinesOf(init, processDate, m0)
    requires AllWritable(init + [x]) && SymbolLinesOf(init + [x], processDate, m)
    ensures TotalLines(m) == TotalLines(m0) + 1
  {
    var line := IssuerLine(processDate, x.record);
    SymbolLinesStep(m0, init, x, processDate, line);
    assert m == m0[x.ticker := SetDefault(m0, x.ticker) + [line]];
    TotalLinesAppend(m0, x.ticker, line);
  }

  /** The per-ticker lists of the records staged so far hold one line per record. */
  lemma {:induction false} SymbolLinesTotal(staged: seq<Staged>, processDate: Date, m: map<string, seq<string>>)
    requires AllWritable(staged) && InPythonRange(processDate)
    requires SymbolLinesOf(staged, processDate, m)
    ensures TotalLines(m) == |staged|
    decreases |staged|
  {
    if staged == [] {
      assert m == map[];
    } else {
      var init, x := staged[..|staged| - 1], staged[|staged| - 1];
      assert init + [x] == staged;
      var m0 := map t | t in TickersOf(init) :: IssuerLinesOf(init, t, processDate);
      SymbolLinesTotal(init, processDate, m0);
      SymbolLinesTotalStep(init, x, processDate, m0, m);
    }
  }

  /** The count the line loop returns is both the number of universe lines and the number
      of issuer lines across all tickers. */
  lemma StagingCounts(staged: seq<Staged>, processDate: Date,
                      universeLines: seq<string>, symbolLines: map<string, seq<string>>, processed: nat)
    requires AllWritable(staged) && InPythonRange(processDate)
    requires StagingOf(staged, processDate, universeLines, symbolLines, processed)
    ensures processed == |universeLines| == TotalLines(symbolLines)
  {
    SymbolLinesTotal(staged, processDate, symbolLines);
  }

  /** The staging state after the first i lines of an archive entry. */
  ghost predicate StagedUpTo(entry: seq<string>, i: nat, allowed: Option<set<string>>, processDate: Date,
                             universeLines: seq<string>, symbolLines: map<string, seq<string>>, processed: nat)
    requires i <= |entry| && InPythonRange(processDate)
  {
    StagingOf(StagedRecords(DataLines(entry[..i]), allowed), processDate, universeLines, symbolLines, processed)
  }

  lemma StagedUpToStart(entry: seq<string>, allowed: Option<set<string>>, processDate: Date)
    requires InPythonRange(processDate)
    ensures StagedUpTo(entry, 0, allowed, processDate, [], map[], 0)
  {
    assert DataLines(entry[..0]) == [];
    assert TickersOf([]) == {};
  }

  /** The header line is skipped without being parsed. */
  lemma StagedUpToHeader(entry: seq<string>, allowed: Option<set<string>>, processDate: Date,
                         universeLines: seq<string>, symbolLines: map<string, seq<string>>, processed: nat)
    requires 1 <= |entry| && InPythonRange(processDate)
    requires StagedUpTo(entry, 0, allowed, processDate, universeLines, symbolLines, processed)
    ensures StagedUpTo(entry, 1, allowed, processDate, universeLines, symbolLines, processed)
  {
    assert DataLines(entry[..0]) == [] == DataLines(entry[..1]);
  }

  /** A line that contributes nothing leaves the staging state as it was. */
  lemma StagedUpToSkip(entry: seq<string>, i: nat, allowed: Option<set<string>>, processDate: Date,
                       universeLines: seq<string>, symbolLines: map<string, seq<string>>, processed: nat)
    requires 1 <= i < |entry| && InPythonRange(processDate)
    requires StageLine(entry[i], allowed) == []
    requires StagedUpTo(entry, i, allowed, processDate, universeLines, symbolLines, processed)
    ensures StagedUpTo(entry, i + 1, allowed, processDate, universeLines, symbolLines, processed)
  {
    DataLinesStep(entry, i, allowed);
    var before := StagedRecords(DataLines(entry[..i]), allowed);
    assert StagedRecords(DataLines(entry[..i + 1]), allowed) == before + [] == before;
  }

  /** A staged record adds its universe line, its issuer line and one to the count. */
  lemma StagedUpToAdd(entry: seq<string>, i: nat, allowed: Option<set<string>>, processDate: Date,
                      universeLines: seq<string>, symbolLines: map<string, seq<string>>, processed: nat, x: Staged,
                      universeLines': seq<string>, symbolLines': map<string, seq<string>>, processed': nat)
    requires 1 <= i < |entry| && InPythonRange(processDate)
    requires StageLine(entry[i], allowed) == [x] && Writable(x)
    requires StagedUpTo(entry, i, allowed, processDate, universeLines, symbolLines, processed)
    requires universeLines' == universeLines + [UniverseLine(x.ticker, x.ticker, x.record)]
    requires symbolLines' == symbolLines[x.ticker := SetDefault(symbolLines, x.ticker) + [IssuerLine(processDate, x.record)]]
    requires processed' == processed + 1
    ensures StagedUpTo(entry, i + 1, allowed, processDate, universeLines', symbolLines', processed')
  {
    DataLinesStep(entry, i, allowed);
    var staged := StagedRecords(DataLines(entry[..i]), allowed);
    assert StagedRecords(DataLines(entry[..i + 1]), allowed) == staged + [x];
    StagingOfAppend(staged, x, processDate, universeLines, symbolLines, processed,
                    universeLines', symbolLines', processed');
  }

  /** One data line of the loop: a line that stages nothing leaves the state as it was;
      a staged record extends it. */
  lemma StagedUpToStep(entry: seq<string>, i: nat, allowed: Option<set<string>>, processDate: Date,
                       universeLines: seq<string>, symbolLines: map<string, seq<string>>, processed: nat,
                       next: Option<Staged>,
                       universeLines': seq<string>, symbolLines': map<string, seq<string>>, processed': nat)
    requires 1 <= i < |entry| && InPythonRange(processDate)
    requires StagedUpTo(entry, i, allowed, processDate, universeLines, symbolLines, processed)
    requires next.None? ==>
      && StageLine(entry[i], allowed) == []
      && universeLines' == universeLines && symbolLines' == symbolLines && processed' == processed
    requires next.Some? ==>
      && StageLine(entry[i], allowed) == [next.value] && Writable(next.value)
      && universeLines' == universeLines + [UniverseLine(next.value.ticker, next.value.ticker, next.value.record)]
      && symbolLines' == symbolLines[next.value.ticker := SetDefault(symbolLines, next.value.ticker) + [IssuerLine(processDate, next.value.record)]]
      && processed' == processed + 1
    ensures StagedUpTo(entry, i + 1, allowed, processDate, universeLines', symbolLines', processed')
  {
    if next.None? {
      StagedUpToSkip(entry, i, allowed, processDate, universeLines, symbolLines, processed);
    } else {
      StagedUpToAdd(entry, i, allowed, processDate, universeLines, symbolLines, processed, next.value,
                    universeLines', symbolLines', processed');
    }
  }

  lemma StagedUpToEnd(entry: seq<string>, allowed: Option<set<string>>, processDate: Date,
                      universeLines: seq<string>, symbolLines: map<string, seq<string>>, processed: nat)
    requires InPythonRange(processDate)
    requires StagedUpTo(entry, |entry|, allowed, processDate, universeLines, symbolLines, processed)
    ensures StagingOf(StagedRecords(DataLines(entry), allowed), processDate, universeLines, symbolLines, processed)
  {
    assert entry[..|entry|] == entry;
  }

  /** The body of the line loop for a data line: stage it and, when it yields a record,
      append its universe line and its issuer line. */
  method StageNextLine(entry: seq<string>, i: nat, allowed: Option<set<string>>, processDate: Date,
                       universeLines: seq<string>, symbolLines: map<string, seq<string>>, processed: nat)
    returns (universeLines': seq<string>, symbolLines': map<string, seq<string>>, processed': nat)
    requires 0 < i < |entry| && InPythonRange(processDate)
    requires StagedUpTo(entry, i, allowed, processDate, universeLines, symbolLines, processed)
    ensures StagedUpTo(entry, i + 1, allowed, processDate, universeLines', symbolLines', processed')
  {
    universeLines', symbolLines', processed' := universeLines, symbolLines, processed;
    var next := StageRawLine(entry[i], allowed);
    if next.Some? {
      var ticker, record := next.value.ticker, next.value.record;
      var dataLine := IssuerLine(processDate, record);
      symbolLines' := symbolLines[ticker := SetDefault(symbolLines, ticker) + [dataLine]];
      var symbolId := ticker;
      var uniLine := UniverseLine(symbolId, ticker, record);
      universeLines' := universeLines + [uniLine];
      processed' := processed + 1;
    }
    StagedUpToStep(entry, i, allowed, processDate, universeLines, symbolLines, processed, next,
                   universeLines', symbolLines', processed');
  }

  /** The line loop of _process_distribution_archive: the header line is skipped, and
      every record that parses, cleans to a ticker and passes the allowed set adds one
      universe line, one line to its ticker's list and one to the count. */
  method StageArchiveLines(entry: seq<string>, processDate: Date, allowed: Option<set<string>>)
    returns (universeLines: seq<string>, symbolLines: map<string, seq<string>>, processed: nat)
    requires InPythonRange(processDate)
    ensures StagingOf(StagedRecords(DataLines(entry), allowed), processDate, universeLines, symbolLines, processed)
  {
    universeLines := [];
    symbolLines := map[];
    processed := 0;
    var first := true;
    StagedUpToStart(entry, allowed, processDate);
    for i := 0 to |entry|
      invariant first <==> i == 0
      invariant StagedUpTo(entry, i, allowed, processDate, universeLines, symbolLines, processed)
    {
      if first {
        first := false;
        StagedUpToHeader(entry, allowed, processDate, universeLines, symbolLines, processed);
      } else {
        universeLines, symbolLines, processed := StageNextLine(entry, i, allowed, processDate, universeLines, symbolLines, processed);
      }
    }
    StagedUpToEnd(entry, allowed, processDate, universeLines, symbolLines, processed);
  }

  // ---------- the stores on disk and the downloader ----------

  /** A ticker as the cleaner leaves it: upper-case letters, digits and dots. */
  predicate CleanTicker(t: string)
  {
    forall i :: 0 <= i < |t| ==> IsTickerChar(t[i])
  }

  /** Lower-casing keeps clean tickers apart, so each gets a file of its own. */
  lemma IssuerFileInjective(a: string, b: string)
    requires CleanTicker(a) && CleanTicker(b)
    requires IssuerFile(a) == IssuerFile(b)
    ensures a == b
  {
    LowerTickerInjective(a, b);
  }

  /** Every row the old store held is still in the new one. */
  ghost predicate KeepsRows(before: map<StoreFile, seq<string>>, after: map<StoreFile, seq<string>>)
  {
    forall f :: f in before ==> f in after && forall l :: l in before[f] && l != [] ==> l in after[f]
  }

  lemma KeepsRowsTrans(a: map<StoreFile, seq<string>>, b: map<StoreFile, seq<string>>, c: map<StoreFile, seq<string>>)
    requires KeepsRows(a, b) && KeepsRows(b, c)
    ensures KeepsRows(a, c)
  {
  }

  /** A merge into one file f loses no row of the store. */
  lemma MergeKeepsRowsAt(kind: StoreKind, before: map<StoreFile, seq<string>>, contents: seq<string>,
                         after: map<StoreFile, seq<string>>, f: StoreFile)
    requires SavedAs(kind, Find(before, f), contents, Find(after, f))
    requires forall g :: g != f ==> Find(after, g) == Find(before, g)
    ensures KeepsRows(before, after)
  {
    forall g | g in before ensures g in after && forall l :: l in before[g] && l != [] ==> l in after[g] {
      if g == f {
        MergeKeepsRows(kind, Find(before, f), contents, Find(after, f));
      } else {
        assert Find(after, g) == Find(before, g);
      }
    }
  }

  /** The universe files present: the distributions already processed. */
  function UniverseKeys(files: map<StoreFile, seq<string>>): set<StoreFile>
  {
    set f | f in files && f.kind == UniverseSnapshot
  }

  lemma FindExtensional(a: map<StoreFile, seq<string>>, b: map<StoreFile, seq<string>>)
    requires forall g :: Find(a, g) == Find(b, g)
    ensures a == b
  {
    forall g | g in a ensures g in b && a[g] == b[g] {
      assert Find(a, g) == Find(b, g);
    }
    forall g | g in b ensures g in a {
      assert Find(a, g) == Find(b, g);
    }
  }

  /** Only the universe file u may have changed among the universe files. */
  lemma UniverseKeysFrame(before: map<StoreFile, seq<string>>, after: map<StoreFile, seq<string>>, u: StoreFile)
    requires u.kind == UniverseSnapshot
    requires forall g: StoreFile :: g.kind == UniverseSnapshot && g != u ==> Find(after, g) == Find(before, g)
    requires u in before ==> u in after
    ensures UniverseKeys(after) == UniverseKeys(before) + (if u in after then {u} else {})
  {
    forall g | g in UniverseKeys(after) ensures g in UniverseKeys(before) || g == u {
      if g != u { assert Find(after, g) == Find(before, g); }
    }
    forall g | g in UniverseKeys(before) ensures g in UniverseKeys(after) {
      if g != u { assert Find(after, g) == Find(before, g); }
    }
  }

  /** A universe line always holds its five commas, so it is never blank. */
  lemma UniverseLineNonEmpty(ticker: string, rec: FailRecord)
    requires InPythonRange(rec.settlementDate) && rec.quantity >= 0
    ensures UniverseLine(ticker, ticker, rec) != []
  {
    JoinHasSeparator([ticker, ticker, rec.cusip, NatToDecimal(rec.quantity),
                      FormatDate8(rec.settlementDate), PriceColumn(rec.price)], ',');
  }

  /** An issuer row sorts by its publication date: the merge keys it on its first field. */
  lemma IssuerLineKey(processDate: Date, rec: FailRecord)
    requires InPythonRange(processDate) && InPythonRange(rec.settlementDate) && rec.quantity >= 0
    ensures RowDate(IssuerLine(processDate, rec)) == processDate
  {
    var fields := [FormatDate8(processDate), FormatDate8(rec.settlementDate), rec.cusip,
                   NatToDecimal(rec.quantity), PriceColumn(rec.price)];
    DigitsHaveNoSpaceOrComma(fields[0]);
    FirstFieldOfJoin(fields);
    ParseFormatDate8(processDate);
  }

  /** A universe row sorts by its symbol id, the ticker itself. */
  lemma UniverseLineKey(ticker: string, rec: FailRecord)
    requires CleanTicker(ticker) && InPythonRange(rec.settlementDate) && rec.quantity >= 0
    ensures FirstField(UniverseLine(ticker, ticker, rec)) == ticker
  {
    FirstFieldOfJoin([ticker, ticker, rec.cusip, NatToDecimal(rec.quantity),
                      FormatDate8(rec.settlementDate), PriceColumn(rec.price)]);
  }

  /** The records an archive yields: those of its first entry; an empty archive yields none. */
  function ArchiveRecords(entries: seq<seq<string>>, allowed: Option<set<string>>): (r: seq<Staged>)
    ensures AllValid(r, allowed)
  {
    if entries == [] then [] else StagedRecords(DataLines(entries[0]), allowed)
  }

  /** What the discovery step knows of one distribution (its title is not modelled). */
  datatype DistributionMetadata = DistributionMetadata(downloadUrl: string, processDate: Date)

  /** An archive that the zip reader rejects, or the decoded lines of each of its entries. */
  datatype Archive = BadZip | Zip(entries: seq<seq<string>>)

  /** The outcome of a download: a 404 (empty payload), a request that failed after its
      retries, or the payload. */
  datatype Download = Missing | Failed | Payload(archive: Archive)

  const SkipProcessedDistributions := true

  /** The records a distribution's download yields: those of its archive, none otherwise. */
  function StagedOf(d: DistributionMetadata, fetch: string -> Download, allowed: Option<set<string>>): seq<Staged>
  {
    match fetch(d.downloadUrl)
    case Payload(Zip(entries)) => ArchiveRecords(entries, allowed)
    case _ => []
  }

  lemma StagedOfWritable(d: DistributionMetadata, fetch: string -> Download, allowed: Option<set<string>>)
    ensures AllWritable(StagedOf(d, fetch, allowed))
  {
    ValidIsWritable(StagedOf(d, fetch, allowed), allowed);
  }

  /** The number of records a distribution's download yields. */
  function Yield(d: DistributionMetadata, fetch: string -> Download, allowed: Option<set<string>>): nat
  {
    match fetch(d.downloadUrl)
    case Payload(Zip(entries)) => |ArchiveRecords(entries, allowed)|
    case _ => 0
  }

  predicate AllInRange(ds: seq<DistributionMetadata>)
  {
    forall i :: 0 <= i < |ds| ==> InPythonRange(ds[i].processDate)
  }

  /** A distribution the loop processes with at least one record: published by today, not
      already processed (its universe file absent) and yielding a record. */
  predicate Contributes(today: Date, d: DistributionMetadata, fetch: string -> Download,
                        allowed: Option<set<string>>, stored: set<StoreFile>)
    requires InPythonRange(d.processDate)
  {
    && AtOrBefore(d.processDate, today)
    && !(SkipProcessedDistributions && UniverseFile(d.processDate) in stored)
    && Yield(d, fetch, allowed) > 0
  }

  /** The value run returns, distribution by distribution: true from the first contributing
      one on. Until then no file has changed, so stored, the universe files present when the
      run began, decides every skip. */
  function RunOk(today: Date, ds: seq<DistributionMetadata>, fetch: string -> Download,
                 allowed: Option<set<string>>, stored: set<StoreFile>): bool
    requires AllInRange(ds)
    decreases |ds|
  {
    if ds == [] then false
    else if Contributes(today, ds[0], fetch, allowed, stored) then true
    else RunOk(today, ds[1..], fetch, allowed, stored)
  }

  /** run reports success exactly when some distribution published by today, whose universe
      file did not exist when the run began, yields a record. */
  lemma {:induction false} RunOkIff(today: Date, ds: seq<DistributionMetadata>, fetch: string -> Download,
                                    allowed: Option<set<string>>, stored: set<StoreFile>)
    requires AllInRange(ds)
    ensures RunOk(today, ds, fetch, allowed, stored) <==>
      exists i :: 0 <= i < |ds| && Contributes(today, ds[i], fetch, allowed, stored)
    decreases |ds|
  {
    if ds != [] {
      var d := ds[0];
      if !Contributes(today, d, fetch, allowed, stored) {
        RunOkIff(today, ds[1..], fetch, allowed, stored);
        if exists i :: 0 <= i < |ds| && Contributes(today, ds[i], fetch, allowed, stored) {
          var i :| 0 <= i < |ds| && Contributes(today, ds[i], fetch, allowed, stored);
          assert ds[1..][i - 1] == ds[i];
        }
        forall i | 0 <= i < |ds| - 1 && Contributes(today, ds[1..][i], fetch, allowed, stored)
          ensures Contributes(today, ds[i + 1], fetch, allowed, stored)
        {
          assert ds[1..][i] == ds[i + 1];
        }
      }
    }
  }

  /** One turn of run's loop, read off the recursive definition. */
  lemma RunOkStep(today: Date, ds: seq<DistributionMetadata>, i: nat, fetch: string -> Download,
                  allowed: Option<set<string>>, stored: set<StoreFile>)
    requires AllInRange(ds) && i < |ds|
    ensures RunOk(today, ds[i..], fetch, allowed, stored) ==
      (Contributes(today, ds[i], fetch, allowed, stored) || RunOk(today, ds[i + 1..], fetch, allowed, stored))
  {
    assert ds[i..][1..] == ds[i + 1..];
  }

  /** A distribution published by today whose download yields a record: processing it
      writes its universe file, unless that file is already there. */
  predicate MakesUniverse(today: Date, d: DistributionMetadata, fetch: string -> Download,
                          allowed: Option<set<string>>)
  {
    AtOrBefore(d.processDate, today) && Yield(d, fetch, allowed) > 0
  }

  /** What one distribution's turn of run's loop can write, read off its download: whether
      it makes its universe file, that file, the issuer files of its tickers with the lines
      it merges into each, and the universe lines it merges. */
  datatype Turn = Turn(makes: bool, universe: StoreFile, issuerRows: map<StoreFile, seq<string>>, lines: seq<string>)

  function TurnOf(today: Date, d: DistributionMetadata, fetch: string -> Download,
                  allowed: Option<set<string>>): Turn
    requires InPythonRange(d.processDate)
  {
    StagedOfWritable(d, fetch, allowed);
    var staged := StagedOf(d, fetch, allowed);
    Turn(MakesUniverse(today, d, fetch, allowed), UniverseFile(d.processDate),
         IssuerRowsOf(staged, d.processDate), UniverseLinesOf(staged))
  }

  /** A turn's parts, read off the download. */
  lemma TurnOfParts(today: Date, d: DistributionMetadata, fetch: string -> Download, allowed: Option<set<string>>)
    requires InPythonRange(d.processDate)
    ensures var t, dl := TurnOf(today, d, fetch, allowed), fetch(d.downloadUrl);
      && t.universe == UniverseFile(d.processDate)
      && (dl.Payload? && dl.archive.Zip? ==>
            && t.makes == (AtOrBefore(d.processDate, today) && |ArchiveRecords(dl.archive.entries, allowed)| > 0)
            && t.issuerRows == IssuerRowsOf(ArchiveRecords(dl.archive.entries, allowed), d.processDate)
            && t.lines == UniverseLinesOf(ArchiveRecords(dl.archive.entries, allowed)))
      && (!(dl.Payload? && dl.archive.Zip?) ==> !t.makes)
  {
    var dl := fetch(d.downloadUrl);
    if !(dl.Payload? && dl.archive.Zip?) {
      assert Yield(d, fetch, allowed) == 0;
    }
  }

  /** The turns of a run over ds, one per distribution in order. */
  function Turns(today: Date, ds: seq<DistributionMetadata>, fetch: string -> Download,
                 allowed: Option<set<string>>): (ts: seq<Turn>)
    requires AllInRange(ds)
    ensures |ts| == |ds|
  {
    seq(|ds|, i requires 0 <= i < |ds| && InPythonRange(ds[i].processDate) => TurnOf(today, ds[i], fetch, allowed))
  }

  /** The i-th turn is the i-th distribution's. */
  lemma TurnAt(today: Date, ds: seq<DistributionMetadata>, fetch: string -> Download,
               allowed: Option<set<string>>, i: nat)
    requires AllInRange(ds) && i < |ds|
    ensures Turns(today, ds, fetch, allowed)[i] == TurnOf(today, ds[i], fetch, allowed)
  {
  }

  /** Universe files are of the snapshot kind and issuer files of the history kind. */
  predicate Kinded(ts: seq<Turn>)
  {
    forall i :: 0 <= i < |ts| ==>
      ts[i].universe.kind == UniverseSnapshot && forall f :: f in ts[i].issuerRows ==> f.kind == IssuerHistory
  }

  lemma TurnsKinded(today: Date, ds: seq<DistributionMetadata>, fetch: string -> Download,
                    allowed: Option<set<string>>)
    requires AllInRange(ds)
    ensures Kinded(Turns(today, ds, fetch, allowed))
  {
    forall i | 0 <= i < |ds|
      ensures Turns(today, ds, fetch, allowed)[i].universe.kind == UniverseSnapshot
      ensures forall f :: f in Turns(today, ds, fetch, allowed)[i].issuerRows ==> f.kind == IssuerHistory
    {
      TurnAt(today, ds, fetch, allowed, i);
    }
  }

  /** The universe files of a run's turns that make one: those a run adds to the store's
      universe files. */
  function NewUniverseFiles(ts: seq<Turn>): set<StoreFile>
    decreases |ts|
  {
    if ts == [] then {}
    else
      var t := ts[|ts| - 1];
      NewUniverseFiles(ts[..|ts| - 1]) + (if t.makes then {t.universe} else {})
  }

  /** The files one turn writes, given the universe files present when it comes: none when
      it makes no universe file or is skipped as already processed; otherwise its universe
      file and its issuer files. */
  function TouchedBy(t: Turn, known: set<StoreFile>): set<StoreFile>
  {
    if t.makes && !(SkipProcessedDistributions && t.universe in known) then {t.universe} + t.issuerRows.Keys
    else {}
  }

  /** The files a run may write when stored are the universe files present as it begins:
      each turn sees those and the ones made by earlier turns. */
  function TouchedFiles(ts: seq<Turn>, stored: set<StoreFile>): set<StoreFile>
    decreases |ts|
  {
    if ts == [] then {}
    else
      var init := ts[..|ts| - 1];
      TouchedFiles(init, stored) + TouchedBy(ts[|ts| - 1], stored + NewUniverseFiles(init))
  }

  /** The rows each universe file made by a run is first written with: the lines of the
      first turn that makes it. Later turns with the same file find it and are skipped. */
  function UniverseWrites(ts: seq<Turn>): map<StoreFile, seq<string>>
    decreases |ts|
  {
    if ts == [] then map[]
    else
      var w, t := UniverseWrites(ts[..|ts| - 1]), ts[|ts| - 1];
      if t.makes && t.universe !in w then w[t.universe := t.lines] else w
  }

  /** The lines a map holds for a file; none when it has no entry. */
  function LinesAt(m: map<StoreFile, seq<string>>, f: StoreFile): seq<string>
  {
    if f in m then m[f] else []
  }

  /** The lines a run merges into each issuer file: those of every turn that writes, in
      turn order. A turn that makes no universe file, or finds it there, merges none. */
  function IssuerWrites(ts: seq<Turn>, stored: set<StoreFile>): map<StoreFile, seq<string>>
    decreases |ts|
  {
    if ts == [] then map[]
    else
      var init, t := ts[..|ts| - 1], ts[|ts| - 1];
      var w := IssuerWrites(init, stored);
      if t.universe in TouchedBy(t, stored + NewUniverseFiles(init)) then
        map f | f in w.Keys + t.issuerRows.Keys :: LinesAt(w, f) + LinesAt(t.issuerRows, f)
      else w
  }

  /** Extending the walked prefix by one turn: a turn that writes appends its lines for
      each issuer file. */
  lemma IssuerWritesStep(ts: seq<Turn>, i: nat, stored: set<StoreFile>)
    requires i < |ts|
    ensures var writes := ts[i].universe in TouchedBy(ts[i], stored + NewUniverseFiles(ts[..i]));
      forall f ::
        LinesAt(IssuerWrites(ts[..i + 1], stored), f) ==
          LinesAt(IssuerWrites(ts[..i], stored), f) + (if writes then LinesAt(ts[i].issuerRows, f) else [])
  {
    var p := ts[..i + 1];
    assert p[..|p| - 1] == ts[..i];
  }

  /** The issuer files a run merges lines into are exactly the issuer files it may write. */
  lemma {:induction false} IssuerWritesKeys(ts: seq<Turn>, stored: set<StoreFile>, f: StoreFile)
    requires Kinded(ts)
    ensures f in IssuerWrites(ts, stored) <==> f in TouchedFiles(ts, stored) && f.kind == IssuerHistory
    decreases |ts|
  {
    if ts != [] {
      var init := ts[..|ts| - 1];
      assert Kinded(init) by {
        forall i | 0 <= i < |init| ensures init[i] == ts[i] {}
      }
      IssuerWritesKeys(init, stored, f);
    }
  }

  /** Extending the walked prefix by one turn. */
  lemma TurnsPrefixStep(ts: seq<Turn>, i: nat, stored: set<StoreFile>)
    requires i < |ts|
    ensures NewUniverseFiles(ts[..i + 1]) ==
      NewUniverseFiles(ts[..i]) + (if ts[i].makes then {ts[i].universe} else {})
    ensures TouchedFiles(ts[..i + 1], stored) ==
      TouchedFiles(ts[..i], stored) + TouchedBy(ts[i], stored + NewUniverseFiles(ts[..i]))
    ensures var w := UniverseWrites(ts[..i]);
      UniverseWrites(ts[..i + 1]) ==
        if ts[i].makes && ts[i].universe !in w then w[ts[i].universe := ts[i].lines] else w
  {
    var p := ts[..i + 1];
    assert p[..|p| - 1] == ts[..i];
  }

  /** Every universe file new after a run comes from a turn that makes it. */
  lemma {:induction false} NewUniverseFileSource(ts: seq<Turn>, f: StoreFile) returns (i: nat)
    requires f in NewUniverseFiles(ts)
    ensures i < |ts| && ts[i].makes && f == ts[i].universe
    decreases |ts|
  {
    var init, t := ts[..|ts| - 1], ts[|ts| - 1];
    if t.makes && f == t.universe {
      i := |ts| - 1;
    } else {
      i := NewUniverseFileSource(init, f);
      assert init[i] == ts[i];
    }
  }

  /** Every turn that makes a universe file leaves it among the new ones. */
  lemma {:induction false} NewUniverseFileMade(ts: seq<Turn>, i: nat)
    requires i < |ts| && ts[i].makes
    ensures ts[i].universe in NewUniverseFiles(ts)
    decreases |ts|
  {
    var init := ts[..|ts| - 1];
    if i < |ts| - 1 {
      assert init[i] == ts[i];
      NewUniverseFileMade(init, i);
    }
  }

  /** A universe file is new after a run exactly when some distribution with that
      processing date is published by today and yields a record. */
  lemma NewUniverseFilesIff(today: Date, ds: seq<DistributionMetadata>, fetch: string -> Download,
                            allowed: Option<set<string>>, f: StoreFile)
    requires AllInRange(ds)
    ensures f in NewUniverseFiles(Turns(today, ds, fetch, allowed)) <==>
      exists i :: 0 <= i < |ds| && MakesUniverse(today, ds[i], fetch, allowed) && f == UniverseFile(ds[i].processDate)
  {
    var ts := Turns(today, ds, fetch, allowed);
    if f in NewUniverseFiles(ts) {
      var i := NewUniverseFileSource(ts, f);
      TurnAt(today, ds, fetch, allowed, i);
    }
    forall i | 0 <= i < |ds| && MakesUniverse(today, ds[i], fetch, allowed) && f == UniverseFile(ds[i].processDate)
      ensures f in NewUniverseFiles(ts)
    {
      TurnAt(today, ds, fetch, allowed, i);
      NewUniverseFileMade(ts, i);
    }
  }

  /** Every file a run may write is written in some turn. */
  lemma {:induction false} TouchedFileSource(ts: seq<Turn>, stored: set<StoreFile>, f: StoreFile) returns (i: nat)
    requires f in TouchedFiles(ts, stored)
    ensures i < |ts| && f in TouchedBy(ts[i], stored + NewUniverseFiles(ts[..i]))
    decreases |ts|
  {
    var init := ts[..|ts| - 1];
    if f in TouchedBy(ts[|ts| - 1], stored + NewUniverseFiles(init)) {
      i := |ts| - 1;
    } else {
      i := TouchedFileSource(init, stored, f);
      assert init[i] == ts[i] && init[..i] == ts[..i];
    }
  }

  /** Every file a turn writes is among those the run may write. */
  lemma {:induction false} TouchedFileOf(ts: seq<Turn>, stored: set<StoreFile>, i: nat, f: StoreFile)
    requires i < |ts| && f in TouchedBy(ts[i], stored + NewUniverseFiles(ts[..i]))
    ensures f in TouchedFiles(ts, stored)
    decreases |ts|
  {
    var init := ts[..|ts| - 1];
    if i < |ts| - 1 {
      assert init[i] == ts[i] && init[..i] == ts[..i];
      TouchedFileOf(init, stored, i, f);
    } else {
      assert ts[..i] == init;
    }
  }

  /** A file may be written by a run exactly when some distribution's turn writes it: the
      distribution is published by today and yields a record, its universe file is neither
      among the stored ones nor made by an earlier distribution, and the file is that
      universe file or the issuer file of one of its tickers. */
  lemma TouchedFilesIff(today: Date, ds: seq<DistributionMetadata>, fetch: string -> Download,
                        allowed: Option<set<string>>, stored: set<StoreFile>, f: StoreFile)
    requires AllInRange(ds)
    ensures var ts := Turns(today, ds, fetch, allowed);
      f in TouchedFiles(ts, stored) <==>
        exists i :: 0 <= i < |ds| && MakesUniverse(today, ds[i], fetch, allowed)
          && !(SkipProcessedDistributions && UniverseFile(ds[i].processDate) in stored + NewUniverseFiles(ts[..i]))
          && (f == UniverseFile(ds[i].processDate) || f in IssuerFilesOf(TickersOf(StagedOf(ds[i], fetch, allowed))))
  {
    var ts := Turns(today, ds, fetch, allowed);
    if f in TouchedFiles(ts, stored) {
      var i := TouchedFileSource(ts, stored, f);
      TurnAt(today, ds, fetch, allowed, i);
    }
    forall i | 0 <= i < |ds| && MakesUniverse(today, ds[i], fetch, allowed)
                 && !(SkipProcessedDistributions && UniverseFile(ds[i].processDate) in stored + NewUniverseFiles(ts[..i]))
                 && (f == UniverseFile(ds[i].processDate) || f in IssuerFilesOf(TickersOf(StagedOf(ds[i], fetch, allowed))))
      ensures f in TouchedFiles(ts, stored)
    {
      TurnAt(today, ds, fetch, allowed, i);
      TouchedFileOf(ts, stored, i, f);
    }
  }

  /** No universe file present when a run begins is written by it: a turn whose universe
      file is stored is skipped, and issuer files are of the other kind. */
  lemma TouchedAvoidsStored(ts: seq<Turn>, stored: set<StoreFile>, g: StoreFile)
    requires Kinded(ts) && g in stored && g.kind == UniverseSnapshot
    ensures g !in TouchedFiles(ts, stored)
  {
    if g in TouchedFiles(ts, stored) {
      var i := TouchedFileSource(ts, stored, g);
    }
  }

  /** The universe files a run writes are exactly its new ones. */
  lemma {:induction false} UniverseWritesKeys(ts: seq<Turn>)
    ensures UniverseWrites(ts).Keys == NewUniverseFiles(ts)
    decreases |ts|
  {
    if ts != [] {
      UniverseWritesKeys(ts[..|ts| - 1]);
    }
  }

  /** The first turn that makes a universe file decides the rows it is written with. */
  lemma {:induction false} WrittenByFirst(ts: seq<Turn>, i: nat)
    requires i < |ts| && ts[i].makes
    requires forall j :: 0 <= j < i && ts[j].makes ==> ts[j].universe != ts[i].universe
    ensures ts[i].universe in UniverseWrites(ts) && UniverseWrites(ts)[ts[i].universe] == ts[i].lines
    decreases |ts|
  {
    var init := ts[..|ts| - 1];
    if i < |ts| - 1 {
      assert init[i] == ts[i];
      forall j | 0 <= j < i && init[j].makes
        ensures init[j].universe != init[i].universe
      {
        assert init[j] == ts[j];
      }
      WrittenByFirst(init, i);
    } else {
      UniverseWritesKeys(init);
      if ts[i].universe in NewUniverseFiles(init) {
        var j := NewUniverseFileSource(init, ts[i].universe);
      }
    }
  }

  /** A universe file a run makes is written with the universe lines of the first
      distribution, published by today and yielding a record, that has its date. */
  lemma UniverseWritesFirst(today: Date, ds: seq<DistributionMetadata>, fetch: string -> Download,
                            allowed: Option<set<string>>, i: nat)
    requires AllInRange(ds) && i < |ds| && MakesUniverse(today, ds[i], fetch, allowed)
    requires forall j :: 0 <= j < i && MakesUniverse(today, ds[j], fetch, allowed) ==>
      ds[j].processDate != ds[i].processDate
    ensures var w := UniverseWrites(Turns(today, ds, fetch, allowed));
      && UniverseFile(ds[i].processDate) in w
      && (StagedOfWritable(ds[i], fetch, allowed);
          w[UniverseFile(ds[i].processDate)] == UniverseLinesOf(StagedOf(ds[i], fetch, allowed)))
  {
    var ts := Turns(today, ds, fetch, allowed);
    TurnAt(today, ds, fetch, allowed, i);
    forall j | 0 <= j < i && ts[j].makes
      ensures ts[j].universe != ts[i].universe
    {
      TurnAt(today, ds, fetch, allowed, j);
      if ts[j].universe == ts[i].universe {
        FormatDate8Injective(ds[j].processDate, ds[i].processDate);
      }
    }
    WrittenByFirst(ts, i);
  }

  /** One turn of run's loop on the other files: what the turn leaves alone and what the
      earlier turns left alone is still as the run found it. */
  lemma FrameTurn(origin: map<StoreFile, seq<string>>, before: map<StoreFile, seq<string>>,
                  after: map<StoreFile, seq<string>>, prev: set<StoreFile>, touched: set<StoreFile>)
    requires forall g :: g !in prev ==> Find(before, g) == Find(origin, g)
    requires forall g :: g !in touched ==> Find(after, g) == Find(before, g)
    ensures forall g :: g !in prev + touched ==> Find(after, g) == Find(origin, g)
  {
  }

  /** What one turn does to the store: its universe file exists afterwards when it makes
      one, the files it writes are the only ones that change, a universe file it writes
      did not exist and now holds the merge of the turn's lines, and each of its issuer
      files holds its old rows merged with the turn's lines for it. */
  ghost predicate TurnEffect(t: Turn, before: map<StoreFile, seq<string>>, after: map<StoreFile, seq<string>>)
  {
    && UniverseKeys(after) == UniverseKeys(before) + (if t.makes then {t.universe} else {})
    && (forall g :: g !in TouchedBy(t, UniverseKeys(before)) ==> Find(after, g) == Find(before, g))
    && (t.universe in TouchedBy(t, UniverseKeys(before)) ==> SavedAs(UniverseSnapshot, None, t.lines, Find(after, t.universe)))
    && (t.universe in TouchedBy(t, UniverseKeys(before)) ==>
          forall g :: g in t.issuerRows ==> SavedAs(IssuerHistory, Find(before, g), t.issuerRows[g], Find(after, g)))
  }

  /** A turn that makes no universe file, or finds it already there, changes nothing. */
  lemma QuietTurn(t: Turn, files: map<StoreFile, seq<string>>)
    requires !t.makes || (SkipProcessedDistributions && t.universe in UniverseKeys(files))
    ensures TurnEffect(t, files, files)
  {
  }

  /** One turn of run's loop on the universe files it wrote: w is what the earlier turns
      wrote, w2 what this turn leaves. A file of w2 not stored before the run either keeps
      its rows and its entry, or is u, freshly written with the turn's lines. */
  lemma WritesTurn(stored: set<StoreFile>, w: map<StoreFile, seq<string>>, w2: map<StoreFile, seq<string>>,
                   before: map<StoreFile, seq<string>>, after: map<StoreFile, seq<string>>, u: StoreFile)
    requires forall g :: g in w && g !in stored ==> SavedAs(UniverseSnapshot, None, w[g], Find(before, g))
    requires forall g :: g in w2 && g != u ==> g in w && w2[g] == w[g]
    requires forall g :: g in w && g != u ==> Find(after, g) == Find(before, g)
    requires u in w2 && u !in stored ==>
      if u in w then w2[u] == w[u] && Find(after, u) == Find(before, u)
      else SavedAs(UniverseSnapshot, None, w2[u], Find(after, u))
    ensures forall g :: g in w2 && g !in stored ==> SavedAs(UniverseSnapshot, None, w2[g], Find(after, g))
  {
  }

  /** The store after the first i turns of a run that began with origin, whose universe
      files were stored: the universe files made so far exist, only the files those turns
      write have changed, each universe file they made holds the merge of the lines of
      the first turn that made it, and each issuer file holds its old rows merged with
      all the lines those turns wrote to it. */
  ghost predicate RunSoFar(ts: seq<Turn>, i: nat, stored: set<StoreFile>,
                           origin: map<StoreFile, seq<string>>, files: map<StoreFile, seq<string>>)
    requires i <= |ts|
  {
    && UniverseKeys(files) == stored + NewUniverseFiles(ts[..i])
    && (forall g :: g !in TouchedFiles(ts[..i], stored) ==> Find(files, g) == Find(origin, g))
    && (forall g :: g in UniverseWrites(ts[..i]) && g !in stored ==>
          SavedAs(UniverseSnapshot, None, UniverseWrites(ts[..i])[g], Find(files, g)))
    && (forall g: StoreFile :: g.kind == IssuerHistory ==>
          SavedAs(IssuerHistory, Find(origin, g), LinesAt(IssuerWrites(ts[..i], stored), g), Find(files, g)))
  }

  /** One more turn of run's loop keeps RunSoFar. */
  lemma RunStep(ts: seq<Turn>, i: nat, stored: set<StoreFile>, origin: map<StoreFile, seq<string>>,
                before: map<StoreFile, seq<string>>, after: map<StoreFile, seq<string>>)
    requires i < |ts| && Kinded(ts)
    requires RunSoFar(ts, i, stored, origin, before)
    requires TurnEffect(ts[i], before, after)
    ensures RunSoFar(ts, i + 1, stored, origin, after)
  {
    TurnsPrefixStep(ts, i, stored);
    KeysStep(ts, i, stored, before, after);
    FrameStep(ts, i, stored, origin, before, after);
    WritesStep(ts, i, stored, before, after);
    IssuerStep(ts, i, stored, origin, before, after);
  }

  lemma IssuerStep(ts: seq<Turn>, i: nat, stored: set<StoreFile>, origin: map<StoreFile, seq<string>>,
                   before: map<StoreFile, seq<string>>, after: map<StoreFile, seq<string>>)
    requires i < |ts| && Kinded(ts)
    requires UniverseKeys(before) == stored + NewUniverseFiles(ts[..i])
    requires forall g: StoreFile :: g.kind == IssuerHistory ==>
      SavedAs(IssuerHistory, Find(origin, g), LinesAt(IssuerWrites(ts[..i], stored), g), Find(before, g))
    requires TurnEffect(ts[i], before, after)
    ensures forall g: StoreFile :: g.kind == IssuerHistory ==>
      SavedAs(IssuerHistory, Find(origin, g), LinesAt(IssuerWrites(ts[..i + 1], stored), g), Find(after, g))
  {
    IssuerWritesStep(ts, i, stored);
    var t, w := ts[i], IssuerWrites(ts[..i], stored);
    forall g: StoreFile | g.kind == IssuerHistory
      ensures SavedAs(IssuerHistory, Find(origin, g), LinesAt(IssuerWrites(ts[..i + 1], stored), g), Find(after, g))
    {
      if t.universe in TouchedBy(t, UniverseKeys(before)) && g in t.issuerRows {
        SavedAsCompose(IssuerHistory, Find(origin, g), LinesAt(w, g), Find(before, g), t.issuerRows[g], Find(after, g));
      } else {
        assert LinesAt(w, g) + [] == LinesAt(w, g);
      }
    }
  }

  lemma KeysStep(ts: seq<Turn>, i: nat, stored: set<StoreFile>,
                 before: map<StoreFile, seq<string>>, after: map<StoreFile, seq<string>>)
    requires i < |ts|
    requires UniverseKeys(before) == stored + NewUniverseFiles(ts[..i])
    requires UniverseKeys(after) == UniverseKeys(before) + (if ts[i].makes then {ts[i].universe} else {})
    requires NewUniverseFiles(ts[..i + 1]) == NewUniverseFiles(ts[..i]) + (if ts[i].makes then {ts[i].universe} else {})
    ensures UniverseKeys(after) == stored + NewUniverseFiles(ts[..i + 1])
  {
  }

  lemma FrameStep(ts: seq<Turn>, i: nat, stored: set<StoreFile>, origin: map<StoreFile, seq<string>>,
                  before: map<StoreFile, seq<string>>, after: map<StoreFile, seq<string>>)
    requires i < |ts|
    requires UniverseKeys(before) == stored + NewUniverseFiles(ts[..i])
    requires forall g :: g !in TouchedFiles(ts[..i], stored) ==> Find(before, g) == Find(origin, g)
    requires forall g :: g !in TouchedBy(ts[i], UniverseKeys(before)) ==> Find(after, g) == Find(before, g)
    requires TouchedFiles(ts[..i + 1], stored) ==
      TouchedFiles(ts[..i], stored) + TouchedBy(ts[i], stored + NewUniverseFiles(ts[..i]))
    ensures forall g :: g !in TouchedFiles(ts[..i + 1], stored) ==> Find(after, g) == Find(origin, g)
  {
    FrameTurn(origin, before, after, TouchedFiles(ts[..i], stored), TouchedBy(ts[i], UniverseKeys(before)));
  }

  lemma WritesStep(ts: seq<Turn>, i: nat, stored: set<StoreFile>,
                   before: map<StoreFile, seq<string>>, after: map<StoreFile, seq<string>>)
    requires i < |ts| && Kinded(ts)
    requires UniverseKeys(before) == stored + NewUniverseFiles(ts[..i])
    requires forall g :: g in UniverseWrites(ts[..i]) && g !in stored ==>
      SavedAs(UniverseSnapshot, None, UniverseWrites(ts[..i])[g], Find(before, g))
    requires forall g :: g !in TouchedBy(ts[i], UniverseKeys(before)) ==> Find(after, g) == Find(before, g)
    requires ts[i].universe in TouchedBy(ts[i], UniverseKeys(before)) ==>
      SavedAs(UniverseSnapshot, None, ts[i].lines, Find(after, ts[i].universe))
    requires var w := UniverseWrites(ts[..i]);
      UniverseWrites(ts[..i + 1]) ==
        if ts[i].makes && ts[i].universe !in w then w[ts[i].universe := ts[i].lines] else w
    ensures forall g :: g in UniverseWrites(ts[..i + 1]) && g !in stored ==>
      SavedAs(UniverseSnapshot, None, UniverseWrites(ts[..i + 1])[g], Find(after, g))
  {
    UniverseWritesKeys(ts[..i]);
    WritesTurn(stored, UniverseWrites(ts[..i]), UniverseWrites(ts[..i + 1]), before, after, ts[i].universe);
  }

  /** What the three steps of _process_distribution_archive amount to: the issuer files of
      the staged tickers (before to mid), then the universe file when any line was staged
      (mid to after). */
  lemma ArchiveOutcome(staged: seq<Staged>, processDate: Date, before: map<StoreFile, seq<string>>,
                       mid: map<StoreFile, seq<string>>, after: map<StoreFile, seq<string>>,
                       universeLines: seq<string>, symbolLines: map<string, seq<string>>, processed: nat)
    requires AllWritable(staged) && InPythonRange(processDate)
    requires StagingOf(staged, processDate, universeLines, symbolLines, processed)
    requires forall t :: t in symbolLines ==>
      SavedAs(IssuerHistory, Find(before, IssuerFile(t)), symbolLines[t], Find(mid, IssuerFile(t)))
    requires forall g :: g !in IssuerFilesOf(symbolLines.Keys) ==> Find(mid, g) == Find(before, g)
    requires universeLines == [] ==> after == mid
    requires universeLines != [] ==>
      && SavedAs(UniverseSnapshot, Find(mid, UniverseFile(processDate)), universeLines, Find(after, UniverseFile(processDate)))
      && forall g :: g != UniverseFile(processDate) ==> Find(after, g) == Find(mid, g)
    ensures processed == |staged|
    ensures forall t :: t in TickersOf(staged) ==>
      SavedAs(IssuerHistory, Find(before, IssuerFile(t)), IssuerLinesOf(staged, t, processDate), Find(after, IssuerFile(t)))
    ensures SavedAs(UniverseSnapshot, Find(before, UniverseFile(processDate)), UniverseLinesOf(staged),
                    Find(after, UniverseFile(processDate)))
    ensures forall g :: g !in IssuerFilesOf(TickersOf(staged)) && g != UniverseFile(processDate) ==>
      Find(after, g) == Find(before, g)
    ensures UniverseKeys(after) == UniverseKeys(before) + (if processed > 0 then {UniverseFile(processDate)} else {})
    ensures processed == 0 ==> after == before
  {
    var u := UniverseFile(processDate);
    assert u !in IssuerFilesOf(symbolLines.Keys);
    assert Find(mid, u) == Find(before, u);
    forall g | g !in IssuerFilesOf(TickersOf(staged)) && g != u ensures Find(after, g) == Find(before, g) {
      assert Find(mid, g) == Find(before, g);
    }
    forall t | t in TickersOf(staged)
      ensures SavedAs(IssuerHistory, Find(before, IssuerFile(t)), IssuerLinesOf(staged, t, processDate), Find(after, IssuerFile(t)))
    {
      assert IssuerFile(t) != u;
      assert Find(after, IssuerFile(t)) == Find(mid, IssuerFile(t));
    }
    if processed > 0 {
      assert universeLines[0] in MergedRows(Find(mid, u), universeLines);
    }
    UniverseKeysFrame(before, after, u);
    if processed == 0 {
      assert TickersOf(staged) == {};
      forall g ensures Find(after, g) == Find(before, g) {
        assert g !in IssuerFilesOf(symbolLines.Keys);
      }
      FindExtensional(after, before);
    }
  }

  /** The tickers staged from an archive are clean, and they key the issuer lines. */
  lemma StagedTickersClean(staged: seq<Staged>, allowed: Option<set<string>>, symbolLines: map<string, seq<string>>)
    requires AllValid(staged, allowed)
    requires symbolLines.Keys == TickersOf(staged)
    ensures forall t :: t in symbolLines ==> CleanTicker(t)
  {
    forall t | t in symbolLines ensures CleanTicker(t) {
      var i :| 0 <= i < |staged| && staged[i].ticker == t;
      assert t == NormalizedTicker(staged[i].record.symbol);
    }
  }

  /** The downloader: its ticker filter and the two CSV stores, keyed by file. */
  class FailsToDeliverDownloader {
    const allowedTickers: Option<set<string>>
    var files: map<StoreFile, seq<string>>

    /** A map-file directory that yields no tickers (or none at all) means no filtering. */
    constructor (mapTickers: Option<set<string>>, existing: map<StoreFile, seq<string>>)
      ensures allowedTickers == if mapTickers.Some? && mapTickers.value != {} then mapTickers else None
      ensures files == existing
    {
      if mapTickers.Some? && mapTickers.value != {} {
        allowedTickers := mapTickers;
      } else {
        allowedTickers := None;
      }
      files := existing;
    }

    /** _save_content_to_file: merge contents into <kind>/<name>.csv; no other file changes. */
    method SaveContentToFile(kind: StoreKind, name: string, contents: seq<string>)
      modifies this
      ensures SavedAs(kind, Find(old(files), StoreFile(kind, name)), contents, Find(files, StoreFile(kind, name)))
      ensures forall g :: g != StoreFile(kind, name) ==> Find(files, g) == Find(old(files), g)
      ensures KeepsRows(old(files), files)
    {
      var f := StoreFile(kind, name);
      var merged := MergeRows(Find(files, f), contents, kind);
      if merged.Some? {
        files := files[f := merged.value];
      }
      MergeKeepsRowsAt(kind, old(files), contents, files, f);
    }

    /** The issuer-file loop of _process_distribution_archive: each ticker's lines are merged
        into its own file, in any order. */
    method SaveSymbolLines(symbolLines: map<string, seq<string>>)
      requires forall t :: t in symbolLines ==> CleanTicker(t)
      modifies this
      ensures forall t :: t in symbolLines ==>
        SavedAs(IssuerHistory, Find(old(files), IssuerFile(t)), symbolLines[t], Find(files, IssuerFile(t)))
      ensures forall g :: g !in IssuerFilesOf(symbolLines.Keys) ==> Find(files, g) == Find(old(files), g)
      ensures KeepsRows(old(files), files)
    {
      var pending := symbolLines.Keys;
      while pending != {}
        invariant pending <= symbolLines.Keys
        invariant forall t :: t in symbolLines && t !in pending ==>
          SavedAs(IssuerHistory, Find(old(files), IssuerFile(t)), symbolLines[t], Find(files, IssuerFile(t)))
        invariant forall g :: g !in IssuerFilesOf(symbolLines.Keys - pending) ==> Find(files, g) == Find(old(files), g)
        invariant KeepsRows(old(files), files)
        decreases |pending|
      {
        var t :| t in pending;
        ghost var mid := files;
        SaveContentToFile(IssuerHistory, Lower(t), symbolLines[t]);
        forall u | u in symbolLines && u !in pending ensures IssuerFile(u) != IssuerFile(t) {
          if IssuerFile(u) == IssuerFile(t) { IssuerFileInjective(u, t); }
        }
        KeepsRowsTrans(old(files), mid, files);
        pending := pending - {t};
      }
    }

    /** _process_distribution_archive: stage the first entry's lines, merge each ticker's
        lines into its issuer file, then the universe lines into the distribution's file. */
    method ProcessDistributionArchive(processDate: Date, entries: seq<seq<string>>) returns (processed: nat)
      requires InPythonRange(processDate)
      modifies this
      ensures var staged := ArchiveRecords(entries, allowedTickers);
        && processed == |staged|
        && (forall t :: t in TickersOf(staged) ==>
              SavedAs(IssuerHistory, Find(old(files), IssuerFile(t)), IssuerLinesOf(staged, t, processDate),
                      Find(files, IssuerFile(t))))
        && SavedAs(UniverseSnapshot, Find(old(files), UniverseFile(processDate)), UniverseLinesOf(staged),
                   Find(files, UniverseFile(processDate)))
        && (forall g :: g !in IssuerFilesOf(TickersOf(staged)) && g != UniverseFile(processDate) ==>
              Find(files, g) == Find(old(files), g))
      ensures KeepsRows(old(files), files)
      ensures UniverseKeys(files) == UniverseKeys(old(files)) + (if processed > 0 then {UniverseFile(processDate)} else {})
      ensures processed == 0 ==> files == old(files)
    {
      if entries == [] {
        FindExtensional(files, old(files));
        return 0;
      }
      var universeLines, symbolLines, n := StageArchiveLines(entries[0], processDate, allowedTickers);
      ghost var staged := ArchiveRecords(entries, allowedTickers);
      StagedTickersClean(staged, allowedTickers, symbolLines);
      SaveSymbolLines(symbolLines);
      ghost var mid := files;
      if universeLines != [] {
        SaveContentToFile(UniverseSnapshot, FormatDate8(processDate), universeLines);
        KeepsRowsTrans(old(files), mid, files);
      }
      processed := n;
      ArchiveOutcome(staged, processDate, old(files), mid, files, universeLines, symbolLines, processed);
    }

    /** One turn of run's loop: skip a distribution published after today or already
        processed, fetch it, and process a payload the zip reader accepts. A download that
        is missing, fails or is not an archive changes nothing. */
    method RunTurn(today: Date, dist: DistributionMetadata, fetch: string -> Download) returns (processed: nat)
      requires InPythonRange(dist.processDate)
      modifies this
      ensures processed > 0 <==> Contributes(today, dist, fetch, allowedTickers, UniverseKeys(old(files)))
      ensures processed == 0 ==> files == old(files)
      ensures KeepsRows(old(files), files)
      ensures TurnEffect(TurnOf(today, dist, fetch, allowedTickers), old(files), files)
      ensures processed > 0 ==>
        (StagedOfWritable(dist, fetch, allowedTickers);
         var staged := StagedOf(dist, fetch, allowedTickers);
         forall t :: t in TickersOf(staged) ==>
           SavedAs(IssuerHistory, Find(old(files), IssuerFile(t)), IssuerLinesOf(staged, t, dist.processDate),
                   Find(files, IssuerFile(t))))
    {
      ghost var t := TurnOf(today, dist, fetch, allowedTickers);
      TurnOfParts(today, dist, fetch, allowedTickers);
      if !AtOrBefore(dist.processDate, today) {
        QuietTurn(t, files);
        return 0;
      }
      if SkipProcessedDistributions && UniverseFile(dist.processDate) in files {
        QuietTurn(t, files);
        return 0;
      }
      var download := fetch(dist.downloadUrl);
      if download.Missing? || download.Failed? {
        QuietTurn(t, files);
        return 0;
      }
      if download.archive.BadZip? {
        QuietTurn(t, files);
        return 0;
      }
      assert t.universe !in UniverseKeys(files);
      processed := ProcessDistributionArchive(dist.processDate, download.archive.entries);
      if processed == 0 {
        QuietTurn(t, files);
      } else {
        IssuerRowsTicker(ArchiveRecords(download.archive.entries, allowedTickers), allowedTickers, dist.processDate);
      }
    }

    /** run: walk the discovered distributions, skip those published after today and those
        already processed, and process every payload the zip reader accepts; report whether
        any distribution yielded a record. */
    method Run(today: Date, distributions: seq<DistributionMetadata>, fetch: string -> Download) returns (ok: bool)
      requires AllInRange(distributions)
      modifies this
      ensures distributions == [] ==> !ok
      ensures ok == RunOk(today, distributions, fetch, allowedTickers, UniverseKeys(old(files)))
      ensures KeepsRows(old(files), files)
      ensures var ts := Turns(today, distributions, fetch, allowedTickers);
        UniverseKeys(files) == UniverseKeys(old(files)) + NewUniverseFiles(ts)
      ensures var ts := Turns(today, distributions, fetch, allowedTickers);
        forall g :: g !in TouchedFiles(ts, UniverseKeys(old(files))) ==> Find(files, g) == Find(old(files), g)
      ensures forall g :: g in UniverseKeys(old(files)) ==> Find(files, g) == Find(old(files), g)
      ensures var w := UniverseWrites(Turns(today, distributions, fetch, allowedTickers));
        forall g :: g in w && g !in UniverseKeys(old(files)) ==> SavedAs(UniverseSnapshot, None, w[g], Find(files, g))
      ensures var iw := IssuerWrites(Turns(today, distributions, fetch, allowedTickers), UniverseKeys(old(files)));
        forall g: StoreFile :: g.kind == IssuerHistory ==> SavedAs(IssuerHistory, Find(old(files), g), LinesAt(iw, g), Find(files, g))
    {
      ok := false;
      ghost var stored := UniverseKeys(files);
      ghost var ts := Turns(today, distributions, fetch, allowedTickers);
      TurnsKinded(today, distributions, fetch, allowedTickers);
      for i := 0 to |distributions|
        invariant (ok || RunOk(today, distributions[i..], fetch, allowedTickers, UniverseKeys(files)))
          == RunOk(today, distributions, fetch, allowedTickers, stored)
        invariant !ok ==> UniverseKeys(files) == stored
        invariant KeepsRows(old(files), files)
        invariant RunSoFar(ts, i, stored, old(files), files)
      {
        ghost var before := files;
        RunOkStep(today, distributions, i, fetch, allowedTickers, UniverseKeys(files));
        var processed := RunTurn(today, distributions[i], fetch);
        TurnAt(today, distributions, fetch, allowedTickers, i);
        KeepsRowsTrans(old(files), before, files);
        RunStep(ts, i, stored, old(files), before, files);
        ok := ok || processed > 0;
      }
      assert ts[..|ts|] == ts;
      forall g | g in stored
        ensures Find(files, g) == Find(old(files), g)
      {
        TouchedAvoidsStored(ts, stored, g);
      }
    }
  }
}
