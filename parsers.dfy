/** The two ledger importers: MetaTrader 5 CSV exports (one trade per data
    record) and the simplified XML reader (one placeholder trade per
    position line). */
module Parsers {
  import opened Types

  // ---------------------------------------------------------------------
  // Substring search
  // ---------------------------------------------------------------------

  /** pat occurs in s starting at index i. */
  predicate MatchesAt(s: string, pat: string, i: nat) {
    i + |pat| <= |s| && s[i..i + |pat|] == pat
  }

  /** The first index at or after i where pat occurs. */
  function FindFrom(s: string, pat: string, i: nat): (r: Option<nat>)
    requires i <= |s|
    ensures r.Some? ==> i <= r.value && MatchesAt(s, pat, r.value)
    ensures r.Some? ==> forall j :: i <= j < r.value ==> !MatchesAt(s, pat, j)
    ensures r.None? ==> forall j :: i <= j <= |s| ==> !MatchesAt(s, pat, j)
    decreases |s| - i
  {
    if MatchesAt(s, pat, i) then Some(i)
    else if i == |s| then None
    else FindFrom(s, pat, i + 1)
  }

  /** The index of the first occurrence of pat in s, if any. */
  function Find(s: string, pat: string): (r: Option<nat>)
    ensures r.Some? ==> MatchesAt(s, pat, r.value) && forall j :: 0 <= j < r.value ==> !MatchesAt(s, pat, j)
    ensures r.None? <==> forall j :: 0 <= j <= |s| ==> !MatchesAt(s, pat, j)
  {
    FindFrom(s, pat, 0)
  }

  predicate Contains(s: string, pat: string) {
    Find(s, pat).Some?
  }

  /** A match inside a part is a match inside the whole. */
  lemma ContainsInConcat(a: string, b: string, c: string, pat: string)
    requires Contains(b, pat)
    ensures Contains(a + b + c, pat)
  {
    var i := Find(b, pat).value;
    var s := a + b + c;
    assert s[|a| + i..|a| + i + |pat|] == b[i..i + |pat|];
    assert MatchesAt(s, pat, |a| + i);
  }

  // ---------------------------------------------------------------------
  // CSV export
  // ---------------------------------------------------------------------

  /** A data record as the CSV reader yields it: its fields, or the reader's
      error for a record it cannot read. */
  datatype CsvRecord = Record(fields: seq<string>) | Malformed(detail: string)

  /** Rows with fewer than 8 fields and section rows (first field mentions
      "Positions") are not trades. */
  predicate IsTradeRow(fields: seq<string>) {
    |fields| >= 8 && !Contains(fields[0], "Positions")
  }

  /** The trade a trade row stands for: unparseable amounts become 0,
      unparseable commission or swap become absent. */
  function RowTrade(fields: seq<string>, parse: string -> Option<real>): Trade
    requires |fields| >= 8
  {
    Trade(fields[0], fields[1],
      parse(fields[2]).GetOr(0.0), parse(fields[3]).GetOr(0.0), parse(fields[4]).GetOr(0.0),
      parse(fields[5]).GetOr(0.0), parse(fields[6]), parse(fields[7]))
  }

  /** The outcome of reading the data records in order: the first unreadable
      record aborts the whole import. */
  function CsvTrades(records: seq<CsvRecord>, parse: string -> Option<real>): Result<seq<Trade>>
    decreases |records|
  {
    if |records| == 0 then Success([])
    else
      match CsvTrades(records[..|records| - 1], parse)
      case Failure(e) => Failure(e)
      case Success(ts) =>
        match records[|records| - 1]
        case Malformed(d) => Failure(CsvParse(d))
        case Record(f) => if IsTradeRow(f) then Success(ts + [RowTrade(f, parse)]) else Success(ts)
  }

  /** Sequencing of two import outcomes: the first failure wins, otherwise the
      trades are concatenated. */
  function Then(a: Result<seq<Trade>>, b: Result<seq<Trade>>): Result<seq<Trade>> {
    match a
    case Failure(e) => Failure(e)
    case Success(ts) =>
      match b
      case Failure(e) => Failure(e)
      case Success(us) => Success(ts + us)
  }

  /** Records are imported independently and in order: importing a + b is
      importing a, then b. */
  lemma {:induction false} CsvTradesAppend(a: seq<CsvRecord>, b: seq<CsvRecord>, parse: string -> Option<real>)
    ensures CsvTrades(a + b, parse) == Then(CsvTrades(a, parse), CsvTrades(b, parse))
    decreases |b|
  {
    if |b| == 0 {
      assert a + b == a;
      match CsvTrades(a, parse)
      case Failure(_) =>
      case Success(ts) => assert ts + [] == ts;
    } else {
      var b' := b[..|b| - 1];
      assert (a + b)[..|a + b| - 1] == a + b';
      CsvTradesAppend(a, b', parse);
      match CsvTrades(a, parse)
      case Failure(_) =>
      case Success(ts) =>
        match CsvTrades(b', parse)
        case Failure(_) =>
        case Success(us) =>
          forall x: Trade
            ensures ts + us + [x] == ts + (us + [x])
          {
          }
    }
  }

  /** A file holding only the header row yields no trades. */
  lemma CsvHeaderOnly(parse: string -> Option<real>)
    ensures CsvTrades([], parse) == Success([])
  {
  }

  /** The import fails exactly when some record is unreadable, with the error
      of the first such record. */
  lemma {:induction false} CsvFailsIff(records: seq<CsvRecord>, parse: string -> Option<real>)
    ensures CsvTrades(records, parse).Failure? <==> exists i :: 0 <= i < |records| && records[i].Malformed?
    ensures CsvTrades(records, parse).Failure? ==>
      exists i :: 0 <= i < |records| && records[i].Malformed?
        && (forall j :: 0 <= j < i ==> records[j].Record?)
        && CsvTrades(records, parse).error == CsvParse(records[i].detail)
    decreases |records|
  {
    if |records| > 0 {
      var init := records[..|records| - 1];
      CsvFailsIff(init, parse);
      assert forall j :: 0 <= j < |init| ==> init[j] == records[j];
    }
  }

  /** Without unreadable records, the number of trades is the number of
      trade rows, the trade of the trade row at index i sits at the position
      given by the number of trade rows before it (so every trade row
      contributes its trade, in file order), and each trade is some trade
      row's trade. */
  lemma CsvTradesOfRows(records: seq<CsvRecord>, parse: string -> Option<real>)
    requires forall i :: 0 <= i < |records| ==> records[i].Record?
    ensures CsvTrades(records, parse).Success?
    ensures |CsvTrades(records, parse).value| == TradeRowCount(records)
    ensures forall i :: 0 <= i < |records| && IsTradeRow(records[i].fields) ==>
      && TradeRowCount(records[..i]) < |CsvTrades(records, parse).value|
      && CsvTrades(records, parse).value[TradeRowCount(records[..i])] == RowTrade(records[i].fields, parse)
    ensures forall t :: t in CsvTrades(records, parse).value ==>
      exists i :: 0 <= i < |records| && IsTradeRow(records[i].fields) && t == RowTrade(records[i].fields, parse)
  {
    CsvTradesFromRows(records, parse);
    CsvTradesInRowOrder(records, parse);
  }

  /** Without unreadable records the reading succeeds with one trade per
      trade row, each the trade of some trade row. */
  lemma {:induction false} CsvTradesFromRows(records: seq<CsvRecord>, parse: string -> Option<real>)
    requires forall i :: 0 <= i < |records| ==> records[i].Record?
    ensures CsvTrades(records, parse).Success?
    ensures |CsvTrades(records, parse).value| == TradeRowCount(records)
    ensures forall t :: t in CsvTrades(records, parse).value ==>
      exists i :: 0 <= i < |records| && IsTradeRow(records[i].fields) && t == RowTrade(records[i].fields, parse)
    decreases |records|
  {
    if |records| > 0 {
      var init := records[..|records| - 1];
      assert forall j :: 0 <= j < |init| ==> init[j] == records[j];
      CsvTradesFromRows(init, parse);
    }
  }

  /** Without unreadable records the trade row at index i gives the trade
      at the position counting the trade rows before it. */
  lemma {:induction false} CsvTradesInRowOrder(records: seq<CsvRecord>, parse: string -> Option<real>)
    requires forall i :: 0 <= i < |records| ==> records[i].Record?
    ensures CsvTrades(records, parse).Success?
    ensures forall i :: 0 <= i < |records| && IsTradeRow(records[i].fields) ==>
      && TradeRowCount(records[..i]) < |CsvTrades(records, parse).value|
      && CsvTrades(records, parse).value[TradeRowCount(records[..i])] == RowTrade(records[i].fields, parse)
    decreases |records|
  {
    CsvTradesFromRows(records, parse);
    if |records| > 0 {
      var n := |records| - 1;
      var init := records[..n];
      assert forall j :: 0 <= j < |init| ==> init[j] == records[j];
      CsvTradesFromRows(init, parse);
      CsvTradesInRowOrder(init, parse);
      var ts, v := CsvTrades(init, parse).value, CsvTrades(records, parse).value;
      assert |ts| <= |v| && v[..|ts|] == ts;
      forall i | 0 <= i < |records| && IsTradeRow(records[i].fields)
        ensures TradeRowCount(records[..i]) < |v| && v[TradeRowCount(records[..i])] == RowTrade(records[i].fields, parse)
      {
        if i < n {
          assert records[..i] == init[..i];
          assert v[TradeRowCount(init[..i])] == ts[TradeRowCount(init[..i])];
        } else {
          assert records[..i] == init;
        }
      }
    }
  }

  /** The number of trade rows among the records. */
  function TradeRowCount(records: seq<CsvRecord>): (n: nat)
    ensures n <= |records|
    decreases |records|
  {
    if |records| == 0 then 0
    else
      var last := records[|records| - 1];
      TradeRowCount(records[..|records| - 1]) + (if last.Record? && IsTradeRow(last.fields) then 1 else 0)
  }

  /** Reads the data records (the header row already consumed) one by one,
      skipping non-trade rows. */
  method ParseMt5Csv(records: seq<CsvRecord>, parse: string -> Option<real>) returns (r: Result<seq<Trade>>)
    ensures r == CsvTrades(records, parse)
  {
    var trades: seq<Trade> := [];
    for i := 0 to |records|
      invariant CsvTrades(records[..i], parse) == Success(trades)
    {
      assert records[..i + 1][..i] == records[..i];
      match records[i]
      case Malformed(d) =>
        CsvTradesAppend(records[..i + 1], records[i + 1..], parse);
        assert records[..i + 1] + records[i + 1..] == records;
        return Failure(CsvParse(d));
      case Record(f) =>
        if IsTradeRow(f) {
          trades := trades + [RowTrade(f, parse)];
        }
    }
    assert records[..|records|] == records;
    r := Success(trades);
  }

  // ---------------------------------------------------------------------
  // XML export
  // ---------------------------------------------------------------------

  const PositionsOpen := "<Positions>"
  const PositionsClose := "</Positions>"
  const PositionOpen := "<Position>"
  const PositionClose := "</Position>"

  /** The fixed trade emitted for every position line. */
  const PlaceholderTrade := Trade("EURUSD", "Buy", 1.0, 1.0, 1.0, 0.0, None, None)

  /** Where the positions section starts: the first "<Positions>", or 0. */
  function SectionStart(content: string): nat {
    Find(content, PositionsOpen).GetOr(0)
  }

  /** Where the positions section ends: the first "</Positions>", or the end. */
  function SectionEnd(content: string): nat {
    Find(content, PositionsClose).GetOr(|content|)
  }

  /** The section is a valid slice whenever the reader gets as far as
      slicing it. */
  predicate SectionSliceable(content: string) {
    SectionStart(content) != 0 ==> SectionStart(content) <= SectionEnd(content) <= |content|
  }

  /** The pieces of s between line feeds. */
  function Lines(s: string): (r: seq<string>)
    ensures |r| > 0
    ensures forall k :: 0 <= k < |r| ==> '\n' !in r[k]
    decreases |s|
  {
    if |s| == 0 then [""]
    else
      var rest := Lines(s[1..]);
      if s[0] == '\n' then [""] + rest else [[s[0]] + rest[0]] + rest[1..]
  }

  /** Joining lines with line feeds. */
  function JoinLines(ls: seq<string>): string
    requires |ls| > 0
    decreases |ls|
  {
    if |ls| == 1 then ls[0] else ls[0] + "\n" + JoinLines(ls[1..])
  }

  /** Splitting loses nothing: the lines joined back give the text. */
  lemma {:induction false} JoinLinesOfLines(s: string)
    ensures JoinLines(Lines(s)) == s
    decreases |s|
  {
    if |s| > 0 {
      JoinLinesOfLines(s[1..]);
      var rest := Lines(s[1..]);
      if s[0] == '\n' {
        assert s == "\n" + s[1..];
      } else {
        if |rest| == 1 {
          assert s == [s[0]] + rest[0];
        } else {
          assert JoinLines(rest) == rest[0] + "\n" + JoinLines(rest[1..]);
          assert s == [s[0]] + rest[0] + "\n" + JoinLines(rest[1..]);
        }
      }
    }
  }

  predicate IsPositionLine(line: string) {
    Contains(line, PositionOpen) && Contains(line, PositionClose)
  }

  function PositionLineCount(ls: seq<string>): (n: nat)
    ensures n <= |ls|
    decreases |ls|
  {
    if |ls| == 0 then 0
    else PositionLineCount(ls[..|ls| - 1]) + (if IsPositionLine(ls[|ls| - 1]) then 1 else 0)
  }

  /** Every line counted contains "<Position>". */
  lemma {:induction false} NoOpenTagNoPositions(ls: seq<string>)
    requires forall k :: 0 <= k < |ls| ==> !Contains(ls[k], PositionOpen)
    ensures PositionLineCount(ls) == 0
    decreases |ls|
  {
    if |ls| > 0 {
      NoOpenTagNoPositions(ls[..|ls| - 1]);
    }
  }

  /** A line of a text is part of the text. */
  lemma {:induction false} LineContainment(ls: seq<string>, k: nat, pat: string)
    requires |ls| > 0 && k < |ls| && Contains(ls[k], pat)
    ensures Contains(JoinLines(ls), pat)
    decreases |ls|
  {
    if |ls| == 1 {
      assert JoinLines(ls) == "" + ls[0] + "";
      ContainsInConcat("", ls[0], "", pat);
    } else {
      var tail := JoinLines(ls[1..]);
      assert JoinLines(ls) == ls[0] + "\n" + tail;
      if k == 0 {
        ContainsInConcat("", ls[0], "\n" + tail, pat);
        assert "" + ls[0] + ("\n" + tail) == ls[0] + "\n" + tail;
      } else {
        LineContainment(ls[1..], k - 1, pat);
        ContainsInConcat(ls[0] + "\n", tail, "", pat);
        assert ls[0] + "\n" + tail + "" == ls[0] + "\n" + tail;
      }
    }
  }

  /** A section without any "<Position>" yields no trades. */
  lemma SectionWithoutPositions(section: string)
    requires !Contains(section, PositionOpen)
    ensures PositionLineCount(Lines(section)) == 0
  {
    var ls := Lines(section);
    JoinLinesOfLines(section);
    forall k | 0 <= k < |ls|
      ensures !Contains(ls[k], PositionOpen)
    {
      if Contains(ls[k], PositionOpen) {
        LineContainment(ls, k, PositionOpen);
      }
    }
    NoOpenTagNoPositions(ls);
  }

  /** Locates the positions section and emits one placeholder trade for each
      of its lines that holds a complete position element. */
  method ParseMt5Xml(content: string) returns (r: Result<seq<Trade>>)
    requires SectionSliceable(content)
    ensures r.Failure? <==> SectionStart(content) == 0
    ensures r.Failure? ==> r.error == PositionsNotFound
    ensures r.Success? ==>
      && |r.value| == PositionLineCount(Lines(content[SectionStart(content)..SectionEnd(content)]))
      && forall k :: 0 <= k < |r.value| ==> r.value[k] == PlaceholderTrade
  {
    var start := SectionStart(content);
    var end := SectionEnd(content);
    if start == 0 {
      return Failure(PositionsNotFound);
    }
    var lines := Lines(content[start..end]);
    var trades: seq<Trade> := [];
    for i := 0 to |lines|
      invariant |trades| == PositionLineCount(lines[..i])
      invariant forall k :: 0 <= k < |trades| ==> trades[k] == PlaceholderTrade
    {
      assert lines[..i + 1][..i] == lines[..i];
      if Contains(lines[i], PositionOpen) && Contains(lines[i], PositionClose) {
        trades := trades + [PlaceholderTrade];
      }
    }
    assert lines[..|lines|] == lines;
    r := Success(trades);
  }

  /** Without a "<Positions>" tag the reader always rejects the document. */
  lemma MissingSectionRejected(content: string)
    requires !Contains(content, PositionsOpen)
    ensures SectionStart(content) == 0
  {
  }
}
