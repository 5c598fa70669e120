/** The pinout-table normaliser of `parse_connector_page`: it turns the `th`
    texts and the `td` cells of every `tr` of the page's first table into
    rows keyed by every header, expanding the merged "unused" rows. */
module Pinout {
  import opened Wrappers
  import opened Text

  /** One `td`: its stripped text and whether it carries a `colspan`. */
  datatype Cell = Cell(text: string, colspan: bool)

  /** The first `table` of a page: the texts of all its `th` elements, and the
      `td` cells of each of its `tr` elements, in document order. */
  datatype Table = Table(headers: seq<string>, trs: seq<seq<Cell>>)

  /** `headers[0]` on an empty header list raises `IndexError`. */
  datatype TableError = NoFirstHeader

  /** One emitted row: header text to cell text, `None` for a missing cell. */
  type Row = map<string, Option<string>>

  const UNUSED := "unused"

  /** `p.get(key)`: the value under `key`, `None` when the key is absent. */
  function Get(row: Row, key: string): Option<string> {
    if key in row then row[key] else None
  }

  function HeaderSet(headers: seq<string>): set<string> {
    set h | h in headers
  }

  /** Two `td`s, the second with a `colspan` and "unused" in its lower-cased text. */
  predicate IsUnusedRow(tds: seq<Cell>) {
    |tds| == 2 && tds[1].colspan && Contains(Lower(tds[1].text), UNUSED)
  }

  /** `[td.get_text(strip=True) for td in tds]` */
  function CellTexts(tds: seq<Cell>): (texts: seq<string>)
    ensures |texts| == |tds|
    ensures forall i :: 0 <= i < |tds| ==> texts[i] == tds[i].text
  {
    if tds == [] then [] else CellTexts(tds[..|tds| - 1]) + [tds[|tds| - 1].text]
  }

  // ---------------------------------------------------------------------------
  // Unused rows

  /** The unused-row dictionary once the loop has written `headers[1..k]`. */
  function UnusedRowUpTo(headers: seq<string>, first: string, k: nat): (row: Row)
    requires 1 <= k <= |headers|
    ensures row.Keys == HeaderSet(headers[..k])
    decreases k
  {
    if k == 1 then map[headers[0] := Some(first)]
    else
      assert headers[..k] == headers[..k - 1] + [headers[k - 1]];
      UnusedRowUpTo(headers, first, k - 1)[headers[k - 1] := Some(UNUSED)]
  }

  /** The unused row whose first cell reads `first`. */
  function UnusedRowOf(headers: seq<string>, first: string): Row
    requires |headers| > 0
  {
    UnusedRowUpTo(headers, first, |headers|)
  }

  /** `{headers[0]: first}` followed by `row[h] = "unused"` for every later header. */
  method UnusedRow(headers: seq<string>, first: string) returns (r: Result<Row, TableError>)
    ensures r.Failure? <==> headers == []
    ensures r.Success? ==> r.value == UnusedRowOf(headers, first)
  {
    if |headers| == 0 {
      return Failure(NoFirstHeader);
    }
    var row := map[headers[0] := Some(first)];
    var k := 1;
    while k < |headers|
      invariant 1 <= k <= |headers|
      invariant row == UnusedRowUpTo(headers, first, k)
    {
      row := row[headers[k] := Some(UNUSED)];
      k := k + 1;
    }
    return Success(row);
  }

  /** An unused row carries every header; each header after the first reads
      "unused", and the first reads the first cell's text unless it is
      repeated later on. */
  lemma {:induction false} UnusedRowValues(headers: seq<string>, first: string, k: nat)
    requires 1 <= k <= |headers|
    ensures UnusedRowUpTo(headers, first, k).Keys == HeaderSet(headers[..k])
    ensures forall i :: 1 <= i < k ==> UnusedRowUpTo(headers, first, k)[headers[i]] == Some(UNUSED)
    ensures (forall i :: 1 <= i < k ==> headers[i] != headers[0]) ==>
              UnusedRowUpTo(headers, first, k)[headers[0]] == Some(first)
    decreases k
  {
    if k > 1 {
      UnusedRowValues(headers, first, k - 1);
    }
  }

  // ---------------------------------------------------------------------------
  // Data rows

  function Min(a: nat, b: nat): nat {
    if a <= b then a else b
  }

  /** `dict(zip(headers, cells))` after its first `k` pairs: a later pair
      with the same header overwrites an earlier one. */
  function ZipUpTo(headers: seq<string>, cells: seq<string>, k: nat): Row
    requires k <= |headers| && k <= |cells|
    decreases k
  {
    if k == 0 then map[] else ZipUpTo(headers, cells, k - 1)[headers[k - 1] := Some(cells[k - 1])]
  }

  lemma {:induction false} ZipKeys(headers: seq<string>, cells: seq<string>, k: nat)
    requires k <= |headers| && k <= |cells|
    ensures ZipUpTo(headers, cells, k).Keys == HeaderSet(headers[..k])
    decreases k
  {
    if k > 0 {
      ZipKeys(headers, cells, k - 1);
      assert headers[..k] == headers[..k - 1] + [headers[k - 1]];
    }
  }

  /** `for h in headers[:k]: if h not in row: row[h] = None` */
  function FillUpTo(row: Row, headers: seq<string>, k: nat): Row
    requires k <= |headers|
    decreases k
  {
    if k == 0 then row
    else
      var r := FillUpTo(row, headers, k - 1);
      if headers[k - 1] in r then r else r[headers[k - 1] := None]
  }

  /** Filling adds exactly the missing headers, each with `None`, and keeps
      what was there. */
  lemma {:induction false} FillFacts(row: Row, headers: seq<string>, k: nat)
    requires k <= |headers|
    ensures FillUpTo(row, headers, k).Keys == row.Keys + HeaderSet(headers[..k])
    ensures forall h :: h in row ==> FillUpTo(row, headers, k)[h] == row[h]
    ensures forall h :: h in FillUpTo(row, headers, k) && h !in row ==> FillUpTo(row, headers, k)[h] == None
    decreases k
  {
    if k > 0 {
      FillFacts(row, headers, k - 1);
      assert headers[..k] == headers[..k - 1] + [headers[k - 1]];
    }
  }

  /** The data row made of `cells`. */
  function DataRowOf(headers: seq<string>, cells: seq<string>): Row {
    FillUpTo(ZipUpTo(headers, cells, Min(|headers|, |cells|)), headers, |headers|)
  }

  /** `row = dict(zip(headers, cells))`, then every header not yet present is
      added with `None`. */
  method DataRow(headers: seq<string>, cells: seq<string>) returns (row: Row)
    ensures row == DataRowOf(headers, cells)
  {
    var n := Min(|headers|, |cells|);
    row := map[];
    var i := 0;
    while i < n
      invariant 0 <= i <= n
      invariant row == ZipUpTo(headers, cells, i)
    {
      row := row[headers[i] := Some(cells[i])];
      i := i + 1;
    }
    ghost var zipped := row;
    var k := 0;
    while k < |headers|
      invariant 0 <= k <= |headers|
      invariant row == FillUpTo(zipped, headers, k)
    {
      if headers[k] !in row {
        row := row[headers[k] := None];
      }
      k := k + 1;
    }
  }

  /** The zipped value of a header is the cell of its last occurrence among
      the first `k` positions. */
  lemma {:induction false} ZipValue(headers: seq<string>, cells: seq<string>, k: nat, i: nat)
    requires k <= |headers| && k <= |cells|
    requires i < k && forall j :: i < j < k ==> headers[j] != headers[i]
    ensures headers[i] in ZipUpTo(headers, cells, k)
    ensures ZipUpTo(headers, cells, k)[headers[i]] == Some(cells[i])
    decreases k
  {
    if i < k - 1 {
      ZipValue(headers, cells, k - 1, i);
    }
  }

  /** A data row has exactly the header keys. */
  lemma DataRowKeys(headers: seq<string>, cells: seq<string>)
    ensures DataRowOf(headers, cells).Keys == HeaderSet(headers)
  {
    var n := Min(|headers|, |cells|);
    ZipKeys(headers, cells, n);
    FillFacts(ZipUpTo(headers, cells, n), headers, |headers|);
    assert headers[..|headers|] == headers;
    assert HeaderSet(headers[..n]) <= HeaderSet(headers);
  }

  /** A header gets the cell at its last position that has a cell... */
  lemma DataRowValue(headers: seq<string>, cells: seq<string>, i: nat)
    requires i < |headers| && i < |cells|
    requires forall j :: i < j < Min(|headers|, |cells|) ==> headers[j] != headers[i]
    ensures headers[i] in DataRowOf(headers, cells) && DataRowOf(headers, cells)[headers[i]] == Some(cells[i])
  {
    var n := Min(|headers|, |cells|);
    ZipValue(headers, cells, n, i);
    FillFacts(ZipUpTo(headers, cells, n), headers, |headers|);
  }

  /** ... and `None` when none of its positions has a cell. */
  lemma DataRowMissing(headers: seq<string>, cells: seq<string>, h: string)
    requires h in headers
    requires forall j :: 0 <= j < Min(|headers|, |cells|) ==> headers[j] != h
    ensures h in DataRowOf(headers, cells) && DataRowOf(headers, cells)[h] == None
  {
    var n := Min(|headers|, |cells|);
    ZipKeys(headers, cells, n);
    FillFacts(ZipUpTo(headers, cells, n), headers, |headers|);
    DataRowKeys(headers, cells);
    assert h !in HeaderSet(headers[..n]);
  }

  predicate Distinct(headers: seq<string>) {
    forall i, j :: 0 <= i < j < |headers| ==> headers[i] != headers[j]
  }

  /** With distinct headers a data row zips positionally: the header at
      position `i` reads the `i`-th cell, or `None` past the last cell. */
  lemma DataRowPositional(headers: seq<string>, cells: seq<string>, i: nat)
    requires Distinct(headers) && i < |headers|
    ensures headers[i] in DataRowOf(headers, cells)
    ensures DataRowOf(headers, cells)[headers[i]] == if i < |cells| then Some(cells[i]) else None
  {
    if i < |cells| {
      DataRowValue(headers, cells, i);
    } else {
      DataRowMissing(headers, cells, headers[i]);
    }
  }

  // ---------------------------------------------------------------------------
  // The whole table

  /** The rows one `tr` adds: the unused row (raising without headers), nothing
      for a `tr` without `td`, or its data row. */
  function Emit(headers: seq<string>, tds: seq<Cell>): (r: Result<seq<Row>, TableError>)
    ensures r.Success? ==> |r.value| <= 1
    ensures r.Success? ==> forall row :: row in r.value ==> row.Keys == HeaderSet(headers)
  {
    if IsUnusedRow(tds) then
      if headers == [] then Failure(NoFirstHeader)
      else
        UnusedRowValues(headers, tds[0].text, |headers|);
        assert headers[..|headers|] == headers;
        Success([UnusedRowOf(headers, tds[0].text)])
    else if tds == [] then Success([])
    else
      DataRowKeys(headers, CellTexts(tds));
      Success([DataRowOf(headers, CellTexts(tds))])
  }

  /** The rows emitted for `trs` (the `tr`s after the first), in order, or the
      error the first unused row raises when there are no headers. */
  function RowsOf(headers: seq<string>, trs: seq<seq<Cell>>): (r: Result<seq<Row>, TableError>)
    ensures r.Success? ==> forall row :: row in r.value ==> row.Keys == HeaderSet(headers)
    ensures r.Success? ==> |r.value| <= |trs|
  {
    if trs == [] then Success([])
    else
      var prev := RowsOf(headers, trs[..|trs| - 1]);
      var last := Emit(headers, trs[|trs| - 1]);
      if prev.Failure? then prev
      else if last.Failure? then last
      else Success(prev.value + last.value)
  }

  /** `table.find_all("tr")[1:]` */
  function AfterFirst<T>(s: seq<T>): seq<T> {
    if s == [] then [] else s[1..]
  }

  /** `pinout_table`: `None` without a table, the rows otherwise. */
  function PinoutOf(table: Option<Table>): Result<Option<seq<Row>>, TableError> {
    match table
    case None => Success(None)
    case Some(t) =>
      match RowsOf(t.headers, AfterFirst(t.trs))
      case Failure(e) => Failure(e)
      case Success(rows) => Success(Some(rows))
  }

  /** The body of the loop over the `tr`s (lines 86-101): the rows one `tr`
      appends. */
  method NormaliseTr(headers: seq<string>, tds: seq<Cell>) returns (r: Result<seq<Row>, TableError>)
    ensures r == Emit(headers, tds)
  {
    if IsUnusedRow(tds) {
      var row := UnusedRow(headers, tds[0].text);
      if row.Failure? {
        return Failure(NoFirstHeader);
      }
      return Success([row.value]);
    }
    var cells := CellTexts(tds);
    if |cells| > 0 {
      var row := DataRow(headers, cells);
      return Success([row]);
    }
    return Success([]);
  }

  /** Lines 81-104: `None` without a table; otherwise the header texts, then
      every `tr` but the first, in order. */
  method ParsePinout(table: Option<Table>) returns (r: Result<Option<seq<Row>>, TableError>)
    ensures r == PinoutOf(table)
  {
    if table.None? {
      return Success(None);
    }
    var headers := table.value.headers;
    var trs := AfterFirst(table.value.trs);
    var rows: seq<Row> := [];
    var i := 0;
    while i < |trs|
      invariant 0 <= i <= |trs|
      invariant RowsOf(headers, trs[..i]) == Success(rows)
    {
      var emitted := NormaliseTr(headers, trs[i]);
      RowsStep(headers, trs, i);
      if emitted.Failure? {
        RowsFailFrom(headers, trs, i);
        assert RowsOf(headers, trs).error.NoFirstHeader?;
        return Failure(emitted.error);
      }
      rows := rows + emitted.value;
      i := i + 1;
    }
    assert trs[..i] == trs;
    return Success(Some(rows));
  }

  /** One more `tr` adds what it emits to the rows so far. */
  lemma RowsStep(headers: seq<string>, trs: seq<seq<Cell>>, i: nat)
    requires i < |trs|
    ensures RowsOf(headers, trs[..i + 1]) ==
      if RowsOf(headers, trs[..i]).Failure? then RowsOf(headers, trs[..i])
      else if Emit(headers, trs[i]).Failure? then Emit(headers, trs[i])
      else Success(RowsOf(headers, trs[..i]).value + Emit(headers, trs[i]).value)
  {
    assert trs[..i + 1][..i] == trs[..i];
    assert trs[..i + 1][i] == trs[i];
  }

  /** A `tr` that raises makes the whole table raise. */
  lemma RowsFailFrom(headers: seq<string>, trs: seq<seq<Cell>>, i: nat)
    requires i < |trs| && Emit(headers, trs[i]).Failure?
    ensures RowsOf(headers, trs).Failure?
  {
    RowsStep(headers, trs, i);
    RowsFailureSticks(headers, trs[..i + 1], trs[i + 1..]);
    assert trs[..i + 1] + trs[i + 1..] == trs;
  }

  // ---------------------------------------------------------------------------
  // Properties of the normaliser

  /** Once a prefix has raised, the whole table has. */
  lemma {:induction false} RowsFailureSticks(headers: seq<string>, a: seq<seq<Cell>>, b: seq<seq<Cell>>)
    requires RowsOf(headers, a).Failure?
    ensures RowsOf(headers, a + b).Failure?
    decreases |b|
  {
    if b == [] {
      assert a + b == a;
    } else {
      RowsFailureSticks(headers, a, b[..|b| - 1]);
      assert (a + b)[..|a + b| - 1] == a + b[..|b| - 1];
    }
  }

  /** The normaliser raises exactly when there are no headers and some row
      after the first is an unused row. */
  lemma {:induction false} RowsFailureIff(headers: seq<string>, trs: seq<seq<Cell>>)
    ensures RowsOf(headers, trs).Failure? <==>
            headers == [] && exists i :: 0 <= i < |trs| && IsUnusedRow(trs[i])
    decreases |trs|
  {
    if trs != [] {
      var init := trs[..|trs| - 1];
      RowsFailureIff(headers, init);
      if exists i :: 0 <= i < |init| && IsUnusedRow(init[i]) {
        var i :| 0 <= i < |init| && IsUnusedRow(init[i]);
        assert trs[i] == init[i];
      }
      if i :| 0 <= i < |trs| && IsUnusedRow(trs[i]) {
        if i < |trs| - 1 {
          assert init[i] == trs[i];
        }
      }
    }
  }

  /** Rows are emitted in source order: the rows of `a + b` are those of `a`
      followed by those of `b`. */
  lemma {:induction false} RowsAppend(headers: seq<string>, a: seq<seq<Cell>>, b: seq<seq<Cell>>)
    requires RowsOf(headers, a).Success? && RowsOf(headers, b).Success?
    ensures RowsOf(headers, a + b) == Success(RowsOf(headers, a).value + RowsOf(headers, b).value)
    decreases |b|
  {
    var ra := RowsOf(headers, a).value;
    if b == [] {
      assert a + b == a;
      assert ra + [] == ra;
    } else {
      var init := b[..|b| - 1];
      assert (a + b)[..|a + b| - 1] == a + init;
      assert (a + b)[|a + b| - 1] == b[|b| - 1];
      assert RowsOf(headers, init).Success?;
      RowsAppend(headers, a, init);
      var ri := RowsOf(headers, init).value;
      var e := Emit(headers, b[|b| - 1]).value;
      assert ra + ri + e == ra + (ri + e);
    }
  }

  /** A table of one `tr` emits exactly what that `tr` does. */
  lemma RowsOfOne(headers: seq<string>, tds: seq<Cell>)
    ensures RowsOf(headers, [tds]) == Emit(headers, tds)
  {
    assert [tds][..0] == [];
    assert RowsOf(headers, []) == Success([]);
    var e := Emit(headers, tds);
    if e.Success? {
      assert [] + e.value == e.value;
    }
  }

  function CountNonEmpty(trs: seq<seq<Cell>>): nat {
    if trs == [] then 0 else CountNonEmpty(trs[..|trs| - 1]) + (if trs[|trs| - 1] == [] then 0 else 1)
  }

  /** One row is emitted per `tr` that has at least one `td`. */
  lemma {:induction false} RowsCount(headers: seq<string>, trs: seq<seq<Cell>>)
    requires RowsOf(headers, trs).Success?
    ensures |RowsOf(headers, trs).value| == CountNonEmpty(trs)
    decreases |trs|
  {
    if trs != [] {
      RowsCount(headers, trs[..|trs| - 1]);
    }
  }

  /** `pinout_table` is `None` exactly when the page has no table. */
  lemma PinoutNoneIff(table: Option<Table>)
    ensures (PinoutOf(table).Success? && PinoutOf(table).value.None?) <==> table.None?
  {
  }

  /** The worked example: headers Cavity, Wire Color, Terminal Manufacturer
      and the row ["3", a colspan cell "Unused"]. */
  lemma ExampleUnusedRow()
    ensures var headers := ["Cavity", "Wire Color", "Terminal Manufacturer"];
            var tds := [Cell("3", false), Cell("Unused", true)];
            IsUnusedRow(tds) &&
            RowsOf(headers, [tds]) == Success([map["Cavity" := Some("3"),
                                                   "Wire Color" := Some("unused"),
                                                   "Terminal Manufacturer" := Some("unused")]])
  {
    var headers := ["Cavity", "Wire Color", "Terminal Manufacturer"];
    var tds := [Cell("3", false), Cell("Unused", true)];
    var lowered := Lower("Unused");
    assert lowered[0] == 'u' && lowered[1..] == "nused";
    assert StartsWith(lowered, UNUSED);
    RowsOfOne(headers, tds);
    assert UnusedRowUpTo(headers, "3", 1) == map["Cavity" := Some("3")];
    assert UnusedRowUpTo(headers, "3", 2) == map["Cavity" := Some("3"), "Wire Color" := Some("unused")];
  }
}
