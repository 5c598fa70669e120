/** `app.py`: the columns the dashboard derives from each scraped connector,
    the pick-lists it offers, and the mask of filters that selects the
    connectors it shows. Widget values are plain parameters. */
module Dashboard {
  import opened Wrappers
  import opened Text
  import opened Sorting
  import opened Pinout
  import opened Scraper

  const TERMINAL_MANUFACTURER := "Terminal Manufacturer"
  const WIRE_COLOR := "Wire Color"
  const CAVITY := "Cavity"
  const ANY := "ANY"

  // ---------------------------------------------------------------------------
  // Derived columns (lines 24-37)

  /** A `pinout_table` that is not a list counts as the empty list. */
  function Pinouts(c: Record): (rows: seq<Row>)
    ensures c.pinoutTable.None? ==> rows == []
    ensures c.pinoutTable.Some? ==> rows == c.pinoutTable.value
  {
    if c.pinoutTable.Some? then c.pinoutTable.value else []
  }

  function TotalCavities(c: Record): nat {
    |Pinouts(c)|
  }

  predicate IsUnconnected(row: Row) {
    Get(row, TERMINAL_MANUFACTURER) == Some(UNUSED)
  }

  predicate IsConnected(row: Row) {
    Get(row, TERMINAL_MANUFACTURER) != Some(UNUSED) && Get(row, TERMINAL_MANUFACTURER) != None
  }

  /** The number of rows whose `key` reads `v` (`None`: missing or null). */
  function CountValue(rows: seq<Row>, key: string, v: Option<string>): (n: nat)
    ensures n <= |rows|
  {
    if rows == [] then 0
    else CountValue(rows[..|rows| - 1], key, v) + (if Get(rows[|rows| - 1], key) == v then 1 else 0)
  }

  /** The number of connected rows. */
  function ConnectedCount(rows: seq<Row>): (n: nat)
    ensures n <= |rows|
  {
    if rows == [] then 0
    else ConnectedCount(rows[..|rows| - 1]) + (if IsConnected(rows[|rows| - 1]) then 1 else 0)
  }

  function UnconnectedCavities(c: Record): nat {
    CountValue(Pinouts(c), TERMINAL_MANUFACTURER, Some(UNUSED))
  }

  function ConnectedCavities(c: Record): nat {
    ConnectedCount(Pinouts(c))
  }

  /** Every row is connected, unconnected, or has no terminal manufacturer:
      connected + unconnected falls short of the total by exactly the rows
      whose `Terminal Manufacturer` is missing or null. */
  lemma {:induction false} CavityPartition(rows: seq<Row>)
    ensures ConnectedCount(rows) + CountValue(rows, TERMINAL_MANUFACTURER, Some(UNUSED))
            + CountValue(rows, TERMINAL_MANUFACTURER, None) == |rows|
    decreases |rows|
  {
    if rows != [] {
      CavityPartition(rows[..|rows| - 1]);
    }
  }

  /** For one connector: the connected and unconnected columns never add up
      to more than its total cavities, and they fall short of it by exactly
      its cavities without a terminal manufacturer. */
  lemma ConnectorCavityPartition(c: Record)
    ensures ConnectedCavities(c) + UnconnectedCavities(c) <= TotalCavities(c)
    ensures TotalCavities(c) - ConnectedCavities(c) - UnconnectedCavities(c)
            == CountValue(Pinouts(c), TERMINAL_MANUFACTURER, None)
  {
    CavityPartition(Pinouts(c));
  }

  /** A count is zero exactly when no row has that value. */
  lemma {:induction false} CountValueZero(rows: seq<Row>, key: string, v: Option<string>)
    ensures CountValue(rows, key, v) == 0 <==> forall i :: 0 <= i < |rows| ==> Get(rows[i], key) != v
    decreases |rows|
  {
    if rows != [] {
      var init := rows[..|rows| - 1];
      CountValueZero(init, key, v);
      if forall i :: 0 <= i < |init| ==> Get(init[i], key) != v {
        if Get(rows[|rows| - 1], key) != v {
          forall i | 0 <= i < |rows| ensures Get(rows[i], key) != v {
            if i < |init| { assert rows[i] == init[i]; }
          }
        }
      } else {
        var i :| 0 <= i < |init| && Get(init[i], key) == v;
        assert rows[i] == init[i];
      }
    }
  }

  /** Counts add up over consecutive runs of rows. */
  lemma {:induction false} CountValueAppend(a: seq<Row>, b: seq<Row>, key: string, v: Option<string>)
    ensures CountValue(a + b, key, v) == CountValue(a, key, v) + CountValue(b, key, v)
    decreases |b|
  {
    if b == [] {
      assert a + b == a;
    } else {
      assert (a + b)[..|a + b| - 1] == a + b[..|b| - 1];
      CountValueAppend(a, b[..|b| - 1], key, v);
    }
  }

  /** `connector.astype(str).str.split().str[0].fillna('')` */
  function Manufacturer(c: Record): string {
    FirstToken(c.connector.GetOr(""))
  }

  function TeslaPartNumberText(c: Record): string {
    c.teslaPartNumber.GetOr("")
  }

  function ConnectorText(c: Record): string {
    c.connector.GetOr("")
  }

  function BodyColor(c: Record): string {
    c.color.GetOr("")
  }

  // ---------------------------------------------------------------------------
  // Tie to the extractor

  /** An unused row of the extractor is counted as unconnected, never as
      connected, whenever `Terminal Manufacturer` is a later column. */
  lemma UnusedRowIsUnconnected(headers: seq<string>, first: string, k: nat)
    requires 1 <= k < |headers| && headers[k] == TERMINAL_MANUFACTURER
    ensures IsUnconnected(UnusedRowOf(headers, first))
    ensures !IsConnected(UnusedRowOf(headers, first))
  {
    UnusedRowValues(headers, first, |headers|);
  }

  /** A data row is unconnected exactly when its `Terminal Manufacturer`
      cell reads "unused", and has no manufacturer exactly when the row
      stops before that column. */
  lemma DataRowCavityStatus(headers: seq<string>, cells: seq<string>, k: nat)
    requires Distinct(headers) && k < |headers| && headers[k] == TERMINAL_MANUFACTURER
    ensures IsUnconnected(DataRowOf(headers, cells)) <==> k < |cells| && cells[k] == UNUSED
    ensures Get(DataRowOf(headers, cells), TERMINAL_MANUFACTURER) == None <==> k >= |cells|
  {
    DataRowPositional(headers, cells, k);
  }

  // ---------------------------------------------------------------------------
  // Pick-lists (lines 40-51, 60-61)

  /** `wc and wc not in ['unused', '']` */
  predicate IsListedWireColor(wc: Option<string>) {
    wc.Some? && wc.value != "" && wc.value != UNUSED
  }

  function RowColors(rows: seq<Row>): set<string> {
    if rows == [] then {}
    else
      var wc := Get(rows[|rows| - 1], WIRE_COLOR);
      RowColors(rows[..|rows| - 1]) + (if IsListedWireColor(wc) then {wc.value} else {})
  }

  /** The wire colours the nested loops collect. */
  function WireColorSet(cs: seq<Record>): set<string> {
    if cs == [] then {} else WireColorSet(cs[..|cs| - 1]) + RowColors(Pinouts(cs[|cs| - 1]))
  }

  lemma {:induction false} RowColorsMember(rows: seq<Row>, w: string)
    ensures w in RowColors(rows) <==>
            exists j :: 0 <= j < |rows| && Get(rows[j], WIRE_COLOR) == Some(w) && IsListedWireColor(Some(w))
    decreases |rows|
  {
    if rows != [] {
      var init := rows[..|rows| - 1];
      RowColorsMember(init, w);
      if j :| 0 <= j < |init| && Get(init[j], WIRE_COLOR) == Some(w) && IsListedWireColor(Some(w)) {
        assert rows[j] == init[j];
      }
      if j :| 0 <= j < |rows| && Get(rows[j], WIRE_COLOR) == Some(w) && IsListedWireColor(Some(w)) {
        if j < |init| { assert init[j] == rows[j]; }
      }
    }
  }

  /** A colour is offered exactly when some row of some connector has it as
      its `Wire Color`, and it is neither empty nor "unused". */
  lemma {:induction false} WireColorSetMember(cs: seq<Record>, w: string)
    ensures w in WireColorSet(cs) <==>
            exists i, j :: 0 <= i < |cs| && 0 <= j < |Pinouts(cs[i])| &&
                           Get(Pinouts(cs[i])[j], WIRE_COLOR) == Some(w) && IsListedWireColor(Some(w))
    decreases |cs|
  {
    if cs != [] {
      var init := cs[..|cs| - 1];
      var last := cs[|cs| - 1];
      WireColorSetMember(init, w);
      RowColorsMember(Pinouts(last), w);
      if i, j :| 0 <= i < |init| && 0 <= j < |Pinouts(init[i])| &&
                 Get(Pinouts(init[i])[j], WIRE_COLOR) == Some(w) && IsListedWireColor(Some(w)) {
        assert cs[i] == init[i];
      }
      if i, j :| 0 <= i < |cs| && 0 <= j < |Pinouts(cs[i])| &&
                 Get(Pinouts(cs[i])[j], WIRE_COLOR) == Some(w) && IsListedWireColor(Some(w)) {
        if i < |init| { assert init[i] == cs[i]; }
      }
    }
  }

  /** `PREDEFINED_WIRE_COLORS`: "ANY", then every collected colour once, in
      increasing order; just ["ANY"] without connectors. */
  method WireColorOptions(cs: seq<Record>) returns (options: seq<string>)
    ensures |options| >= 1 && options[0] == ANY
    ensures StrictlySorted(options[1..])
    ensures forall w :: w in options[1..] <==> w in WireColorSet(cs)
  {
    if |cs| == 0 {
      return [ANY];
    }
    var allWireColors: set<string> := {};
    var i := 0;
    while i < |cs|
      invariant 0 <= i <= |cs|
      invariant allWireColors == WireColorSet(cs[..i])
    {
      assert cs[..i + 1][..i] == cs[..i];
      var pinoutList := Pinouts(cs[i]);
      var j := 0;
      while j < |pinoutList|
        invariant 0 <= j <= |pinoutList|
        invariant allWireColors == WireColorSet(cs[..i]) + RowColors(pinoutList[..j])
      {
        assert pinoutList[..j + 1][..j] == pinoutList[..j];
        var wc := Get(pinoutList[j], WIRE_COLOR);
        if wc.Some? && wc.value != "" && wc.value != UNUSED {
          allWireColors := allWireColors + {wc.value};
        }
        j := j + 1;
      }
      assert pinoutList[..j] == pinoutList;
      i := i + 1;
    }
    assert cs[..i] == cs;
    var sorted := SortedList(allWireColors);
    options := [ANY] + sorted;
    assert options[1..] == sorted;
  }

  /** The non-empty body colours of the connectors. */
  function BodyColorSet(cs: seq<Record>): set<string> {
    set i | 0 <= i < |cs| && BodyColor(cs[i]) != "" :: BodyColor(cs[i])
  }

  /** `PREDEFINED_CONNECTOR_BODY_COLORS`: "ANY", then every non-empty body
      colour once, in increasing order; just ["ANY"] without connectors. */
  method BodyColorOptions(cs: seq<Record>) returns (options: seq<string>)
    ensures |options| >= 1 && options[0] == ANY
    ensures StrictlySorted(options[1..])
    ensures forall b :: b in options[1..] <==> exists i :: 0 <= i < |cs| && BodyColor(cs[i]) == b && b != ""
  {
    if |cs| == 0 {
      return [ANY];
    }
    var sorted := SortedList(BodyColorSet(cs));
    options := [ANY] + sorted;
    assert options[1..] == sorted;
  }

  // ---------------------------------------------------------------------------
  // Filters (lines 103-143)

  /** The sidebar's values: the two sliders, the three text boxes, the body
      colour, the cavity number and its wire colour, the counted wire colour
      and its quantity. */
  datatype Filters = Filters(
    minTotal: int, maxTotal: int,
    minUnconnected: int, maxUnconnected: int,
    manufacturer: string,
    teslaPartNumber: string,
    connectorPartNumber: string,
    bodyColor: string,
    cavity: string, cavityWireColor: string,
    countWireColor: string, countQuantity: int)

  /** `Series.between`: inclusive at both ends. */
  predicate InRange(x: int, lo: int, hi: int) {
    lo <= x <= hi
  }

  predicate ManufacturerMatches(c: Record, text: string) {
    StartsWith(Upper(Manufacturer(c)), Upper(text))
  }

  predicate TeslaPartNumberMatches(c: Record, text: string) {
    Contains(Upper(TeslaPartNumberText(c)), Upper(text))
  }

  predicate ConnectorPartNumberMatches(c: Record, text: string) {
    Contains(Upper(ConnectorText(c)), Upper(text))
  }

  /** The case of the filter text makes no difference. */
  lemma TextFiltersIgnoreCase(c: Record, text: string)
    ensures ManufacturerMatches(c, Lower(text)) == ManufacturerMatches(c, text)
    ensures TeslaPartNumberMatches(c, Lower(text)) == TeslaPartNumberMatches(c, text)
    ensures ConnectorPartNumberMatches(c, Lower(text)) == ConnectorPartNumberMatches(c, text)
  {
    UpperIgnoresCase(text);
  }

  predicate HasWireInCavity(rows: seq<Row>, cavity: string, color: string) {
    exists i :: 0 <= i < |rows| && Get(rows[i], CAVITY) == Some(cavity) && Get(rows[i], WIRE_COLOR) == Some(color)
  }

  /** `check_wire_in_cavity` */
  method CheckWireInCavity(pinoutList: seq<Row>, cavityNum: string, wireColor: string) returns (found: bool)
    ensures found <==> HasWireInCavity(pinoutList, cavityNum, wireColor)
  {
    if |pinoutList| == 0 {
      return false;
    }
    var i := 0;
    while i < |pinoutList|
      invariant 0 <= i <= |pinoutList|
      invariant forall j :: 0 <= j < i ==>
        !(Get(pinoutList[j], CAVITY) == Some(cavityNum) && Get(pinoutList[j], WIRE_COLOR) == Some(wireColor))
    {
      var p := pinoutList[i];
      if Get(p, CAVITY) == Some(cavityNum) && Get(p, WIRE_COLOR) == Some(wireColor) {
        return true;
      }
      i := i + 1;
    }
    return false;
  }

  /** `count_specific_wires` */
  method CountSpecificWires(pinoutList: seq<Row>, colorToCount: string) returns (count: nat)
    ensures count == CountValue(pinoutList, WIRE_COLOR, Some(colorToCount))
  {
    if |pinoutList| == 0 {
      return 0;
    }
    count := 0;
    var i := 0;
    while i < |pinoutList|
      invariant 0 <= i <= |pinoutList|
      invariant count == CountValue(pinoutList[..i], WIRE_COLOR, Some(colorToCount))
    {
      assert pinoutList[..i + 1][..i] == pinoutList[..i];
      if Get(pinoutList[i], WIRE_COLOR) == Some(colorToCount) {
        count := count + 1;
      }
      i := i + 1;
    }
    assert pinoutList[..i] == pinoutList;
  }

  // Each `mask &= ...` of lines 106-139; a filter that is switched off keeps every connector.

  predicate TotalOk(c: Record, f: Filters) {
    InRange(TotalCavities(c), f.minTotal, f.maxTotal)
  }

  predicate UnconnectedOk(c: Record, f: Filters) {
    InRange(UnconnectedCavities(c), f.minUnconnected, f.maxUnconnected)
  }

  predicate ManufacturerOk(c: Record, f: Filters) {
    f.manufacturer != "" ==> ManufacturerMatches(c, f.manufacturer)
  }

  predicate TeslaPartNumberOk(c: Record, f: Filters) {
    f.teslaPartNumber != "" ==> TeslaPartNumberMatches(c, f.teslaPartNumber)
  }

  predicate ConnectorPartNumberOk(c: Record, f: Filters) {
    f.connectorPartNumber != "" ==> ConnectorPartNumberMatches(c, f.connectorPartNumber)
  }

  predicate BodyColorOk(c: Record, f: Filters) {
    f.bodyColor != ANY ==> BodyColor(c) == f.bodyColor
  }

  predicate CavityOk(c: Record, f: Filters) {
    f.cavity != "" && f.cavityWireColor != ANY ==> HasWireInCavity(Pinouts(c), f.cavity, f.cavityWireColor)
  }

  predicate WireCountOk(c: Record, f: Filters) {
    f.countWireColor != ANY && f.countQuantity > 0 ==>
      CountValue(Pinouts(c), WIRE_COLOR, Some(f.countWireColor)) == f.countQuantity
  }

  /** The final value of `mask` for one connector. */
  predicate Passes(c: Record, f: Filters) {
    && TotalOk(c, f) && UnconnectedOk(c, f)
    && ManufacturerOk(c, f) && TeslaPartNumberOk(c, f) && ConnectorPartNumberOk(c, f)
    && BodyColorOk(c, f) && CavityOk(c, f) && WireCountOk(c, f)
  }

  /** `df[mask]` */
  function FilterConnectors(cs: seq<Record>, f: Filters): (r: seq<Record>)
    ensures |r| <= |cs|
  {
    if cs == [] then []
    else
      var init := FilterConnectors(cs[..|cs| - 1], f);
      if Passes(cs[|cs| - 1], f) then init + [cs[|cs| - 1]] else init
  }

  /** `mask &= keep` */
  method AndMask(mask: array<bool>, cs: seq<Record>, keep: Record -> bool)
    requires mask.Length == |cs|
    modifies mask
    ensures forall i :: 0 <= i < |cs| ==> mask[i] == (old(mask[i]) && keep(cs[i]))
  {
    var i := 0;
    while i < |cs|
      invariant 0 <= i <= |cs|
      invariant forall j :: 0 <= j < i ==> mask[j] == (old(mask[j]) && keep(cs[j]))
      invariant forall j :: i <= j < |cs| ==> mask[j] == old(mask[j])
    {
      mask[i] := mask[i] && keep(cs[i]);
      i := i + 1;
    }
  }

  /** The cavity filter of lines 122-129: each connector's mask entry is
      ANDed with `check_wire_in_cavity` on its pinout. */
  method AndCavityFilter(mask: array<bool>, cs: seq<Record>, f: Filters)
    requires mask.Length == |cs|
    requires f.cavity != "" && f.cavityWireColor != ANY
    modifies mask
    ensures forall j :: 0 <= j < |cs| ==> mask[j] == (old(mask[j]) && CavityOk(cs[j], f))
  {
    var i := 0;
    while i < |cs|
      invariant 0 <= i <= |cs|
      invariant forall j :: 0 <= j < i ==> mask[j] == (old(mask[j]) && CavityOk(cs[j], f))
      invariant forall j :: i <= j < |cs| ==> mask[j] == old(mask[j])
    {
      var found := CheckWireInCavity(Pinouts(cs[i]), f.cavity, f.cavityWireColor);
      mask[i] := mask[i] && found;
      i := i + 1;
    }
  }

  /** The wire-count filter of lines 131-139: each connector's mask entry is
      ANDed with `count_specific_wires(...) == quantity`. */
  method AndWireCountFilter(mask: array<bool>, cs: seq<Record>, f: Filters)
    requires mask.Length == |cs|
    requires f.countWireColor != ANY && f.countQuantity > 0
    modifies mask
    ensures forall j :: 0 <= j < |cs| ==> mask[j] == (old(mask[j]) && WireCountOk(cs[j], f))
  {
    var i := 0;
    while i < |cs|
      invariant 0 <= i <= |cs|
      invariant forall j :: 0 <= j < i ==> mask[j] == (old(mask[j]) && WireCountOk(cs[j], f))
      invariant forall j :: i <= j < |cs| ==> mask[j] == old(mask[j])
    {
      var n := CountSpecificWires(Pinouts(cs[i]), f.countWireColor);
      mask[i] := mask[i] && n == f.countQuantity;
      i := i + 1;
    }
  }

  /** `df[mask]`: the connectors whose mask entry is set, in order. */
  method SelectMasked(mask: array<bool>, cs: seq<Record>, f: Filters) returns (filtered: seq<Record>)
    requires mask.Length == |cs|
    requires forall j :: 0 <= j < |cs| ==> mask[j] == Passes(cs[j], f)
    ensures filtered == FilterConnectors(cs, f)
  {
    filtered := [];
    var i := 0;
    while i < |cs|
      invariant 0 <= i <= |cs|
      invariant filtered == FilterConnectors(cs[..i], f)
    {
      assert cs[..i + 1][..i] == cs[..i];
      if mask[i] {
        filtered := filtered + [cs[i]];
      }
      i := i + 1;
    }
    assert cs[..i] == cs;
  }

  /** The six column filters of lines 106-120 (both sliders, the three text
      boxes, the body colour); a filter left empty or at "ANY" is skipped. */
  method AndColumnFilters(mask: array<bool>, cs: seq<Record>, f: Filters)
    requires mask.Length == |cs|
    modifies mask
    ensures forall j :: 0 <= j < |cs| ==>
      mask[j] == (old(mask[j]) && TotalOk(cs[j], f) && UnconnectedOk(cs[j], f) && ManufacturerOk(cs[j], f)
                  && TeslaPartNumberOk(cs[j], f) && ConnectorPartNumberOk(cs[j], f) && BodyColorOk(cs[j], f))
  {
    AndMask(mask, cs, c => TotalOk(c, f));
    AndMask(mask, cs, c => UnconnectedOk(c, f));
    if f.manufacturer != "" {
      AndMask(mask, cs, c => ManufacturerMatches(c, f.manufacturer));
    }
    if f.teslaPartNumber != "" {
      AndMask(mask, cs, c => TeslaPartNumberMatches(c, f.teslaPartNumber));
    }
    if f.connectorPartNumber != "" {
      AndMask(mask, cs, c => ConnectorPartNumberMatches(c, f.connectorPartNumber));
    }
    if f.bodyColor != ANY {
      AndMask(mask, cs, c => BodyColor(c) == f.bodyColor);
    }
  }

  /** Lines 103-143: the mask starts all true, each active filter is ANDed
      into it, and the connectors it keeps are returned in order. */
  method ApplyFilters(cs: seq<Record>, f: Filters) returns (filtered: seq<Record>)
    ensures filtered == FilterConnectors(cs, f)
  {
    if |cs| == 0 {
      return [];
    }
    var mask := new bool[|cs|](_ => true);
    AndColumnFilters(mask, cs, f);
    ghost var afterColumns := mask[..];
    if f.cavity != "" && f.cavityWireColor != ANY {
      AndCavityFilter(mask, cs, f);
    }
    assert forall j :: 0 <= j < |cs| ==> mask[j] == (afterColumns[j] && CavityOk(cs[j], f));
    ghost var afterCavity := mask[..];
    if f.countWireColor != ANY && f.countQuantity > 0 {
      AndWireCountFilter(mask, cs, f);
    }
    assert forall j :: 0 <= j < |cs| ==> mask[j] == (afterCavity[j] && WireCountOk(cs[j], f));
    filtered := SelectMasked(mask, cs, f);
  }

  // ---------------------------------------------------------------------------
  // Properties of the filter

  /** The filter keeps source order: the result for `a + b` is the result for
      `a` followed by the result for `b`. */
  lemma {:induction false} FilterAppend(a: seq<Record>, b: seq<Record>, f: Filters)
    ensures FilterConnectors(a + b, f) == FilterConnectors(a, f) + FilterConnectors(b, f)
    decreases |b|
  {
    if b == [] {
      assert a + b == a;
    } else {
      assert (a + b)[..|a + b| - 1] == a + b[..|b| - 1];
      FilterAppend(a, b[..|b| - 1], f);
    }
  }

  /** A connector is shown exactly when it is among the input and passes
      every active filter. */
  lemma {:induction false} FilterMember(cs: seq<Record>, f: Filters, c: Record)
    ensures c in FilterConnectors(cs, f) <==> c in cs && Passes(c, f)
    decreases |cs|
  {
    if cs != [] {
      var init := cs[..|cs| - 1];
      FilterMember(init, f, c);
      assert cs == init + [cs[|cs| - 1]];
    }
  }

  /** When every connector passes, the filter returns the input unchanged. */
  lemma {:induction false} FilterKeepsAll(cs: seq<Record>, f: Filters)
    requires forall i :: 0 <= i < |cs| ==> Passes(cs[i], f)
    ensures FilterConnectors(cs, f) == cs
    decreases |cs|
  {
    if cs != [] {
      FilterKeepsAll(cs[..|cs| - 1], f);
      assert cs[..|cs| - 1] + [cs[|cs| - 1]] == cs;
    }
  }

  /** `int(df.total_cavities.max())`, 0 without connectors. */
  function MaxTotalCavities(cs: seq<Record>): (m: nat)
    ensures forall i :: 0 <= i < |cs| ==> TotalCavities(cs[i]) <= m
    ensures cs != [] ==> exists i :: 0 <= i < |cs| && TotalCavities(cs[i]) == m
  {
    if cs == [] then 0
    else
      var m := MaxTotalCavities(cs[..|cs| - 1]);
      var t := TotalCavities(cs[|cs| - 1]);
      assert forall i :: 0 <= i < |cs| - 1 ==> cs[i] == cs[..|cs| - 1][i];
      if t > m then t else m
  }

  /** `int(df.num_unconnected_cavities.max())`, 0 without connectors. */
  function MaxUnconnectedCavities(cs: seq<Record>): (m: nat)
    ensures forall i :: 0 <= i < |cs| ==> UnconnectedCavities(cs[i]) <= m
    ensures cs != [] ==> exists i :: 0 <= i < |cs| && UnconnectedCavities(cs[i]) == m
  {
    if cs == [] then 0
    else
      var m := MaxUnconnectedCavities(cs[..|cs| - 1]);
      var u := UnconnectedCavities(cs[|cs| - 1]);
      assert forall i :: 0 <= i < |cs| - 1 ==> cs[i] == cs[..|cs| - 1][i];
      if u > m then u else m
  }

  /** The widgets' initial values: full slider ranges, empty texts, "ANY"
      and quantity 0. */
  function DefaultFilters(cs: seq<Record>): Filters {
    Filters(0, MaxTotalCavities(cs), 0, MaxUnconnectedCavities(cs), "", "", "", ANY, "", ANY, ANY, 0)
  }

  /** With the widgets untouched every connector is shown. */
  lemma DefaultsKeepAll(cs: seq<Record>)
    ensures FilterConnectors(cs, DefaultFilters(cs)) == cs
  {
    FilterKeepsAll(cs, DefaultFilters(cs));
  }
}
