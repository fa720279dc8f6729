/** Loading of the proxy and native score panels. */
module ProxyPanels {
  import opened Options
  import opened Json
  import opened Sequences
  import opened PythonText

  datatype Direction = Minimize | Maximize

  /** One validated row: its clock reading and its score, absent for an unscored submission. */
  datatype Row = Row(clock: real, score: Option<real>)

  /** A loaded panel: the rows by candidate and the order in which they were listed. */
  datatype Panel = Panel(cohort: string, direction: Direction, order: seq<string>, rows: map<string, Row>)

  datatype PanelError =
    | NoRowsArray | NoCohort | NoDirection
    | NotARow | BadSource | RepeatedSource | BadClock | BadScore

  predicate IsFiniteNumber(v: Json) {
    v.Int? || v.Decimal?
  }

  function NumberOf(v: Json): real
    requires IsFiniteNumber(v)
  {
    if v.Int? then v.i as real else v.d
  }

  predicate IsCandidateDigest(s: string) {
    |s| == 64 && forall i :: 0 <= i < |s| ==> '0' <= s[i] <= '9' || 'a' <= s[i] <= 'f'
  }

  function Field(v: Json, name: string): Option<Json>
    requires v.Object?
  {
    if name in v.fields then Some(v.fields[name]) else None
  }

  predicate HasSource(row: Json) {
    row.Object? && var s := Field(row, "source_sha256"); s.Some? && s.value.Text? && IsCandidateDigest(s.value.s)
  }

  predicate HasClock(row: Json, clock: string)
    requires row.Object?
  {
    var c := Field(row, clock); c.Some? && IsFiniteNumber(c.value)
  }

  predicate HasScore(row: Json, allowUnscored: bool)
    requires row.Object?
  {
    var s := Field(row, "score"); s.Some? && (IsFiniteNumber(s.value) || (allowUnscored && s.value.Null?))
  }

  predicate RowOk(row: Json, clock: string, allowUnscored: bool) {
    HasSource(row) && HasClock(row, clock) && HasScore(row, allowUnscored)
  }

  function SourceOf(row: Json): string
    requires HasSource(row)
  {
    row.fields["source_sha256"].s
  }

  function RowOf(row: Json, clock: string, allowUnscored: bool): Row
    requires RowOk(row, clock, allowUnscored)
  {
    var score := row.fields["score"];
    Row(NumberOf(row.fields[clock]), if score.Null? then None else Some(NumberOf(score)))
  }

  predicate HeaderOk(v: Json) {
    && v.Object?
    && "rows" in v.fields && v.fields["rows"].Array?
    && "cohort" in v.fields && v.fields["cohort"].Text? && !IsBlank(v.fields["cohort"].s)
    && "direction" in v.fields && v.fields["direction"] in [Text("minimize"), Text("maximize")]
  }

  predicate DistinctSources(rows: seq<Json>)
    requires forall i :: 0 <= i < |rows| ==> HasSource(rows[i])
  {
    forall i, j :: 0 <= i < j < |rows| ==> SourceOf(rows[i]) != SourceOf(rows[j])
  }

  predicate RowsOk(rows: seq<Json>, clock: string, allowUnscored: bool) {
    && (forall i :: 0 <= i < |rows| ==> RowOk(rows[i], clock, allowUnscored))
    && DistinctSources(rows)
  }

  predicate PanelOk(v: Json, clock: string, allowUnscored: bool) {
    HeaderOk(v) && RowsOk(v.fields["rows"].items, clock, allowUnscored)
  }

  /** `panel` holds exactly the rows of `rows`, in their order. */
  ghost predicate Represents(panel: Panel, rows: seq<Json>, clock: string, allowUnscored: bool)
    requires RowsOk(rows, clock, allowUnscored)
  {
    && |panel.order| == |rows|
    && (forall i :: 0 <= i < |rows| ==>
          && panel.order[i] == SourceOf(rows[i])
          && panel.order[i] in panel.rows
          && panel.rows[panel.order[i]] == RowOf(rows[i], clock, allowUnscored))
    && (forall s :: s in panel.rows ==> s in panel.order)
  }

  /** Loading succeeds exactly on well-formed panels and then holds exactly their rows. */
  method LoadPanel(v: Json, clock: string, allowUnscored: bool) returns (r: Result<Panel, PanelError>)
    ensures r.Success? <==> PanelOk(v, clock, allowUnscored)
    ensures r.Success? ==>
      && v.fields["cohort"] == Text(r.value.cohort)
      && v.fields["direction"] == Text(if r.value.direction.Minimize? then "minimize" else "maximize")
      && Represents(r.value, v.fields["rows"].items, clock, allowUnscored)
  {
    hide Represents, DistinctSources, SourceOf, RowOf, IsCandidateDigest, HasClock, HasScore, IsBlank;
    if !v.Object? || "rows" !in v.fields || !v.fields["rows"].Array? { return Failure(NoRowsArray); }
    if "cohort" !in v.fields || !v.fields["cohort"].Text? || IsBlank(v.fields["cohort"].s) { return Failure(NoCohort); }
    if "direction" !in v.fields || v.fields["direction"] !in [Text("minimize"), Text("maximize")] {
      return Failure(NoDirection);
    }
    var rows := v.fields["rows"].items;
    var direction := if v.fields["direction"] == Text("minimize") then Minimize else Maximize;
    var panel := Panel(v.fields["cohort"].s, direction, [], map[]);
    NoRowsYet(panel, clock, allowUnscored);
    for i := 0 to |rows|
      invariant panel.cohort == v.fields["cohort"].s && panel.direction == direction
      invariant RowsOk(rows[..i], clock, allowUnscored)
      invariant Represents(panel, rows[..i], clock, allowUnscored)
    {
      var row := rows[i];
      if !row.Object? { return Failure(NotARow); }
      if !HasSource(row) { return Failure(BadSource); }
      var source := SourceOf(row);
      if source in panel.rows {
        RepeatedSourceIsBad(panel, rows, i, clock, allowUnscored);
        return Failure(RepeatedSource);
      }
      if !HasClock(row, clock) { return Failure(BadClock); }
      if !HasScore(row, allowUnscored) { return Failure(BadScore); }
      AppendedRow(panel, rows[..i], row, clock, allowUnscored);
      assert rows[..i + 1] == rows[..i] + [row];
      panel := panel.(order := panel.order + [source], rows := panel.rows[source := RowOf(row, clock, allowUnscored)]);
    }
    assert rows[..|rows|] == rows;
    return Success(panel);
  }

  lemma NoRowsYet(panel: Panel, clock: string, allowUnscored: bool)
    requires panel.order == [] && panel.rows == map[]
    ensures RowsOk([], clock, allowUnscored) && Represents(panel, [], clock, allowUnscored)
  {
  }

  lemma RepeatedSourceIsBad(panel: Panel, rows: seq<Json>, i: nat, clock: string, allowUnscored: bool)
    requires i < |rows| && RowsOk(rows[..i], clock, allowUnscored) && Represents(panel, rows[..i], clock, allowUnscored)
    requires HasSource(rows[i]) && SourceOf(rows[i]) in panel.rows
    ensures !RowsOk(rows, clock, allowUnscored)
  {
  }

  lemma AppendedRow(panel: Panel, rows: seq<Json>, row: Json, clock: string, allowUnscored: bool)
    requires RowsOk(rows, clock, allowUnscored) && Represents(panel, rows, clock, allowUnscored)
    requires RowOk(row, clock, allowUnscored) && SourceOf(row) !in panel.rows
    ensures RowsOk(rows + [row], clock, allowUnscored)
    ensures Represents(panel.(order := panel.order + [SourceOf(row)],
                              rows := panel.rows[SourceOf(row) := RowOf(row, clock, allowUnscored)]),
                       rows + [row], clock, allowUnscored)
  {
  }

  // ---------- the order of the rows ----------

  lemma PermutedRowsLoad(rows: seq<Json>, rows': seq<Json>, clock: string, allowUnscored: bool)
    requires multiset(rows) == multiset(rows') && RowsOk(rows, clock, allowUnscored)
    ensures RowsOk(rows', clock, allowUnscored)
  {
    forall i | 0 <= i < |rows'| ensures RowOk(rows'[i], clock, allowUnscored) {
      var j := PermutedIndex(rows', rows, i);
    }
    forall i, j | 0 <= i < j < |rows'| ensures SourceOf(rows'[i]) != SourceOf(rows'[j]) {
      var k := PermutedIndex(rows', rows, i);
      var m := PermutedIndex(rows', rows, j);
      if rows'[i] == rows'[j] {
        RepeatCounts(rows', i, j);
        k, m := RepeatFound(rows, rows'[i]);
      }
    }
  }

  /** Whether the rows load does not depend on their order. */
  lemma RowOrderDoesNotDecideLoading(rows: seq<Json>, rows': seq<Json>, clock: string, allowUnscored: bool)
    requires multiset(rows) == multiset(rows')
    ensures RowsOk(rows, clock, allowUnscored) <==> RowsOk(rows', clock, allowUnscored)
  {
    if RowsOk(rows, clock, allowUnscored) {
      PermutedRowsLoad(rows, rows', clock, allowUnscored);
    } else if RowsOk(rows', clock, allowUnscored) {
      PermutedRowsLoad(rows', rows, clock, allowUnscored);
    }
  }

  /** What a panel holds for each candidate does not depend on the order of its rows. */
  lemma PermutedRowsGiveTheSameTable(p: Panel, p': Panel, rows: seq<Json>, rows': seq<Json>, clock: string, allowUnscored: bool)
    requires multiset(rows) == multiset(rows')
    requires RowsOk(rows, clock, allowUnscored) && RowsOk(rows', clock, allowUnscored)
    requires Represents(p, rows, clock, allowUnscored) && Represents(p', rows', clock, allowUnscored)
    ensures p.rows == p'.rows
  {
    TableIncluded(p, p', rows, rows', clock, allowUnscored);
    TableIncluded(p', p, rows', rows, clock, allowUnscored);
  }

  lemma TableIncluded(p: Panel, p': Panel, rows: seq<Json>, rows': seq<Json>, clock: string, allowUnscored: bool)
    requires multiset(rows) == multiset(rows')
    requires RowsOk(rows, clock, allowUnscored) && RowsOk(rows', clock, allowUnscored)
    requires Represents(p, rows, clock, allowUnscored) && Represents(p', rows', clock, allowUnscored)
    ensures forall s :: s in p.rows ==> s in p'.rows && p'.rows[s] == p.rows[s]
  {
    forall s | s in p.rows ensures s in p'.rows && p'.rows[s] == p.rows[s] {
      var i :| 0 <= i < |p.order| && p.order[i] == s;
      var j := PermutedIndex(rows, rows', i);
      assert p'.order[j] == s;
    }
  }

  // ---------- well-formed panels in plain terms ----------

  const HEX: string := "0123456789abcdef"

  predicate Number(v: Json) {
    v.Int? || v.Decimal?
  }

  function Value(v: Json): real
    requires Number(v)
  {
    match v
    case Int(i) => i as real
    case Decimal(d) => d
  }

  predicate GoodRow(row: Json, clock: string, allowUnscored: bool) {
    && row.Object? && "source_sha256" in row.fields && clock in row.fields && "score" in row.fields
    && row.fields["source_sha256"].Text? && |row.fields["source_sha256"].s| == 64
    && (forall i :: 0 <= i < 64 ==> row.fields["source_sha256"].s[i] in HEX)
    && Number(row.fields[clock]) && (Number(row.fields["score"]) || (allowUnscored && row.fields["score"] == Null))
  }

  lemma HexDigit(c: char)
    ensures c in HEX <==> '0' <= c <= '9' || 'a' <= c <= 'f'
  {
    assert HEX[0] == '0' && HEX[1] == '1' && HEX[2] == '2' && HEX[3] == '3' && HEX[4] == '4' && HEX[5] == '5' && HEX[6] == '6' && HEX[7] == '7';
    assert HEX[8] == '8' && HEX[9] == '9' && HEX[10] == 'a' && HEX[11] == 'b' && HEX[12] == 'c' && HEX[13] == 'd' && HEX[14] == 'e' && HEX[15] == 'f';
  }

  lemma RowOkIff(row: Json, clock: string, allowUnscored: bool)
    ensures RowOk(row, clock, allowUnscored) <==> GoodRow(row, clock, allowUnscored)
  {
    forall c { HexDigit(c); }
  }

  /** A panel loads exactly when header and rows are as the message texts ask, and no candidate is listed twice. */
  lemma PanelOkIff(v: Json, clock: string, allowUnscored: bool)
    ensures PanelOk(v, clock, allowUnscored) <==>
            && v.Object? && "rows" in v.fields && "cohort" in v.fields && "direction" in v.fields
            && v.fields["rows"].Array? && v.fields["direction"] in {Text("minimize"), Text("maximize")}
            && v.fields["cohort"].Text? && (exists i :: 0 <= i < |v.fields["cohort"].s| && !IsSpace(v.fields["cohort"].s[i]))
            && (forall i :: 0 <= i < |v.fields["rows"].items| ==> GoodRow(v.fields["rows"].items[i], clock, allowUnscored))
            && (forall i, j :: 0 <= i < j < |v.fields["rows"].items| ==>
                  v.fields["rows"].items[i].fields["source_sha256"] != v.fields["rows"].items[j].fields["source_sha256"])
  {
    forall row { RowOkIff(row, clock, allowUnscored); }
    hide HasClock, HasScore, IsCandidateDigest, IsSpace;
  }

  /** A loaded row holds the clock reading and the score as written. */
  lemma RowValues(row: Json, clock: string, allowUnscored: bool)
    requires GoodRow(row, clock, allowUnscored) && RowOk(row, clock, allowUnscored)
    ensures RowOf(row, clock, allowUnscored).clock == Value(row.fields[clock])
    ensures RowOf(row, clock, allowUnscored).score == if row.fields["score"] == Null then None else Some(Value(row.fields["score"]))
  {
  }
}
