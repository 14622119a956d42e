/**
 The capacity table as the page renders it (`createDataCapsTable`): two
 header rows (a "Type" cell spanning both, one heading per mode spanning four
 columns, then the level letters under each mode) and one body row per
 version, whose label is the version number and whose sixteen cells run
 mode-major, level-minor. Colours and other styling are not modelled.
 */
module CapsTable {
  import Capacity
  import Decimal
  import opened Wrappers

  datatype HeaderCell = HeaderCell(text: string, rowSpan: nat, colSpan: nat)

  datatype BodyRow = BodyRow(caption: string, cells: seq<string>)

  datatype Table = Table(head: seq<seq<HeaderCell>>, body: seq<BodyRow>)

  /** The `modes` array of the page. */
  const ModeNames: seq<string> := ["Numeric", "Alphanumeric", "Byte", "Kanji"]

  /** The `ecls` array of the page. */
  const LevelNames: seq<string> := ["L", "M", "Q", "H"]

  function ModeName(m: Capacity.Mode): string {
    ModeNames[m.Index()]
  }

  function LevelName(l: Capacity.Level): string {
    LevelNames[l.Index()]
  }

  /** The body column (after the label) that holds level `l` of mode `m`. */
  function Column(l: Capacity.Level, m: Capacity.Mode): (c: nat)
    ensures c < 16
    ensures c / 4 == m.Index() && c % 4 == l.Index()
  {
    4 * m.Index() + l.Index()
  }

  /** Different (level, mode) pairs occupy different columns. */
  lemma ColumnInjective(l1: Capacity.Level, m1: Capacity.Mode, l2: Capacity.Level, m2: Capacity.Mode)
    ensures Column(l1, m1) == Column(l2, m2) <==> l1 == l2 && m1 == m2
  {
    if Column(l1, m1) == Column(l2, m2) {
      assert l1.Index() == l2.Index() && m1.Index() == m2.Index();
    }
  }

  /** The first header row: "Type" over two rows, then each mode name over four columns. */
  method ModeHeaderRow() returns (row: seq<HeaderCell>)
    ensures |row| == 5
    ensures row[0] == HeaderCell("Type", 2, 1)
    ensures forall m: Capacity.Mode :: row[1 + m.Index()] == HeaderCell(ModeName(m), 1, 4)
  {
    row := [HeaderCell("Type", 2, 1)];
    var m := 0;
    while m < 4
      invariant 0 <= m <= 4
      invariant |row| == 1 + m
      invariant row[0] == HeaderCell("Type", 2, 1)
      invariant forall i :: 0 <= i < m ==> row[1 + i] == HeaderCell(ModeNames[i], 1, 4)
    {
      row := row + [HeaderCell(ModeNames[m], 1, 4)];
      m := m + 1;
    }
  }

  /** The second header row: the four level letters under each mode heading. */
  method LevelHeaderRow() returns (row: seq<HeaderCell>)
    ensures |row| == 16
    ensures forall l: Capacity.Level, m: Capacity.Mode :: row[Column(l, m)] == HeaderCell(LevelName(l), 1, 1)
  {
    row := [];
    var m := 0;
    while m < 4
      invariant 0 <= m <= 4
      invariant |row| == 4 * m
      invariant forall k :: 0 <= k < |row| ==> row[k] == HeaderCell(LevelNames[k % 4], 1, 1)
    {
      var e := 0;
      while e < 4
        invariant 0 <= e <= 4
        invariant |row| == 4 * m + e
        invariant forall k :: 0 <= k < |row| ==> row[k] == HeaderCell(LevelNames[k % 4], 1, 1)
      {
        row := row + [HeaderCell(LevelNames[e], 1, 1)];
        e := e + 1;
      }
      m := m + 1;
    }
  }

  /** The body row for version `t + 1` with capacities `caps`: cell `4 * m + e` shows `caps[e][m]`. */
  method RenderBodyRow(t: nat, caps: seq<seq<nat>>) returns (row: BodyRow)
    requires |caps| == 4 && forall e :: 0 <= e < 4 ==> |caps[e]| == 4
    ensures row.caption == Decimal.FromNat(t + 1)
    ensures |row.cells| == 16
    ensures forall k :: 0 <= k < 16 ==> row.cells[k] == Decimal.FromNat(caps[k % 4][k / 4])
  {
    var cells: seq<string> := [];
    var m := 0;
    while m < 4
      invariant 0 <= m <= 4
      invariant |cells| == 4 * m
      invariant forall k :: 0 <= k < |cells| ==> cells[k] == Decimal.FromNat(caps[k % 4][k / 4])
    {
      var e := 0;
      while e < 4
        invariant 0 <= e <= 4
        invariant |cells| == 4 * m + e
        invariant forall k :: 0 <= k < |cells| ==> cells[k] == Decimal.FromNat(caps[k % 4][k / 4])
      {
        cells := cells + [Decimal.FromNat(caps[e][m])];
        e := e + 1;
      }
      m := m + 1;
    }
    row := BodyRow(Decimal.FromNat(t + 1), cells);
  }

  /** The first `n` rows of `body` are the rows of versions 1 to `n`, each showing that version's capacities. */
  predicate ShowsVersions(body: seq<BodyRow>, n: nat)
    requires n <= Capacity.Versions && |body| >= n
  {
    && (forall i :: 0 <= i < n ==> body[i].caption == Decimal.FromNat(i + 1))
    && (forall i :: 0 <= i < n ==> |body[i].cells| == 16)
    && (forall i, l: Capacity.Level, m: Capacity.Mode :: 0 <= i < n ==>
          body[i].cells[Column(l, m)] == Decimal.FromNat(Capacity.Capacity(i + 1, l, m)))
  }

  /** Appending the row of the next version keeps the rendered body in version order. */
  lemma ShowsVersionsStep(body: seq<BodyRow>, t: nat, row: BodyRow)
    requires t < Capacity.Versions && |body| == t && ShowsVersions(body, t)
    requires row.caption == Decimal.FromNat(t + 1) && |row.cells| == 16
    requires forall l: Capacity.Level, m: Capacity.Mode ::
      row.cells[Column(l, m)] == Decimal.FromNat(Capacity.Capacity(t + 1, l, m))
    ensures ShowsVersions(body + [row], t + 1)
  {
    var body' := body + [row];
    assert body'[t] == row;
    assert forall i :: 0 <= i < t ==> body'[i] == body[i];
  }

  /** The loop over `DATA_CAPS`: one rendered row per version, in version order. */
  method RenderBody() returns (body: seq<BodyRow>)
    ensures |body| == Capacity.Versions
    ensures ShowsVersions(body, Capacity.Versions)
  {
    body := [];
    var t := 0;
    while t < Capacity.Versions
      invariant 0 <= t <= Capacity.Versions
      invariant |body| == t
      invariant ShowsVersions(body, t)
    {
      var caps := Capacity.VersionRow(t + 1);
      var row := RenderBodyRow(t, caps);
      ShowsVersionsStep(body, t, row);
      body := body + [row];
      t := t + 1;
    }
  }

  /** The label and cell of a rendered body read back as the version and capacity they stand for. */
  lemma RenderedBodyReadsBack(body: seq<BodyRow>, v: Capacity.Version, l: Capacity.Level, m: Capacity.Mode)
    requires |body| == Capacity.Versions && ShowsVersions(body, Capacity.Versions)
    ensures Decimal.Parse(body[v - 1].caption) == Some(v as nat)
    ensures Decimal.Parse(body[v - 1].cells[Column(l, m)]) == Some(Capacity.Capacity(v, l, m))
  {
    assert body[v - 1].caption == Decimal.FromNat(v);
    assert body[v - 1].cells[Column(l, m)] == Decimal.FromNat(Capacity.Capacity(v, l, m));
    Decimal.ParseFromNat(v);
    Decimal.ParseFromNat(Capacity.Capacity(v, l, m));
  }

  /**
   `createDataCapsTable()`. Reading the rendered table back: the body row
   labelled with version `v`, under the heading of mode `m` and level `l`,
   shows the capacity of (v, l, m) in decimal.
   */
  method CreateDataCapsTable() returns (table: Table)
    ensures |table.head| == 2
    ensures |table.head[0]| == 5 && |table.head[1]| == 16
    ensures |table.body| == Capacity.Versions
    ensures forall t :: 0 <= t < |table.body| ==>
      |table.body[t].cells| == 16 && table.body[t].caption == Decimal.FromNat(t + 1)
    ensures table.head[0][0] == HeaderCell("Type", 2, 1)
    ensures forall v: Capacity.Version, l: Capacity.Level, m: Capacity.Mode ::
      && table.head[0][1 + Column(l, m) / 4] == HeaderCell(ModeName(m), 1, 4)
      && table.head[1][Column(l, m)] == HeaderCell(LevelName(l), 1, 1)
      && Decimal.Parse(table.body[v - 1].caption) == Some(v as nat)
      && Decimal.Parse(table.body[v - 1].cells[Column(l, m)]) == Some(Capacity.Capacity(v, l, m))
  {
    var head0 := ModeHeaderRow();
    var head1 := LevelHeaderRow();
    var body := RenderBody();
    table := Table([head0, head1], body);
    forall v: Capacity.Version, l: Capacity.Level, m: Capacity.Mode
      ensures Decimal.Parse(table.body[v - 1].caption) == Some(v as nat)
      ensures Decimal.Parse(table.body[v - 1].cells[Column(l, m)]) == Some(Capacity.Capacity(v, l, m))
    {
      RenderedBodyReadsBack(body, v, l, m);
    }
    assert forall l: Capacity.Level, m: Capacity.Mode :: 1 + Column(l, m) / 4 == 1 + m.Index();
  }
}
