/**
 * The main panel's arithmetic: the KPI counts over the role-filtered table,
 * the level subsets, the row subset each facet selects and the columns the
 * final listing shows.
 */
module Indicators {
  import opened Text
  import opened Seqs
  import opened Frame
  import opened Loader

  /** The facet labels the five buttons store, and that the view tests for. */
  const ShowAll := "Todos"
  const Pending := "Faltan"
  const Done := "Cumplieron"
  const Level1 := "Nivel 1"
  const Level2 := "Nivel 2"

  /** The columns the listing shows, in this order, when present. */
  const DisplayColumns: seq<string> := ["COLABORADOR", Role, "CURSO", Level, Status]

  datatype Kpis = Kpis(total: nat, pending: nat, done: nat, level1: nat, level2: nat)

  /** The KPI block reads both columns without checking for them. */
  predicate HasKpiColumns(t: Table) {
    Status in t.header && Level in t.header
  }

  /** `df['ESTADO_NUM'] == v` for one row. */
  function StatusIs(k: nat, v: int): Row -> bool {
    (r: Row) => CellAt(r, k) == Int(v)
  }

  /** `df['NIVEL'].astype(str).str.contains(d)` for one row. */
  function LevelMentions(k: nat, d: string): Row -> bool {
    (r: Row) => Contains(Stringify(CellAt(r, k)), d)
  }

  /** `df[df['ESTADO_NUM'] == 0]`: the rows still to be done. */
  function PendingRows(t: Table): (r: seq<Row>)
    requires Status in t.header
    ensures forall i :: 0 <= i < |r| ==> CellAt(r[i], Column(t, Status)) == Int(0)
  {
    Filter(t.rows, StatusIs(Column(t, Status), 0))
  }

  /** `df[df['ESTADO_NUM'] == 1]`: the rows already done. */
  function DoneRows(t: Table): (r: seq<Row>)
    requires Status in t.header
    ensures forall i :: 0 <= i < |r| ==> CellAt(r[i], Column(t, Status)) == Int(1)
  {
    Filter(t.rows, StatusIs(Column(t, Status), 1))
  }

  /** `df_n1` (digit "1") and `df_n2` (digit "2"). */
  function LevelRows(t: Table, d: string): (r: seq<Row>)
    requires Level in t.header
    ensures forall i :: 0 <= i < |r| ==> Contains(Stringify(CellAt(r[i], Column(t, Level))), d)
  {
    Filter(t.rows, LevelMentions(Column(t, Level), d))
  }

  /** The five counts shown on the buttons. */
  function ComputeKpis(t: Table): (n: Kpis)
    requires HasKpiColumns(t)
    ensures n.total == |t.rows|
    ensures n.pending <= n.total && n.done <= n.total && n.level1 <= n.total && n.level2 <= n.total
  {
    Kpis(|t.rows|, |PendingRows(t)|, |DoneRows(t)|, |LevelRows(t, "1")|, |LevelRows(t, "2")|)
  }

  /** `df_final_view`: the rows the active facet selects; any unknown facet shows every row. */
  function FinalView(t: Table, facet: string): (v: Table)
    requires HasKpiColumns(t)
    ensures v.header == t.header && |v.rows| <= |t.rows|
  {
    var rows :=
      if facet == Pending then PendingRows(t)
      else if facet == Done then DoneRows(t)
      else if facet == Level1 then LevelRows(t, "1")
      else if facet == Level2 then LevelRows(t, "2")
      else t.rows;
    Table(t.header, rows)
  }

  /** `cols_reales`: the display columns the table has, in display order. */
  function ShownColumns(t: Table): (cols: seq<string>)
    ensures forall j :: 0 <= j < |cols| ==> cols[j] in t.header
  {
    Filter(DisplayColumns, (c: string) => c in t.header)
  }

  /** `df_final_view[cols_reales]`. */
  function Project(t: Table): (r: Table)
    ensures |r.rows| == |t.rows| && WellFormed(r)
  {
    var cols := ShownColumns(t);
    Table(cols, seq(|t.rows|, i requires 0 <= i < |t.rows| =>
      seq(|cols|, j requires 0 <= j < |cols| => CellAt(t.rows[i], Column(t, cols[j])))))
  }

  // ---- properties ----

  /**
   * Pending and done rows are disjoint, so together they are at most the
   * total; they are exactly the total when every status is 0 or 1.
   */
  lemma StatusCounts(t: Table)
    requires HasKpiColumns(t)
    ensures var n := ComputeKpis(t); n.pending + n.done <= n.total
    ensures var n, k := ComputeKpis(t), Column(t, Status);
      n.pending + n.done == n.total
      <==> forall i :: 0 <= i < |t.rows| ==> CellAt(t.rows[i], k) in {Int(0), Int(1)}
  {
    var k := Column(t, Status);
    var p, q := StatusIs(k, 0), StatusIs(k, 1);
    FilterDisjointCount(t.rows, p, q);
    if forall x :: x in t.rows ==> p(x) || q(x) {
      forall i | 0 <= i < |t.rows| ensures CellAt(t.rows[i], k) in {Int(0), Int(1)} {
        assert p(t.rows[i]) || q(t.rows[i]);
      }
    }
    if forall i :: 0 <= i < |t.rows| ==> CellAt(t.rows[i], k) in {Int(0), Int(1)} {
      forall x | x in t.rows ensures p(x) || q(x) {
        var i :| 0 <= i < |t.rows| && t.rows[i] == x;
      }
    }
  }

  /**
   * `df_n1` holds exactly the rows whose level text contains `d`, in table
   * order, so it is part of the table it was cut from.
   */
  lemma LevelRowsExact(t: Table, d: char)
    requires Level in t.header
    ensures var l, k := LevelRows(t, [d]), Column(t, Level);
      && IsSubsequence(l, t.rows)
      && (forall i :: 0 <= i < |l| ==> d in Stringify(CellAt(l[i], k)))
      && (forall i :: 0 <= i < |t.rows| && d in Stringify(CellAt(t.rows[i], k)) ==> t.rows[i] in l)
      && (forall x :: multiset(l)[x] == if d in Stringify(CellAt(x, k)) then multiset(t.rows)[x] else 0)
  {
    var k := Column(t, Level);
    var l := LevelRows(t, [d]);
    FilterIsSubsequence(t.rows, LevelMentions(k, [d]));
    forall i | 0 <= i < |l| ensures d in Stringify(CellAt(l[i], k)) {
      ContainsChar(Stringify(CellAt(l[i], k)), d);
    }
    forall i | 0 <= i < |t.rows| && d in Stringify(CellAt(t.rows[i], k)) ensures t.rows[i] in l {
      ContainsChar(Stringify(CellAt(t.rows[i], k)), d);
    }
    FilterMultiset(t.rows, LevelMentions(k, [d]));
    forall x ensures multiset(l)[x] == if d in Stringify(CellAt(x, k)) then multiset(t.rows)[x] else 0 {
      ContainsChar(Stringify(CellAt(x, k)), d);
    }
  }

  /**
   * Each count on the buttons counts rows by position, so a row that
   * appears twice in the sheet counts twice: the total counts every row,
   * pending and done the rows with status 0 and 1, the levels the rows
   * whose level text contains the digit.
   */
  lemma KpiCounts(t: Table)
    requires HasKpiColumns(t)
    ensures var n, kS, kL := ComputeKpis(t), Column(t, Status), Column(t, Level);
      && n.pending == CountWhere(t.rows, (r: Row) => CellAt(r, kS) == Int(0))
      && n.done == CountWhere(t.rows, (r: Row) => CellAt(r, kS) == Int(1))
      && n.level1 == CountWhere(t.rows, (r: Row) => '1' in Stringify(CellAt(r, kL)))
      && n.level2 == CountWhere(t.rows, (r: Row) => '2' in Stringify(CellAt(r, kL)))
  {
    var kS, kL := Column(t, Status), Column(t, Level);
    FilterLength(t.rows, StatusIs(kS, 0));
    FilterLength(t.rows, StatusIs(kS, 1));
    FilterLength(t.rows, LevelMentions(kL, "1"));
    FilterLength(t.rows, LevelMentions(kL, "2"));
    CountSame(t.rows, StatusIs(kS, 0), (r: Row) => CellAt(r, kS) == Int(0));
    CountSame(t.rows, StatusIs(kS, 1), (r: Row) => CellAt(r, kS) == Int(1));
    forall r: Row ensures LevelMentions(kL, "1")(r) == ('1' in Stringify(CellAt(r, kL))) {
      ContainsChar(Stringify(CellAt(r, kL)), '1');
    }
    forall r: Row ensures LevelMentions(kL, "2")(r) == ('2' in Stringify(CellAt(r, kL))) {
      ContainsChar(Stringify(CellAt(r, kL)), '2');
    }
    CountSame(t.rows, LevelMentions(kL, "1"), (r: Row) => '1' in Stringify(CellAt(r, kL)));
    CountSame(t.rows, LevelMentions(kL, "2"), (r: Row) => '2' in Stringify(CellAt(r, kL)));
  }

  /** The two level subsets may overlap: a level such as "Nivel 12" counts under both. */
  lemma LevelsMayOverlap()
    ensures var t := Table([Level, Status], [[Str("Nivel 12"), Int(0)]]);
      HasKpiColumns(t) && ComputeKpis(t).level1 + ComputeKpis(t).level2 > ComputeKpis(t).total
  {
    var t := Table([Level, Status], [[Str("Nivel 12"), Int(0)]]);
    assert Column(t, Level) == 0;
    ContainsChar("Nivel 12", '1');
    ContainsChar("Nivel 12", '2');
    assert "Nivel 12"[6] == '1' && "Nivel 12"[7] == '2';
    assert t.rows[0] in LevelRows(t, "1");
    assert t.rows[0] in LevelRows(t, "2");
  }

  /**
   * Each facet's listing has as many rows as the count on its button; any
   * other facet lists the whole table. The listing never leaves the table
   * and keeps its columns.
   */
  lemma FinalViewMatchesKpis(t: Table, facet: string)
    requires HasKpiColumns(t)
    ensures var v, n := FinalView(t, facet), ComputeKpis(t);
      && v.header == t.header
      && IsSubsequence(v.rows, t.rows)
      && (facet == Pending ==> |v.rows| == n.pending)
      && (facet == Done ==> |v.rows| == n.done)
      && (facet == Level1 ==> |v.rows| == n.level1)
      && (facet == Level2 ==> |v.rows| == n.level2)
      && (facet !in {Pending, Done, Level1, Level2} ==> v == t)
  {
    var kS, kL := Column(t, Status), Column(t, Level);
    FilterIsSubsequence(t.rows, StatusIs(kS, 0));
    FilterIsSubsequence(t.rows, StatusIs(kS, 1));
    FilterIsSubsequence(t.rows, LevelMentions(kL, "1"));
    FilterIsSubsequence(t.rows, LevelMentions(kL, "2"));
    SubsequenceReflexive(t.rows);
  }

  /**
   * The listing's columns are exactly the display columns the view has, in
   * display order, and each listed cell is the view's cell of that column.
   */
  lemma ProjectColumns(t: Table)
    ensures var p := Project(t);
      && IsSubsequence(p.header, DisplayColumns)
      && (forall c :: c in p.header <==> c in DisplayColumns && c in t.header)
      && (forall i, j :: 0 <= i < |p.rows| && 0 <= j < |p.header| ==>
            p.header[j] in t.header && p.rows[i][j] == CellAt(t.rows[i], Column(t, p.header[j])))
  {
    var cols := ShownColumns(t);
    FilterIsSubsequence(DisplayColumns, (c: string) => c in t.header);
    forall c ensures c in cols <==> c in DisplayColumns && c in t.header {
      if c in cols {
        var j :| 0 <= j < |cols| && cols[j] == c;
      }
      if c in DisplayColumns && c in t.header {
        var j :| 0 <= j < |DisplayColumns| && DisplayColumns[j] == c;
      }
    }
  }
}
