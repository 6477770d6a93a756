/**
 * `load_data`: the header clean-up, the fixed renaming table and the
 * per-column cell clean-up applied to the sheet once it has been fetched.
 * The fetch itself is an input: `None` stands for a fetch or parse that
 * raised, after which the loader yields an empty table.
 */
module Loader {
  import opened Wrappers
  import opened Text
  import opened Numeric
  import opened Frame

  const Status := "ESTADO_NUM"
  const Level := "NIVEL"
  const Role := "CARGO"

  /** The renaming table: a normalised sheet header on the left, the dashboard's name on the right. */
  const ColMap: map<string, string> := map[
    "Rol En El Concesionario" := Role,
    "Nombre Del Colaborador" := "COLABORADOR",
    "Formacion" := "CURSO",
    "Tipo De Curso" := "TIPO",
    "Niveles" := Level,
    "Capacitaciones" := Status
  ]

  /** `str.strip().str.title()` on one header. */
  function NormalizeHeader(h: string): (n: string)
    ensures IsTitled(n) && |n| <= |h|
  {
    TitleIdempotent(Strip(h));
    Title(Strip(h))
  }

  /** `rename(columns=...)` on one label: only an exact key of the table is renamed. */
  function RenameHeader(h: string): (r: string)
    ensures h in ColMap ==> r in ColMap.Values
    ensures h !in ColMap ==> r == h
  {
    if h in ColMap then ColMap[h] else h
  }

  /** `df.columns.str.strip().str.title()` followed by the renaming, position by position. */
  function CleanHeaders(hs: seq<string>): (r: seq<string>)
    ensures |r| == |hs|
    ensures forall i :: 0 <= i < |hs| ==>
      var n := Title(Strip(hs[i]));
      (n in ColMap ==> r[i] == ColMap[n]) && (n !in ColMap ==> r[i] == n)
  {
    seq(|hs|, i requires 0 <= i < |hs| => RenameHeader(NormalizeHeader(hs[i])))
  }

  /** Applies `f` to every cell of the first column labelled `name`; a table without it is returned as it is. */
  function MapColumn(t: Table, name: string, f: Cell -> Cell): (r: Table)
    ensures r.header == t.header && |r.rows| == |t.rows|
    ensures name !in t.header ==> r == t
    ensures forall i :: 0 <= i < |t.rows| ==> |r.rows[i]| == |t.rows[i]|
    ensures name in t.header ==>
      forall i, j :: 0 <= i < |t.rows| && 0 <= j < |t.rows[i]| ==>
        r.rows[i][j] == if j == Column(t, name) then f(t.rows[i][j]) else t.rows[i][j]
  {
    if name !in t.header then t
    else
      var k := Column(t, name);
      Table(t.header, seq(|t.rows|, i requires 0 <= i < |t.rows| =>
        if k < |t.rows[i]| then t.rows[i][k := f(t.rows[i][k])] else t.rows[i]))
  }

  /** The status clean-up of one cell: the number it holds, or 0. */
  function CoerceCell(c: Cell): (r: Cell)
    ensures r.Int?
  {
    Int(Coerce(c))
  }

  /** The cell clean-up steps, each run only when its column is present. */
  function CleanCells(t: Table): (r: Table)
    ensures r.header == t.header && |r.rows| == |t.rows|
    ensures forall i :: 0 <= i < |t.rows| ==> |r.rows[i]| == |t.rows[i]|
  {
    var withStatus := MapColumn(t, Status, CoerceCell);
    var withLevel := MapColumn(withStatus, Level, CleanText);
    MapColumn(withLevel, Role, CleanText)
  }

  /** `load_data`: an empty table on failure, otherwise the fetched sheet with its headers and cells cleaned. */
  function LoadData(fetched: Option<Table>): (r: Table)
    ensures fetched.None? ==> r == EmptyTable
    ensures fetched.Some? ==> |r.header| == |fetched.value.header| && |r.rows| == |fetched.value.rows|
    ensures fetched.Some? ==> forall i :: 0 <= i < |r.rows| ==> |r.rows[i]| == |fetched.value.rows[i]|
    ensures fetched.Some? && WellFormed(fetched.value) ==> WellFormed(r)
  {
    match fetched
    case None => EmptyTable
    case Some(raw) => CleanCells(Table(CleanHeaders(raw.header), raw.rows))
  }

  // ---- headers ----

  /** No name on the right of the renaming table is ever produced by header normalisation. */
  lemma TargetNotTitled(v: string)
    requires v in ColMap.Values
    ensures !IsTitled(v)
  {
    assert v in {Role, "COLABORADOR", "CURSO", "TIPO", Level, Status};
    UpperPairNotTitled(v);
  }

  /** The renaming table sends different headers to different names. */
  lemma ColMapInjective(a: string, b: string)
    requires a in ColMap && b in ColMap && ColMap[a] == ColMap[b]
    ensures a == b
  {
  }

  /**
   * Column `i` after loading: renamed exactly when its normalised header is a
   * key of the renaming table, and then to that key's value; otherwise it keeps
   * its normalised header. A column carries one of the table's names exactly
   * when it was renamed.
   */
  lemma {:induction false} LoadedHeader(raw: Table, i: nat)
    requires i < |raw.header|
    ensures var h, n := LoadData(Some(raw)).header, NormalizeHeader(raw.header[i]);
      && |h| == |raw.header|
      && (n in ColMap ==> h[i] == ColMap[n])
      && (n !in ColMap ==> h[i] == n)
      && (h[i] in ColMap.Values <==> n in ColMap)
  {
    var n := NormalizeHeader(raw.header[i]);
    var h := LoadData(Some(raw)).header;
    assert h == CleanHeaders(raw.header);
    assert h[i] == RenameHeader(n);
    if n !in ColMap && n in ColMap.Values {
      TitleIdempotent(Strip(raw.header[i]));
      TargetNotTitled(n);
    }
  }

  /**
   * The loaded table has a column named after `key`'s entry exactly when
   * some sheet header normalises to `key`.
   */
  lemma TargetPresent(raw: Table, key: string)
    requires key in ColMap
    ensures ColMap[key] in LoadData(Some(raw)).header
      <==> exists i :: 0 <= i < |raw.header| && NormalizeHeader(raw.header[i]) == key
  {
    var h := LoadData(Some(raw)).header;
    if ColMap[key] in h {
      var i :| 0 <= i < |h| && h[i] == ColMap[key];
      LoadedHeader(raw, i);
      ColMapInjective(NormalizeHeader(raw.header[i]), key);
    }
    if i :| 0 <= i < |raw.header| && NormalizeHeader(raw.header[i]) == key {
      LoadedHeader(raw, i);
    }
  }

  // ---- cells ----

  /** A cleaned column: one of the three names the loader cleans, at the first column carrying it. */
  predicate IsCleanedColumn(header: seq<string>, j: nat) {
    j < |header| && header[j] in {Status, Level, Role} && IndexOf(header, header[j]) == Some(j)
  }

  /** What the clean-up does to the cell at position `j`, given the header. */
  function CleanCellAt(header: seq<string>, j: nat, c: Cell): Cell {
    if IndexOf(header, Status) == Some(j) then CoerceCell(c)
    else if IndexOf(header, Level) == Some(j) || IndexOf(header, Role) == Some(j) then CleanText(c)
    else c
  }

  /** One cell after a cell step: changed only in the first column carrying the label. */
  lemma MapColumnAt(t: Table, name: string, f: Cell -> Cell, i: nat, j: nat)
    requires i < |t.rows| && j < |t.rows[i]|
    ensures var r := MapColumn(t, name, f);
      && r.header == t.header && i < |r.rows| && j < |r.rows[i]|
      && r.rows[i][j] == if IndexOf(t.header, name) == Some(j) then f(t.rows[i][j]) else t.rows[i][j]
  {
  }

  lemma CleanCellsAt(t: Table, i: nat, j: nat)
    requires i < |t.rows| && j < |t.rows[i]|
    ensures |CleanCells(t).rows| == |t.rows| && |CleanCells(t).rows[i]| == |t.rows[i]|
    ensures CleanCells(t).rows[i][j] == CleanCellAt(t.header, j, t.rows[i][j])
  {
    var t1 := MapColumn(t, Status, CoerceCell);
    var t2 := MapColumn(t1, Level, CleanText);
    MapColumnAt(t, Status, CoerceCell, i, j);
    MapColumnAt(t1, Level, CleanText, i, j);
    MapColumnAt(t2, Role, CleanText, i, j);
  }

  /**
   * Every status cell after loading is the integer the raw cell held, or 0
   * when it held none.
   */
  lemma LoadedStatus(raw: Table, i: nat)
    requires var t := LoadData(Some(raw)); Status in t.header && i < |raw.rows| && Column(t, Status) < |raw.rows[i]|
    ensures var t := LoadData(Some(raw)); var k := Column(t, Status);
      && t.rows[i][k] == Int(Coerce(raw.rows[i][k]))
      && (ParseNumber(raw.rows[i][k]) == None ==> t.rows[i][k] == Int(0))
      && (ParseNumber(raw.rows[i][k]).Some? ==> t.rows[i][k] == Int(ParseNumber(raw.rows[i][k]).value))
  {
    var t0 := Table(CleanHeaders(raw.header), raw.rows);
    CleanCellsAt(t0, i, Column(t0, Status));
  }

  /** Every level and role cell after loading is the raw cell as stripped, title-cased text. */
  lemma LoadedText(raw: Table, name: string, i: nat)
    requires name == Level || name == Role
    requires var t := LoadData(Some(raw)); name in t.header && i < |raw.rows| && Column(t, name) < |raw.rows[i]|
    ensures var t := LoadData(Some(raw)); var k := Column(t, name);
      t.rows[i][k] == Str(Title(Strip(Stringify(raw.rows[i][k]))))
  {
    var t0 := Table(CleanHeaders(raw.header), raw.rows);
    LoadedIsCleaned(raw);
    var k := Column(t0, name);
    assert t0.header[k] == name && IndexOf(t0.header, name) == Some(k);
    assert IndexOf(t0.header, Status) != Some(k);
    CleanCellsAt(t0, i, k);
  }

  /** A successful load is the cell clean-up of the sheet with its headers cleaned; the clean-up keeps the header. */
  lemma LoadedIsCleaned(raw: Table)
    ensures var t0 := Table(CleanHeaders(raw.header), raw.rows);
      LoadData(Some(raw)) == CleanCells(t0) && CleanCells(t0).header == t0.header
  {
  }

  /** Loading leaves every cell outside the three cleaned columns as it was read. */
  lemma LoadedOthers(raw: Table, i: nat, j: nat)
    requires i < |raw.rows| && j < |raw.rows[i]|
    requires !IsCleanedColumn(LoadData(Some(raw)).header, j)
    ensures LoadData(Some(raw)).rows[i][j] == raw.rows[i][j]
  {
    var t0 := Table(CleanHeaders(raw.header), raw.rows);
    CleanCellsAt(t0, i, j);
  }

  /** The status coercion reads what `astype(str)` writes, and any other text (such as "sí") becomes 0. */
  lemma CoerceReadsNumbers(n: int)
    ensures Coerce(Int(n)) == n
    ensures Coerce(Str(ShowInt(n))) == n
    ensures Coerce(Null) == 0
    ensures Coerce(Str("s\U{ED}")) == 0
    ensures Coerce(Bool(true)) == 1 && Coerce(Bool(false)) == 0
  {
    ParseShow(n);
    NotNumeral("s\U{ED}", 0);
  }

  /** Cleaning a level or role cell a second time changes nothing. */
  lemma CleanTextIdempotent(c: Cell)
    ensures CleanText(CleanText(c)) == CleanText(c)
  {
    var s := Strip(Stringify(c));
    var t := Title(s);
    TitleIdempotent(s);
    if t != [] {
      TitleAt(s, 0);
      TitleAt(s, |s| - 1);
      CaseKeepsSpace(s[0]);
      CaseKeepsSpace(s[|s| - 1]);
      StripUnique(t, 0, |t|);
      assert t[0..|t|] == t;
    }
  }

  lemma CaseKeepsSpace(c: char)
    ensures IsSpace(ToUpper(c)) ==> IsSpace(c)
    ensures IsSpace(ToLower(c)) ==> IsSpace(c)
  {
  }
}
