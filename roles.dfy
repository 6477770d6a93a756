/**
 * The sidebar's role filter: the menu of roles ("Todos" first, then the
 * distinct roles in ascending order) and the restriction of the table to
 * the chosen role.
 */
module Roles {
  import opened Text
  import opened Seqs
  import opened Frame
  import opened Loader

  /** The sentinel meaning "every role". */
  const All := "Todos"

  predicate StrictlySorted(s: seq<string>) {
    forall i, j :: 0 <= i < j < |s| ==> LexLess(s[i], s[j])
  }

  /** Adds `x` to a strictly ascending list unless it is already there. */
  function Insert(x: string, s: seq<string>): (r: seq<string>)
    requires StrictlySorted(s)
    ensures StrictlySorted(r)
    ensures forall y :: y in r <==> y == x || y in s
  {
    if s == [] then [x]
    else if x == s[0] then s
    else if LexLess(x, s[0]) then
      assert forall j :: 0 <= j < |s| ==> LexLess(x, s[j]) by {
        forall j | 0 <= j < |s| ensures LexLess(x, s[j]) {
          if j > 0 { LexLessTransitive(x, s[0], s[j]); }
        }
      }
      [x] + s
    else
      LexLessTotal(x, s[0]);
      var tail := Insert(x, s[1..]);
      assert forall y :: y in s <==> y == s[0] || y in s[1..] by {
        assert s == [s[0]] + s[1..];
      }
      assert forall j :: 0 <= j < |tail| ==> LexLess(s[0], tail[j]) by {
        forall j | 0 <= j < |tail| ensures LexLess(s[0], tail[j]) {
          assert tail[j] in tail;
          if tail[j] != x {
            var m :| 0 <= m < |s[1..]| && s[1..][m] == tail[j];
            assert s[m + 1] == tail[j];
          }
        }
      }
      var r := [s[0]] + tail;
      assert StrictlySorted(r) by {
        forall i, j | 0 <= i < j < |r| ensures LexLess(r[i], r[j]) {
          assert r[j] == tail[j - 1];
          if i > 0 {
            assert r[i] == tail[i - 1];
          }
        }
      }
      r
  }

  /** Python's `sorted(set(values))`. */
  function SortedDistinct(values: seq<string>): (r: seq<string>)
    ensures StrictlySorted(r)
    ensures forall y :: y in r <==> y in values
  {
    if values == [] then []
    else
      var r := Insert(values[|values| - 1], SortedDistinct(values[..|values| - 1]));
      assert forall y :: y in values <==> y in values[..|values| - 1] || y == values[|values| - 1] by {
        assert values == values[..|values| - 1] + [values[|values| - 1]];
      }
      r
  }

  /** A strictly ascending list has no repeated element. */
  lemma SortedDistinctElements(s: seq<string>, i: nat, j: nat)
    requires StrictlySorted(s) && i < j < |s|
    ensures s[i] != s[j]
  {
    LexLessIrreflexive(s[i]);
  }

  lemma HeadIn(s: seq<string>)
    requires s != []
    ensures s[0] in s
  {
  }

  /** The first element of a strictly ascending list is its least. */
  lemma HeadIsLeast(s: seq<string>, y: string)
    requires StrictlySorted(s) && y in s
    ensures y == s[0] || LexLess(s[0], y)
  {
    var k :| 0 <= k < |s| && s[k] == y;
  }

  /** Two strictly ascending lists with the same elements are the same list. */
  lemma {:induction false} SortedUnique(a: seq<string>, b: seq<string>)
    requires StrictlySorted(a) && StrictlySorted(b)
    requires forall y :: y in a <==> y in b
    ensures a == b
    decreases |a|
  {
    if a == [] || b == [] {
      if a != [] {
        HeadIn(a);
        assert false;
      }
      if b != [] {
        HeadIn(b);
        assert false;
      }
    } else {
      HeadIn(a);
      HeadIn(b);
      HeadIsLeast(a, b[0]);
      HeadIsLeast(b, a[0]);
      if a[0] != b[0] {
        LexLessTransitive(a[0], b[0], a[0]);
        LexLessIrreflexive(a[0]);
        assert false;
      }
      assert a == [a[0]] + a[1..] && b == [b[0]] + b[1..];
      forall y ensures y in a[1..] <==> y in b[1..] {
        if y in a[1..] {
          var k :| 0 <= k < |a[1..]| && a[1..][k] == y;
          assert a[k + 1] == y;
          SortedDistinctElements(a, 0, k + 1);
          assert y in b && y != b[0];
        }
        if y in b[1..] {
          var k :| 0 <= k < |b[1..]| && b[1..][k] == y;
          assert b[k + 1] == y;
          SortedDistinctElements(b, 0, k + 1);
          assert y in a && y != a[0];
        }
      }
      SortedUnique(a[1..], b[1..]);
    }
  }

  /** Whether the sidebar offers the role menu at all (`not df.empty and 'CARGO' in df.columns`). */
  predicate HasRoleMenu(t: Table) {
    !IsEmpty(t) && Role in t.header
  }

  /** The role column with missing cells dropped (`df['CARGO'].dropna()`), in row order. */
  function RoleValues(t: Table): (values: seq<string>)
    requires Role in t.header
    ensures |values| <= |t.rows|
  {
    var k := Column(t, Role);
    var cells := Filter(t.rows, (r: Row) => CellAt(r, k).Str?);
    seq(|cells|, i requires 0 <= i < |cells| => CellAt(cells[i], k).s)
  }

  /** `lista_cargos`: the distinct roles in ascending order, or no roles when there is no menu. */
  function RoleList(t: Table): (roles: seq<string>)
    ensures StrictlySorted(roles)
  {
    if HasRoleMenu(t) then SortedDistinct(RoleValues(t)) else []
  }

  /** `opciones_menu`: the sentinel followed by the roles. */
  function RoleMenu(t: Table): (menu: seq<string>)
    ensures |menu| == |RoleList(t)| + 1 && menu[0] == All && menu[1..] == RoleList(t)
  {
    [All] + RoleList(t)
  }

  /**
   * `cargo_seleccionado`: what the radio returns for the user's `pick`. The
   * widget can only return one of its options, and with no menu the
   * selection stays "Todos".
   */
  function SelectedRole(t: Table, pick: string): (role: string)
    ensures role == All || (HasRoleMenu(t) && role in RoleList(t))
    ensures HasRoleMenu(t) && pick in RoleMenu(t) ==> role == pick
  {
    if HasRoleMenu(t) && pick in RoleMenu(t) then pick else All
  }

  /** Whether a row's role cell is exactly the text `role`. */
  function HasRole(k: nat, role: string): Row -> bool {
    (r: Row) => CellAt(r, k) == Str(role)
  }

  /** `df_filtrado_cargo`: the table restricted to one role, or the whole table for "Todos" or without a menu. */
  function RoleFilter(t: Table, role: string): (f: Table)
    ensures f.header == t.header && |f.rows| <= |t.rows|
  {
    if HasRoleMenu(t) && role != All then Table(t.header, Filter(t.rows, HasRole(Column(t, Role), role)))
    else t
  }

  // ---- properties ----

  /**
   * The menu is "Todos" followed by the roles that occur in the table,
   * strictly ascending, so no role is offered twice; it is the only list
   * with those two properties.
   */
  lemma RoleMenuShape(t: Table)
    requires HasRoleMenu(t)
    ensures RoleMenu(t)[0] == All
    ensures StrictlySorted(RoleMenu(t)[1..])
    ensures forall x :: x in RoleMenu(t)[1..] <==>
      exists i :: 0 <= i < |t.rows| && CellAt(t.rows[i], Column(t, Role)) == Str(x)
    ensures forall s :: StrictlySorted(s) && (forall x :: x in s <==> x in RoleValues(t)) ==> s == RoleMenu(t)[1..]
  {
    assert RoleMenu(t)[1..] == SortedDistinct(RoleValues(t));
    forall x ensures x in RoleValues(t) <==> exists i :: 0 <= i < |t.rows| && CellAt(t.rows[i], Column(t, Role)) == Str(x) {
      RoleValueOccurs(t, x);
    }
    forall s | StrictlySorted(s) && (forall x :: x in s <==> x in RoleValues(t)) ensures s == RoleMenu(t)[1..] {
      SortedUnique(s, SortedDistinct(RoleValues(t)));
    }
  }

  /** A text is among the role values exactly when some row's role cell holds it. */
  lemma RoleValueOccurs(t: Table, x: string)
    requires Role in t.header
    ensures x in RoleValues(t) <==> exists i :: 0 <= i < |t.rows| && CellAt(t.rows[i], Column(t, Role)) == Str(x)
  {
    var k := Column(t, Role);
    var cells := Filter(t.rows, (r: Row) => CellAt(r, k).Str?);
    var values := RoleValues(t);
    if x in values {
      var m :| 0 <= m < |values| && values[m] == x;
      assert cells[m] in t.rows && CellAt(cells[m], k) == Str(x);
      var i :| 0 <= i < |t.rows| && t.rows[i] == cells[m];
    }
    if i :| 0 <= i < |t.rows| && CellAt(t.rows[i], k) == Str(x) {
      assert t.rows[i] in cells;
      var m :| 0 <= m < |cells| && cells[m] == t.rows[i];
      assert values[m] == x;
    }
  }

  /** Choosing "Todos" (or having no menu) leaves the table as it is. */
  lemma RoleFilterAll(t: Table, role: string)
    requires role == All || !HasRoleMenu(t)
    ensures RoleFilter(t, role) == t
  {
  }

  /**
   * Choosing a role keeps exactly the rows whose role is that text, in their
   * original order, with the same columns.
   */
  lemma RoleFilterExact(t: Table, role: string)
    requires HasRoleMenu(t) && role != All
    ensures var f := RoleFilter(t, role); var k := Column(t, Role);
      && f.header == t.header
      && IsSubsequence(f.rows, t.rows)
      && (forall i :: 0 <= i < |f.rows| ==> CellAt(f.rows[i], k) == Str(role))
      && (forall i :: 0 <= i < |t.rows| && CellAt(t.rows[i], k) == Str(role) ==> t.rows[i] in f.rows)
      && (forall x :: multiset(f.rows)[x] == if CellAt(x, k) == Str(role) then multiset(t.rows)[x] else 0)
  {
    FilterIsSubsequence(t.rows, HasRole(Column(t, Role), role));
    FilterMultiset(t.rows, HasRole(Column(t, Role), role));
  }

  /** Every role the menu offers selects at least one row. */
  lemma RoleOptionNonEmpty(t: Table, role: string)
    requires role in RoleList(t) && role != All
    ensures |RoleFilter(t, role).rows| > 0
  {
    RoleMenuShape(t);
    assert role in RoleMenu(t)[1..];
    var k := Column(t, Role);
    var i :| 0 <= i < |t.rows| && CellAt(t.rows[i], k) == Str(role);
    assert t.rows[i] in RoleFilter(t, role).rows;
  }

  /** A row lands under one role only: the role its own cell names. */
  lemma RoleFilterDisjoint(t: Table, r1: string, r2: string, row: Row)
    requires HasRoleMenu(t) && r1 != All && r2 != All
    requires row in RoleFilter(t, r1).rows && row in RoleFilter(t, r2).rows
    ensures r1 == r2
  {
  }
}
