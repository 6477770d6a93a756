/**
 * One browser session of the page. Streamlit re-runs the whole script on
 * every interaction; what survives between runs is the session state, here
 * the single entry `filtro_activo` (the active facet). A run takes the
 * fetched sheet, the radio pick and the button clicked (if any), updates the
 * facet and yields what the page shows.
 */
module Session {
  import opened Wrappers
  import opened Seqs
  import opened Frame
  import opened Loader
  import opened Roles
  import opened Indicators

  /** The five facet buttons above the listing. */
  datatype Button = ShowAllButton | PendingButton | DoneButton | Level1Button | Level2Button {
    /** What a click stores in the session state. */
    function Label(): string {
      match this
      case ShowAllButton => ShowAll
      case PendingButton => Pending
      case DoneButton => Done
      case Level1Button => Level1
      case Level2Button => Level2
    }
  }

  /** The values the session's facet can take. */
  const Facets: set<string> := {ShowAll, Pending, Done, Level1, Level2}

  /** The main panel: the no-data warning, the run stopped by a missing column, or the KPIs and listing. */
  datatype Body = NoData | MissingColumn(name: string) | Shown(kpis: Kpis, listing: Table)

  /** The role menu (empty when not offered), the selected role and the main panel. */
  datatype Page = Page(menu: seq<string>, role: string, body: Body)

  /** The buttons are drawn only when the role-filtered table is not empty and its KPIs could be computed. */
  predicate ButtonsDrawn(t: Table, pick: string) {
    var f := RoleFilter(t, SelectedRole(t, pick));
    !IsEmpty(f) && HasKpiColumns(f)
  }

  /** The facet after one run: set to the default when absent, then to a drawn button's label when clicked. */
  function NextFacet(facet: Option<string>, drawn: bool, click: Option<Button>): string {
    if drawn && click.Some? then click.value.Label() else facet.GetOr(ShowAll)
  }

  /** What one run shows for the loaded table `t`, the radio pick and the facet in force at the listing. */
  function RenderPage(t: Table, pick: string, facet: string): (page: Page)
    ensures page.menu == [] ==> page.role == All
    ensures page.role == All || page.role in page.menu[1..]
    ensures page.body == NoData <==> IsEmpty(RoleFilter(t, SelectedRole(t, pick)))
  {
    var role := SelectedRole(t, pick);
    var f := RoleFilter(t, role);
    var body :=
      if IsEmpty(f) then NoData
      else if Status !in f.header then MissingColumn(Status)
      else if Level !in f.header then MissingColumn(Level)
      else Shown(ComputeKpis(f), Project(FinalView(f, facet)));
    Page(if HasRoleMenu(t) then RoleMenu(t) else [], role, body)
  }

  class Dashboard {
    /** `st.session_state.filtro_activo`; `None` until the first run sets it. */
    var activeFacet: Option<string>

    ghost predicate Valid()
      reads this
    {
      activeFacet.Some? ==> activeFacet.value in Facets
    }

    /** A new session: nothing stored yet. */
    constructor ()
      ensures Valid() && activeFacet == None
    {
      activeFacet := None;
    }

    /** Sets the facet to "Todos" only when the session has none. */
    method InitFacet()
      requires Valid()
      modifies this
      ensures Valid()
      ensures activeFacet == Some(old(activeFacet).GetOr(ShowAll))
    {
      if activeFacet.None? {
        activeFacet := Some(ShowAll);
      }
    }

    /** A click stores that button's label. */
    method Click(b: Button)
      requires Valid()
      modifies this
      ensures Valid()
      ensures activeFacet == Some(b.Label())
    {
      activeFacet := Some(b.Label());
    }

    /**
     * One run of the script. `fetched` is the sheet as read (`None` when the
     * read raised), `pick` what the user chose in the role radio, `click` the
     * facet button pressed in this interaction.
     */
    method Run(fetched: Option<Table>, pick: string, click: Option<Button>) returns (page: Page)
      requires Valid()
      modifies this
      ensures Valid()
      ensures activeFacet == Some(NextFacet(old(activeFacet), ButtonsDrawn(LoadData(fetched), pick), click))
      ensures page == RenderPage(LoadData(fetched), pick, activeFacet.value)
    {
      var df := LoadData(fetched);
      var menu, role, byRole := FilterByRole(df, pick);
      InitFacet();
      if IsEmpty(byRole) {
        page := Page(menu, role, NoData);
        return;
      }
      if Status !in byRole.header {
        page := Page(menu, role, MissingColumn(Status));
        return;
      }
      if Level !in byRole.header {
        page := Page(menu, role, MissingColumn(Level));
        return;
      }
      var kpis := ComputeKpis(byRole);
      if click.Some? {
        Click(click.value);
      }
      var view := ApplyFacet(byRole, activeFacet.value);
      page := Page(menu, role, Shown(kpis, Project(view)));
    }
  }

  /**
   * The sidebar step: the menu offered, the role the radio returns and the
   * table restricted to it, reassigned step by step as the script does.
   */
  method FilterByRole(df: Table, pick: string) returns (menu: seq<string>, role: string, byRole: Table)
    ensures menu == (if HasRoleMenu(df) then RoleMenu(df) else [])
    ensures role == SelectedRole(df, pick) && (role == All || role in RoleList(df))
    ensures byRole == RoleFilter(df, role)
  {
    byRole := df;
    menu := [];
    role := All;
    if !IsEmpty(df) && Role in df.header {
      menu := [All] + RoleList(df);
      role := if pick in menu then pick else All;
      if role != All {
        byRole := Table(df.header, Filter(df.rows, HasRole(Column(df, Role), role)));
      }
    }
  }

  /** The listing step: starts from every row and narrows it when the facet is one of the four filters. */
  method ApplyFacet(byRole: Table, facet: string) returns (view: Table)
    requires HasKpiColumns(byRole)
    ensures view == FinalView(byRole, facet)
  {
    view := byRole;
    if facet == Pending {
      view := Table(view.header, PendingRows(view));
    } else if facet == Done {
      view := Table(view.header, DoneRows(view));
    } else if facet == Level1 {
      view := Table(view.header, LevelRows(byRole, "1"));
    } else if facet == Level2 {
      view := Table(view.header, LevelRows(byRole, "2"));
    }
  }

  // ---- properties ----

  /** The facet is always one of the five labels after a run. */
  lemma NextFacetIsLabel(facet: Option<string>, drawn: bool, click: Option<Button>)
    requires facet.Some? ==> facet.value in Facets
    ensures NextFacet(facet, drawn, click) in Facets
  {
  }

  /**
   * A run with no click keeps the stored facet (or sets "Todos" when there
   * is none), whatever role is picked: changing the role does not reset it.
   */
  lemma RoleChangeKeepsFacet(t: Table, pick1: string, pick2: string, facet: Option<string>)
    ensures NextFacet(facet, ButtonsDrawn(t, pick1), None) == NextFacet(facet, ButtonsDrawn(t, pick2), None)
    ensures NextFacet(facet, ButtonsDrawn(t, pick1), None) == facet.GetOr(ShowAll)
  {
  }

  /**
   * When the listing is shown, it has exactly as many rows as the count on
   * the active facet's button, and all rows of the role when the facet is
   * "Todos".
   */
  lemma ShownListingMatchesButton(t: Table, pick: string, b: Button)
    requires RenderPage(t, pick, b.Label()).body.Shown?
    ensures var body := RenderPage(t, pick, b.Label()).body;
      |body.listing.rows| == match b
        case ShowAllButton => body.kpis.total
        case PendingButton => body.kpis.pending
        case DoneButton => body.kpis.done
        case Level1Button => body.kpis.level1
        case Level2Button => body.kpis.level2
  {
    var f := RoleFilter(t, SelectedRole(t, pick));
    FinalViewMatchesKpis(f, b.Label());
  }

  /** Whatever the role and facet, the listed rows are rows of the loaded sheet, in sheet order. */
  lemma ListingRowsFromSheet(t: Table, pick: string, facet: string)
    requires HasKpiColumns(RoleFilter(t, SelectedRole(t, pick)))
    ensures IsSubsequence(FinalView(RoleFilter(t, SelectedRole(t, pick)), facet).rows, t.rows)
  {
    var role := SelectedRole(t, pick);
    var f := RoleFilter(t, role);
    if HasRoleMenu(t) && role != All {
      RoleFilterExact(t, role);
    } else {
      SubsequenceReflexive(t.rows);
    }
    FinalViewMatchesKpis(f, facet);
    SubsequenceTransitive(FinalView(f, facet).rows, f.rows, t.rows);
  }

  /** A failed read shows the no-data warning and no role menu. */
  lemma FailedLoadShowsNoData(pick: string, facet: string)
    ensures RenderPage(LoadData(None), pick, facet) == Page([], All, NoData)
  {
  }
}
