/** The client-side UI store: theme, mobile menu, the open modal, page loading,
    global search and the gallery's view preferences, with the toggles, `reset`
    (which keeps the theme) and the subset that is saved across visits. */
module UiStores {
  import opened Common

  datatype Theme = Light | Dark | System

  datatype GalleryView = Grid | List

  /** `2 | 3 | 4`. */
  type GridColumns = c: int | 2 <= c <= 4 witness 3

  datatype UiState = UiState(
    theme: Theme,
    mobileMenuOpen: bool,
    activeModal: Option<string>,
    pageLoading: bool,
    globalSearchOpen: bool,
    globalSearchQuery: string,
    galleryView: GalleryView,
    gridColumns: GridColumns)

  /** What `partialize` writes to storage. */
  datatype Saved = Saved(theme: Theme, galleryView: GalleryView, gridColumns: GridColumns)

  const InitialState: UiState := UiState(System, false, None, false, false, "", Grid, 3)

  function SavedPart(s: UiState): (p: Saved)
    ensures p.theme == s.theme && p.galleryView == s.galleryView && p.gridColumns == s.gridColumns
  {
    Saved(s.theme, s.galleryView, s.gridColumns)
  }

  /** Only the three preferences are saved: states that agree on them save the same. */
  lemma SavedIgnoresTransientFields(s: UiState, t: UiState)
    requires s.theme == t.theme && s.galleryView == t.galleryView && s.gridColumns == t.gridColumns
    ensures SavedPart(s) == SavedPart(t)
  {
  }

  /** `toggleMobileMenu`. */
  function MenuToggled(s: UiState): (t: UiState)
    ensures t.mobileMenuOpen == !s.mobileMenuOpen
    ensures t.(mobileMenuOpen := s.mobileMenuOpen) == s
  {
    s.(mobileMenuOpen := !s.mobileMenuOpen)
  }

  /** `toggleGlobalSearch`: closing clears the query, opening keeps it. */
  function SearchToggled(s: UiState): (t: UiState)
    ensures t.globalSearchOpen == !s.globalSearchOpen
    ensures s.globalSearchOpen ==> t.globalSearchQuery == ""
    ensures !s.globalSearchOpen ==> t.globalSearchQuery == s.globalSearchQuery
    ensures t.(globalSearchOpen := s.globalSearchOpen, globalSearchQuery := s.globalSearchQuery) == s
  {
    s.(globalSearchOpen := !s.globalSearchOpen,
       globalSearchQuery := if s.globalSearchOpen then "" else s.globalSearchQuery)
  }

  /** `reset`: every field back to its first value except the theme. */
  function AfterReset(s: UiState): (t: UiState)
    ensures t.theme == s.theme
    ensures t.(theme := InitialState.theme) == InitialState
  {
    InitialState.(theme := s.theme)
  }

  /** Two menu toggles restore the menu. */
  lemma ToggleMobileMenuTwice(s: UiState)
    ensures MenuToggled(MenuToggled(s)) == s
  {
  }

  /** Two search toggles restore the open flag but always leave an empty query:
      one of the two is a close. */
  lemma ToggleGlobalSearchTwice(s: UiState)
    ensures SearchToggled(SearchToggled(s)) == s.(globalSearchQuery := "")
  {
  }

  /** Resetting twice is resetting once, and the first state is a reset state. */
  lemma ResetIdempotent(s: UiState)
    ensures AfterReset(AfterReset(s)) == AfterReset(s)
    ensures AfterReset(InitialState) == InitialState
  {
  }

  /** After a reset, the saved part is the default view with the theme kept. */
  lemma ResetSaved(s: UiState)
    ensures SavedPart(AfterReset(s)) == Saved(s.theme, Grid, 3)
  {
  }

  class UiStore {
    var theme: Theme
    var mobileMenuOpen: bool
    var activeModal: Option<string>
    var pageLoading: bool
    var globalSearchOpen: bool
    var globalSearchQuery: string
    var galleryView: GalleryView
    var gridColumns: GridColumns

    function State(): UiState
      reads this
    {
      UiState(theme, mobileMenuOpen, activeModal, pageLoading, globalSearchOpen, globalSearchQuery,
              galleryView, gridColumns)
    }

    /** `partialize`: the state that is written to storage. */
    function Persisted(): (p: Saved)
      reads this
      ensures p == SavedPart(State())
    {
      Saved(theme, galleryView, gridColumns)
    }

    constructor()
      ensures State() == InitialState
    {
      theme, mobileMenuOpen, activeModal, pageLoading := System, false, None, false;
      globalSearchOpen, globalSearchQuery := false, "";
      galleryView, gridColumns := Grid, 3;
    }

    method SetTheme(t: Theme)
      modifies this
      ensures State() == old(State()).(theme := t)
    {
      theme := t;
    }

    method ToggleMobileMenu()
      modifies this
      ensures State() == MenuToggled(old(State()))
      ensures Persisted() == old(Persisted())
    {
      mobileMenuOpen := !mobileMenuOpen;
    }

    method SetMobileMenuOpen(open: bool)
      modifies this
      ensures State() == old(State()).(mobileMenuOpen := open)
      ensures Persisted() == old(Persisted())
    {
      mobileMenuOpen := open;
    }

    method OpenModal(modalId: string)
      modifies this
      ensures State() == old(State()).(activeModal := Some(modalId))
      ensures Persisted() == old(Persisted())
    {
      activeModal := Some(modalId);
    }

    method CloseModal()
      modifies this
      ensures State() == old(State()).(activeModal := None)
      ensures Persisted() == old(Persisted())
    {
      activeModal := None;
    }

    method SetPageLoading(loading: bool)
      modifies this
      ensures State() == old(State()).(pageLoading := loading)
      ensures Persisted() == old(Persisted())
    {
      pageLoading := loading;
    }

    method ToggleGlobalSearch()
      modifies this
      ensures State() == SearchToggled(old(State()))
      ensures Persisted() == old(Persisted())
    {
      globalSearchQuery := if globalSearchOpen then "" else globalSearchQuery;
      globalSearchOpen := !globalSearchOpen;
    }

    method SetGlobalSearchQuery(query: string)
      modifies this
      ensures State() == old(State()).(globalSearchQuery := query)
      ensures Persisted() == old(Persisted())
    {
      globalSearchQuery := query;
    }

    method SetGalleryView(view: GalleryView)
      modifies this
      ensures State() == old(State()).(galleryView := view)
    {
      galleryView := view;
    }

    method SetGridColumns(columns: GridColumns)
      modifies this
      ensures State() == old(State()).(gridColumns := columns)
    {
      gridColumns := columns;
    }

    method Reset()
      modifies this
      ensures State() == AfterReset(old(State()))
      ensures theme == old(theme)
    {
      mobileMenuOpen, activeModal, pageLoading := false, None, false;
      globalSearchOpen, globalSearchQuery := false, "";
      galleryView, gridColumns := Grid, 3;
    }
  }
}
