/** The client-side exhibition store: the list the admin pages keep, the actions
    that prepend, merge into and remove from it, the status and text filters of
    its filtered view, the lookup by slug, and `reset`. */
module ExhibitionStores {
  import opened Common
  import opened DatabaseTypes
  import opened Exhibitions

  /** Every field of the store, for stating what an action leaves alone. */
  datatype StoreState = StoreState(
    exhibitions: seq<Exhibition>,
    selectedExhibition: Option<Exhibition>,
    loading: bool,
    error: Option<string>,
    statusFilter: StatusFilter,
    searchQuery: string)

  /** The state the store is created with and that `reset` restores. */
  const InitialState: StoreState := StoreState([], None, false, None, AllStatuses, "")

  function WithId(id: nat): Exhibition -> bool {
    (e: Exhibition) => e.id == id
  }

  function WithoutId(id: nat): Exhibition -> bool {
    (e: Exhibition) => e.id != id
  }

  function WithSlug(slug: string): Exhibition -> bool {
    (e: Exhibition) => e.slug == slug
  }

  /** The status test: none under 'all', otherwise the status must be the one chosen. */
  predicate StatusPasses(f: StatusFilter, e: Exhibition) {
    f.AllStatuses? || e.status == f.status
  }

  /** `text.toLowerCase().includes(query.toLowerCase())`. */
  predicate Mentions(text: string, query: string) {
    Contains(Lower(text), Lower(query))
  }

  /** The text test: an empty query passes everything; otherwise the title, the
      artist's name or the description (a missing one never matches) must contain
      the query, ignoring the case of ASCII letters. */
  predicate QueryPasses(query: string, e: Exhibition) {
    query == "" ||
    Mentions(e.title, query) || Mentions(e.artistName, query) ||
    (e.description.Some? && Mentions(e.description.value, query))
  }

  function Shown(f: StatusFilter, query: string): Exhibition -> bool {
    (e: Exhibition) => StatusPasses(f, e) && QueryPasses(query, e)
  }

  /** The text test does not depend on the case of the query's letters. */
  lemma QueryIgnoresCase(query: string, e: Exhibition)
    ensures QueryPasses(query, e) == QueryPasses(Lower(query), e)
  {
    LowerIdempotent(query);
    assert Lower(query) == "" <==> query == "";
  }

  /** With 'all' and an empty query the filtered view is the whole list. */
  lemma NoFilterShowsAll(list: seq<Exhibition>)
    ensures Filter(list, Shown(AllStatuses, "")) == list
  {
    FilterAll(list, Shown(AllStatuses, ""));
  }

  class ExhibitionStore {
    var exhibitions: seq<Exhibition>
    var selectedExhibition: Option<Exhibition>
    var loading: bool
    var error: Option<string>
    var statusFilter: StatusFilter
    var searchQuery: string

    function State(): StoreState
      reads this
    {
      StoreState(exhibitions, selectedExhibition, loading, error, statusFilter, searchQuery)
    }

    constructor()
      ensures State() == InitialState
    {
      exhibitions := [];
      selectedExhibition := None;
      loading := false;
      error := None;
      statusFilter := AllStatuses;
      searchQuery := "";
    }

    method SetExhibitions(list: seq<Exhibition>)
      modifies this
      ensures State() == old(State()).(exhibitions := list)
    {
      exhibitions := list;
    }

    /** `addExhibition`: the new record goes in front, so the store finds it by its
        slug before any older record with the same slug. */
    method AddExhibition(e: Exhibition)
      modifies this
      ensures State() == old(State()).(exhibitions := [e] + old(exhibitions))
      ensures |exhibitions| == |old(exhibitions)| + 1
      ensures GetExhibitionBySlug(e.slug) == Some(e)
    {
      exhibitions := [e] + exhibitions;
    }

    /** `updateExhibition`: the sent fields are merged into every record with the
        id; the other records, the order and the length are unchanged. */
    method UpdateExhibition(id: nat, u: ExhibitionUpdate)
      modifies this
      ensures State() == old(State()).(exhibitions := MapWhere(old(exhibitions), WithId(id), Patched(u)))
      ensures |exhibitions| == |old(exhibitions)|
      ensures forall i :: 0 <= i < |exhibitions| && old(exhibitions)[i].id == id ==>
                exhibitions[i] == PatchExhibition(old(exhibitions)[i], u)
      ensures forall i :: 0 <= i < |exhibitions| && old(exhibitions)[i].id != id ==>
                exhibitions[i] == old(exhibitions)[i]
    {
      exhibitions := MapWhere(exhibitions, WithId(id), Patched(u));
    }

    /** `removeExhibition`: exactly the records with the id go; the rest keep
        their order. */
    method RemoveExhibition(id: nat)
      modifies this
      ensures State() == old(State()).(exhibitions := Filter(old(exhibitions), WithoutId(id)))
      ensures forall e :: e in exhibitions <==> e in old(exhibitions) && e.id != id
      ensures IsSubsequence(exhibitions, old(exhibitions))
    {
      FilterIsSubsequence(exhibitions, WithoutId(id));
      exhibitions := Filter(exhibitions, WithoutId(id));
    }

    method SetSelectedExhibition(e: Option<Exhibition>)
      modifies this
      ensures State() == old(State()).(selectedExhibition := e)
    {
      selectedExhibition := e;
    }

    method SetLoading(value: bool)
      modifies this
      ensures State() == old(State()).(loading := value)
    {
      loading := value;
    }

    method SetError(value: Option<string>)
      modifies this
      ensures State() == old(State()).(error := value)
    {
      error := value;
    }

    method SetStatusFilter(f: StatusFilter)
      modifies this
      ensures State() == old(State()).(statusFilter := f)
    {
      statusFilter := f;
    }

    method SetSearchQuery(query: string)
      modifies this
      ensures State() == old(State()).(searchQuery := query)
    {
      searchQuery := query;
    }

    /** `getFilteredExhibitions`: the records passing both tests, in the stored
        order; the stored list itself is not touched. */
    function GetFilteredExhibitions(): (r: seq<Exhibition>)
      reads this
      ensures forall e :: e in r <==> e in exhibitions && StatusPasses(statusFilter, e) && QueryPasses(searchQuery, e)
      ensures IsSubsequence(r, exhibitions)
      ensures |r| == Count(exhibitions, Shown(statusFilter, searchQuery))
      ensures statusFilter == AllStatuses && searchQuery == "" ==> r == exhibitions
    {
      var shown := Shown(statusFilter, searchQuery);
      FilterIsSubsequence(exhibitions, shown);
      NoFilterShowsAll(exhibitions);
      Filter(exhibitions, shown)
    }

    /** `getExhibitionBySlug`: the first record with the slug, if any. */
    function GetExhibitionBySlug(slug: string): (r: Option<Exhibition>)
      reads this
      ensures r.None? <==> forall i :: 0 <= i < |exhibitions| ==> exhibitions[i].slug != slug
      ensures r.Some? ==> exists k :: 0 <= k < |exhibitions| && exhibitions[k] == r.value &&
                                      r.value.slug == slug &&
                                      forall j :: 0 <= j < k ==> exhibitions[j].slug != slug
    {
      Find(exhibitions, WithSlug(slug))
    }

    /** `reset`: back to the state the store started in. */
    method Reset()
      modifies this
      ensures State() == InitialState
    {
      exhibitions := [];
      selectedExhibition := None;
      loading := false;
      error := None;
      statusFilter := AllStatuses;
      searchQuery := "";
    }
  }
}
