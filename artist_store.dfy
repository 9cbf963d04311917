/** The client-side artist store: the list actions, the filtered and sorted view
    (by name, or newest first), the lookup by slug, and `reset`. The name order of
    `localeCompare` depends on the browser's locale and comes in as a parameter, a
    total preorder on strings. */
module ArtistStores {
  import opened Common
  import opened DatabaseTypes
  import opened Sorting

  /** `ArtistUpdate`: a field that is not sent keeps its value. */
  datatype ArtistUpdate = ArtistUpdate(
    name: Option<string>,
    biography: Option<string>,
    slug: Option<string>,
    createdAt: Option<int>)

  /** The two orders of the artist list. */
  datatype ArtistOrder = ByName | ByCreatedAt

  datatype StoreState = StoreState(
    artists: seq<Artist>,
    selectedArtist: Option<Artist>,
    loading: bool,
    error: Option<string>,
    searchQuery: string,
    sortBy: ArtistOrder)

  /** The state the store is created with and that `reset` restores. */
  const InitialState: StoreState := StoreState([], None, false, None, "", ByName)

  /** `{ ...artist, ...updates }`. */
  function PatchArtist(a: Artist, u: ArtistUpdate): (b: Artist)
    ensures b.id == a.id
    ensures u.name.Some? ==> b.name == u.name.value
    ensures u.name.None? ==> b.name == a.name
    ensures u == ArtistUpdate(None, None, None, None) ==> b == a
  {
    Artist(a.id, Pick(u.name, a.name), PickSome(u.biography, a.biography), Pick(u.slug, a.slug),
           Pick(u.createdAt, a.createdAt))
  }

  function Patched(u: ArtistUpdate): Artist -> Artist {
    (a: Artist) => PatchArtist(a, u)
  }

  function WithId(id: nat): Artist -> bool {
    (a: Artist) => a.id == id
  }

  function WithoutId(id: nat): Artist -> bool {
    (a: Artist) => a.id != id
  }

  function WithSlug(slug: string): Artist -> bool {
    (a: Artist) => a.slug == slug
  }

  /** An empty query passes everything; otherwise the name or the biography (a
      missing one never matches) must contain it, ignoring the case of ASCII
      letters. */
  predicate QueryPasses(query: string, a: Artist) {
    query == "" ||
    Contains(Lower(a.name), Lower(query)) ||
    (a.biography.Some? && Contains(Lower(a.biography.value), Lower(query)))
  }

  function Matching(query: string): Artist -> bool {
    (a: Artist) => QueryPasses(query, a)
  }

  /** The comparison the sort is given: the collation on names, or the newer
      `created_at` first. */
  function OrderOf(sortBy: ArtistOrder, nameLe: (string, string) -> bool): (Artist, Artist) -> bool {
    (a: Artist, b: Artist) =>
      if sortBy == ByName then nameLe(a.name, b.name) else b.createdAt <= a.createdAt
  }

  /** Both orders can sort any list. */
  lemma OrdersArePreorders(sortBy: ArtistOrder, nameLe: (string, string) -> bool)
    requires TotalPreorder(nameLe)
    ensures TotalPreorder(OrderOf(sortBy, nameLe))
  {
    var le := OrderOf(sortBy, nameLe);
    forall a: Artist, b: Artist ensures le(a, b) || le(b, a) {
      if sortBy == ByName {
        assert nameLe(a.name, b.name) || nameLe(b.name, a.name);
      }
    }
    forall a: Artist, b: Artist, c: Artist | le(a, b) && le(b, c) ensures le(a, c) {
      if sortBy == ByName {
        assert nameLe(a.name, b.name) && nameLe(b.name, c.name);
      }
    }
  }

  class ArtistStore {
    var artists: seq<Artist>
    var selectedArtist: Option<Artist>
    var loading: bool
    var error: Option<string>
    var searchQuery: string
    var sortBy: ArtistOrder

    function State(): StoreState
      reads this
    {
      StoreState(artists, selectedArtist, loading, error, searchQuery, sortBy)
    }

    constructor()
      ensures State() == InitialState
    {
      artists := [];
      selectedArtist := None;
      loading := false;
      error := None;
      searchQuery := "";
      sortBy := ByName;
    }

    method SetArtists(list: seq<Artist>)
      modifies this
      ensures State() == old(State()).(artists := list)
    {
      artists := list;
    }

    /** `addArtist`: the new record goes in front. */
    method AddArtist(a: Artist)
      modifies this
      ensures State() == old(State()).(artists := [a] + old(artists))
      ensures GetArtistBySlug(a.slug) == Some(a)
    {
      artists := [a] + artists;
    }

    /** `updateArtist`: the sent fields are merged into the records with the id;
        the other records, the order and the length stay. */
    method UpdateArtist(id: nat, u: ArtistUpdate)
      modifies this
      ensures State() == old(State()).(artists := MapWhere(old(artists), WithId(id), Patched(u)))
      ensures |artists| == |old(artists)|
      ensures forall i :: 0 <= i < |artists| && old(artists)[i].id == id ==>
                artists[i] == PatchArtist(old(artists)[i], u)
      ensures forall i :: 0 <= i < |artists| && old(artists)[i].id != id ==> artists[i] == old(artists)[i]
    {
      artists := MapWhere(artists, WithId(id), Patched(u));
    }

    /** `removeArtist`: exactly the records with the id go; the rest keep their order. */
    method RemoveArtist(id: nat)
      modifies this
      ensures State() == old(State()).(artists := Filter(old(artists), WithoutId(id)))
      ensures forall a :: a in artists <==> a in old(artists) && a.id != id
      ensures IsSubsequence(artists, old(artists))
    {
      FilterIsSubsequence(artists, WithoutId(id));
      artists := Filter(artists, WithoutId(id));
    }

    method SetSelectedArtist(a: Option<Artist>)
      modifies this
      ensures State() == old(State()).(selectedArtist := a)
    {
      selectedArtist := a;
    }

    method SetLoading(value: bool)
      modifies this
      ensures State() == old(State()).(loading := value)
    {
      loading := value;
    }

    method SetError(value: Option<string>)
      modifies this
      ensures State() == old(State()).(error := value)
    {
      error := value;
    }

    method SetSearchQuery(query: string)
      modifies this
      ensures State() == old(State()).(searchQuery := query)
    {
      searchQuery := query;
    }

    method SetSortBy(order: ArtistOrder)
      modifies this
      ensures State() == old(State()).(sortBy := order)
    {
      sortBy := order;
    }

    /** `getFilteredArtists`: the matching artists, each as often as it is stored,
        sorted by the chosen order. The sort works on the filter's fresh copy, so
        the stored list is not touched (the function reads the store and changes
        nothing). */
    function GetFilteredArtists(nameLe: (string, string) -> bool): (r: seq<Artist>)
      requires TotalPreorder(nameLe)
      reads this
      ensures multiset(r) == multiset(Filter(artists, Matching(searchQuery)))
      ensures forall a :: a in r <==> a in artists && QueryPasses(searchQuery, a)
      ensures Sorted(r, OrderOf(sortBy, nameLe))
      ensures sortBy == ByCreatedAt ==> forall i, j :: 0 <= i < j < |r| ==> r[j].createdAt <= r[i].createdAt
      ensures sortBy == ByName ==> forall i, j :: 0 <= i < j < |r| ==> nameLe(r[i].name, r[j].name)
    {
      var filtered := Filter(artists, Matching(searchQuery));
      var le := OrderOf(sortBy, nameLe);
      OrdersArePreorders(sortBy, nameLe);
      SortBySorted(filtered, le);
      var r := SortBy(filtered, le);
      assert forall a :: a in r <==> a in filtered by {
        forall a ensures a in r <==> a in filtered {
          SortBySameElements(filtered, le, a);
        }
      }
      assert forall i, j :: 0 <= i < j < |r| ==> le(r[i], r[j]);
      r
    }

    /** `getArtistBySlug`: the first record with the slug, if any. */
    function GetArtistBySlug(slug: string): (r: Option<Artist>)
      reads this
      ensures r.None? <==> forall i :: 0 <= i < |artists| ==> artists[i].slug != slug
      ensures r.Some? ==> exists k :: 0 <= k < |artists| && artists[k] == r.value && r.value.slug == slug &&
                                      forall j :: 0 <= j < k ==> artists[j].slug != slug
    {
      Find(artists, WithSlug(slug))
    }

    /** `reset`: back to the state the store started in, sorting by name. */
    method Reset()
      modifies this
      ensures State() == InitialState
    {
      artists := [];
      selectedArtist := None;
      loading := false;
      error := None;
      searchQuery := "";
      sortBy := ByName;
    }
  }
}
