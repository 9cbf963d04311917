/** The exhibition service over the `exhibitions` table: the status derived from the
    dates on `create` and on a date-changing `update`, the listing filters and
    orders of `getAll` and `getByStatus`, and the fallback of
    `getCurrentExhibitionWithPoster`. The clock is the parameter `now`, `new Date`
    on a stored date is the parameter `parse`, and the database's order on the date
    columns is the parameter `dateKey`. */
module Exhibitions {
  import opened Common
  import opened DatabaseTypes
  import opened Sorting
  import opened Utils
  import opened Queries

  /** `ExhibitionFormData`: what `create` is given. */
  datatype ExhibitionData = ExhibitionData(
    title: string,
    artistName: string,
    description: Option<string>,
    startDate: string,
    endDate: string,
    status: Option<ExhibitionStatus>,
    posterImageUrl: Option<string>,
    slug: string)

  /** `ExhibitionUpdateData`: a field that is not sent keeps its stored value. */
  datatype ExhibitionUpdate = ExhibitionUpdate(
    title: Option<string>,
    artistName: Option<string>,
    description: Option<string>,
    startDate: Option<string>,
    endDate: Option<string>,
    status: Option<ExhibitionStatus>,
    posterImageUrl: Option<string>,
    slug: Option<string>)

  /** The `status` search parameter: `'all'` or one status. */
  datatype StatusFilter = AllStatuses | Only(status: ExhibitionStatus)

  /** `ExhibitionSearchData` without the text query; a limit or offset of 0 is falsy
      and is the same as none. */
  datatype ExhibitionSearch = ExhibitionSearch(status: Option<StatusFilter>, limit: nat, offset: nat)

  // ---------------------------------------------------------------------------
  // Rows
  // ---------------------------------------------------------------------------

  function ExhibitionId(e: Exhibition): nat {
    e.id
  }

  function IsExhibition(id: nat): Exhibition -> bool {
    (e: Exhibition) => e.id == id
  }

  function NotExhibition(id: nat): Exhibition -> bool {
    (e: Exhibition) => e.id != id
  }

  /** The status of an exhibition with these dates at `now`. */
  function StatusFor(startDate: string, endDate: string, parse: string -> Instant, now: int): ExhibitionStatus {
    ExhibitionStatusAt(parse(startDate), parse(endDate), now)
  }

  /** The row `create` inserts under `id`: the sent fields, with the status replaced
      by the one the dates give at `now`. */
  function NewExhibition(data: ExhibitionData, parse: string -> Instant, now: int, id: nat): (e: Exhibition)
    ensures e.id == id && e.title == data.title && e.artistName == data.artistName
    ensures e.description == data.description && e.posterImageUrl == data.posterImageUrl && e.slug == data.slug
    ensures e.startDate == data.startDate && e.endDate == data.endDate
    ensures e.status == StatusFor(e.startDate, e.endDate, parse, now) && e.status != Draft
  {
    Exhibition(id, data.title, data.artistName, data.description, data.startDate, data.endDate,
               StatusFor(data.startDate, data.endDate, parse, now), data.posterImageUrl, data.slug)
  }

  /** A status sent to `create` is ignored. */
  lemma CreateIgnoresStatus(data: ExhibitionData, s: Option<ExhibitionStatus>, parse: string -> Instant, now: int, id: nat)
    ensures NewExhibition(data.(status := s), parse, now, id) == NewExhibition(data, parse, now, id)
  {
  }

  /** `if (x)` on an optional string: present and not empty. */
  predicate Truthy(x: Option<string>) {
    x.Some? && x.value != ""
  }

  /** `x || fallback`. */
  function OrElse(x: Option<string>, fallback: string): (r: string)
    ensures Truthy(x) ==> r == x.value
    ensures !Truthy(x) ==> r == fallback
  {
    if Truthy(x) then x.value else fallback
  }

  /** The update `update` actually sends: with a start or an end date, the status
      is recomputed from the new date where given and the stored one otherwise;
      without, the updates go as they are. */
  function EffectiveUpdate(existing: Exhibition, u: ExhibitionUpdate, parse: string -> Instant, now: int): ExhibitionUpdate {
    if Truthy(u.startDate) || Truthy(u.endDate) then
      u.(status := Some(StatusFor(OrElse(u.startDate, existing.startDate), OrElse(u.endDate, existing.endDate), parse, now)))
    else u
  }

  /** A row after an update: the sent fields replace the stored ones. */
  function PatchExhibition(e: Exhibition, u: ExhibitionUpdate): (r: Exhibition)
    ensures r.id == e.id
    ensures u == ExhibitionUpdate(None, None, None, None, None, None, None, None) ==> r == e
    ensures u.startDate.Some? ==> r.startDate == u.startDate.value
    ensures u.startDate.None? ==> r.startDate == e.startDate
    ensures u.endDate.Some? ==> r.endDate == u.endDate.value
    ensures u.endDate.None? ==> r.endDate == e.endDate
    ensures u.status.Some? ==> r.status == u.status.value
    ensures u.status.None? ==> r.status == e.status
  {
    Exhibition(e.id, Pick(u.title, e.title), Pick(u.artistName, e.artistName), PickSome(u.description, e.description),
               Pick(u.startDate, e.startDate), Pick(u.endDate, e.endDate), Pick(u.status, e.status),
               PickSome(u.posterImageUrl, e.posterImageUrl), Pick(u.slug, e.slug))
  }

  function Patched(u: ExhibitionUpdate): Exhibition -> Exhibition {
    (e: Exhibition) => PatchExhibition(e, u)
  }

  /** A date-changing update leaves the row with the status its own dates give at
      the moment of the update (dates sent as empty text aside, which the update
      schema refuses). */
  lemma UpdatedStatusFitsDates(existing: Exhibition, u: ExhibitionUpdate, parse: string -> Instant, now: int)
    requires Truthy(u.startDate) || Truthy(u.endDate)
    requires u.startDate != Some("") && u.endDate != Some("")
    ensures var row := PatchExhibition(existing, EffectiveUpdate(existing, u, parse, now));
            row.status == StatusFor(row.startDate, row.endDate, parse, now) && row.status != Draft
  {
  }

  /** An update without dates keeps the status it is sent, or the stored one. */
  lemma UpdateWithoutDatesKeepsStatus(existing: Exhibition, u: ExhibitionUpdate, parse: string -> Instant, now: int)
    requires !Truthy(u.startDate) && !Truthy(u.endDate)
    ensures PatchExhibition(existing, EffectiveUpdate(existing, u, parse, now)).status ==
            if u.status.Some? then u.status.value else existing.status
  {
  }

  /** A status sent along with a date is overridden. */
  lemma UpdateWithDateOverridesStatus(existing: Exhibition, u: ExhibitionUpdate, parse: string -> Instant, now: int)
    requires Truthy(u.startDate) || Truthy(u.endDate)
    ensures PatchExhibition(existing, EffectiveUpdate(existing, u.(status := Some(Draft)), parse, now)) ==
            PatchExhibition(existing, EffectiveUpdate(existing, u, parse, now))
  {
  }

  // ---------------------------------------------------------------------------
  // Listing
  // ---------------------------------------------------------------------------

  /** The status filter of `getAll`: none for `'all'` or no status. */
  function StatusMatches(f: Option<StatusFilter>): Exhibition -> bool {
    (e: Exhibition) => f.None? || f.value.AllStatuses? || e.status == f.value.status
  }

  function HasStatus(s: ExhibitionStatus): Exhibition -> bool {
    (e: Exhibition) => e.status == s
  }

  /** `order('start_date', { ascending: false })`. */
  function StartDescending(dateKey: string -> int): (Exhibition, Exhibition) -> bool {
    (a: Exhibition, b: Exhibition) => dateKey(a.startDate) >= dateKey(b.startDate)
  }

  /** `order('start_date', { ascending: true })`. */
  function StartAscending(dateKey: string -> int): (Exhibition, Exhibition) -> bool {
    (a: Exhibition, b: Exhibition) => dateKey(a.startDate) <= dateKey(b.startDate)
  }

  lemma KeyOrdersArePreorders(dateKey: string -> int)
    ensures TotalPreorder(StartDescending(dateKey)) && TotalPreorder(StartAscending(dateKey))
  {
    var desc := StartDescending(dateKey);
    var asc := StartAscending(dateKey);
    forall a, b, c | desc(a, b) && desc(b, c) ensures desc(a, c) {
      assert dateKey(a.startDate) >= dateKey(b.startDate) >= dateKey(c.startDate);
    }
    forall a, b, c | asc(a, b) && asc(b, c) ensures asc(a, c) {
      assert dateKey(a.startDate) <= dateKey(b.startDate) <= dateKey(c.startDate);
    }
  }

  class ExhibitionService {
    var rows: seq<Exhibition>
    var nextId: nat

    ghost predicate Valid()
      reads this
    {
      UniqueIds(rows, ExhibitionId) && IdsBelow(rows, ExhibitionId, nextId)
    }

    constructor()
      ensures Valid() && rows == []
    {
      rows := [];
      nextId := 0;
    }

    predicate HasExhibition(id: nat)
      reads this
    {
      exists i :: 0 <= i < |rows| && rows[i].id == id
    }

    /** `getAll` without its text search: the rows that pass the status filter,
        newest start first, cut by `limit` and `offset`. */
    function GetAll(p: ExhibitionSearch, dateKey: string -> int): (r: seq<Exhibition>)
      reads this
      ensures forall i :: 0 <= i < |r| ==> r[i] in rows && StatusMatches(p.status)(r[i])
      ensures Sorted(r, StartDescending(dateKey))
      ensures p.limit == 0 && p.offset == 0 ==> multiset(r) == multiset(Filter(rows, StatusMatches(p.status)))
      ensures (p.status.None? || p.status == Some(AllStatuses)) && p.limit == 0 && p.offset == 0 ==>
                multiset(r) == multiset(rows)
      ensures p.offset == 0 && p.limit > 0 ==> |r| <= p.limit
    {
      KeyOrdersArePreorders(dateKey);
      ListingSorted(rows, StatusMatches(p.status), StartDescending(dateKey), p.limit, p.offset);
      if p.status.None? || p.status == Some(AllStatuses) then
        FilterAll(rows, StatusMatches(p.status));
        Listing(rows, StatusMatches(p.status), StartDescending(dateKey), p.limit, p.offset)
      else
        Listing(rows, StatusMatches(p.status), StartDescending(dateKey), p.limit, p.offset)
    }

    /** `getById` with `.single()`: the row with the id, if any. */
    function GetById(id: nat): (r: Option<Exhibition>)
      reads this
      ensures r.None? <==> !HasExhibition(id)
      ensures r.Some? ==> r.value in rows && r.value.id == id
    {
      Find(rows, IsExhibition(id))
    }

    /** `getByStatus`: the rows with the status; scheduled ones by start date
        ascending, the others descending. */
    function GetByStatus(status: ExhibitionStatus, dateKey: string -> int): (r: seq<Exhibition>)
      reads this
      ensures multiset(r) == multiset(Filter(rows, HasStatus(status)))
      ensures forall e :: e in r <==> e in rows && e.status == status
      ensures status == Scheduled ==> Sorted(r, StartAscending(dateKey))
      ensures status != Scheduled ==> Sorted(r, StartDescending(dateKey))
    {
      var matching := Filter(rows, HasStatus(status));
      KeyOrdersArePreorders(dateKey);
      var order := if status == Scheduled then StartAscending(dateKey) else StartDescending(dateKey);
      SortBySorted(matching, order);
      var r := SortBy(matching, order);
      forall e ensures e in r <==> e in rows && e.status == status {
        SortBySameElements(matching, order, e);
      }
      r
    }

    /** `getCurrentExhibitions`: the live ones. */
    function GetCurrentExhibitions(dateKey: string -> int): (r: seq<Exhibition>)
      reads this
      ensures forall e :: e in r <==> e in rows && e.status == Live
    {
      GetByStatus(Live, dateKey)
    }

    /** `getUpcomingExhibitions`: the scheduled ones, soonest first. */
    function GetUpcomingExhibitions(dateKey: string -> int): (r: seq<Exhibition>)
      reads this
      ensures forall e :: e in r <==> e in rows && e.status == Scheduled
      ensures Sorted(r, StartAscending(dateKey))
    {
      GetByStatus(Scheduled, dateKey)
    }

    /** `getCurrentExhibitionWithPoster`: the live exhibition that started last;
        with none live, the exhibition that ends last; with no rows, nothing. */
    function GetCurrentExhibitionWithPoster(dateKey: string -> int): (r: Option<Exhibition>)
      reads this
      ensures r.Some? ==> r.value in rows
      ensures (exists i :: 0 <= i < |rows| && rows[i].status == Live) ==>
                r.Some? && r.value.status == Live &&
                forall i :: 0 <= i < |rows| && rows[i].status == Live ==>
                  dateKey(rows[i].startDate) <= dateKey(r.value.startDate)
      ensures (forall i :: 0 <= i < |rows| ==> rows[i].status != Live) ==>
                (r.None? <==> rows == []) &&
                (r.Some? ==> forall i :: 0 <= i < |rows| ==> dateKey(rows[i].endDate) <= dateKey(r.value.endDate))
    {
      var live := Filter(rows, HasStatus(Live));
      if live != [] then
        var r := ArgMax(live, (e: Exhibition) => dateKey(e.startDate));
        forall i | 0 <= i < |rows| && rows[i].status == Live
          ensures dateKey(rows[i].startDate) <= dateKey(r.value.startDate)
        {
          assert rows[i] in live;
        }
        r
      else
        ArgMax(rows, (e: Exhibition) => dateKey(e.endDate))
    }

    /** `create`: the row gets the status its dates give at `now`. */
    method Create(data: ExhibitionData, parse: string -> Instant, now: int) returns (row: Exhibition)
      requires Valid()
      modifies this
      ensures Valid()
      ensures row == NewExhibition(data, parse, now, old(nextId))
      ensures rows == old(rows) + [row] && nextId == old(nextId) + 1
    {
      row := NewExhibition(data, parse, now, nextId);
      rows := rows + [row];
      nextId := nextId + 1;
    }

    /** `update`: with a date, the stored row is read first and the status derived
        from the dates; either read fails on an unknown id, which changes nothing. */
    method Update(id: nat, u: ExhibitionUpdate, parse: string -> Instant, now: int) returns (r: Result<Exhibition>)
      requires Valid()
      modifies this
      ensures Valid()
      ensures nextId == old(nextId)
      ensures !old(HasExhibition(id)) ==> r == Err(NoRow) && rows == old(rows)
      ensures old(HasExhibition(id)) ==>
                var existing := Find(old(rows), IsExhibition(id)).value;
                var sent := EffectiveUpdate(existing, u, parse, now);
                rows == MapWhere(old(rows), IsExhibition(id), Patched(sent)) &&
                r == Ok(PatchExhibition(existing, sent)) && r.value in rows
    {
      var found := Find(rows, IsExhibition(id));
      if found.None? {
        assert forall i :: 0 <= i < |rows| ==> !IsExhibition(id)(rows[i]);
        return Err(NoRow);
      }
      var sent := EffectiveUpdate(found.value, u, parse, now);
      ghost var k :| 0 <= k < |rows| && rows[k] == found.value && IsExhibition(id)(rows[k]);
      var row := PatchRows(id, found.value, sent, k);
      r := Ok(row);
    }

    /** The rows with the id get the sent fields; the row at `k` is one of them. */
    method PatchRows(id: nat, existing: Exhibition, sent: ExhibitionUpdate, ghost k: nat) returns (row: Exhibition)
      requires Valid() && k < |rows| && rows[k] == existing && existing.id == id
      modifies this
      ensures Valid() && nextId == old(nextId)
      ensures rows == MapWhere(old(rows), IsExhibition(id), Patched(sent))
      ensures row == PatchExhibition(existing, sent) && row in rows
    {
      row := PatchExhibition(existing, sent);
      MapWhereUpdatesAt(rows, ExhibitionId, nextId, IsExhibition(id), Patched(sent), k);
      rows := MapWhere(rows, IsExhibition(id), Patched(sent));
    }

    /** `delete`. */
    method Delete(id: nat)
      requires Valid()
      modifies this
      ensures Valid()
      ensures rows == Filter(old(rows), NotExhibition(id))
      ensures !HasExhibition(id)
      ensures nextId == old(nextId)
    {
      FilterKeepsUniqueIds(rows, ExhibitionId, NotExhibition(id));
      rows := Filter(rows, NotExhibition(id));
    }
  }
}
