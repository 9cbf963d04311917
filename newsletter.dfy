/** The newsletter subscriber table and its service: subscribing, which refuses an
    address already active and reactivates an inactive one, unsubscribing, the
    lookups and counts, and the admin page's deleting and bulk updates. Every
    lookup by address goes through `.single()`, which yields a row only when
    exactly one row matches. */
module Newsletter {
  import opened Common
  import opened DatabaseTypes
  import opened Sorting

  /** The error `subscribe` raises for an address that is already active. */
  const AlreadySubscribed: string := "이미 구독 중인 이메일입니다."

  function SubscriberId(s: Subscriber): nat {
    s.id
  }

  function HasEmail(email: string): Subscriber -> bool {
    (s: Subscriber) => s.email == email
  }

  function IsActive(s: Subscriber): bool {
    s.isActive
  }

  function IsInactive(s: Subscriber): bool {
    !s.isActive
  }

  function NotSubscriber(id: nat): Subscriber -> bool {
    (s: Subscriber) => s.id != id
  }

  function Listed(ids: seq<nat>): Subscriber -> bool {
    (s: Subscriber) => s.id in ids
  }

  /** Whether no two rows share an address. Nothing in the service enforces it;
      `subscribe` keeps it. */
  predicate UniqueEmails(rows: seq<Subscriber>) {
    forall i, j :: 0 <= i < |rows| && 0 <= j < |rows| && rows[i].email == rows[j].email ==> i == j
  }

  /** With distinct addresses, the `.single()` lookup finds the address's row
      whenever there is one. */
  lemma SingleByEmail(rows: seq<Subscriber>, email: string)
    requires UniqueEmails(rows)
    ensures Single(rows, HasEmail(email)) == Find(rows, HasEmail(email))
  {
    var found := Find(rows, HasEmail(email));
    if found.None? {
      FilterNone(rows, HasEmail(email));
    } else {
      var k :| 0 <= k < |rows| && rows[k] == found.value && HasEmail(email)(rows[k]);
      FilterOnly(rows, HasEmail(email), k);
    }
  }

  /** `isSubscribed` on a table: false when the lookup fails (no row, or several
      rows for the address), otherwise the row's flag. */
  function SubscribedIn(rows: seq<Subscriber>, email: string): (r: bool)
    ensures r ==> exists i :: 0 <= i < |rows| && rows[i].email == email && rows[i].isActive
    ensures |Filter(rows, HasEmail(email))| != 1 ==> !r
    ensures UniqueEmails(rows) ==>
              (r <==> exists i :: 0 <= i < |rows| && rows[i].email == email && rows[i].isActive)
  {
    var found := Single(rows, HasEmail(email));
    if UniqueEmails(rows) then
      SingleByEmail(rows, email);
      found.Some? && found.value.isActive
    else
      found.Some? && found.value.isActive
  }

  /** Reactivating the one row of an address keeps addresses distinct and leaves
      the address subscribed. */
  lemma ReactivateSubscribes(rows: seq<Subscriber>, email: string, now: int)
    requires UniqueEmails(rows) && Single(rows, HasEmail(email)).Some?
    ensures var after := MapWhere(rows, HasEmail(email), Reactivated(now));
            UniqueEmails(after) && SubscribedIn(after, email)
  {
    var after := MapWhere(rows, HasEmail(email), Reactivated(now));
    var k :| 0 <= k < |rows| && rows[k] == Single(rows, HasEmail(email)).value;
    forall i, j | 0 <= i < |after| && 0 <= j < |after| && after[i].email == after[j].email ensures i == j {
      assert after[i].email == rows[i].email && after[j].email == rows[j].email;
    }
    assert UniqueEmails(after);
    assert after[k].email == email && after[k].isActive;
    assert SubscribedIn(after, email);
  }

  /** An address whose one row is active is subscribed. */
  lemma ActiveSubscribed(rows: seq<Subscriber>, email: string)
    requires UniqueEmails(rows)
    requires Single(rows, HasEmail(email)).Some? && Single(rows, HasEmail(email)).value.isActive
    ensures SubscribedIn(rows, email)
  {
    var k :| 0 <= k < |rows| && rows[k] == Single(rows, HasEmail(email)).value;
    assert rows[k].email == email && rows[k].isActive;
  }

  /** Adding an active row for an address without one keeps addresses distinct
      and leaves the address subscribed. */
  lemma InsertSubscribes(rows: seq<Subscriber>, row: Subscriber)
    requires UniqueEmails(rows) && Single(rows, HasEmail(row.email)).None? && row.isActive
    ensures UniqueEmails(rows + [row]) && SubscribedIn(rows + [row], row.email)
  {
    SingleByEmail(rows, row.email);
    var after := rows + [row];
    assert forall i :: 0 <= i < |rows| ==> after[i] == rows[i] && rows[i].email != row.email;
    assert after[|rows|] == row;
  }

  /** The reactivating update: active again, subscribed now. */
  function Reactivated(now: int): Subscriber -> Subscriber {
    (s: Subscriber) => s.(isActive := true, subscribedAt := now)
  }

  /** The reactivation branch of `subscribe` keeps the table's ids, holds the
      reactivated row, and with distinct addresses leaves the address subscribed. */
  lemma ReactivateKeepsTable(rows: seq<Subscriber>, nextId: nat, email: string, now: int)
    requires UniqueIds(rows, SubscriberId) && IdsBelow(rows, SubscriberId, nextId)
    requires Single(rows, HasEmail(email)).Some?
    ensures var after := MapWhere(rows, HasEmail(email), Reactivated(now));
            UniqueIds(after, SubscriberId) && IdsBelow(after, SubscriberId, nextId) &&
            Reactivated(now)(Single(rows, HasEmail(email)).value) in after &&
            (UniqueEmails(rows) ==> UniqueEmails(after) && SubscribedIn(after, email))
  {
    var after := MapWhere(rows, HasEmail(email), Reactivated(now));
    var k :| 0 <= k < |rows| && rows[k] == Single(rows, HasEmail(email)).value;
    assert after[k] == Reactivated(now)(rows[k]);
    MapWhereKeepsIds(rows, SubscriberId, nextId, HasEmail(email), Reactivated(now));
    if UniqueEmails(rows) {
      ReactivateSubscribes(rows, email, now);
    }
  }

  /** The insertion branch of `subscribe` keeps the table's ids and, with distinct
      addresses, leaves the address subscribed. */
  lemma InsertKeepsTable(rows: seq<Subscriber>, nextId: nat, row: Subscriber)
    requires UniqueIds(rows, SubscriberId) && IdsBelow(rows, SubscriberId, nextId)
    requires row.id == nextId && row.isActive && Single(rows, HasEmail(row.email)).None?
    ensures UniqueIds(rows + [row], SubscriberId) && IdsBelow(rows + [row], SubscriberId, nextId + 1)
    ensures row in rows + [row]
    ensures UniqueEmails(rows) ==> UniqueEmails(rows + [row]) && SubscribedIn(rows + [row], row.email)
  {
    var after := rows + [row];
    assert after[|rows|] == row;
    assert forall i :: 0 <= i < |rows| ==> after[i] == rows[i];
    if UniqueEmails(rows) {
      InsertSubscribes(rows, row);
    }
  }

  /** The rows after `unsubscribe(email)`: the address's rows inactive, every
      other field and every other row as it was. */
  function Deactivated(rows: seq<Subscriber>, email: string): (r: seq<Subscriber>)
    ensures |r| == |rows|
    ensures forall i :: 0 <= i < |r| ==>
              r[i].id == rows[i].id && r[i].email == rows[i].email && r[i].subscribedAt == rows[i].subscribedAt &&
              (r[i].isActive <==> rows[i].isActive && rows[i].email != email)
  {
    MapWhere(rows, HasEmail(email), (s: Subscriber) => s.(isActive := false))
  }

  /** Unsubscribing twice is unsubscribing once. */
  lemma DeactivatedIdempotent(rows: seq<Subscriber>, email: string)
    ensures Deactivated(Deactivated(rows, email), email) == Deactivated(rows, email)
  {
    var once := Deactivated(rows, email);
    var twice := Deactivated(once, email);
    assert |twice| == |once|;
    forall i | 0 <= i < |once| ensures twice[i] == once[i] {
    }
  }

  /** The fields `bulkUpdate` may set; the id is not among them. */
  datatype SubscriberPatch = SubscriberPatch(email: Option<string>, subscribedAt: Option<int>, isActive: Option<bool>)

  function PatchSubscriber(u: SubscriberPatch): Subscriber -> Subscriber {
    (s: Subscriber) =>
      Subscriber(s.id,
                 if u.email.Some? then u.email.value else s.email,
                 if u.subscribedAt.Some? then u.subscribedAt.value else s.subscribedAt,
                 if u.isActive.Some? then u.isActive.value else s.isActive)
  }

  /** Newest subscription first. */
  function Newest(a: Subscriber, b: Subscriber): bool {
    a.subscribedAt >= b.subscribedAt
  }

  lemma NewestIsTotalPreorder()
    ensures TotalPreorder(Newest)
  {
  }

  /** `getStats` without its count of recent subscriptions. */
  datatype Stats = Stats(total: nat, active: nat, inactive: int)

  class NewsletterService {
    var rows: seq<Subscriber>
    var nextId: nat

    ghost predicate Valid()
      reads this
    {
      UniqueIds(rows, SubscriberId) && IdsBelow(rows, SubscriberId, nextId)
    }

    constructor()
      ensures Valid() && rows == [] && nextId == 0
    {
      rows := [];
      nextId := 0;
    }

    /** `isSubscribed`. */
    function IsSubscribed(email: string): bool
      reads this
    {
      SubscribedIn(rows, email)
    }

    /** `subscribe`: an active address is refused and nothing changes; an inactive
        one is reactivated in place; an address without a row gets a new active
        row, subscribed now. Afterwards, if addresses were distinct they still
        are, and the address counts as subscribed. */
    method Subscribe(email: string, now: int) returns (r: Result<Subscriber>)
      requires Valid()
      modifies this
      ensures Valid()
      ensures var existing := Single(old(rows), HasEmail(email));
              existing.Some? && existing.value.isActive ==>
                r == Err(AlreadySubscribed) && rows == old(rows) && nextId == old(nextId)
      ensures var existing := Single(old(rows), HasEmail(email));
              existing.Some? && !existing.value.isActive ==>
                rows == MapWhere(old(rows), HasEmail(email), Reactivated(now)) && nextId == old(nextId) &&
                r == Ok(Reactivated(now)(existing.value))
      ensures Single(old(rows), HasEmail(email)).None? ==>
                r == Ok(Subscriber(old(nextId), email, now, true)) && rows == old(rows) + [r.value] &&
                nextId == old(nextId) + 1
      ensures r.Ok? ==> r.value.email == email && r.value.isActive && r.value in rows
      ensures UniqueEmails(old(rows)) ==> UniqueEmails(rows) && SubscribedIn(rows, email)
    {
      var existing := Single(rows, HasEmail(email));
      if existing.Some? {
        if existing.value.isActive {
          if UniqueEmails(rows) {
            ActiveSubscribed(rows, email);
          }
          return Err(AlreadySubscribed);
        }
        ReactivateKeepsTable(rows, nextId, email, now);
        rows := MapWhere(rows, HasEmail(email), Reactivated(now));
        r := Ok(Reactivated(now)(existing.value));
        return;
      }
      var row := Subscriber(nextId, email, now, true);
      InsertKeepsTable(rows, nextId, row);
      rows := rows + [row];
      nextId := nextId + 1;
      r := Ok(row);
    }

    /** `unsubscribe`: the address's rows become inactive; no row is removed.
        Afterwards the address does not count as subscribed. */
    method Unsubscribe(email: string)
      requires Valid()
      modifies this
      ensures Valid()
      ensures rows == Deactivated(old(rows), email) && nextId == old(nextId)
      ensures UniqueEmails(old(rows)) ==> UniqueEmails(rows)
      ensures !SubscribedIn(rows, email)
    {
      rows := Deactivated(rows, email);
    }

    /** `getAll`: every row, newest subscription first. */
    function GetAll(): (r: seq<Subscriber>)
      reads this
      ensures multiset(r) == multiset(rows)
      ensures Sorted(r, Newest)
    {
      NewestIsTotalPreorder();
      SortBySorted(rows, Newest);
      SortBy(rows, Newest)
    }

    /** `getActive`: the active rows, newest subscription first. */
    function GetActive(): (r: seq<Subscriber>)
      reads this
      ensures multiset(r) == multiset(Filter(rows, IsActive))
      ensures forall s :: s in r <==> s in rows && s.isActive
      ensures Sorted(r, Newest)
    {
      var active := Filter(rows, IsActive);
      NewestIsTotalPreorder();
      SortBySorted(active, Newest);
      forall s ensures s in SortBy(active, Newest) <==> s in rows && s.isActive {
        SortBySameElements(active, Newest, s);
      }
      SortBy(active, Newest)
    }

    /** `exportSubscribers(activeOnly)`, whose default is the active rows only. */
    function ExportSubscribers(activeOnly: bool): (r: seq<Subscriber>)
      reads this
      ensures forall s :: s in r <==> s in rows && (activeOnly ==> s.isActive)
      ensures activeOnly ==> multiset(r) == multiset(Filter(rows, IsActive))
      ensures !activeOnly ==> multiset(r) == multiset(rows)
      ensures Sorted(r, Newest)
    {
      if activeOnly then GetActive()
      else
        var r := GetAll();
        assert forall s :: s in r <==> s in multiset(rows);
        r
    }

    /** `getStats`: the inactive count is the total less the active count, which
        is the number of inactive rows. */
    function GetStats(): (s: Stats)
      reads this
      ensures s.total == |rows| && s.active == Count(rows, IsActive)
      ensures s.inactive == Count(rows, IsInactive)
    {
      var total := |rows|;
      var active := Count(rows, IsActive);
      CountSplit(rows, IsActive, IsInactive);
      Stats(total, active, total - active)
    }

    /** `delete(id)`. */
    method Delete(id: nat)
      requires Valid()
      modifies this
      ensures Valid()
      ensures rows == Filter(old(rows), NotSubscriber(id)) && nextId == old(nextId)
      ensures forall i :: 0 <= i < |rows| ==> rows[i].id != id
    {
      FilterKeepsUniqueIds(rows, SubscriberId, NotSubscriber(id));
      rows := Filter(rows, NotSubscriber(id));
    }

    /** `bulkUpdate(ids, updates)`: the same fields set on exactly the listed rows. */
    method BulkUpdate(ids: seq<nat>, u: SubscriberPatch)
      requires Valid()
      modifies this
      ensures Valid()
      ensures rows == MapWhere(old(rows), Listed(ids), PatchSubscriber(u)) && nextId == old(nextId)
      ensures forall i :: 0 <= i < |rows| ==>
                (old(rows)[i].id in ids ==> rows[i] == PatchSubscriber(u)(old(rows)[i])) &&
                (old(rows)[i].id !in ids ==> rows[i] == old(rows)[i])
    {
      MapWhereKeepsIds(rows, SubscriberId, nextId, Listed(ids), PatchSubscriber(u));
      rows := MapWhere(rows, Listed(ids), PatchSubscriber(u));
    }
  }
}
