/** The user service of backend/src/services/user.service.ts over an abstract user
    table. The relational store behind the ORM becomes a map from id to record plus
    the next id the store will hand out; the table's uniqueness constraint on `email`
    is kept, and violating it raises the store's known error P2002.

    The pure functions below specify the service; the class `UserStore` holds the
    table and its methods are proved against them. */
module UserService {
  import opened Types
  import opened Http

  const UserNotFound := "Usuario no encontrado"
  const NotFoundStatus := 404

  /** A stand-in for the `meta` the store attaches to a unique-constraint violation.
      Only its presence matters here: the error handler passes it on unchanged. */
  const EmailConflictMeta := Some(JObj([("target", JArr([JStr("email")]))]))

  // ----- The table -----

  /** What every state of the table satisfies. */
  ghost predicate TableInvariant(users: map<int, User>, nextId: int)
  {
    WellFormed(users, nextId) && UniqueEmails(users)
  }

  /** Records are keyed by their own id, and every id lies below the next free one.
      Ids start at 1, as an auto-increment key does. */
  ghost predicate WellFormed(users: map<int, User>, nextId: int)
  {
    nextId >= 1 && forall id :: id in users ==> 1 <= id < nextId && users[id].id == id
  }

  /** The store's uniqueness constraint on `email`. */
  ghost predicate UniqueEmails(users: map<int, User>)
  {
    forall a, b :: a in users && b in users && a != b ==> users[a].email != users[b].email
  }

  /** The ids of the records whose email is `email`. */
  function EmailOwners(users: map<int, User>, email: string): set<int>
  {
    set id | id in users && users[id].email == email
  }

  // ----- Reading in id order -----

  /** The ids of `keys` in [lo, hi), ascending. */
  function IdsBetween(keys: set<int>, lo: int, hi: int): (r: seq<int>)
    decreases hi - lo
    ensures forall i :: 0 <= i < |r| ==> lo <= r[i] < hi
    ensures forall i, j :: 0 <= i < j < |r| ==> r[i] < r[j]
    ensures forall id :: id in r <==> id in keys && lo <= id < hi
  {
    if lo >= hi then []
    else (if lo in keys then [lo] else []) + IdsBetween(keys, lo + 1, hi)
  }

  /** All records in ascending id order (`orderBy: {id: "asc"}`). */
  function Ordered(users: map<int, User>, nextId: int): (r: seq<User>)
    ensures |r| == |IdsBetween(users.Keys, 1, nextId)|
    ensures forall i :: 0 <= i < |r| ==> r[i] == users[IdsBetween(users.Keys, 1, nextId)[i]]
  {
    var ids := IdsBetween(users.Keys, 1, nextId);
    seq(|ids|, i requires 0 <= i < |ids| => users[ids[i]])
  }

  function Min(a: int, b: int): int { if a <= b then a else b }

  /** `skip`/`take` on an ordered result: the records at positions [skip, skip + take). */
  function Window(all: seq<User>, skip: nat, take: nat): (r: seq<User>)
    ensures |r| <= take
    ensures |r| == (if skip >= |all| then 0 else Min(take, |all| - skip))
    ensures forall i :: 0 <= i < |r| ==> skip + i < |all| && r[i] == all[skip + i]
  {
    if skip >= |all| then [] else all[skip..Min(skip + take, |all|)]
  }

  /** `Math.ceil(total / size)` on integers. */
  function CeilDiv(total: nat, size: int): nat
    requires size >= 1
  {
    (total + size - 1) / size
  }

  /** `CeilDiv` is the ceiling: the fewest pages of `size` records that hold `total`. */
  lemma CeilDivIsCeiling(total: nat, size: int)
    requires size >= 1
    ensures CeilDiv(total, size) * size >= total
    ensures CeilDiv(total, size) > 0 ==> (CeilDiv(total, size) - 1) * size < total
  {
    var q, r := (total + size - 1) / size, (total + size - 1) % size;
    assert total + size - 1 == q * size + r && 0 <= r < size;
    if q > 0 {
      assert (q - 1) * size == q * size - size;
    }
  }

  /** The number of records skipped before page `page`. */
  function Offset(page: int, pageSize: int): nat
    requires page >= 1 && pageSize >= 1
  {
    MulNonNegative(page - 1, pageSize);
    (page - 1) * pageSize
  }

  lemma MulNonNegative(a: int, b: int)
    requires a >= 0 && b >= 0
    ensures a * b >= 0
  {
  }

  lemma MulMonotone(a: int, b: int, c: int)
    requires a <= b && c >= 0
    ensures a * c <= b * c
  {
    MulNonNegative(b - a, c);
  }

  /** The reply of `list(page, pageSize)` on a table. */
  function ListPage(users: map<int, User>, nextId: int, page: int, pageSize: int): PaginatedUsers
    requires page >= 1 && pageSize >= 1
  {
    PaginatedUsers(Window(Ordered(users, nextId), Offset(page, pageSize), pageSize),
                   |users|, page, pageSize, CeilDiv(|users|, pageSize))
  }

  /** A strictly ascending sequence has as many elements as it has distinct values. */
  lemma {:induction false} AscendingCard(r: seq<int>)
    requires forall i, j :: 0 <= i < j < |r| ==> r[i] < r[j]
    ensures |set x | x in r| == |r|
  {
    if r != [] {
      AscendingCard(r[1..]);
      assert (set x | x in r) == {r[0]} + (set x | x in r[1..]);
      assert r[0] !in (set x | x in r[1..]);
    }
  }

  /** On a well-formed table the ordered listing holds every record exactly once. */
  lemma OrderedHoldsAll(users: map<int, User>, nextId: int)
    requires WellFormed(users, nextId)
    ensures |Ordered(users, nextId)| == |users|
    ensures forall id :: id in users ==> exists k :: 0 <= k < |users| && Ordered(users, nextId)[k] == users[id]
  {
    var ids := IdsBetween(users.Keys, 1, nextId);
    AscendingCard(ids);
    assert (set x | x in ids) == users.Keys;
    forall id | id in users
      ensures exists k :: 0 <= k < |users| && Ordered(users, nextId)[k] == users[id]
    {
      var k :| 0 <= k < |ids| && ids[k] == id;
      assert Ordered(users, nextId)[k] == users[id];
    }
  }

  /** The records of a page are those at positions [Offset, Offset + pageSize) of the
      ascending-id order, and there are at most `pageSize` of them. */
  lemma ListPageWindow(users: map<int, User>, nextId: int, page: int, pageSize: int)
    requires WellFormed(users, nextId) && page >= 1 && pageSize >= 1
    ensures |ListPage(users, nextId, page, pageSize).data| <= pageSize
    ensures forall i :: 0 <= i < |ListPage(users, nextId, page, pageSize).data| ==>
              && Offset(page, pageSize) + i < |users|
              && ListPage(users, nextId, page, pageSize).data[i] == Ordered(users, nextId)[Offset(page, pageSize) + i]
  {
    OrderedHoldsAll(users, nextId);
  }

  /** The ordered listing is sorted by id, and each of its elements is the stored
      record under its own id. */
  lemma OrderedAscending(users: map<int, User>, nextId: int)
    requires WellFormed(users, nextId)
    ensures AscendingIds(Ordered(users, nextId)) && Stored(users, Ordered(users, nextId))
  {
    var ids := IdsBetween(users.Keys, 1, nextId);
    var all := Ordered(users, nextId);
    forall i | 0 <= i < |all| ensures all[i].id == ids[i] && ids[i] in users {
      assert ids[i] in ids;
    }
  }

  /** Ids strictly ascend along a sequence of records. */
  predicate AscendingIds(s: seq<User>)
  {
    forall i, j :: 0 <= i < j < |s| ==> s[i].id < s[j].id
  }

  /** Each element is the stored record under its own id. */
  ghost predicate Stored(users: map<int, User>, s: seq<User>)
  {
    forall i :: 0 <= i < |s| ==> s[i].id in users && users[s[i].id] == s[i]
  }

  lemma WindowKeeps(users: map<int, User>, all: seq<User>, skip: nat, take: nat)
    requires AscendingIds(all) && Stored(users, all)
    ensures AscendingIds(Window(all, skip, take)) && Stored(users, Window(all, skip, take))
  {
    var d := Window(all, skip, take);
    forall i, j | 0 <= i < j < |d| ensures d[i].id < d[j].id {
      assert d[i] == all[skip + i] && d[j] == all[skip + j];
    }
    forall i | 0 <= i < |d| ensures d[i].id in users && users[d[i].id] == d[i] {
      assert d[i] == all[skip + i];
    }
  }

  /** Within a page, ids ascend, and every record shown is the stored one. */
  lemma ListPageAscending(users: map<int, User>, nextId: int, page: int, pageSize: int)
    requires WellFormed(users, nextId) && page >= 1 && pageSize >= 1
    ensures AscendingIds(ListPage(users, nextId, page, pageSize).data)
    ensures Stored(users, ListPage(users, nextId, page, pageSize).data)
  {
    OrderedAscending(users, nextId);
    WindowKeeps(users, Ordered(users, nextId), Offset(page, pageSize), pageSize);
  }

  /** The counters of the reply: `total` is the record count, `totalPages` the
      ceiling of `total / pageSize`, and `page` and `pageSize` are echoed. */
  lemma ListPageCounters(users: map<int, User>, nextId: int, page: int, pageSize: int)
    requires WellFormed(users, nextId) && page >= 1 && pageSize >= 1
    ensures var r := ListPage(users, nextId, page, pageSize);
      && r.total == |users| && r.page == page && r.pageSize == pageSize
      && r.totalPages * pageSize >= r.total
      && (r.totalPages > 0 ==> (r.totalPages - 1) * pageSize < r.total)
      && (r.totalPages == 0 <==> r.total == 0)
  {
    CeilDivIsCeiling(|users|, pageSize);
  }

  /** Pages partition the table: the record at position (page-1)*pageSize + j of the
      id order is shown in slot j of page `page`, and that page is within
      [1, totalPages]. */
  lemma RecordOnItsPage(users: map<int, User>, nextId: int, pageSize: int, page: int, j: int)
    requires WellFormed(users, nextId) && pageSize >= 1 && page >= 1 && 0 <= j < pageSize
    requires Offset(page, pageSize) + j < |users|
    ensures page <= ListPage(users, nextId, page, pageSize).totalPages
    ensures j < |ListPage(users, nextId, page, pageSize).data|
    ensures ListPage(users, nextId, page, pageSize).data[j] == Ordered(users, nextId)[Offset(page, pageSize) + j]
  {
    OrderedHoldsAll(users, nextId);
    ListPageWindow(users, nextId, page, pageSize);
    PageBeforeCount(|users|, pageSize, page);
  }

  /** A page whose offset is inside the table is among the counted pages. */
  lemma PageBeforeCount(total: nat, pageSize: int, page: int)
    requires pageSize >= 1 && page >= 1 && Offset(page, pageSize) < total
    ensures page <= CeilDiv(total, pageSize)
  {
    CeilDivIsCeiling(total, pageSize);
    var tp := CeilDiv(total, pageSize);
    if tp < page {
      MulMonotone(tp, page - 1, pageSize);
      assert false;
    }
  }

  // ----- Single-record operations -----

  /** `getById`: the record, or the 404 application error. */
  function Lookup(users: map<int, User>, id: int): (r: Result<User, Error>)
    ensures r.Ok? <==> id in users
    ensures r.Ok? ==> r.value == users[id]
    ensures r.Err? ==> r.error == AppError(UserNotFound, NotFoundStatus, None)
  {
    if id in users then Ok(users[id]) else Err(AppError(UserNotFound, NotFoundStatus, None))
  }

  /** `payload.age ?? null`. */
  function AgeOrNull(a: Nullable<int>): Option<int>
  {
    if a.Value? then Some(a.v) else None
  }

  /** `create(payload)` on a table whose next id is `nextId`: the new record, a P2002
      conflict when the email is taken, or a store rejection when a required column
      is missing (the `!` assertions are erased at run time). */
  function CreateOutcome(users: map<int, User>, nextId: int, p: UserPayload): (r: Result<User, Error>)
    ensures r.Ok? <==> p.name.Some? && p.email.Some? && EmailOwners(users, p.email.value) == {}
    ensures r.Ok? ==> r.value == User(nextId, p.name.value, p.email.value, AgeOrNull(p.age))
    ensures r.Ok? ==> (p.age.Undefined? || p.age.Null?) == r.value.age.None?
    ensures p.name.Some? && p.email.Some? && EmailOwners(users, p.email.value) != {}
            ==> r == Err(PrismaKnown("P2002", EmailConflictMeta))
  {
    if p.name.None? || p.email.None? then Err(Other)
    else if EmailOwners(users, p.email.value) != {} then Err(PrismaKnown("P2002", EmailConflictMeta))
    else Ok(User(nextId, p.name.value, p.email.value, AgeOrNull(p.age)))
  }

  /** The field-by-field merge of `update`: a field left undefined keeps its value, a
      present field replaces it, an explicit `age: null` clears the age; the id stays. */
  function Merge(u: User, p: UserPayload): (r: User)
    ensures r.id == u.id
    ensures r.name == (if p.name.Some? then p.name.value else u.name)
    ensures r.email == (if p.email.Some? then p.email.value else u.email)
    ensures r.age == (match p.age case Undefined => u.age case Null => None case Value(v) => Some(v))
  {
    User(u.id,
         if p.name.Some? then p.name.value else u.name,
         if p.email.Some? then p.email.value else u.email,
         if p.age.Undefined? then u.age else AgeOrNull(p.age))
  }

  /** Merging is idempotent, and merging an empty payload changes nothing. */
  lemma MergeLaws(u: User, p: UserPayload)
    ensures Merge(Merge(u, p), p) == Merge(u, p)
    ensures Merge(u, UserPayload(None, None, Undefined)) == u
  {
  }

  /** `update(id, payload)`: 404 when the record is absent, P2002 when the new email
      belongs to another record, otherwise the merged record. */
  function UpdateOutcome(users: map<int, User>, id: int, p: UserPayload): (r: Result<User, Error>)
    ensures id !in users ==> r == Err(AppError(UserNotFound, NotFoundStatus, None))
    ensures r.Ok? <==> id in users && (p.email.Some? ==> EmailOwners(users, p.email.value) <= {id})
    ensures r.Ok? ==> r.value == Merge(users[id], p)
    ensures id in users && r.Err? ==> r == Err(PrismaKnown("P2002", EmailConflictMeta))
  {
    if id !in users then Err(AppError(UserNotFound, NotFoundStatus, None))
    else if p.email.Some? && EmailOwners(users, p.email.value) - {id} != {} then Err(PrismaKnown("P2002", EmailConflictMeta))
    else Ok(Merge(users[id], p))
  }

  /** A successful create allocates an id no record has, and a later `getById` of that
      id returns exactly the created record. */
  lemma CreateThenGet(users: map<int, User>, nextId: int, p: UserPayload)
    requires WellFormed(users, nextId)
    requires CreateOutcome(users, nextId, p).Ok?
    ensures var u := CreateOutcome(users, nextId, p).value;
      && u.id !in users && Lookup(users[u.id := u], u.id) == Ok(u)
      && forall k :: k != u.id ==> Lookup(users[u.id := u], k) == Lookup(users, k)
  {
  }

  /** After a delete, `getById` of the deleted id fails with 404 and the other
      records are still found. */
  lemma RemoveThenGet(users: map<int, User>, id: int, other: int)
    requires id in users && other != id
    ensures Lookup(users - {id}, id) == Err(AppError(UserNotFound, NotFoundStatus, None))
    ensures Lookup(users - {id}, other) == Lookup(users, other)
  {
  }

  // ----- The table as the service's shared state -----

  class UserStore {
    var users: map<int, User>
    var nextId: int

    ghost predicate Valid()
      reads this
    {
      TableInvariant(users, nextId)
    }

    constructor ()
      ensures Valid() && users == map[] && nextId == 1
    {
      users := map[];
      nextId := 1;
    }

    /** `list(page, pageSize)`. The page and the count are two reads of the same
        table (no write can come between them in this model). */
    method List(page: int, pageSize: int) returns (r: PaginatedUsers)
      requires Valid() && page >= 1 && pageSize >= 1
      ensures r == ListPage(users, nextId, page, pageSize)
      ensures |r.data| <= pageSize && r.total == |users|
    {
      var skip := (page - 1) * pageSize;
      var data := Window(Ordered(users, nextId), skip, pageSize);
      var total := |users|;
      r := PaginatedUsers(data, total, page, pageSize, CeilDiv(total, pageSize));
    }

    /** `getById(id)`. */
    method GetById(id: int) returns (r: Result<User, Error>)
      ensures r == Lookup(users, id)
    {
      if id in users {
        r := Ok(users[id]);
      } else {
        r := Err(AppError(UserNotFound, NotFoundStatus, None));
      }
    }

    /** `create(payload)`: on success exactly one record is added, under a fresh id. */
    method Create(p: UserPayload) returns (r: Result<User, Error>)
      requires Valid()
      modifies this
      ensures Valid()
      ensures r == CreateOutcome(old(users), old(nextId), p)
      ensures r.Ok? ==> r.value.id !in old(users) && users == old(users)[r.value.id := r.value]
      ensures r.Err? ==> users == old(users)
      ensures nextId == if r.Ok? then old(nextId) + 1 else old(nextId)
    {
      r := CreateOutcome(users, nextId, p);
      if r.Ok? {
        forall a | a in users ensures users[a].email != r.value.email {
          assert a !in EmailOwners(users, r.value.email);
        }
        users := users[nextId := r.value];
        nextId := nextId + 1;
      }
    }

    /** `update(id, payload)`: first the existence check shared with `getById`, then
        the merge of the present fields into that one record. */
    method Update(id: int, p: UserPayload) returns (r: Result<User, Error>)
      requires Valid()
      modifies this
      ensures Valid() && nextId == old(nextId)
      ensures r == UpdateOutcome(old(users), id, p)
      ensures r.Ok? ==> users == old(users)[id := r.value]
      ensures r.Err? ==> users == old(users)
    {
      var found := GetById(id);
      if found.Err? {
        r := Err(found.error);
        return;
      }
      r := UpdateOutcome(users, id, p);
      if r.Ok? {
        forall a | a in users && a != id ensures users[a].email != r.value.email {
          if p.email.Some? {
            assert a !in EmailOwners(users, p.email.value);
          }
        }
        users := users[id := r.value];
      }
    }

    /** `remove(id)`: the existence check, then the delete of exactly that record. */
    method Remove(id: int) returns (r: Result<(), Error>)
      requires Valid()
      modifies this
      ensures Valid() && nextId == old(nextId)
      ensures r.Ok? <==> id in old(users)
      ensures r.Ok? ==> users == old(users) - {id}
      ensures r.Err? ==> r.error == AppError(UserNotFound, NotFoundStatus, None) && users == old(users)
    {
      var found := GetById(id);
      if found.Err? {
        r := Err(found.error);
        return;
      }
      users := users - {id};
      r := Ok(());
    }
  }
}
