/**
 * The tenant store (src/services/database/company.service.ts): a table of
 * companies keyed by id, with a unique handle, read by id, handle and access
 * token, listed newest first, and written by upsert, partial update and
 * delete. The database connection either works or does not (`available`);
 * when it does not, every call fails.
 *
 * The Prisma schema is not part of this model. The store follows how the
 * code uses it: `id` is the primary key, `handle` is unique (it is looked up
 * with `findUnique`), `createdAt` is set when a record is created and
 * `updatedAt` whenever it is written; the clock is the parameter `now`.
 */
module CompanyDB {
  import opened Wrappers

  /** A stored company. Dates are milliseconds since the epoch. */
  datatype Company = Company(
    id: string,
    handle: Option<string>,
    name: string,
    description: Option<string>,
    logoUrl: Option<string>,
    authorizationCode: Option<string>,
    accessToken: Option<string>,
    refreshToken: Option<string>,
    tokenExpiresAt: Option<int>,
    phone: Option<string>,
    createdAt: int,
    updatedAt: int)

  /** The `CompanyData` interface: every field a caller supplies. */
  datatype CompanyData = CompanyData(
    id: string,
    handle: Option<string>,
    name: string,
    description: Option<string>,
    logoUrl: Option<string>,
    authorizationCode: Option<string>,
    accessToken: Option<string>,
    refreshToken: Option<string>,
    tokenExpiresAt: Option<int>,
    phone: Option<string>)

  /** `Partial<CompanyData>` without `id`: `None` is a property left out of the object. */
  datatype Patch = Patch(
    handle: Option<Option<string>>,
    name: Option<string>,
    description: Option<Option<string>>,
    logoUrl: Option<Option<string>>,
    authorizationCode: Option<Option<string>>,
    accessToken: Option<Option<string>>,
    refreshToken: Option<Option<string>>,
    tokenExpiresAt: Option<Option<int>>,
    phone: Option<Option<string>>)

  /** The error a call gets when the database cannot be reached. */
  const DB_UNAVAILABLE: string := "Can't reach database server"
  /** The error for a unique constraint on `handle` that a write would break. */
  const HANDLE_TAKEN: string := "Unique constraint failed on the fields: (`handle`)"
  /** The error for an update or delete of an id that is not stored. */
  const RECORD_NOT_FOUND: string := "Record to update or delete does not exist"

  /** The caller-supplied part of a stored record. */
  function Data(c: Company): CompanyData {
    CompanyData(c.id, c.handle, c.name, c.description, c.logoUrl, c.authorizationCode,
                c.accessToken, c.refreshToken, c.tokenExpiresAt, c.phone)
  }

  /** `create: data` */
  function Created(d: CompanyData, now: int): (c: Company)
    ensures c.createdAt == now && c.updatedAt == now
  {
    Company(d.id, d.handle, d.name, d.description, d.logoUrl, d.authorizationCode,
            d.accessToken, d.refreshToken, d.tokenExpiresAt, d.phone, now, now)
  }

  /** `update: {handle, name, …, phone}`: every field but `id` and `createdAt` is rewritten. */
  function Rewritten(c: Company, d: CompanyData, now: int): Company {
    Company(d.id, d.handle, d.name, d.description, d.logoUrl, d.authorizationCode,
            d.accessToken, d.refreshToken, d.tokenExpiresAt, d.phone, c.createdAt, now)
  }

  /** The record an upsert leaves at `d.id`. */
  function Upserted(m: map<string, Company>, d: CompanyData, now: int): Company {
    if d.id in m then Rewritten(m[d.id], d, now) else Created(d, now)
  }

  /** The table after an upsert of `d`: one record at `d.id` holding `d`, every other id as it was. */
  function Upsert(m: map<string, Company>, d: CompanyData, now: int): (r: map<string, Company>)
    ensures r.Keys == m.Keys + {d.id}
    ensures Data(r[d.id]) == d
    ensures forall k :: k in m && k != d.id ==> r[k] == m[k]
  {
    m[d.id := Upserted(m, d, now)]
  }

  function Pick<T>(o: Option<T>, current: T): T {
    if o.Some? then o.value else current
  }

  /** The record after an update with `p`: the properties present in `p` replace the stored ones. */
  function Patched(c: Company, p: Patch, now: int): (r: Company)
    ensures r.id == c.id && r.createdAt == c.createdAt && r.updatedAt == now
  {
    Company(c.id, Pick(p.handle, c.handle), Pick(p.name, c.name), Pick(p.description, c.description),
            Pick(p.logoUrl, c.logoUrl), Pick(p.authorizationCode, c.authorizationCode),
            Pick(p.accessToken, c.accessToken), Pick(p.refreshToken, c.refreshToken),
            Pick(p.tokenExpiresAt, c.tokenExpiresAt), Pick(p.phone, c.phone), c.createdAt, now)
  }

  // ------------------------------------------------------------ store invariant

  /** Every record sits under its own id. */
  predicate Keyed(m: map<string, Company>) {
    forall k :: k in m ==> m[k].id == k
  }

  /** No two records share a handle. */
  predicate HandlesUnique(m: map<string, Company>) {
    forall a, b :: a in m && b in m && m[a].handle.Some? && m[a].handle == m[b].handle ==> a == b
  }

  predicate StoreInvariant(m: map<string, Company>) {
    Keyed(m) && HandlesUnique(m)
  }

  /** Writing handle `h` under id `id` would clash with another record. */
  predicate HandleTaken(m: map<string, Company>, h: Option<string>, id: string) {
    h.Some? && exists k :: k in m && k != id && m[k].handle == h
  }

  // ------------------------------------------------------- what the writes mean

  /** After an upsert the record at `d.id` holds every field of `d`, whether or not it existed. */
  lemma UpsertStoresData(m: map<string, Company>, d: CompanyData, now: int)
    ensures d.id in Upsert(m, d, now)
    ensures Data(Upsert(m, d, now)[d.id]) == d
    ensures Upsert(m, d, now)[d.id].updatedAt == now
    ensures Upsert(m, d, now)[d.id].createdAt == if d.id in m then m[d.id].createdAt else now
  {
  }

  /** An upsert leaves every other id as it was. */
  lemma UpsertKeepsOthers(m: map<string, Company>, d: CompanyData, now: int, k: string)
    requires k != d.id
    ensures k in Upsert(m, d, now) <==> k in m
    ensures k in m ==> Upsert(m, d, now)[k] == m[k]
  {
  }

  /** An upsert whose handle is free keeps the store keyed and its handles unique. */
  lemma UpsertKeepsInvariant(m: map<string, Company>, d: CompanyData, now: int)
    requires StoreInvariant(m)
    requires !HandleTaken(m, d.handle, d.id)
    ensures StoreInvariant(Upsert(m, d, now))
  {
    var m' := Upsert(m, d, now);
    forall a, b | a in m' && b in m' && m'[a].handle.Some? && m'[a].handle == m'[b].handle
      ensures a == b
    {
      if a != d.id && b != d.id {
        assert m'[a] == m[a] && m'[b] == m[b];
      }
    }
  }

  /** An update changes only the properties present in the patch (and the update time). */
  lemma PatchedChangesOnlyPresent(c: Company, p: Patch, now: int)
    ensures Patched(c, p, now).id == c.id && Patched(c, p, now).createdAt == c.createdAt
    ensures Patched(c, p, now).updatedAt == now
    ensures p.handle.None? ==> Patched(c, p, now).handle == c.handle
    ensures p.handle.Some? ==> Patched(c, p, now).handle == p.handle.value
    ensures p.name.None? ==> Patched(c, p, now).name == c.name
    ensures p.name.Some? ==> Patched(c, p, now).name == p.name.value
    ensures p.description.None? ==> Patched(c, p, now).description == c.description
    ensures p.description.Some? ==> Patched(c, p, now).description == p.description.value
    ensures p.logoUrl.None? ==> Patched(c, p, now).logoUrl == c.logoUrl
    ensures p.logoUrl.Some? ==> Patched(c, p, now).logoUrl == p.logoUrl.value
    ensures p.authorizationCode.None? ==> Patched(c, p, now).authorizationCode == c.authorizationCode
    ensures p.authorizationCode.Some? ==> Patched(c, p, now).authorizationCode == p.authorizationCode.value
    ensures p.accessToken.None? ==> Patched(c, p, now).accessToken == c.accessToken
    ensures p.accessToken.Some? ==> Patched(c, p, now).accessToken == p.accessToken.value
    ensures p.refreshToken.None? ==> Patched(c, p, now).refreshToken == c.refreshToken
    ensures p.refreshToken.Some? ==> Patched(c, p, now).refreshToken == p.refreshToken.value
    ensures p.tokenExpiresAt.None? ==> Patched(c, p, now).tokenExpiresAt == c.tokenExpiresAt
    ensures p.tokenExpiresAt.Some? ==> Patched(c, p, now).tokenExpiresAt == p.tokenExpiresAt.value
    ensures p.phone.None? ==> Patched(c, p, now).phone == c.phone
    ensures p.phone.Some? ==> Patched(c, p, now).phone == p.phone.value
    ensures p == Patch(None, None, None, None, None, None, None, None, None) ==>
      Patched(c, p, now) == c.(updatedAt := now)
  {
  }

  /** An update whose handle is free keeps the store keyed and its handles unique. */
  lemma PatchKeepsInvariant(m: map<string, Company>, id: string, p: Patch, now: int)
    requires StoreInvariant(m) && id in m
    requires !HandleTaken(m, Patched(m[id], p, now).handle, id)
    ensures StoreInvariant(m[id := Patched(m[id], p, now)])
  {
    var m' := m[id := Patched(m[id], p, now)];
    forall a, b | a in m' && b in m' && m'[a].handle.Some? && m'[a].handle == m'[b].handle
      ensures a == b
    {
      if a != id && b != id {
        assert m'[a] == m[a] && m'[b] == m[b];
      }
    }
  }

  /** Removing a record keeps the store keyed and its handles unique. */
  lemma DeleteKeepsInvariant(m: map<string, Company>, id: string)
    requires StoreInvariant(m)
    ensures StoreInvariant(m - {id})
  {
  }

  /** A handle names at most one stored company. */
  lemma HandleIsUnique(m: map<string, Company>, a: Company, b: Company, h: string)
    requires StoreInvariant(m)
    requires a in m.Values && b in m.Values && a.handle == Some(h) && b.handle == Some(h)
    ensures a == b
  {
    var ka :| ka in m && m[ka] == a;
    var kb :| kb in m && m[kb] == b;
  }

  // ------------------------------------------------------------ newest first

  /** Ordered by `createdAt`, newest first: no record is older than the one after it. */
  predicate NewestFirst(s: seq<Company>) {
    forall i :: 0 <= i < |s| - 1 ==> s[i].createdAt >= s[i + 1].createdAt
  }

  function InsertByCreated(c: Company, s: seq<Company>): (r: seq<Company>)
    requires NewestFirst(s)
    ensures NewestFirst(r)
    ensures |r| == |s| + 1 && forall x :: x in r <==> x == c || x in s
    ensures r[0] == c || (|s| > 0 && r[0] == s[0])
  {
    if s == [] || s[0].createdAt <= c.createdAt then [c] + s
    else
      var tail := InsertByCreated(c, s[1..]);
      assert s == [s[0]] + s[1..];
      [s[0]] + tail
  }

  /** Inserting adds exactly the one record: the result is a permutation of `s` and `c`. */
  lemma {:induction false} InsertByCreatedPermutes(c: Company, s: seq<Company>)
    requires NewestFirst(s)
    ensures multiset(InsertByCreated(c, s)) == multiset(s) + multiset{c}
  {
    if s != [] && s[0].createdAt > c.createdAt {
      InsertByCreatedPermutes(c, s[1..]);
      assert s == [s[0]] + s[1..];
    }
  }

  /** `acc` lists, newest first, exactly the records stored under the ids in `done`. */
  predicate Listed(m: map<string, Company>, done: set<string>, acc: seq<Company>) {
    NewestFirst(acc) && |acc| == |done| && done <= m.Keys
    && (forall c :: c in acc ==> c.id in done && c.id in m && m[c.id] == c)
    && (forall k :: k in done ==> m[k] in acc)
  }

  /** One more id moves from `todo` to `done`, and its record into the listing. */
  lemma ListedStep(m: map<string, Company>, todo: set<string>, done: set<string>, acc: seq<Company>, k: string)
    requires Keyed(m) && todo !! done && todo + done == m.Keys && Listed(m, done, acc) && k in todo
    ensures (todo - {k}) !! (done + {k}) && (todo - {k}) + (done + {k}) == m.Keys
    ensures Listed(m, done + {k}, InsertByCreated(m[k], acc))
    ensures |todo - {k}| < |todo|
  {
    assert m[k].id == k && m[k] !in acc;
  }

  lemma ListedAll(m: map<string, Company>, acc: seq<Company>)
    requires Keyed(m) && Listed(m, m.Keys, acc)
    ensures NewestFirst(acc) && |acc| == |m|
    ensures forall c :: c in acc <==> c in m.Values
  {
    assert forall c :: c in m.Values ==> c.id in m && m[c.id] == c;
  }

  /** Lists the records of a keyed table newest first: each exactly once, nothing else. */
  method NewestFirstList(m: map<string, Company>) returns (acc: seq<Company>)
    requires Keyed(m)
    ensures NewestFirst(acc) && |acc| == |m|
    ensures forall c :: c in acc <==> c in m.Values
  {
    var todo := m.Keys;
    ghost var done: set<string> := {};
    acc := [];
    while todo != {}
      invariant todo !! done && todo + done == m.Keys
      invariant Listed(m, done, acc)
      decreases |todo|
    {
      var k :| k in todo;
      ListedStep(m, todo, done, acc, k);
      acc := InsertByCreated(m[k], acc);
      todo := todo - {k};
      done := done + {k};
    }
    ListedAll(m, acc);
  }

  // ------------------------------------------------------------------ the service

  class CompanyDBService {
    /** Whether the database can be reached. */
    const available: bool
    var companies: map<string, Company>

    predicate Valid()
      reads this
    {
      StoreInvariant(companies)
    }

    constructor (available: bool)
      ensures this.available == available && companies == map[] && Valid()
    {
      this.available := available;
      companies := map[];
    }

    /** `findByCompanyId(id)`: the record with that id, or null. */
    function FindByCompanyId(id: string): (r: Result<Option<Company>, string>)
      reads this
      ensures r.Failure? <==> !available
      ensures r.Success? ==> (r.value.Some? <==> id in companies)
      ensures r.Success? && r.value.Some? ==> r.value.value == companies[id]
      ensures Valid() && r.Success? && r.value.Some? ==> r.value.value.id == id
    {
      if !available then Failure(DB_UNAVAILABLE)
      else if id in companies then Success(Some(companies[id]))
      else Success(None)
    }

    /** `findByHandle(handle)`: the one record with that handle, or null. */
    method FindByHandle(handle: string) returns (r: Result<Option<Company>, string>)
      ensures r.Failure? <==> !available
      ensures r.Failure? ==> r.error == DB_UNAVAILABLE
      ensures r.Success? && r.value.Some? ==>
        r.value.value in companies.Values && r.value.value.handle == Some(handle)
      ensures r.Success? && r.value.None? ==>
        forall k :: k in companies ==> companies[k].handle != Some(handle)
    {
      if !available {
        return Failure(DB_UNAVAILABLE);
      }
      if k :| k in companies && companies[k].handle == Some(handle) {
        return Success(Some(companies[k]));
      }
      return Success(None);
    }

    /** `findByAccessToken(token)`: some record holding that access token, or null. */
    method FindByAccessToken(token: string) returns (r: Result<Option<Company>, string>)
      ensures r.Failure? <==> !available
      ensures r.Success? && r.value.Some? ==>
        r.value.value in companies.Values && r.value.value.accessToken == Some(token)
      ensures r.Success? && r.value.None? ==>
        forall k :: k in companies ==> companies[k].accessToken != Some(token)
    {
      if !available {
        return Failure(DB_UNAVAILABLE);
      }
      if k :| k in companies && companies[k].accessToken == Some(token) {
        return Success(Some(companies[k]));
      }
      return Success(None);
    }

    /** `findAll()`: every stored company exactly once, newest first. */
    method FindAll() returns (r: Result<seq<Company>, string>)
      requires Valid()
      ensures r.Failure? <==> !available
      ensures r.Success? ==> NewestFirst(r.value) && |r.value| == |companies|
      ensures r.Success? ==> forall c :: c in r.value <==> c in companies.Values
    {
      if !available {
        return Failure(DB_UNAVAILABLE);
      }
      var all := NewestFirstList(companies);
      return Success(all);
    }

    /** `upsertCompany(d)`: creates or rewrites the record at `d.id`. */
    method UpsertCompany(d: CompanyData, now: int) returns (r: Result<Company, string>)
      requires Valid()
      modifies this
      ensures Valid()
      ensures r.Failure? <==> !available || HandleTaken(old(companies), d.handle, d.id)
      ensures !available ==> r == Failure(DB_UNAVAILABLE)
      ensures available && HandleTaken(old(companies), d.handle, d.id) ==> r == Failure(HANDLE_TAKEN)
      ensures r.Failure? ==> companies == old(companies)
      ensures r.Success? ==> companies == Upsert(old(companies), d, now) && r.value == companies[d.id]
    {
      if !available {
        return Failure(DB_UNAVAILABLE);
      }
      if HandleTaken(companies, d.handle, d.id) {
        return Failure(HANDLE_TAKEN);
      }
      UpsertKeepsInvariant(companies, d, now);
      companies := Upsert(companies, d, now);
      return Success(companies[d.id]);
    }

    /** `updateById(id, p)`: rewrites the properties present in `p`; fails for an unknown id. */
    method UpdateById(id: string, p: Patch, now: int) returns (r: Result<Company, string>)
      requires Valid()
      modifies this
      ensures Valid()
      ensures r.Failure? <==>
        (!available || id !in old(companies)
         || HandleTaken(old(companies), Patched(old(companies)[id], p, now).handle, id))
      ensures !available ==> r == Failure(DB_UNAVAILABLE)
      ensures available && id !in old(companies) ==> r == Failure(RECORD_NOT_FOUND)
      ensures available && id in old(companies)
        && HandleTaken(old(companies), Patched(old(companies)[id], p, now).handle, id)
        ==> r == Failure(HANDLE_TAKEN)
      ensures r.Failure? ==> companies == old(companies)
      ensures r.Success? ==>
        companies == old(companies)[id := Patched(old(companies)[id], p, now)] && r.value == companies[id]
    {
      if !available {
        return Failure(DB_UNAVAILABLE);
      }
      if id !in companies {
        return Failure(RECORD_NOT_FOUND);
      }
      var c := Patched(companies[id], p, now);
      if HandleTaken(companies, c.handle, id) {
        return Failure(HANDLE_TAKEN);
      }
      PatchKeepsInvariant(companies, id, p, now);
      companies := companies[id := c];
      return Success(c);
    }

    /** `deleteById(id)`: removes the record and returns it; fails for an unknown id. */
    method DeleteById(id: string) returns (r: Result<Company, string>)
      requires Valid()
      modifies this
      ensures Valid()
      ensures r.Failure? <==> !available || id !in old(companies)
      ensures !available ==> r == Failure(DB_UNAVAILABLE)
      ensures available && id !in old(companies) ==> r == Failure(RECORD_NOT_FOUND)
      ensures r.Failure? ==> companies == old(companies)
      ensures r.Success? ==> r.value == old(companies)[id] && companies == old(companies) - {id}
    {
      if !available {
        return Failure(DB_UNAVAILABLE);
      }
      if id !in companies {
        return Failure(RECORD_NOT_FOUND);
      }
      r := Success(companies[id]);
      DeleteKeepsInvariant(companies, id);
      companies := companies - {id};
    }
  }
}
