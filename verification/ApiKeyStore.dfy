/** API key rows, the verification cache in front of them, and the checks of one request. */
module ApiKeyStore {
  import opened Prelude
  import opened ApiTokens

  const CACHE_TTL: int := 30

  datatype KeyRow = KeyRow(
    tokenHash: string, revokedAt: Option<int>, expiresAt: Option<int>,
    permissions: set<string>, accounts: set<int>, issuer: Option<int>, workspace: int)

  datatype CachedRow = CachedRow(row: KeyRow, storedAt: int)

  datatype Account = Account(id: int, workspace: int)

  datatype Membership = Membership(user: int, workspace: int)

  predicate Active(row: KeyRow, now: int) {
    row.revokedAt.None? && !(row.expiresAt.Some? && row.expiresAt.value <= now)
  }

  predicate IssuerAuthorized(row: KeyRow, members: set<Membership>) {
    row.issuer.Some? && Membership(row.issuer.value, row.workspace) in members
  }

  predicate LiveEntry(cached: Option<CachedRow>, now: int) {
    cached.Some? && now < cached.value.storedAt + CACHE_TTL
  }

  /** The row a request works from, and the cache entry after it was looked up. */
  function Lookup(db: Option<KeyRow>, cached: Option<CachedRow>, now: int): (Option<KeyRow>, Option<CachedRow>) {
    if LiveEntry(cached, now) then (Some(cached.value.row), cached)
    else if db.Some? && Active(db.value, now) then (db, Some(CachedRow(db.value, now)))
    else (db, None)
  }

  /** The verdict of one undisturbed verification, and the cache entry it leaves. */
  function Verified(
    db: Option<KeyRow>, cached: Option<CachedRow>, members: set<Membership>, hash: string, now: int):
    (Option<KeyRow>, Option<CachedRow>)
  {
    var (found, entry) := Lookup(db, cached, now);
    if found.None? then (None, entry)
    else if !Active(found.value, now) then (None, None)
    else if hash != found.value.tokenHash then (None, entry)
    else if !IssuerAuthorized(found.value, members) then (None, None)
    else (found, entry)
  }

  /** A request gets the database's row of this moment exactly when no older row is cached live. */
  lemma NextRequestSees(db: Option<KeyRow>, cached: Option<CachedRow>, now: int)
    ensures Lookup(db, cached, now).0 == db <==> (LiveEntry(cached, now) ==> db == Some(cached.value.row))
  {}

  /** The row has not been revoked and has not expired. */
  ghost predicate InUse(row: KeyRow, now: int) {
    row.revokedAt == None && forall t | row.expiresAt == Some(t) :: now < t
  }

  ghost predicate IssuedByMember(row: KeyRow, members: set<Membership>) {
    exists m :: m in members && row.issuer == Some(m.user) && row.workspace == m.workspace
  }

  lemma ActiveIsInUse(row: KeyRow, members: set<Membership>, now: int)
    ensures Active(row, now) <==> InUse(row, now)
    ensures IssuerAuthorized(row, members) <==> IssuedByMember(row, members)
  {}

  /** The row a verification goes by: a copy cached within the last 30 seconds, else the database's. */
  ghost function Consulted(db: Option<KeyRow>, cached: Option<CachedRow>, now: int): Option<KeyRow> {
    if cached.Some? && now - cached.value.storedAt < 30 then Some(cached.value.row) else db
  }

  /**
   * The verdict is the consulted row exactly when it is in use, carries the token's hash, and was
   * issued by a member of its workspace. Afterwards a row is cached exactly when it is in use and
   * not rejected for its issuer, and a copy from the database counts from now.
   */
  lemma VerdictExactly(
    db: Option<KeyRow>, cached: Option<CachedRow>, members: set<Membership>, hash: string, now: int)
    ensures var (key, entry) := Verified(db, cached, members, hash, now);
      var row := Consulted(db, cached, now);
      && (key.Some? <==>
           row.Some? && InUse(row.value, now) && row.value.tokenHash == hash && IssuedByMember(row.value, members))
      && (key.Some? ==> key == row)
      && (entry.Some? <==>
           row.Some? && InUse(row.value, now) && (row.value.tokenHash == hash ==> IssuedByMember(row.value, members)))
      && (entry.Some? ==> entry == if cached.Some? && now - cached.value.storedAt < 30 then cached
           else Some(CachedRow(row.value, now)))
  {
    var row := Consulted(db, cached, now);
    if row.Some? { ActiveIsInUse(row.value, members, now); }
  }

  function EntryOf(cache: map<string, CachedRow>, prefix: string, now: int): Option<CachedRow> {
    if prefix in cache && LiveEntry(Some(cache[prefix]), now) then Some(cache[prefix]) else None
  }

  function RowOf(rows: map<string, KeyRow>, prefix: string): Option<KeyRow> {
    if prefix in rows then Some(rows[prefix]) else None
  }

  /** Flip permissions inside the editor's grantable set, keep the others. */
  function EditedPermissions(current: set<string>, requested: set<string>, grantable: set<string>): (after: set<string>)
    ensures forall p | p in grantable :: p in after <==> p in requested
    ensures forall p | p !in grantable :: p in after <==> p in current
  {
    (requested * grantable) + (current - grantable)
  }

  // ----- allowlist changes made from the account's side

  function HoldersOf(rows: map<string, KeyRow>, account: int): set<string> {
    set p | p in rows && account in rows[p].accounts
  }

  function WithoutAccount(rows: map<string, KeyRow>, account: int, keys: set<string>): map<string, KeyRow> {
    map p | p in rows :: if p in keys then rows[p].(accounts := rows[p].accounts - {account}) else rows[p]
  }

  /** A query made after the removal finds none of the keys that lost the account. */
  lemma RemovedKeysAreNoLongerHolders(rows: map<string, KeyRow>, account: int, keys: set<string>)
    ensures HoldersOf(WithoutAccount(rows, account, keys), account) == HoldersOf(rows, account) - keys
  {}

  class Store {
    var rows: map<string, KeyRow>
    var cache: map<string, CachedRow>
    var members: set<Membership>
    /** The holders noted before an account's links are cleared. */
    var snapshot: set<string>

    constructor ()
      ensures rows == map[] && cache == map[] && members == {} && snapshot == {}
    {
      rows, cache, members, snapshot := map[], map[], {}, {};
    }

    method InvalidateAll(keys: set<string>)
      modifies `cache
      ensures cache == old(cache) - (keys * rows.Keys)
    {
      var todo := keys * rows.Keys;
      while todo != {}
        invariant todo <= keys * rows.Keys
        invariant cache == old(cache) - (keys * rows.Keys - todo)
      {
        ghost var any := AnyMember(todo);
        var p :| p in todo;
        Invalidate(p);
        todo := todo - {p};
      }
    }

    /** Keys removed from an account: what stays cached has not changed. */
    method RemoveAccount(account: int, keys: set<string>)
      modifies `rows, `cache
      ensures rows == WithoutAccount(old(rows), account, keys) && cache == old(cache) - (keys * old(rows).Keys)
      ensures rows.Keys == old(rows).Keys
      ensures forall p | p in rows :: rows[p] == old(rows)[p].(accounts := rows[p].accounts)
      ensures forall p, a | p in rows ::
        a in rows[p].accounts <==> a in old(rows)[p].accounts && !(a == account && p in keys)
      ensures forall p | p in cache && p in rows :: rows[p] == old(rows)[p]
    {
      rows := WithoutAccount(rows, account, keys);
      InvalidateAll(keys);
    }

    /** All of an account's links cleared: the holders are noted first, for afterwards there are none. */
    method ClearAccount(account: int)
      modifies `rows, `cache, `snapshot
      ensures rows == WithoutAccount(old(rows), account, old(rows).Keys)
      ensures cache == old(cache) - HoldersOf(old(rows), account) && snapshot == {}
      ensures forall p | p in cache && p in rows :: rows[p] == old(rows)[p]
    {
      snapshot := HoldersOf(rows, account);
      rows := WithoutAccount(rows, account, rows.Keys);
      assert snapshot * rows.Keys == snapshot;
      InvalidateAll(snapshot);
      snapshot := {};
      forall p | p in cache && p in rows ensures rows[p] == old(rows)[p] {
        assert old(rows)[p].accounts - {account} == old(rows)[p].accounts;
      }
    }

    method Invalidate(prefix: string)
      modifies `cache
      ensures cache == old(cache) - {prefix}
    {
      cache := cache - {prefix};
    }

    /** Verification with nothing else happening meanwhile. */
    method VerifyToken(digest: string -> string, hmac: string -> string, raw: string, now: int)
      returns (key: Option<KeyRow>)
      modifies `cache
      ensures var p := ParseToken(digest, raw);
        if p.None? then key == None && cache == old(cache)
        else
          var before := EntryOf(old(cache), p.value.lookup, now);
          && key == Verified(RowOf(rows, p.value.lookup), before, members, hmac(p.value.randomPart), now).0
          && EntryOf(cache, p.value.lookup, now) ==
             Verified(RowOf(rows, p.value.lookup), before, members, hmac(p.value.randomPart), now).1
          && cache - {p.value.lookup} == old(cache) - {p.value.lookup}
          && (before.None? && p.value.lookup in rows ==>
               var row := rows[p.value.lookup];
               key == if InUse(row, now) && row.tokenHash == hmac(p.value.randomPart) && IssuedByMember(row, members)
                 then Some(row) else None)
    {
      var parsed := ParseToken(digest, raw);
      if parsed.None? {
        return None;
      }
      var prefix := parsed.value.lookup;
      var row: KeyRow;
      if prefix in cache && now < cache[prefix].storedAt + CACHE_TTL {
        row := cache[prefix].row;
      } else {
        if prefix !in rows {
          return None;
        }
        row := rows[prefix];
        if Active(row, now) {
          cache := cache[prefix := CachedRow(row, now)];
        }
      }
      if !Active(row, now) {
        Invalidate(prefix);
        return None;
      }
      if hmac(parsed.value.randomPart) != row.tokenHash {
        return None;
      }
      if !IssuerAuthorized(row, members) {
        Invalidate(prefix);
        return None;
      }
      return Some(row);
    }

    /** Revocation commits the row first and busts the cache afterwards. */
    method RevokeApiKey(prefix: string, now: int)
      requires prefix in rows
      modifies this
      ensures members == old(members) && cache == old(cache) - {prefix}
      ensures rows == if old(rows)[prefix].revokedAt.None?
        then old(rows)[prefix := old(rows)[prefix].(revokedAt := Some(now))] else old(rows)
    {
      if rows[prefix].revokedAt.None? {
        rows := rows[prefix := rows[prefix].(revokedAt := Some(now))];
        Invalidate(prefix);
      }
      Invalidate(prefix);
    }

    /** An edit busts the cache from its signal handlers, inside the transaction that commits last. */
    method UpdateApiKey(prefix: string, editorManages: bool, editor: int, grantable: set<string>,
      permissions: set<string>, accounts: seq<Account>, expiresAt: Option<int>)
      returns (ok: bool)
      requires prefix in rows
      modifies this
      ensures members == old(members)
      ensures var row := old(rows)[prefix];
        && ok == (editorManages && Membership(editor, row.workspace) in members && accounts != [] &&
                  forall a | a in accounts :: a.workspace == row.workspace)
        && if !ok then rows == old(rows) && cache == old(cache)
           else cache == old(cache) - {prefix} &&
                rows == old(rows)[prefix := row.(
                  permissions := EditedPermissions(row.permissions, permissions, grantable),
                  expiresAt := expiresAt, accounts := set a | a in accounts :: a.id)]
    {
      var row := rows[prefix];
      if !editorManages || Membership(editor, row.workspace) !in members || accounts == [] {
        return false;
      }
      for i := 0 to |accounts|
        invariant forall j | 0 <= j < i :: accounts[j].workspace == row.workspace
        invariant rows == old(rows) && cache == old(cache) && members == old(members)
      {
        if accounts[i].workspace != row.workspace {
          return false;
        }
      }
      var edited := row.(
        permissions := EditedPermissions(row.permissions, permissions, grantable), expiresAt := expiresAt);
      Invalidate(prefix);
      Invalidate(prefix);
      rows := rows[prefix := edited.(accounts := set a | a in accounts :: a.id)];
      return true;
    }
  }
}
