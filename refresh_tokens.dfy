/**
 * The `RefreshToken` entity (auth/entity/RefreshToken.java) and the
 * `refresh_tokens` table it is stored in.
 */
module RefreshTokens {
  import opened Common

  datatype TokenStatus = VALID | INVALIDATED

  /** The persisted columns of one refresh token, as a value. */
  datatype TokenRow = TokenRow(userId: NullableId, token: string, status: TokenStatus)

  /** The effect of `updateStatus` on a row's value. */
  function WithStatus(row: TokenRow, status: TokenStatus): (r: TokenRow)
    ensures r.status == status
    ensures r.userId == row.userId && r.token == row.token
  {
    row.(status := status)
  }

  /** Setting the same status twice is the same as setting it once. */
  lemma WithStatusIdempotent(row: TokenRow, status: TokenStatus)
    ensures WithStatus(WithStatus(row, status), status) == WithStatus(row, status)
  {
  }

  /** The table as values: rows by primary key and the next IDENTITY id. */
  datatype TokenTable = TokenTable(records: map<int, TokenRow>, nextId: int)

  /** No two rows share a token string (the UUIDs are unique). */
  ghost predicate TokensDistinct(records: map<int, TokenRow>)
  {
    forall i, j | i in records && j in records && records[i].token == records[j].token :: i == j
  }

  /** Every key was handed out before `nextId`. */
  ghost predicate KeysIssued(t: TokenTable)
  {
    forall k | k in t.records :: k < t.nextId
  }

  /** Keys were issued by the counter, and tokens are unique. */
  ghost predicate TableWf(t: TokenTable)
  {
    KeysIssued(t) && TokensDistinct(t.records)
  }

  /** Some row of `records` holds `token`. */
  ghost predicate HasToken(records: map<int, TokenRow>, token: string)
  {
    exists k :: k in records && records[k].token == token
  }

  /** Inserting a row with an unused token under `nextId` keeps the table well formed. */
  lemma InsertKeepsWf(t: TokenTable, row: TokenRow)
    requires TableWf(t) && !HasToken(t.records, row.token)
    ensures t.nextId !in t.records
    ensures TableWf(TokenTable(t.records[t.nextId := row], t.nextId + 1))
  {
    var m := t.records[t.nextId := row];
    forall i, j | i in m && j in m && m[i].token == m[j].token
      ensures i == j
    {
      if i != t.nextId && j != t.nextId {
        assert t.records[i].token == t.records[j].token;
      }
    }
  }

  class RefreshToken {
    var id: NullableId
    const userId: NullableId
    const token: string
    var status: TokenStatus

    function Row(): (r: TokenRow)
      reads this
      ensures r.userId == userId && r.token == token && r.status == status
    {
      TokenRow(userId, token, status)
    }

    /**
     * `new RefreshToken(userId)`. The random UUID it draws is passed in as
     * `uuid`; the id stays unset until the token is saved.
     */
    constructor (userId: NullableId, uuid: string)
      ensures id == None
      ensures Row() == TokenRow(userId, uuid, VALID)
    {
      this.id := None;
      this.userId := userId;
      this.token := uuid;
      this.status := VALID;
    }

    /** `updateStatus`: overwrites the status and nothing else. */
    method UpdateStatus(status: TokenStatus)
      modifies this`status
      ensures Row() == WithStatus(old(Row()), status)
      ensures id == old(id)
    {
      this.status := status;
    }
  }

  class RefreshTokenRepository {
    var rows: map<int, RefreshToken>
    var nextId: int

    /** The table's contents as values. */
    ghost function Records(): (m: map<int, TokenRow>)
      reads this, rows.Values
      ensures m.Keys == rows.Keys
    {
      map k | k in rows :: rows[k].Row()
    }

    ghost function Table(): TokenTable
      reads this, rows.Values
    {
      TokenTable(Records(), nextId)
    }

    /** Some stored row holds `token`. */
    ghost predicate Holds(token: string)
      reads this, rows.Values
    {
      HasToken(Records(), token)
    }

    /** Each stored entity carries its own key, and the value view is well formed. */
    ghost predicate Valid()
      reads this, rows.Values
    {
      && (forall k | k in rows :: rows[k].id == Some(k))
      && TableWf(Table())
    }

    constructor ()
      ensures Valid() && rows == map[]
    {
      rows := map[];
      nextId := 1;
    }

    /** `save` of a new token: the database assigns the next IDENTITY id. */
    method Save(t: RefreshToken)
      requires Valid() && t.id == None
      requires !Holds(t.token)
      modifies this, t`id
      ensures Valid()
      ensures t.id == Some(old(nextId)) && old(nextId) !in old(rows)
      ensures rows == old(rows)[old(nextId) := t] && nextId == old(nextId) + 1
      ensures Records() == old(Records())[old(nextId) := t.Row()]
    {
      ghost var before := Table();
      InsertKeepsWf(before, t.Row());
      forall k | k in rows
        ensures rows[k] != t
      {
        assert rows[k].id == Some(k);
      }
      t.id := Some(nextId);
      rows := rows[nextId := t];
      nextId := nextId + 1;
      RecordsFrom(this, before.records[before.nextId := t.Row()]);
    }

    /** `findById`: the row whose primary key is `id`. */
    method FindById(id: int) returns (r: Option<RefreshToken>)
      requires Valid()
      ensures r.Some? <==> id in rows
      ensures r.Some? ==> r.value == rows[id] && r.value.id == Some(id)
    {
      if id in rows {
        var t := rows[id];
        assert t.id == Some(id);
        r := Some(t);
      } else {
        r := None;
      }
    }

    /** `findByToken`: the one row holding `token`, if any. */
    method FindByToken(token: string) returns (r: Option<RefreshToken>)
      requires Valid()
      ensures r.None? <==> !Holds(token)
      ensures r.Some? ==> r.value.id.Some? && r.value.id.value in rows
      ensures r.Some? ==> rows[r.value.id.value] == r.value && r.value.token == token
    {
      if exists k :: k in rows && rows[k].token == token {
        var k :| k in rows && rows[k].token == token;
        var t := rows[k];
        assert t.id == Some(k);
        r := Some(t);
      } else {
        r := None;
      }
    }
  }

  /** `Records()` is the map of the rows' values, given pointwise. */
  lemma RecordsFrom(repo: RefreshTokenRepository, m: map<int, TokenRow>)
    requires repo.rows.Keys == m.Keys
    requires forall k | k in repo.rows :: repo.rows[k].Row() == m[k]
    ensures repo.Records() == m
  {
    var r := repo.Records();
    assert r.Keys == m.Keys;
    assert forall k | k in r :: r[k] == m[k];
  }
}
