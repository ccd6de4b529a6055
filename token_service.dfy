/**
 * TokenService (auth/service/TokenService.java): issuing, revoking and
 * checking refresh tokens. The three operations are first defined on the
 * table as a value (`TokenTable`), where the lifecycle properties are
 * proved over any sequence of calls; the methods on the repository are then
 * proved to perform exactly those operations.
 */
module TokenService {
  import opened Common
  import opened Users
  import opened RefreshTokens

  const NO_TOKEN_FOR_USER: string := "해당 유저의 Token이 존재하지 않음."
  const TOKEN_NOT_FOUND: string := "유저 찾을 수 없음"
  const TOKEN_EXPIRED: string := "유효기간이 지난 refresh 토큰입니다. 다시 로그인 해주세요"

  /** createRefreshToken on values: one new VALID row under the next id. */
  function Created(t: TokenTable, userId: NullableId, uuid: string): TokenTable
  {
    TokenTable(t.records[t.nextId := TokenRow(userId, uuid, VALID)], t.nextId + 1)
  }

  /** revokeRefreshToken's outcome: the key is looked up as a PRIMARY KEY. */
  function RevokeOutcome(t: TokenTable, key: int): Outcome
  {
    if key in t.records then Pass else Fail(InvalidRequest(NO_TOKEN_FOR_USER))
  }

  /** revokeRefreshToken on values: the row under `key`, if any, becomes INVALIDATED. */
  function Revoked(t: TokenTable, key: int): TokenTable
  {
    if key in t.records
    then t.(records := t.records[key := WithStatus(t.records[key], INVALIDATED)])
    else t
  }

  /** `findByToken` on values: the key of a row holding `token`. */
  ghost function FindKey(records: map<int, TokenRow>, token: string): (r: Option<int>)
    ensures r.None? <==> !HasToken(records, token)
    ensures r.Some? ==> r.value in records && records[r.value].token == token
  {
    if HasToken(records, token) then
      var k :| k in records && records[k].token == token; Some(k)
    else None
  }

  /** reissueToken up to the user lookup: the owner id, or why the token is refused. */
  ghost function ReissueCheck(records: map<int, TokenRow>, token: string): Result<NullableId>
  {
    match FindKey(records, token)
    case None => Err(InvalidRequest(TOKEN_NOT_FOUND))
    case Some(k) =>
      if records[k].status == INVALIDATED then Err(InvalidRequest(TOKEN_EXPIRED))
      else Ok(records[k].userId)
  }

  /** The calls of the service that touch the token table. */
  datatype TokenOp =
    | CreateOp(userId: NullableId, uuid: string)
    | RevokeOp(key: int)
    | ReissueOp(token: string)

  function Step(t: TokenTable, op: TokenOp): TokenTable
  {
    match op
    case CreateOp(userId, uuid) => Created(t, userId, uuid)
    case RevokeOp(key) => Revoked(t, key)
    case ReissueOp(_) => t
  }

  function Run(t: TokenTable, ops: seq<TokenOp>): TokenTable
    decreases |ops|
  {
    if ops == [] then t else Run(Step(t, ops[0]), ops[1..])
  }

  /**
   * One call keeps every existing row, with its owner and token, and never
   * turns an INVALIDATED row back to VALID.
   */
  lemma StepKeepsRow(t: TokenTable, op: TokenOp, k: int)
    requires KeysIssued(t) && k in t.records
    ensures KeysIssued(Step(t, op))
    ensures k in Step(t, op).records
    ensures Step(t, op).records[k].userId == t.records[k].userId
    ensures Step(t, op).records[k].token == t.records[k].token
    ensures t.records[k].status == INVALIDATED ==> Step(t, op).records[k].status == INVALIDATED
  {
  }

  /**
   * Over any sequence of service calls, a row is never removed, its owner
   * and token never change, and INVALIDATED is final: no call writes VALID
   * to an existing row.
   */
  lemma {:induction false} RunKeepsRow(t: TokenTable, ops: seq<TokenOp>, k: int)
    requires KeysIssued(t) && k in t.records
    ensures k in Run(t, ops).records
    ensures Run(t, ops).records[k].userId == t.records[k].userId
    ensures Run(t, ops).records[k].token == t.records[k].token
    ensures t.records[k].status == INVALIDATED ==> Run(t, ops).records[k].status == INVALIDATED
    decreases |ops|
  {
    if ops != [] {
      StepKeepsRow(t, ops[0], k);
      RunKeepsRow(Step(t, ops[0]), ops[1..], k);
    }
  }

  /**
   * With unique tokens, reissue's check is decided by the one row holding
   * the token: refused when no row holds it, refused when that row is
   * INVALIDATED, and otherwise its owner's id.
   */
  lemma ReissueCheckByRow(records: map<int, TokenRow>, token: string, k: int)
    requires TokensDistinct(records)
    requires k in records && records[k].token == token
    ensures ReissueCheck(records, token) ==
      if records[k].status == INVALIDATED then Err(InvalidRequest(TOKEN_EXPIRED))
      else Ok(records[k].userId)
  {
    var f := FindKey(records, token);
    assert f.Some?;
    assert records[f.value].token == records[k].token;
  }

  lemma ReissueCheckUnknownToken(records: map<int, TokenRow>, token: string)
    requires !HasToken(records, token)
    ensures ReissueCheck(records, token) == Err(InvalidRequest(TOKEN_NOT_FOUND))
  {
  }

  /** Revocation keeps the table well formed: it touches no key and no token. */
  lemma RevokedKeepsWf(t: TokenTable, key: int)
    requires TableWf(t)
    ensures TableWf(Revoked(t, key))
    ensures Revoked(t, key).records.Keys == t.records.Keys
  {
    var r := Revoked(t, key);
    forall i, j | i in r.records && j in r.records && r.records[i].token == r.records[j].token
      ensures i == j
    {
      assert t.records[i].token == t.records[j].token;
    }
  }

  /**
   * Logging out through a row's key and then presenting that row's token
   * is refused as expired; revoking succeeds whenever the key exists.
   */
  lemma RevokeThenReissueFails(t: TokenTable, k: int)
    requires TableWf(t) && k in t.records
    ensures RevokeOutcome(t, k) == Pass
    ensures ReissueCheck(Revoked(t, k).records, t.records[k].token) == Err(InvalidRequest(TOKEN_EXPIRED))
  {
    RevokedKeepsWf(t, k);
    ReissueCheckByRow(Revoked(t, k).records, t.records[k].token, k);
  }

  /** A second revocation of the same key also succeeds and changes nothing more. */
  lemma RevokeIsIdempotent(t: TokenTable, key: int)
    ensures RevokeOutcome(Revoked(t, key), key) == RevokeOutcome(t, key)
    ensures Revoked(Revoked(t, key), key) == Revoked(t, key)
  {
  }

  /**
   * The revoked row is chosen by its own primary key, not by its owner: a
   * user whose id is not a row key cannot log out, and revoking key 1
   * invalidates the token of user 2.
   */
  lemma RevokeKeyIsRowId()
    ensures var t := TokenTable(map[1 := TokenRow(Some(2), "uuid-a", VALID)], 2);
      && RevokeOutcome(t, 2) == Fail(InvalidRequest(NO_TOKEN_FOR_USER))
      && Revoked(t, 2) == t
      && Revoked(t, 1).records[1] == TokenRow(Some(2), "uuid-a", INVALIDATED)
  {
  }

  /**
   * Issuing a token keeps every earlier row as it was, those of the same
   * user included: every earlier token is accepted or refused by reissue
   * exactly as before, and the new token is accepted for its user.
   */
  lemma CreateDoesNotSupersede(t: TokenTable, userId: NullableId, uuid: string, token: string)
    requires TableWf(t) && !HasToken(t.records, uuid)
    requires HasToken(t.records, token)
    ensures forall k | k in t.records :: k in Created(t, userId, uuid).records && Created(t, userId, uuid).records[k] == t.records[k]
    ensures ReissueCheck(Created(t, userId, uuid).records, token) == ReissueCheck(t.records, token)
    ensures ReissueCheck(Created(t, userId, uuid).records, uuid) == Ok(userId)
  {
    var c := Created(t, userId, uuid);
    InsertKeepsWf(t, TokenRow(userId, uuid, VALID));
    var k :| k in t.records && t.records[k].token == token;
    ReissueCheckByRow(t.records, token, k);
    ReissueCheckByRow(c.records, token, k);
    ReissueCheckByRow(c.records, uuid, t.nextId);
  }

  /** `createAccessToken(user)`: the access token is signed over the user's own claims. */
  function CreateAccessToken(user: User, createAccessToken: ClaimsSigner): string
    reads user
  {
    createAccessToken(user.id, user.email, user.userRole)
  }

  /**
   * `createRefreshToken(user)`: saves a new VALID token for the user's id and
   * returns its token string. `uuid` is the random UUID the entity draws,
   * assumed unused.
   */
  method CreateRefreshToken(repo: RefreshTokenRepository, user: User, uuid: string) returns (token: string)
    requires repo.Valid() && !repo.Holds(uuid)
    modifies repo
    ensures repo.Valid()
    ensures token == uuid
    ensures repo.Table() == Created(old(repo.Table()), user.id, uuid)
  {
    ghost var before := repo.Table();
    var refreshToken := new RefreshToken(user.id, uuid);
    assert repo.Table() == before;
    repo.Save(refreshToken);
    token := refreshToken.token;
  }

  /**
   * `revokeRefreshToken(userId)` (logout): looks the row up with
   * `findById(userId)`, i.e. by the row's own primary key, and sets its
   * status to INVALIDATED. No other row changes.
   */
  method RevokeRefreshToken(repo: RefreshTokenRepository, userId: int) returns (r: Outcome)
    requires repo.Valid()
    modifies repo.rows.Values
    ensures repo.Valid()
    ensures r == RevokeOutcome(old(repo.Table()), userId)
    ensures repo.Table() == Revoked(old(repo.Table()), userId)
  {
    var found := repo.FindById(userId);
    if found.None? {
      return Fail(InvalidRequest(NO_TOKEN_FOR_USER));
    }
    ghost var before := repo.Table();
    RevokedKeepsWf(before, userId);
    found.value.UpdateStatus(INVALIDATED);
    forall k | k in repo.rows && k != userId
      ensures repo.rows[k].id == Some(k) && repo.rows[k].Row() == before.records[k]
    {
      assert old(repo.rows[k].id) != old(repo.rows[userId].id);
    }
    RefreshTokens.RecordsFrom(repo, Revoked(before, userId).records);
    r := Pass;
  }

  /**
   * `reissueToken(request)`: the user owning the presented refresh token,
   * provided the token exists and is not INVALIDATED. Reads only.
   */
  method ReissueToken(tokens: RefreshTokenRepository, users: UserRepository, refreshToken: string)
    returns (r: Result<User>)
    requires tokens.Valid() && users.Valid()
    ensures ReissueCheck(tokens.Records(), refreshToken).Err? ==>
      r == Err(ReissueCheck(tokens.Records(), refreshToken).error)
    ensures ReissueCheck(tokens.Records(), refreshToken).Ok? ==>
      var owner := ReissueCheck(tokens.Records(), refreshToken).value;
      && (r.Ok? <==> owner.Some? && owner.value in users.rows)
      && (r.Ok? ==> r.value == users.rows[owner.value] && r.value.id == owner)
      && (r.Err? ==> r.error == InvalidRequest(USER_NOT_FOUND))
  {
    var found := tokens.FindByToken(refreshToken);
    if found.None? {
      ReissueCheckUnknownToken(tokens.Records(), refreshToken);
      return Err(InvalidRequest(TOKEN_NOT_FOUND));
    }
    var t := found.value;
    ReissueCheckByRow(tokens.Records(), refreshToken, t.id.value);
    if t.status == INVALIDATED {
      return Err(InvalidRequest(TOKEN_EXPIRED));
    }
    r := FindUserByIdOrElseThrow(users, t.userId);
  }

  /**
   * `reissueToken` followed by `createAccessToken` on the user it returns:
   * the new access token carries the claims of the user who owns the
   * presented refresh token, and is refused as the reissue is.
   */
  method ReissuedAccessToken(tokens: RefreshTokenRepository, users: UserRepository, refreshToken: string,
                             createAccessToken: ClaimsSigner) returns (r: Result<string>)
    requires tokens.Valid() && users.Valid()
    ensures !tokens.Holds(refreshToken) ==> r == Err(InvalidRequest(TOKEN_NOT_FOUND))
    ensures forall k | k in tokens.rows && tokens.Records()[k].token == refreshToken ::
      var row := tokens.Records()[k];
      && (row.status == INVALIDATED ==> r == Err(InvalidRequest(TOKEN_EXPIRED)))
      && (r.Ok? <==> row.status == VALID && row.userId.Some? && row.userId.value in users.rows)
      && (r.Ok? ==> var owner := users.rows[row.userId.value];
                    r.value == createAccessToken(row.userId, owner.email, owner.userRole))
  {
    var reissued := ReissueToken(tokens, users, refreshToken);
    if reissued.Err? {
      r := Err(reissued.error);
    } else {
      r := Ok(CreateAccessToken(reissued.value, createAccessToken));
    }
    if !tokens.Holds(refreshToken) {
      ReissueCheckUnknownToken(tokens.Records(), refreshToken);
    }
    forall k | k in tokens.rows && tokens.Records()[k].token == refreshToken
      ensures var row := tokens.Records()[k];
        && (row.status == INVALIDATED ==> r == Err(InvalidRequest(TOKEN_EXPIRED)))
        && (r.Ok? <==> row.status == VALID && row.userId.Some? && row.userId.value in users.rows)
        && (r.Ok? ==> var owner := users.rows[row.userId.value];
                      r.value == createAccessToken(row.userId, owner.email, owner.userRole))
    {
      ReissueCheckByRow(tokens.Records(), refreshToken, k);
    }
  }
}
