/**
 * AuthService (auth/service/AuthService.java): sign-up and sign-in against
 * the user table. Password hashing and token signing are parameters.
 */
module AuthService {
  import opened Common
  import opened Users

  const EMAIL_TAKEN: string := "이미 존재하는 이메일입니다."
  const WRONG_PASSWORD: string := "잘못된 비밀번호입니다."
  const NOT_REGISTERED: string := "가입되지 않은 유저입니다."

  datatype SignupRequest = SignupRequest(email: string, password: string, userRole: string)
  datatype SigninRequest = SigninRequest(email: string, password: string)
  datatype SignupResponse = SignupResponse(bearerToken: string)
  datatype SigninResponse = SigninResponse(bearerToken: string)

  /** `PasswordEncoder.encode(raw)`. */
  type PasswordEncoder = string -> string

  /** `PasswordEncoder.matches(raw, stored)`; the stored password may be null. */
  type PasswordMatcher = (string, NullableString) -> bool

  /**
   * `signup`: refuses an email already registered; otherwise saves exactly
   * one user with the encoded password and whatever role `UserRole.of`
   * makes of the requested one, and returns a token signed over the new
   * user's id, email and role.
   */
  method Signup(users: UserRepository, request: SignupRequest, encode: PasswordEncoder,
                roleOf: RoleParser, createToken: ClaimsSigner) returns (r: Result<SignupResponse>)
    requires users.Valid()
    modifies users
    ensures users.Valid()
    ensures old(users.HasEmail(request.email)) ==>
      r == Err(InvalidRequest(EMAIL_TAKEN)) && unchanged(users)
    ensures !old(users.HasEmail(request.email)) && roleOf(request.userRole).Err? ==>
      r == Err(roleOf(request.userRole).error) && unchanged(users)
    ensures !old(users.HasEmail(request.email)) && roleOf(request.userRole).Ok? ==>
      var id, role := old(users.nextId), roleOf(request.userRole).value;
      && id !in old(users.rows)
      && users.Records() == old(users.Records())[id := UserRow(request.email, Some(encode(request.password)), role)]
      && r == Ok(SignupResponse(createToken(Some(id), request.email, role)))
  {
    ghost var before := users.Records();
    var taken := users.ExistsByEmail(request.email);
    if taken {
      return Err(InvalidRequest(EMAIL_TAKEN));
    }
    var encodedPassword := encode(request.password);
    var userRole :- roleOf(request.userRole);
    var newUser := new User(request.email, encodedPassword, userRole);
    assert users.Records() == before;
    users.Save(newUser);
    var bearerToken := createToken(newUser.id, newUser.email, userRole);
    r := Ok(SignupResponse(bearerToken));
  }

  /** `findUserByEmailOrElseThrow`: the registered user with that email. */
  method FindUserByEmailOrElseThrow(users: UserRepository, email: string) returns (r: Result<User>)
    requires users.Valid()
    ensures r.Err? <==> !users.HasEmail(email)
    ensures r.Err? ==> r.error == InvalidRequest(NOT_REGISTERED)
    ensures r.Ok? ==> exists k :: k in users.rows && users.rows[k] == r.value && r.value.email == email
  {
    var found := users.FindByEmail(email);
    if found.None? {
      return Err(InvalidRequest(NOT_REGISTERED));
    }
    r := Ok(found.value);
  }

  /**
   * `signin`: an unknown email is an InvalidRequestException, a password
   * the matcher rejects is an AuthException, and otherwise the token is
   * signed over the stored user's id, email and role. Reads only.
   */
  method Signin(users: UserRepository, request: SigninRequest, matches: PasswordMatcher,
                createToken: ClaimsSigner) returns (r: Result<SigninResponse>)
    requires users.Valid()
    ensures !users.HasEmail(request.email) ==> r == Err(InvalidRequest(NOT_REGISTERED))
    ensures forall k | k in users.rows && users.rows[k].email == request.email ::
      r == if !matches(request.password, users.rows[k].password) then Err(Auth(WRONG_PASSWORD))
           else Ok(SigninResponse(createToken(Some(k), request.email, users.rows[k].userRole)))
  {
    var user :- FindUserByEmailOrElseThrow(users, request.email);
    if !matches(request.password, user.password) {
      return Err(Auth(WRONG_PASSWORD));
    }
    var bearerToken := createToken(user.id, user.email, user.userRole);
    r := Ok(SigninResponse(bearerToken));
    ghost var j :| j in users.rows && users.rows[j] == user;
    assert user.id == Some(j);
  }

  /**
   * Signing up and then signing in with the same email and password
   * returns a token signed over the new user's id, email and role, for any
   * password encoder whose `matches` accepts `encode(password)`; the user
   * table is exactly the one sign-up left.
   */
  method SignupThenSignin(users: UserRepository, email: string, password: string, userRole: string,
                          encode: PasswordEncoder, matches: PasswordMatcher, roleOf: RoleParser,
                          createToken: ClaimsSigner) returns (signedUp: Result<SignupResponse>, signedIn: Result<SigninResponse>)
    requires users.Valid() && !users.HasEmail(email) && roleOf(userRole).Ok?
    requires matches(password, Some(encode(password)))
    modifies users
    ensures var id, role := old(users.nextId), roleOf(userRole).value;
      && signedUp == Ok(SignupResponse(createToken(Some(id), email, role)))
      && signedIn == Ok(SigninResponse(createToken(Some(id), email, role)))
  {
    signedUp := Signup(users, SignupRequest(email, password, userRole), encode, roleOf, createToken);
    ghost var id := old(users.nextId);
    assert users.Records()[id] == users.rows[id].Row();
    signedIn := Signin(users, SigninRequest(email, password), matches, createToken);
  }
}
