/** internal/auth/service.go. Password hashing, token signing and random bytes are foreign: whether
    each succeeds, and what a random read returns, are parameters of the call. */
module Auth {
  import opened Wrappers
  import opened Rooms

  /** The users table: usernames are unique, rows are never deleted. */
  type Users = map<Text, Text>

  /** A signed access token is its claims; the expiry time is left out. */
  datatype Access = Access(sub: Text, uid: Text)

  datatype AuthError =
    | EmptyUsername | EmptyPassword | BadUsername | UserQueryFailed | Taken | HashFailed | CreateFailed
    | InvalidCredentials | WrongPassword | SignFailed | RandFailed | EmptyToken | InvalidToken

  datatype RegisterMoment = RegisterMoment(findFails: bool, hashFails: bool, createFails: bool, freshId: Text)

  datatype LoginMoment = LoginMoment(findFails: bool, passwordMatches: bool, signFails: bool, issue: IssueMoment)

  datatype IssueMoment = IssueMoment(randFails: bool, token: Text)

  datatype RefreshMoment = RefreshMoment(findFails: bool, signFails: bool, randFails: bool, token: Text)

  predicate IsWordByte(b: int) {
    48 <= b <= 57 || 65 <= b <= 90 || b == 95 || 97 <= b <= 122
  }

  /** ValidateUsername: 3 to 32 letters, digits or underscores. */
  predicate ValidUsername(u: Text) {
    3 <= |u| <= 32 && forall i | 0 <= i < |u| :: IsWordByte(u[i] as int)
  }

  /** Delete the token before anything can fail; mint a successor for the same user if nothing does. */
  function Redeem(users: Users, live: map<Text, Text>, token: Text, m: RefreshMoment)
    : (map<Text, Text>, Result<(Access, Text), AuthError>)
  {
    if token == [] then (live, Err(EmptyToken))
    else if token !in live then (live, Err(InvalidToken))
    else
      var user := live[token];
      if m.findFails || user !in users then (live - {token}, Err(InvalidToken))
      else if m.signFails then (live - {token}, Err(SignFailed))
      else if m.randFails then (live - {token}, Err(RandFailed))
      else ((live - {token})[m.token := user], Ok((Access(user, users[user]), m.token)))
  }

  function Issue(live: map<Text, Text>, user: Text, m: IssueMoment): (map<Text, Text>, Result<Text, AuthError>) {
    if user == [] then (live, Err(EmptyUsername))
    else if m.randFails then (live, Err(RandFailed))
    else (live[m.token := user], Ok(m.token))
  }

  class AuthService {
    var users: Users
    var refreshTokens: map<Text, Text>

    constructor (users: Users)
      ensures this.users == users && refreshTokens == map[]
    {
      this.users := users;
      this.refreshTokens := map[];
    }

    /** Ok exactly when a new user row was inserted, and then nothing else changed. */
    method Register(username: Text, password: Text, m: RegisterMoment) returns (r: Result<(), AuthError>)
      modifies this`users
      ensures r.Ok? <==> ValidUsername(username) && password != [] && username !in old(users)
                         && !m.findFails && !m.hashFails && !m.createFails
      ensures r == Err(EmptyUsername) <==> username == []
      ensures r == Err(EmptyPassword) <==> username != [] && password == []
      ensures r == Err(BadUsername) <==> username != [] && password != [] && !ValidUsername(username)
      ensures r == Err(Taken) <==> ValidUsername(username) && password != [] && !m.findFails && username in old(users)
      ensures users == if r.Ok? then old(users)[username := m.freshId] else old(users)
    {
      if |username| == 0 {
        return Err(EmptyUsername);
      }
      if |password| == 0 {
        return Err(EmptyPassword);
      }
      if !ValidUsername(username) {
        return Err(BadUsername);
      }
      if m.findFails {
        return Err(UserQueryFailed);
      }
      if username in users {
        return Err(Taken);
      }
      if m.hashFails {
        return Err(HashFailed);
      }
      if m.createFails {
        return Err(AuthError.CreateFailed);
      }
      users := users[username := m.freshId];
      return Ok(());
    }

    method IssueRefreshToken(username: Text, m: IssueMoment) returns (r: Result<Text, AuthError>)
      modifies this`refreshTokens
      ensures (refreshTokens, r) == Issue(old(refreshTokens), username, m)
    {
      if |username| == 0 {
        return Err(EmptyUsername);
      }
      if m.randFails {
        return Err(RandFailed);
      }
      refreshTokens := refreshTokens[m.token := username];
      return Ok(m.token);
    }

    /** Both tokens or neither: the access token names the stored user, the refresh token is live for them. */
    method Login(username: Text, password: Text, m: LoginMoment) returns (r: Result<(Access, Text), AuthError>)
      modifies this`refreshTokens
      ensures r.Ok? <==> username != [] && password != [] && username in users
                         && !m.findFails && m.passwordMatches && !m.signFails && !m.issue.randFails
      ensures r == Err(EmptyUsername) <==> username == []
      ensures r == Err(EmptyPassword) <==> username != [] && password == []
      ensures r == Err(InvalidCredentials) <==>
              username != [] && password != [] && !m.findFails && username !in users
      ensures r == Err(WrongPassword) <==>
              username != [] && password != [] && !m.findFails && username in users && !m.passwordMatches
      ensures r.Ok? ==> r.value == (Access(username, users[username]), m.issue.token)
      ensures refreshTokens == if r.Ok? then old(refreshTokens)[m.issue.token := username] else old(refreshTokens)
    {
      if |username| == 0 {
        return Err(EmptyUsername);
      }
      if |password| == 0 {
        return Err(EmptyPassword);
      }
      if m.findFails {
        return Err(UserQueryFailed);
      }
      if username !in users {
        return Err(InvalidCredentials);
      }
      if !m.passwordMatches {
        return Err(WrongPassword);
      }
      var access := Access(username, users[username]);
      if m.signFails {
        return Err(SignFailed);
      }
      var issued := IssueRefreshToken(username, m.issue);
      if issued.Err? {
        return Err(issued.error);
      }
      return Ok((access, issued.value));
    }

    method Refresh(refreshToken: Text, m: RefreshMoment) returns (r: Result<(Access, Text), AuthError>)
      modifies this`refreshTokens
      ensures (refreshTokens, r) == Redeem(users, old(refreshTokens), refreshToken, m)
    {
      if |refreshToken| == 0 {
        return Err(EmptyToken);
      }
      if refreshToken !in refreshTokens {
        return Err(InvalidToken);
      }
      var username := refreshTokens[refreshToken];
      refreshTokens := refreshTokens - {refreshToken};
      if m.findFails || username !in users {
        return Err(InvalidToken);
      }
      if m.signFails {
        return Err(SignFailed);
      }
      var access := Access(username, users[username]);
      if m.randFails {
        return Err(RandFailed);
      }
      refreshTokens := refreshTokens[m.token := username];
      return Ok((access, m.token));
    }
  }
}
