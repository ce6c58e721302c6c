/**
 * The authentication manager of the TCP server (`internal/auth`): a table of
 * users by name, a table of live sessions by id, base64 password storage and
 * session ids drawn at random from 100..999. The read/write lock is left out:
 * every operation here runs to completion before the next one starts.
 */
module Auth {
  import opened Wrappers
  import Utf8
  import Base64

  datatype Address = Address(kind: string, details: string)

  /** A registered user; `password` holds the base64 text of the password. */
  datatype User = User(username: string, password: string, fullname: string,
                       emails: seq<string>, addresses: seq<Address>)

  datatype ConnectedClient = ConnectedClient(user: User, sessionId: int)

  datatype AuthError = UserNotFound | InvalidPassword | RandFailure

  /**
   * The error text the server forwards to the client. A failing random source
   * reports whatever its reader's error says; the text here is a placeholder
   * for that message.
   */
  function ErrorText(e: AuthError): string {
    match e
    case UserNotFound => "User not found"
    case InvalidPassword => "Invalid Password"
    case RandFailure => "crypto/rand: read failed"
  }

  /** `EncryptPassword`: the standard base64 text of the password's UTF-8 bytes. */
  function EncryptPassword(password: string): (encrypted: string)
    ensures Base64.Decode(encrypted) == Ok(Utf8.Encode(password))
  {
    Base64.DecodeEncode(Utf8.Encode(password));
    Base64.Encode(Utf8.Encode(password))
  }

  /**
   * `VerifyPassword`: false when the stored text is not valid base64, and
   * otherwise whether the decoded bytes are those of the plaintext.
   */
  function VerifyPassword(plaintext: string, encrypted: string): (ok: bool)
    ensures Base64.Decode(encrypted).Err? ==> !ok
  {
    match Base64.Decode(encrypted)
    case Err(_) => false
    case Ok(decoded) => decoded == Utf8.Encode(plaintext)
  }

  /**
   * A stored password accepts exactly one plaintext: the one it was made
   * from. In particular every password verifies against its own encryption.
   */
  lemma VerifyEncrypt(plaintext: string, password: string)
    ensures VerifyPassword(plaintext, EncryptPassword(password)) <==> plaintext == password
  {
    if VerifyPassword(plaintext, EncryptPassword(password)) {
      Utf8.EncodeInjective(plaintext, password);
    }
  }

  /** Line breaks inside a stored password do not change what it accepts. */
  lemma VerifyIgnoresNewline(plaintext: string, a: string, b: string, nl: char)
    requires nl == '\r' || nl == '\n'
    ensures VerifyPassword(plaintext, a + [nl] + b) == VerifyPassword(plaintext, a + b)
  {
    Base64.DecodeIgnoresNewline(a, b, nl);
  }

  /** One read of the random source: a number below 900, or a failed read. */
  datatype Draw = Drawn(n: nat) | ReadFailed

  /** What `crypto/rand.Int(rand.Reader, 900)` can return. */
  predicate WellFormed(d: Draw) {
    d.Drawn? ==> d.n < 900
  }

  predicate AllWellFormed(draws: seq<Draw>) {
    forall i :: 0 <= i < |draws| ==> WellFormed(draws[i])
  }

  const MinSessionId: int := 100
  const MaxSessionId: int := 999

  /** `GenerateSessionID`: the draw shifted into 100..999, or the read error. */
  function GenerateSessionId(d: Draw): (r: Result<int, AuthError>)
    requires WellFormed(d)
    ensures r.Err? <==> d.ReadFailed?
    ensures r.Ok? ==> MinSessionId <= r.value <= MaxSessionId
    ensures r.Ok? ==> r.value != 0
  {
    match d
    case ReadFailed => Err(RandFailure)
    case Drawn(n) => Ok(n + 100)
  }

  /** A draw ends the retry loop: it fails, or it gives an id that is not live. */
  predicate Stops(d: Draw, live: set<int>) {
    d.ReadFailed? || d.n + 100 !in live
  }

  predicate EventuallyStops(draws: seq<Draw>, live: set<int>) {
    exists k :: 0 <= k < |draws| && Stops(draws[k], live)
  }

  /**
   * The outcome of the retry loop over a supplied sequence of draws: the first
   * draw that stops it decides, failing with the read error or giving a fresh id.
   */
  function PickSession(draws: seq<Draw>, live: set<int>): (r: Result<int, AuthError>)
    requires AllWellFormed(draws) && EventuallyStops(draws, live)
    ensures r.Ok? ==> MinSessionId <= r.value <= MaxSessionId && r.value !in live
    ensures r.Err? ==> r.error == RandFailure
  {
    if Stops(draws[0], live) then GenerateSessionId(draws[0])
    else
      var k :| 0 <= k < |draws| && Stops(draws[k], live);
      assert draws[1..][k - 1] == draws[k];
      PickSession(draws[1..], live)
  }

  /** The loop ends at the first draw that stops it, and every earlier draw named a live id. */
  lemma {:induction false} PickSessionFirst(draws: seq<Draw>, live: set<int>, k: nat)
    requires AllWellFormed(draws) && k < |draws| && Stops(draws[k], live)
    requires forall j :: 0 <= j < k ==> !Stops(draws[j], live)
    ensures PickSession(draws, live) == GenerateSessionId(draws[k])
    decreases k
  {
    if k > 0 {
      assert draws[1..][k - 1] == draws[k];
      PickSessionFirst(draws[1..], live, k - 1);
    }
  }

  /**
   * When all 900 ids are live, no successful draw stops the loop: it can only
   * end on a read error.
   */
  lemma SaturatedNeverStops(live: set<int>, d: Draw)
    requires forall id :: MinSessionId <= id <= MaxSessionId ==> id in live
    requires WellFormed(d) && d.Drawn?
    ensures !Stops(d, live)
  {
    assert MinSessionId <= d.n + 100 <= MaxSessionId;
  }

  /** The ids from `lo` to `hi`. */
  function Ids(lo: int, hi: int): (s: set<int>)
    ensures forall id :: id in s <==> lo <= id <= hi
    ensures lo <= hi + 1 ==> |s| == hi - lo + 1
    decreases hi - lo
  {
    if lo > hi then {} else {lo} + Ids(lo + 1, hi)
  }

  /** A set that holds every id of 100..999 has at least 900 elements. */
  lemma SaturatedCount(live: set<int>)
    requires forall id :: MinSessionId <= id <= MaxSessionId ==> id in live
    ensures |live| >= 900
  {
    var all := Ids(MinSessionId, MaxSessionId);
    assert live == all + (live - all);
  }

  /** Fewer than 900 live sessions leave an id for the loop to find. */
  lemma FreeIdExists(live: set<int>)
    requires |live| < 900
    ensures exists id :: MinSessionId <= id <= MaxSessionId && id !in live
  {
    if forall id :: MinSessionId <= id <= MaxSessionId ==> id in live {
      SaturatedCount(live);
    }
  }

  /** `AuthenticateUser` as a function of the tables and the draws it gets. */
  function Authenticate(users: map<string, User>, live: set<int>, username: string,
                        password: string, draws: seq<Draw>): (r: Result<int, AuthError>)
    requires AllWellFormed(draws)
    requires username in users && VerifyPassword(password, users[username].password)
      ==> EventuallyStops(draws, live)
  {
    if username !in users then Err(UserNotFound)
    else if !VerifyPassword(password, users[username].password) then Err(InvalidPassword)
    else PickSession(draws, live)
  }

  /**
   * What authentication promises: an unknown name fails with "User not found",
   * a wrong password with "Invalid Password", and success means the name is
   * known, the password verifies and the id is in 100..999 and not live.
   */
  lemma AuthenticateOutcome(users: map<string, User>, live: set<int>, username: string,
                            password: string, draws: seq<Draw>)
    requires AllWellFormed(draws)
    requires username in users && VerifyPassword(password, users[username].password)
      ==> EventuallyStops(draws, live)
    ensures var r := Authenticate(users, live, username, password, draws);
      && (r == Err(UserNotFound) <==> username !in users)
      && (r == Err(InvalidPassword) <==> username in users && !VerifyPassword(password, users[username].password))
      && (r.Ok? ==> username in users && VerifyPassword(password, users[username].password)
                    && MinSessionId <= r.value <= MaxSessionId && r.value !in live)
  {
  }

  /** The username table `NewAuthManager` builds: later users replace earlier ones of the same name. */
  function UserMap(list: seq<User>): (m: map<string, User>)
    ensures forall name :: name in m ==> m[name].username == name
  {
    if list == [] then map[]
    else UserMap(list[..|list| - 1])[list[|list| - 1].username := list[|list| - 1]]
  }

  /** Every supplied user is reachable by name, and only supplied names are keys. */
  lemma {:induction false} UserMapKeys(list: seq<User>)
    ensures UserMap(list).Keys == set i | 0 <= i < |list| :: list[i].username
  {
    if list != [] {
      var init := list[..|list| - 1];
      UserMapKeys(init);
      assert forall i :: 0 <= i < |init| ==> init[i] == list[i];
    }
  }

  /** For a repeated username the last user in the list wins. */
  lemma {:induction false} UserMapLastWins(list: seq<User>, i: nat)
    requires i < |list|
    requires forall j :: i < j < |list| ==> list[j].username != list[i].username
    ensures list[i].username in UserMap(list) && UserMap(list)[list[i].username] == list[i]
  {
    if i < |list| - 1 {
      var init := list[..|list| - 1];
      UserMapLastWins(init, i);
    }
  }

  class AuthManager {
    /** username -> user; never changed after construction. */
    var users: map<string, User>
    /** session id -> connected client. */
    var connectedUsers: map<int, ConnectedClient>

    /** Users are keyed by their own name; live sessions carry their own id, lie in 100..999 and belong to a known user. */
    ghost predicate Valid()
      reads this
    {
      && (forall name :: name in users ==> users[name].username == name)
      && (forall id :: id in connectedUsers ==>
            && MinSessionId <= id <= MaxSessionId
            && connectedUsers[id].sessionId == id
            && connectedUsers[id].user.username in users
            && users[connectedUsers[id].user.username] == connectedUsers[id].user)
    }

    /** `NewAuthManager`: index the users by name; no sessions yet. */
    constructor (list: seq<User>)
      ensures Valid()
      ensures users == UserMap(list) && connectedUsers == map[]
    {
      var m: map<string, User> := map[];
      for i := 0 to |list|
        invariant m == UserMap(list[..i])
      {
        assert list[..i + 1][..i] == list[..i];
        m := m[list[i].username := list[i]];
      }
      assert list[..|list|] == list;
      users := m;
      connectedUsers := map[];
    }

    /** `ValidateSession`: whether the id is a live session. */
    function ValidateSession(sessionId: int): (live: bool)
      reads this
      ensures live ==> sessionId in connectedUsers.Keys
      ensures !live ==> sessionId !in connectedUsers.Keys
    {
      sessionId in connectedUsers
    }

    /**
     * `AuthenticateUser`: look the user up, verify the password, then draw ids
     * until one is not live and record the session under it. Failures leave
     * both tables as they were; success adds exactly one session, and no
     * session is ever removed.
     */
    method AuthenticateUser(username: string, password: string, draws: seq<Draw>)
      returns (result: Result<int, AuthError>)
      requires Valid() && AllWellFormed(draws)
      requires username in users && VerifyPassword(password, users[username].password)
        ==> EventuallyStops(draws, connectedUsers.Keys)
      modifies this
      ensures Valid()
      ensures result == Authenticate(old(users), old(connectedUsers).Keys, username, password, draws)
      ensures users == old(users)
      ensures result.Err? ==> connectedUsers == old(connectedUsers)
      ensures result.Ok? ==>
        && result.value !in old(connectedUsers)
        && connectedUsers == old(connectedUsers)[result.value := ConnectedClient(users[username], result.value)]
    {
      if username !in users {
        return Err(UserNotFound);
      }
      var user := users[username];
      if !VerifyPassword(password, user.password) {
        return Err(InvalidPassword);
      }
      var generated := NewSessionId(draws);
      if generated.Err? {
        return generated;
      }
      var sessionId := generated.value;
      connectedUsers := connectedUsers[sessionId := ConnectedClient(user, sessionId)];
      result := Ok(sessionId);
    }

    /**
     * The retry loop of `AuthenticateUser`: draw ids until one is not live,
     * stopping at the first failed read.
     */
    method NewSessionId(draws: seq<Draw>) returns (result: Result<int, AuthError>)
      requires AllWellFormed(draws) && EventuallyStops(draws, connectedUsers.Keys)
      ensures result == PickSession(draws, connectedUsers.Keys)
    {
      var i := 0;
      var generated := GenerateSessionId(draws[0]);
      if generated.Err? {
        PickSessionFirst(draws, connectedUsers.Keys, 0);
        return generated;
      }
      var sessionId := generated.value;
      while sessionId in connectedUsers
        invariant 0 <= i < |draws| && draws[i].Drawn? && sessionId == draws[i].n + 100
        invariant forall j :: 0 <= j < i ==> !Stops(draws[j], connectedUsers.Keys)
        decreases |draws| - i
      {
        ghost var k :| 0 <= k < |draws| && Stops(draws[k], connectedUsers.Keys);
        assert k > i;
        i := i + 1;
        generated := GenerateSessionId(draws[i]);
        if generated.Err? {
          PickSessionFirst(draws, connectedUsers.Keys, i);
          return generated;
        }
        sessionId := generated.value;
      }
      PickSessionFirst(draws, connectedUsers.Keys, i);
      result := Ok(sessionId);
    }
  }
}
