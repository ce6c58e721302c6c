/**
 * `handleConnection` of the TCP server: after a welcome frame, each message
 * read from the connection gets exactly one reply frame and may change the
 * connection's two variables, whether it is authenticated and the session id
 * bound to it. The socket becomes a sequence of incoming lines and a list of
 * reply frames; a failed read (end of input or a line the decoder rejects)
 * ends the connection. Lines are read with `Protocol.Decode`, the decoder
 * as written.
 */
module Server {
  import opened Wrappers
  import opened Strings
  import opened Protocol
  import opened Auth

  const Welcome: string := "Welcome to TCP Socket Server! Please use AUTH username password to login."

  /** The connection's variables: the bound session id, whether it is authenticated, whether the loop still runs. */
  datatype Conn = Conn(sessionId: int, authenticated: bool, open: bool)

  const Anonymous: Conn := Conn(0, false, true)

  /** An anonymous connection carries id 0; an authenticated one a live id of 100..999. */
  predicate ConnOk(c: Conn, live: set<int>) {
    && (!c.authenticated ==> c.sessionId == 0)
    && (c.authenticated ==> c.sessionId in live && MinSessionId <= c.sessionId <= MaxSessionId)
  }

  /** The reply to one message, the connection afterwards, and the session it opened, if any. */
  datatype Outcome = Outcome(next: Conn, reply: Message, login: Option<ConnectedClient>)

  /** Whether answering this message calls `AuthenticateUser` all the way to its retry loop. */
  predicate DrawsFor(c: Conn, users: map<string, User>, msg: Message) {
    && !c.authenticated && msg.command == CmdAuth
    && SplitFirst(msg.payload, ' ').Some?
    && var (username, password) := SplitFirst(msg.payload, ' ').value;
       username in users && VerifyPassword(password, users[username].password)
  }

  function Reply(sessionId: int, command: Command, payload: string): Message {
    Message(sessionId, command, payload)
  }

  /** The reply to a successful login: the new id, in the frame's header and in the text. */
  function LoginOk(id: int): Message {
    Reply(id, "OK", "Authentication Successful. Your session ID is " + IntToDecimal(id))
  }

  /** The reply to a failed login, carrying the authentication error's text. */
  function LoginFailed(e: AuthError): Message {
    Reply(0, "ERROR", "Authentication Failed: " + Auth.ErrorText(e))
  }

  /**
   * One turn of the dispatch loop. AUTH: refused when already authenticated,
   * when the payload has no space, or when authentication fails; otherwise
   * the new id is bound. QUIT: refused when authenticated under another id,
   * otherwise BYE and the loop ends. Anything else: refused when anonymous
   * or under another id, otherwise echoed.
   */
  function Respond(c: Conn, users: map<string, User>, live: set<int>, msg: Message, draws: seq<Draw>): (o: Outcome)
    requires c.open && AllWellFormed(draws)
    requires DrawsFor(c, users, msg) ==> EventuallyStops(draws, live)
    ensures o.login.Some? <==> !c.authenticated && o.next.authenticated
    ensures o.login.Some? ==>
      && o.login.value.sessionId == o.next.sessionId && o.next.sessionId !in live
      && MinSessionId <= o.next.sessionId <= MaxSessionId
      && o.login.value.user in users.Values
    ensures o.next.sessionId != c.sessionId ==> o.login.Some?
    ensures !o.next.open <==> msg.command == CmdQuit && (!c.authenticated || msg.sessionId == c.sessionId)
  {
    if msg.command == CmdAuth then
      if c.authenticated then Outcome(c, Reply(c.sessionId, "ERROR", "Already authenticated"), None)
      else
        match SplitFirst(msg.payload, ' ')
        case None => Outcome(c, Reply(0, "ERROR", "Invalid auth format"), None)
        case Some((username, password)) =>
          AuthenticateOutcome(users, live, username, password, draws);
          match Authenticate(users, live, username, password, draws)
          case Err(e) => Outcome(c, LoginFailed(e), None)
          case Ok(id) =>
            Outcome(Conn(id, true, true),
                    LoginOk(id),
                    Some(ConnectedClient(users[username], id)))
    else if msg.command == CmdQuit then
      if c.authenticated && msg.sessionId != c.sessionId then
        Outcome(c, Reply(c.sessionId, "ERROR", "Invalid session ID"), None)
      else
        Outcome(c.(open := false), Reply(if c.authenticated then c.sessionId else 0, "BYE", "Goodbye!"), None)
    else if !c.authenticated then Outcome(c, Reply(0, "ERROR", "Not authenticated"), None)
    else if msg.sessionId != c.sessionId then Outcome(c, Reply(c.sessionId, "ERROR", "Invalid session ID"), None)
    else Outcome(c, Reply(c.sessionId, "ECHO", "Received command: " + msg.command + " with payload: " + msg.payload), None)
  }

  /** An AUTH turn of an anonymous connection whose payload splits: the outcome follows `Authenticate`. */
  lemma RespondAuth(c: Conn, users: map<string, User>, live: set<int>, msg: Message, draws: seq<Draw>,
                    username: string, password: string)
    requires c.open && AllWellFormed(draws) && !c.authenticated && msg.command == CmdAuth
    requires SplitFirst(msg.payload, ' ') == Some((username, password))
    requires DrawsFor(c, users, msg) ==> EventuallyStops(draws, live)
    ensures var r := Authenticate(users, live, username, password, draws);
      Respond(c, users, live, msg, draws) == match r
        case Err(e) => Outcome(c, LoginFailed(e), None)
        case Ok(id) =>
          Outcome(Conn(id, true, true),
                  LoginOk(id),
                  Some(ConnectedClient(users[username], id)))
  {
  }

  /** The session table after a turn. */
  function Record(sessions: map<int, ConnectedClient>, o: Outcome): map<int, ConnectedClient> {
    match o.login
    case None => sessions
    case Some(client) => sessions[client.sessionId := client]
  }

  /**
   * Every reply is tagged with the id the connection holds afterwards, or 0
   * while it is anonymous; the connection stays well formed; and a bound id
   * never changes.
   */
  lemma RespondKeepsBinding(c: Conn, users: map<string, User>, sessions: map<int, ConnectedClient>,
                            msg: Message, draws: seq<Draw>)
    requires c.open && AllWellFormed(draws)
    requires DrawsFor(c, users, msg) ==> EventuallyStops(draws, sessions.Keys)
    requires ConnOk(c, sessions.Keys)
    ensures var o := Respond(c, users, sessions.Keys, msg, draws);
      && o.reply.sessionId == (if o.next.authenticated then o.next.sessionId else 0)
      && ConnOk(o.next, Record(sessions, o).Keys)
      && (c.authenticated ==> o.next.authenticated && o.next.sessionId == c.sessionId && o.login.None?)
  {
  }

  /** A turn never removes or alters a session, and adds at most the one it opened. */
  lemma RecordGrows(sessions: map<int, ConnectedClient>, o: Outcome)
    requires o.login.Some? ==> o.login.value.sessionId !in sessions
    ensures forall id :: id in sessions ==> id in Record(sessions, o) && Record(sessions, o)[id] == sessions[id]
    ensures |Record(sessions, o).Keys| == |sessions.Keys| + (if o.login.Some? then 1 else 0)
  {
    if o.login.Some? {
      assert Record(sessions, o).Keys == sessions.Keys + {o.login.value.sessionId};
    }
  }

  /** An anonymous connection refuses every command but AUTH and QUIT, without changing anything. */
  lemma RespondAnonymousGuard(c: Conn, users: map<string, User>, live: set<int>, msg: Message, draws: seq<Draw>)
    requires c.open && AllWellFormed(draws) && !c.authenticated
    requires msg.command != CmdAuth && msg.command != CmdQuit
    ensures Respond(c, users, live, msg, draws) == Outcome(c, Reply(0, "ERROR", "Not authenticated"), None)
  {
  }

  /** A second AUTH on a bound connection is refused under the bound id, and nothing changes. */
  lemma RespondAlreadyAuthenticated(c: Conn, users: map<string, User>, live: set<int>, msg: Message, draws: seq<Draw>)
    requires c.open && AllWellFormed(draws) && c.authenticated
    requires msg.command == CmdAuth
    ensures Respond(c, users, live, msg, draws) == Outcome(c, Reply(c.sessionId, "ERROR", "Already authenticated"), None)
  {
  }

  /** An anonymous AUTH whose payload has no space is refused with "Invalid auth format" under id 0, and nothing changes. */
  lemma RespondBadAuthFormat(c: Conn, users: map<string, User>, live: set<int>, msg: Message, draws: seq<Draw>)
    requires c.open && AllWellFormed(draws) && !c.authenticated
    requires msg.command == CmdAuth && Lacks(msg.payload, ' ')
    ensures Respond(c, users, live, msg, draws) == Outcome(c, Reply(0, "ERROR", "Invalid auth format"), None)
  {
  }

  /**
   * On a bound connection, any command but AUTH under a foreign id, QUIT
   * included, is refused with "Invalid session ID" under the bound id; the
   * connection stays open and nothing changes.
   */
  lemma RespondSessionMismatch(c: Conn, users: map<string, User>, live: set<int>, msg: Message, draws: seq<Draw>)
    requires c.open && AllWellFormed(draws) && c.authenticated
    requires msg.command != CmdAuth && msg.sessionId != c.sessionId
    ensures Respond(c, users, live, msg, draws) == Outcome(c, Reply(c.sessionId, "ERROR", "Invalid session ID"), None)
  {
  }

  /**
   * On a bound connection, a command other than AUTH and QUIT under the bound
   * id is echoed back with its command and payload, and nothing changes.
   */
  lemma RespondEcho(c: Conn, users: map<string, User>, live: set<int>, msg: Message, draws: seq<Draw>)
    requires c.open && AllWellFormed(draws) && c.authenticated
    requires msg.command != CmdAuth && msg.command != CmdQuit && msg.sessionId == c.sessionId
    ensures Respond(c, users, live, msg, draws)
         == Outcome(c, Reply(c.sessionId, "ECHO", "Received command: " + msg.command + " with payload: " + msg.payload), None)
  {
  }

  /** Whether the loop is still running after reading `lines`, for `Converse`'s draws. */
  predicate DrawsSuffice(c: Conn, live: set<int>, draws: seq<seq<Draw>>) {
    && (forall i :: 0 <= i < |draws| ==> AllWellFormed(draws[i]))
    && (!c.authenticated ==> forall i :: 0 <= i < |draws| ==> EventuallyStops(draws[i], live))
  }

  /**
   * Draws that suffice before a turn suffice for that turn and, without the
   * first, for the rest: a connection that stays anonymous keeps the same live
   * set, and an authenticated one needs no draws that stop.
   */
  lemma SufficeAfterTurn(c: Conn, users: map<string, User>, sessions: map<int, ConnectedClient>,
                         msg: Message, draws: seq<seq<Draw>>)
    requires c.open && draws != [] && DrawsSuffice(c, sessions.Keys, draws)
    ensures DrawsFor(c, users, msg) ==> EventuallyStops(draws[0], sessions.Keys)
    ensures var o := Respond(c, users, sessions.Keys, msg, draws[0]);
      DrawsSuffice(o.next, Record(sessions, o).Keys, draws[1..])
  {
    var o := Respond(c, users, sessions.Keys, msg, draws[0]);
    if !o.next.authenticated {
      assert Record(sessions, o) == sessions;
    }
  }

  /** The result of a whole conversation: the final connection, the replies, the session table. */
  datatype Transcript = Transcript(last: Conn, replies: seq<Message>, sessions: map<int, ConnectedClient>)

  /**
   * The dispatch loop over the lines a client sends, with the random draws
   * each line's turn may use: it stops at a QUIT that is answered with BYE,
   * at a line the decoder rejects, or at the end of input.
   */
  function Converse(c: Conn, users: map<string, User>, sessions: map<int, ConnectedClient>,
                    lines: seq<string>, draws: seq<seq<Draw>>): (t: Transcript)
    requires |draws| == |lines| && DrawsSuffice(c, sessions.Keys, draws)
    ensures !t.last.open
    ensures |t.replies| <= |lines|
    decreases |lines|
  {
    if !c.open then Transcript(c, [], sessions)
    else if lines == [] then Transcript(c.(open := false), [], sessions)
    else
      match Decode(lines[0])
      case Err(_) => Transcript(c.(open := false), [], sessions)
      case Ok(msg) =>
        SufficeAfterTurn(c, users, sessions, msg, draws);
        var o := Respond(c, users, sessions.Keys, msg, draws[0]);
        var rest := Converse(o.next, users, Record(sessions, o), lines[1..], draws[1..]);
        Transcript(rest.last, [o.reply] + rest.replies, rest.sessions)
  }

  /** One turn of `Converse` on a line the decoder accepts. */
  lemma ConverseTurn(c: Conn, users: map<string, User>, sessions: map<int, ConnectedClient>,
                     lines: seq<string>, draws: seq<seq<Draw>>, msg: Message)
    requires |draws| == |lines| && DrawsSuffice(c, sessions.Keys, draws)
    requires c.open && lines != [] && Decode(lines[0]) == Ok(msg)
    ensures var o := Respond(c, users, sessions.Keys, msg, draws[0]);
      && DrawsSuffice(o.next, Record(sessions, o).Keys, draws[1..])
      && var rest := Converse(o.next, users, Record(sessions, o), lines[1..], draws[1..]);
         Converse(c, users, sessions, lines, draws) == Transcript(rest.last, [o.reply] + rest.replies, rest.sessions)
  {
  }

  /** `Converse` once the loop has stopped, at the end of input, or at a rejected line. */
  lemma ConverseStops(c: Conn, users: map<string, User>, sessions: map<int, ConnectedClient>,
                      lines: seq<string>, draws: seq<seq<Draw>>)
    requires |draws| == |lines| && DrawsSuffice(c, sessions.Keys, draws)
    requires !c.open || lines == [] || Decode(lines[0]).Err?
    ensures Converse(c, users, sessions, lines, draws) == Transcript(c.(open := false), [], sessions)
  {
  }

  /**
   * Over a whole conversation the connection opens at most one session, keeps
   * every session that was live, and once bound keeps its id to the end.
   */
  lemma {:induction false} ConverseOneSession(c: Conn, users: map<string, User>, sessions: map<int, ConnectedClient>,
                                              lines: seq<string>, draws: seq<seq<Draw>>)
    requires |draws| == |lines| && DrawsSuffice(c, sessions.Keys, draws) && ConnOk(c, sessions.Keys)
    ensures var t := Converse(c, users, sessions, lines, draws);
      && (forall id :: id in sessions ==> id in t.sessions && t.sessions[id] == sessions[id])
      && |t.sessions.Keys| <= |sessions.Keys| + 1
      && (c.authenticated ==> t.sessions == sessions && t.last.sessionId == c.sessionId && t.last.authenticated)
      && ConnOk(t.last, t.sessions.Keys)
    decreases |lines|
  {
    if c.open && lines != [] && Decode(lines[0]).Ok? {
      var msg := Decode(lines[0]).value;
      var o := Respond(c, users, sessions.Keys, msg, draws[0]);
      var next := Record(sessions, o);
      RespondKeepsBinding(c, users, sessions, msg, draws[0]);
      RecordGrows(sessions, o);
      SufficeAfterTurn(c, users, sessions, msg, draws);
      ConverseOneSession(o.next, users, next, lines[1..], draws[1..]);
      if o.login.Some? {
        ConverseStaysBound(o.next, users, next, lines[1..], draws[1..]);
      }
    }
  }

  /** Once authenticated, the rest of the conversation opens no session and keeps the id. */
  lemma {:induction false} ConverseStaysBound(c: Conn, users: map<string, User>, sessions: map<int, ConnectedClient>,
                                              lines: seq<string>, draws: seq<seq<Draw>>)
    requires |draws| == |lines| && DrawsSuffice(c, sessions.Keys, draws) && ConnOk(c, sessions.Keys)
    requires c.authenticated
    ensures var t := Converse(c, users, sessions, lines, draws);
      t.sessions == sessions && t.last.sessionId == c.sessionId && t.last.authenticated
    decreases |lines|
  {
    if c.open && lines != [] && Decode(lines[0]).Ok? {
      var msg := Decode(lines[0]).value;
      RespondKeepsBinding(c, users, sessions, msg, draws[0]);
      ConverseStaysBound(Respond(c, users, sessions.Keys, msg, draws[0]).next, users, sessions, lines[1..], draws[1..]);
    }
  }

  /**
   * The QUIT line the client writes has an empty payload. The decoder rejects
   * it, so the connection closes without a BYE and without any other reply.
   */
  lemma ClientQuitGetsNoReply(c: Conn, users: map<string, User>, sessions: map<int, ConnectedClient>,
                              rest: seq<string>, draws: seq<seq<Draw>>)
    requires c.open && ConnOk(c, sessions.Keys)
    requires |draws| == |rest| + 1 && DrawsSuffice(c, sessions.Keys, draws)
    ensures Converse(c, users, sessions, [Encode(c.sessionId, CmdQuit, "")] + rest, draws)
      == Transcript(c.(open := false), [], sessions)
  {
    var lines := [Encode(c.sessionId, CmdQuit, "")] + rest;
    assert IsInt64(c.sessionId);
    DecodeRejectsEmptyPayloadQuit(c.sessionId);
    ConverseStops(c, users, sessions, lines, draws);
  }

  /**
   * A QUIT frame with a payload the decoder keeps, under the connection's own
   * id, gets a BYE tagged with that id and ends the conversation with nothing
   * else changed.
   */
  lemma QuitSaysGoodbye(c: Conn, users: map<string, User>, sessions: map<int, ConnectedClient>,
                        payload: string, rest: seq<string>, draws: seq<seq<Draw>>)
    requires c.open && ConnOk(c, sessions.Keys) && TrimSafe(payload)
    requires |draws| == |rest| + 1 && DrawsSuffice(c, sessions.Keys, draws)
    ensures Converse(c, users, sessions, [Encode(c.sessionId, CmdQuit, payload)] + rest, draws)
      == Transcript(c.(open := false), [Reply(c.sessionId, "BYE", "Goodbye!")], sessions)
  {
    var lines := [Encode(c.sessionId, CmdQuit, payload)] + rest;
    var msg := Message(c.sessionId, CmdQuit, payload);
    assert IsInt64(c.sessionId);
    assert Lacks(CmdQuit, ' ');
    DecodeEncode(c.sessionId, CmdQuit, payload);
    assert Respond(c, users, sessions.Keys, msg, draws[0])
      == Outcome(c.(open := false), Reply(c.sessionId, "BYE", "Goodbye!"), None);
    ConverseTurn(c, users, sessions, lines, draws, msg);
  }

  /**
   * The read loop's invariant: what is left of the conversation, from state
   * `c` on the remaining lines, ends where the whole one does, and the frames
   * sent so far followed by the remaining replies are all the replies.
   */
  predicate Tracks(c: Conn, users: map<string, User>, sessions: map<int, ConnectedClient>,
                   lines: seq<string>, draws: seq<seq<Draw>>, whole: Transcript, sent0: seq<Message>, sent: seq<Message>)
  {
    && |draws| == |lines| && DrawsSuffice(c, sessions.Keys, draws)
    && var t := Converse(c, users, sessions, lines, draws);
       t.last == whole.last && t.sessions == whole.sessions && sent0 + whole.replies == sent + t.replies
  }

  lemma AppendRegroup<T>(a: seq<T>, b: seq<T>, c: seq<T>)
    ensures a + (b + c) == (a + b) + c
  {
  }

  lemma TracksTurn(c: Conn, users: map<string, User>, sessions: map<int, ConnectedClient>,
                   lines: seq<string>, draws: seq<seq<Draw>>, whole: Transcript, sent0: seq<Message>, sent: seq<Message>,
                   msg: Message)
    requires Tracks(c, users, sessions, lines, draws, whole, sent0, sent)
    requires c.open && lines != [] && Decode(lines[0]) == Ok(msg)
    ensures var o := Respond(c, users, sessions.Keys, msg, draws[0]);
      Tracks(o.next, users, Record(sessions, o), lines[1..], draws[1..], whole, sent0, sent + [o.reply])
  {
    var o := Respond(c, users, sessions.Keys, msg, draws[0]);
    ConverseTurn(c, users, sessions, lines, draws, msg);
    var rest := Converse(o.next, users, Record(sessions, o), lines[1..], draws[1..]);
    AppendRegroup(sent, [o.reply], rest.replies);
  }

  lemma TracksStop(c: Conn, users: map<string, User>, sessions: map<int, ConnectedClient>,
                   lines: seq<string>, draws: seq<seq<Draw>>, whole: Transcript, sent0: seq<Message>, sent: seq<Message>)
    requires Tracks(c, users, sessions, lines, draws, whole, sent0, sent)
    requires !c.open || lines == [] || Decode(lines[0]).Err?
    ensures c.(open := false) == whole.last && sessions == whole.sessions && sent == sent0 + whole.replies
    ensures Tracks(c.(open := false), users, sessions, lines, draws, whole, sent0, sent)
  {
    ConverseStops(c, users, sessions, lines, draws);
    ConverseStops(c.(open := false), users, sessions, lines, draws);
  }

  class Connection {
    const auth: AuthManager
    var sessionId: int
    var authenticated: bool
    var open: bool
    /** The frames written so far, oldest first; `Encode` gives their text. */
    var sent: seq<Message>

    function State(): Conn
      reads this
    {
      Conn(sessionId, authenticated, open)
    }

    ghost predicate Valid()
      reads this, auth
    {
      auth.Valid() && ConnOk(State(), auth.connectedUsers.Keys)
    }

    /** A new connection is anonymous, with session id 0, and has sent the welcome frame. */
    constructor (auth: AuthManager)
      requires auth.Valid()
      ensures this.auth == auth && Valid()
      ensures State() == Anonymous
      ensures sent == [Reply(0, "SERVER", Welcome)]
    {
      this.auth := auth;
      sessionId := 0;
      authenticated := false;
      open := true;
      sent := [Reply(0, "SERVER", Welcome)];
    }

    /** One turn of the loop: exactly one reply frame, and the state `Respond` gives. */
    method Handle(msg: Message, draws: seq<Draw>)
      requires Valid() && open && AllWellFormed(draws)
      requires DrawsFor(State(), auth.users, msg) ==> EventuallyStops(draws, auth.connectedUsers.Keys)
      modifies this, auth
      ensures Valid()
      ensures var o := Respond(old(State()), old(auth.users), old(auth.connectedUsers).Keys, msg, draws);
        && State() == o.next
        && sent == old(sent) + [o.reply]
        && auth.connectedUsers == Record(old(auth.connectedUsers), o)
      ensures auth.users == old(auth.users)
    {
      if msg.command == CmdAuth {
        HandleAuth(msg, draws);
      } else {
        HandleOther(msg, draws);
      }
    }

    /** The AUTH branch of `Handle`. */
    method HandleAuth(msg: Message, draws: seq<Draw>)
      requires Valid() && open && AllWellFormed(draws) && msg.command == CmdAuth
      requires DrawsFor(State(), auth.users, msg) ==> EventuallyStops(draws, auth.connectedUsers.Keys)
      modifies this, auth
      ensures Valid()
      ensures var o := Respond(old(State()), old(auth.users), old(auth.connectedUsers).Keys, msg, draws);
        && State() == o.next
        && sent == old(sent) + [o.reply]
        && auth.connectedUsers == Record(old(auth.connectedUsers), o)
      ensures auth.users == old(auth.users)
    {
      RespondKeepsBinding(State(), auth.users, auth.connectedUsers, msg, draws);
      if authenticated {
        sent := sent + [Reply(sessionId, "ERROR", "Already authenticated")];
        return;
      }
      var parts := SplitFirst(msg.payload, ' ');
      if parts.None? {
        sent := sent + [Reply(0, "ERROR", "Invalid auth format")];
        return;
      }
      var (username, password) := parts.value;
      RespondAuth(State(), auth.users, auth.connectedUsers.Keys, msg, draws, username, password);
      Login(username, password, draws);
    }

    /** The login step of an AUTH turn: authenticate, then bind the new id or report the failure. */
    method Login(username: string, password: string, draws: seq<Draw>)
      requires Valid() && open && !authenticated && AllWellFormed(draws)
      requires username in auth.users && VerifyPassword(password, auth.users[username].password)
        ==> EventuallyStops(draws, auth.connectedUsers.Keys)
      modifies this, auth
      ensures Valid() && auth.users == old(auth.users)
      ensures var r := Authenticate(old(auth.users), old(auth.connectedUsers).Keys, username, password, draws);
        && (r.Err? ==>
              && State() == old(State()) && auth.connectedUsers == old(auth.connectedUsers)
              && sent == old(sent) + [LoginFailed(r.error)])
        && (r.Ok? ==>
              && State() == Conn(r.value, true, true)
              && auth.connectedUsers == old(auth.connectedUsers)[r.value := ConnectedClient(old(auth.users)[username], r.value)]
              && sent == old(sent) + [LoginOk(r.value)])
    {
      AuthenticateOutcome(auth.users, auth.connectedUsers.Keys, username, password, draws);
      var result := auth.AuthenticateUser(username, password, draws);
      if result.Err? {
        sent := sent + [LoginFailed(result.error)];
        return;
      }
      sessionId := result.value;
      authenticated := true;
      sent := sent + [LoginOk(sessionId)];
    }

    /** The QUIT branch of `Handle` and every other command. */
    method HandleOther(msg: Message, draws: seq<Draw>)
      requires Valid() && open && AllWellFormed(draws) && msg.command != CmdAuth
      modifies this
      ensures Valid()
      ensures var o := Respond(old(State()), auth.users, auth.connectedUsers.Keys, msg, draws);
        && State() == o.next
        && sent == old(sent) + [o.reply]
        && o.login.None?
    {
      if msg.command == CmdQuit {
        if authenticated && msg.sessionId != sessionId {
          sent := sent + [Reply(sessionId, "ERROR", "Invalid session ID")];
          return;
        }
        sent := sent + [Reply(if authenticated then sessionId else 0, "BYE", "Goodbye!")];
        open := false;
      } else {
        if !authenticated {
          sent := sent + [Reply(0, "ERROR", "Not authenticated")];
          return;
        }
        if msg.sessionId != sessionId {
          sent := sent + [Reply(sessionId, "ERROR", "Invalid session ID")];
          return;
        }
        sent := sent + [Reply(sessionId, "ECHO", "Received command: " + msg.command + " with payload: " + msg.payload)];
      }
    }

    /** The loop body for a line the decoder accepts: answer it, keeping the loop invariant. */
    method Answer(msg: Message, lines: seq<string>, draws: seq<seq<Draw>>, i: nat,
                  ghost whole: Transcript, ghost sent0: seq<Message>)
      requires Valid() && open && i < |lines| == |draws| && Decode(lines[i]) == Ok(msg)
      requires Tracks(State(), auth.users, auth.connectedUsers, lines[i..], draws[i..], whole, sent0, sent)
      modifies this, auth
      ensures Valid() && auth.users == old(auth.users)
      ensures Tracks(State(), auth.users, auth.connectedUsers, lines[i + 1..], draws[i + 1..], whole, sent0, sent)
    {
      ghost var c, before, sentBefore := State(), auth.connectedUsers, sent;
      assert draws[i..][0] == draws[i];
      Handle(msg, draws[i]);
      TracksTurn(c, auth.users, before, lines[i..], draws[i..], whole, sent0, sentBefore, msg);
      assert lines[i..][1..] == lines[i + 1..] && draws[i..][1..] == draws[i + 1..];
    }

    /**
     * The read loop: decode each line and answer it, until a BYE, a rejected
     * line or the end of input; what it leaves behind is what `Converse` says.
     */
    method Serve(lines: seq<string>, draws: seq<seq<Draw>>)
      requires Valid() && |draws| == |lines| && DrawsSuffice(State(), auth.connectedUsers.Keys, draws)
      modifies this, auth
      ensures Valid() && !open
      ensures var t := Converse(old(State()), old(auth.users), old(auth.connectedUsers), lines, draws);
        && State() == t.last && sent == old(sent) + t.replies && auth.connectedUsers == t.sessions
    {
      ghost var whole := Converse(State(), auth.users, auth.connectedUsers, lines, draws);
      ghost var sent0 := sent;
      var i := 0;
      while open && i < |lines|
        invariant 0 <= i <= |lines| && Valid()
        invariant auth.users == old(auth.users)
        invariant Tracks(State(), auth.users, auth.connectedUsers, lines[i..], draws[i..], whole, sent0, sent)
        decreases |lines| - i, if open then 1 else 0
      {
        var decoded := Decode(lines[i]);
        if decoded.Err? {
          break;
        }
        Answer(decoded.value, lines, draws, i, whole, sent0);
        i := i + 1;
      }
      Close(lines[i..], draws[i..], whole, sent0);
    }

    /** Leaving the read loop: the connection closes, and what it holds is the whole conversation's outcome. */
    method Close(lines: seq<string>, draws: seq<seq<Draw>>, ghost whole: Transcript, ghost sent0: seq<Message>)
      requires Valid() && Tracks(State(), auth.users, auth.connectedUsers, lines, draws, whole, sent0, sent)
      requires !open || lines == [] || Decode(lines[0]).Err?
      modifies this
      ensures Valid() && !open
      ensures State() == whole.last && auth.connectedUsers == whole.sessions && sent == sent0 + whole.replies
      ensures Tracks(State(), auth.users, auth.connectedUsers, lines, draws, whole, sent0, sent)
    {
      TracksStop(State(), auth.users, auth.connectedUsers, lines, draws, whole, sent0, sent);
      open := false;
    }
  }
}
