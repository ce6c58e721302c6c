/**
 * The line codec of the TCP server (`internal/protocol`): a frame is one
 * text line, `"<sid>_<CMD> <payload>\n"`, or `"AUTH <payload>\n"` for the
 * credential frame, which carries no session id. Writing to and reading from
 * the socket are not modelled: `Encode` gives the text `SendMessage` writes,
 * `Decode` takes the line `ReadMessage` has read (newline included).
 */
module Protocol {
  import opened Wrappers
  import opened Strings

  type Command = string

  const CmdAuth: Command := "AUTH"
  const CmdFile: Command := "FILE"
  const CmdGuess: Command := "GUESS"
  const CmdQuit: Command := "QUIT"
  const CmdStartGame: Command := "START"
  const CmdEndGame: Command := "END"

  /** One decoded frame. Unknown commands are kept as they were written. */
  datatype Message = Message(sessionId: int, command: Command, payload: string)

  datatype DecodeError = FormatInvalid | SessionIdInvalid

  function ErrorText(e: DecodeError): string {
    match e
    case FormatInvalid => "Format message is not valid"
    case SessionIdInvalid => "Session ID is not valid"
  }

  /**
   * The line `SendMessage` writes. When neither the command nor the payload
   * holds a newline, the frame is exactly one line: its only newline is the
   * terminating one.
   */
  function Encode(sessionId: int, command: Command, payload: string): (line: string)
    ensures line != [] && line[|line| - 1] == '\n'
    ensures Lacks(command, '\n') && Lacks(payload, '\n') ==> Lacks(line[..|line| - 1], '\n')
  {
    if command == CmdAuth then
      CmdAuth + " " + payload + "\n"
    else
      IntToDecimal(sessionId) + "_" + command + " " + payload + "\n"
  }

  /** A word with no white space in it, such as a command written by a client. */
  predicate NoSpace(s: string) {
    forall i :: 0 <= i < |s| ==> !IsSpace(s[i])
  }

  /** A payload that survives the trimming `ReadMessage` does. */
  predicate TrimSafe(payload: string) {
    payload != [] && !IsSpace(payload[|payload| - 1])
  }

  /**
   * `ReadMessage` after the line has been read: trim white space, then an
   * `AUTH…` line is split at its first space (session id 0); any other line is
   * split at its first `_` into a session id, which must parse as an integer,
   * and a rest, which is split at its first space into command and payload.
   * Every payload it accepts is non-empty and does not end in white space.
   */
  function Decode(line: string): (r: Result<Message, DecodeError>)
    ensures r.Ok? ==> TrimSafe(r.value.payload) && Lacks(r.value.command, ' ')
  {
    var t := TrimSpace(line);
    if HasPrefix(t, CmdAuth) then
      match SplitFirst(t, ' ')
      case None => Err(FormatInvalid)
      case Some((command, payload)) =>
        Ok(Message(0, command, payload))
    else
      match SplitFirst(t, '_')
      case None => Err(FormatInvalid)
      case Some((sidText, rest)) =>
        match Atoi(sidText)
        case None => Err(SessionIdInvalid)
        case Some(sid) =>
          match SplitFirst(rest, ' ')
          case None => Err(FormatInvalid)
          case Some((command, payload)) =>
                Ok(Message(sid, command, payload))
  }

  /** How `Decode` reads a line whose trimmed text is not an AUTH frame and splits cleanly. */
  lemma DecodeSplit(line: string, t: string, sidText: string, rest: string, sid: int, command: string, payload: string)
    requires TrimSpace(line) == t && !HasPrefix(t, CmdAuth)
    requires SplitFirst(t, '_') == Some((sidText, rest)) && Atoi(sidText) == Some(sid)
    requires SplitFirst(rest, ' ') == Some((command, payload))
    ensures Decode(line) == Ok(Message(sid, command, payload))
  {
  }

  /** How `Decode` reads a line whose trimmed text is an AUTH frame with a space. */
  lemma DecodeAuthSplit(line: string, t: string, command: string, payload: string)
    requires TrimSpace(line) == t && HasPrefix(t, CmdAuth)
    requires SplitFirst(t, ' ') == Some((command, payload))
    ensures Decode(line) == Ok(Message(0, command, payload))
  {
  }

  /** A non-AUTH frame is the decimal session id, `_`, the command, a space, the payload and a newline. */
  lemma EncodeFrame(sessionId: int, command: Command, payload: string)
    requires command != CmdAuth
    ensures var line := Encode(sessionId, command, payload);
      var d := IntToDecimal(sessionId);
      && line[..|d|] == d && line[|d|] == '_'
      && line[|d| + 1..|d| + 1 + |command|] == command
      && line[|d| + 1 + |command|] == ' '
      && line[|d| + 2 + |command|..] == payload + "\n"
  {
  }

  /** An AUTH frame drops the session id. */
  lemma EncodeAuthIgnoresSession(s1: int, s2: int, payload: string)
    ensures Encode(s1, CmdAuth, payload) == Encode(s2, CmdAuth, payload)
    ensures Encode(s1, CmdAuth, payload)[..5] == "AUTH "
  {
  }

  /** Trimming a non-AUTH frame with a payload removes only its newline. */
  lemma EncodeTrimmed(sessionId: int, command: Command, payload: string)
    requires command != CmdAuth && TrimSafe(payload)
    ensures TrimSpace(Encode(sessionId, command, payload))
      == IntToDecimal(sessionId) + "_" + command + " " + payload
  {
    var t := IntToDecimal(sessionId) + "_" + command + " " + payload;
    assert Encode(sessionId, command, payload) == [] + t + "\n";
    assert t[|t| - 1] == payload[|payload| - 1];
    TrimSpaceStrips([], t, "\n");
  }

  /**
   * Trimming a non-AUTH frame with an empty payload also removes the space
   * that separated the command from the payload.
   */
  lemma EncodeTrimmedEmpty(sessionId: int, command: Command)
    requires command != CmdAuth && NoSpace(command)
    ensures TrimSpace(Encode(sessionId, command, "")) == IntToDecimal(sessionId) + "_" + command
  {
    var t := IntToDecimal(sessionId) + "_" + command;
    assert Encode(sessionId, command, "") == [] + t + " \n";
    assert !IsSpace(t[|t| - 1]);
    TrimSpaceStrips([], t, " \n");
  }

  /** A trimmed non-AUTH frame does not look like an AUTH frame, and its first `_` ends the session id. */
  lemma FrameSplitsAtSessionId(sessionId: int, rest: string)
    requires IsInt64(sessionId)
    ensures !HasPrefix(IntToDecimal(sessionId) + "_" + rest, CmdAuth)
    ensures SplitFirst(IntToDecimal(sessionId) + "_" + rest, '_') == Some((IntToDecimal(sessionId), rest))
    ensures Atoi(IntToDecimal(sessionId)) == Some(sessionId)
  {
    var d := IntToDecimal(sessionId);
    assert (d + "_" + rest)[0] == d[0];
    IntToDecimalChars(sessionId, '_');
    SplitFirstJoin(d, '_', rest);
    assert d + "_" + rest == d + ['_'] + rest;
    AtoiIntToDecimal(sessionId);
  }

  lemma SplitAtSpace(command: string, payload: string)
    requires Lacks(command, ' ')
    ensures SplitFirst(command + " " + payload, ' ') == Some((command, payload))
  {
    SplitFirstJoin(command, ' ', payload);
    assert command + " " + payload == command + [' '] + payload;
  }

  /** Concatenation regrouped: the last three parts joined first. */
  lemma Regroup<T>(a: seq<T>, b: seq<T>, c: seq<T>, d: seq<T>, e: seq<T>)
    ensures a + b + c + d + e == a + b + (c + d + e)
  {
  }

  /** The trimmed text of a non-AUTH frame, split the way `Decode` splits it. */
  lemma FrameParts(sessionId: int, command: Command, payload: string)
    requires IsInt64(sessionId) && command != CmdAuth && TrimSafe(payload)
    ensures var t := IntToDecimal(sessionId) + "_" + (command + " " + payload);
      && TrimSpace(Encode(sessionId, command, payload)) == t
      && !HasPrefix(t, CmdAuth)
      && SplitFirst(t, '_') == Some((IntToDecimal(sessionId), command + " " + payload))
      && Atoi(IntToDecimal(sessionId)) == Some(sessionId)
  {
    var d := IntToDecimal(sessionId);
    EncodeTrimmed(sessionId, command, payload);
    Regroup(d, "_", command, " ", payload);
    FrameSplitsAtSessionId(sessionId, command + " " + payload);
  }

  /**
   * Round trip of a non-AUTH frame: a 64-bit session id, a command without
   * spaces and a payload that trimming leaves alone decode to what was sent.
   */
  lemma DecodeEncode(sessionId: int, command: Command, payload: string)
    requires IsInt64(sessionId) && command != CmdAuth && Lacks(command, ' ')
    requires TrimSafe(payload)
    ensures Decode(Encode(sessionId, command, payload)) == Ok(Message(sessionId, command, payload))
  {
    var d := IntToDecimal(sessionId);
    var rest := command + " " + payload;
    FrameParts(sessionId, command, payload);
    SplitAtSpace(command, payload);
    DecodeSplit(Encode(sessionId, command, payload), d + "_" + rest, d, rest, sessionId, command, payload);
  }

  /** Round trip of an AUTH frame: session id 0, command AUTH, the same payload. */
  lemma DecodeEncodeAuth(sessionId: int, payload: string)
    requires TrimSafe(payload)
    ensures Decode(Encode(sessionId, CmdAuth, payload)) == Ok(Message(0, CmdAuth, payload))
  {
    var t := CmdAuth + " " + payload;
    assert Encode(sessionId, CmdAuth, payload) == [] + t + "\n";
    TrimSpaceStrips([], t, "\n");
    SplitAtSpace(CmdAuth, payload);
    DecodeAuthSplit(Encode(sessionId, CmdAuth, payload), t, CmdAuth, payload);
  }

  /**
   * Any trimmed line that starts with the text AUTH is an AUTH-family frame:
   * session id 0, and the command is the word before the first space, so it
   * too starts with AUTH (`AUTHX y` gives command `AUTHX`). It fails exactly
   * when there is no space.
   */
  lemma DecodeAuthFamily(line: string)
    requires HasPrefix(TrimSpace(line), CmdAuth)
    ensures Decode(line).Err? <==> Lacks(TrimSpace(line), ' ')
    ensures Decode(line).Err? ==> Decode(line).error == FormatInvalid
    ensures Decode(line).Ok? ==>
      && Decode(line).value.sessionId == 0
      && HasPrefix(Decode(line).value.command, CmdAuth)
      && TrimSpace(line) == Decode(line).value.command + " " + Decode(line).value.payload
  {
    var t := TrimSpace(line);
    if !Lacks(t, ' ') {
      var (c, p) := SplitFirst(t, ' ').value;
      DecodeAuthSplit(line, t, c, p);
      AuthWord(t, c, p);
      assert c + [' '] + p == c + " " + p;
    }
  }

  /** The word before the first space of an `AUTH…` text starts with AUTH. */
  lemma AuthWord(t: string, c: string, p: string)
    requires HasPrefix(t, CmdAuth) && t == c + [' '] + p && Lacks(c, ' ')
    ensures HasPrefix(c, CmdAuth)
  {
    assert forall i :: 0 <= i < 4 ==> t[i] == CmdAuth[i] && t[i] != ' ';
    assert t[|c|] == ' ';
    assert |c| >= 4;
    assert c[..4] == t[..4];
  }

  /**
   * Any word that starts with AUTH is read as the command of an AUTH-family
   * frame, with session id 0: the word is not checked against AUTH itself.
   */
  lemma DecodeAuthWord(command: string, payload: string)
    requires HasPrefix(command, CmdAuth) && NoSpace(command) && TrimSafe(payload)
    ensures Decode(command + " " + payload) == Ok(Message(0, command, payload))
  {
    var line := command + " " + payload;
    assert HasPrefix(line, CmdAuth) by {
      assert line[..4] == command[..4];
    }
    assert line[0] == command[0] && line[|line| - 1] == payload[|payload| - 1];
    TrimSpaceKeeps(line);
    SplitAtSpace(command, payload);
    DecodeAuthSplit(line, line, command, payload);
  }

  /** "AUTHX y" is read as an AUTH-family frame with command "AUTHX". */
  lemma DecodeAuthX(command: string, payload: string)
    requires command == "AUTHX" && payload == "y"
    ensures Decode(command + " " + payload) == Ok(Message(0, command, payload))
  {
    assert command[..4] == CmdAuth;
    DecodeAuthWord(command, payload);
  }

  /** A non-AUTH line without `_` is malformed. */
  lemma DecodeNoUnderscore(line: string)
    requires !HasPrefix(TrimSpace(line), CmdAuth) && Lacks(TrimSpace(line), '_')
    ensures Decode(line) == Err(FormatInvalid)
  {
  }

  /** A non-AUTH line whose text before the first `_` is not an integer has an invalid session id. */
  lemma DecodeBadSessionId(line: string, head: string, rest: string)
    requires !HasPrefix(TrimSpace(line), CmdAuth)
    requires TrimSpace(line) == head + "_" + rest && Lacks(head, '_')
    requires Atoi(head).None?
    ensures Decode(line) == Err(SessionIdInvalid)
  {
    SplitFirstJoin(head, '_', rest);
    assert TrimSpace(line) == head + ['_'] + rest;
  }

  /** After the `_`, a rest without a space is malformed. */
  lemma DecodeNoPayloadSeparator(line: string, head: string, rest: string)
    requires !HasPrefix(TrimSpace(line), CmdAuth)
    requires TrimSpace(line) == head + "_" + rest && Lacks(head, '_')
    requires Atoi(head).Some? && Lacks(rest, ' ')
    ensures Decode(line) == Err(FormatInvalid)
  {
    SplitFirstJoin(head, '_', rest);
    assert TrimSpace(line) == head + ['_'] + rest;
  }

  /**
   * The session id is whatever signed-integer parsing accepts: a negative id
   * decodes like any other.
   */
  lemma DecodeNegativeSessionId()
    ensures Decode("-5_X y\n") == Ok(Message(-5, "X", "y"))
  {
    assert NatToDecimal(5) == "5";
    assert IntToDecimal(-5) == "-5";
    assert Encode(-5, "X", "y") == "-5_X y\n";
    DecodeEncode(-5, "X", "y");
  }

  /**
   * Finding: the QUIT frame the client writes, with an empty payload, is
   * rejected, because trimming removes the space before the (empty) payload.
   */
  lemma DecodeRejectsEmptyPayloadQuit(sessionId: int)
    requires IsInt64(sessionId)
    ensures Decode(Encode(sessionId, CmdQuit, "")) == Err(FormatInvalid)
  {
    var d := IntToDecimal(sessionId);
    EncodeTrimmedEmpty(sessionId, CmdQuit);
    FrameSplitsAtSessionId(sessionId, CmdQuit);
    DecodeNoPayloadSeparator(Encode(sessionId, CmdQuit, ""), d, CmdQuit);
  }

  /**
   * The decoder as evidently intended: identical, except that a command with
   * nothing after it (the space before an empty payload was trimmed away)
   * decodes with an empty payload instead of failing.
   */
  function DecodeLine(line: string): (r: Result<Message, DecodeError>)
    ensures r.Ok? ==> Lacks(r.value.command, ' ')
    ensures r.Ok? ==> r.value.payload == [] || !IsSpace(r.value.payload[|r.value.payload| - 1])
  {
    var t := TrimSpace(line);
    if HasPrefix(t, CmdAuth) then
      match SplitFirst(t, ' ')
      case None => Ok(Message(0, t, ""))
      case Some((command, payload)) => Ok(Message(0, command, payload))
    else
      match SplitFirst(t, '_')
      case None => Err(FormatInvalid)
      case Some((sidText, rest)) =>
        match Atoi(sidText)
        case None => Err(SessionIdInvalid)
        case Some(sid) =>
          match SplitFirst(rest, ' ')
          case None => Ok(Message(sid, rest, ""))
          case Some((command, payload)) => Ok(Message(sid, command, payload))
  }

  /** The corrected decoder accepts everything the original accepts, with the same result. */
  lemma DecodeLineExtendsDecode(line: string)
    ensures Decode(line).Ok? ==> DecodeLine(line) == Decode(line)
    ensures DecodeLine(line).Err? ==> DecodeLine(line) == Decode(line)
  {
  }

  /**
   * Round trip of the corrected decoder for every non-AUTH frame whose payload
   * is empty or does not end in white space; in particular the client's QUIT.
   */
  lemma DecodeLineEncode(sessionId: int, command: Command, payload: string)
    requires IsInt64(sessionId) && command != CmdAuth && NoSpace(command)
    requires payload == [] || !IsSpace(payload[|payload| - 1])
    ensures DecodeLine(Encode(sessionId, command, payload)) == Ok(Message(sessionId, command, payload))
  {
    if payload != [] {
      DecodeEncode(sessionId, command, payload);
      DecodeLineExtendsDecode(Encode(sessionId, command, payload));
    } else {
      var d := IntToDecimal(sessionId);
      EncodeTrimmedEmpty(sessionId, command);
      FrameSplitsAtSessionId(sessionId, command);
      DecodeLineNoPayload(Encode(sessionId, command, payload), d + "_" + command, d, command, sessionId);
    }
  }

  lemma DecodeLineNoPayload(line: string, t: string, sidText: string, rest: string, sid: int)
    requires TrimSpace(line) == t && !HasPrefix(t, CmdAuth)
    requires SplitFirst(t, '_') == Some((sidText, rest)) && Atoi(sidText) == Some(sid)
    requires Lacks(rest, ' ')
    ensures DecodeLine(line) == Ok(Message(sid, rest, ""))
  {
  }
}
