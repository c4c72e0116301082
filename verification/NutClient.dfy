/** The controller's NUT poller: one conversation with a NUT server and the parsing of its replies. */
module NutClient {
  import opened Basics
  import opened Text
  import opened Sorting
  import opened NutServer

  datatype PollError =
    | AddressRequired | CredentialsRequired | DialFailed | ReadFailed
    | Rejected(line: string) | Unexpected(line: string)

  datatype Snapshot = Snapshot(name: string, driver: string, variables: map<string, string>)

  // ---------- Unquoting ----------

  /** The character a one-letter escape stands for. */
  function Unescape(c: char): Option<char> {
    match c
    case 'a' => Some('\U{07}')
    case 'b' => Some('\U{08}')
    case 'f' => Some('\U{0C}')
    case 'n' => Some('\n')
    case 'r' => Some('\r')
    case 't' => Some('\t')
    case 'v' => Some('\U{0B}')
    case '\\' => Some('\\')
    case '\"' => Some('\"')
    case _ => None
  }

  /** What stands between an opening double quote and the closing one, which must end the text. */
  function UnquoteBody(s: string): Option<string>
    decreases |s|
  {
    if s == "" || s[0] == '\n' then None
    else if s[0] == '\"' then if |s| == 1 then Some("") else None
    else
      var escaped := s[0] == '\\';
      if escaped && (|s| < 2 || Unescape(s[1]).None?) then None
      else
        match UnquoteBody(if escaped then s[2..] else s[1..])
        case None => None
        case Some(rest) => Some([if escaped then Unescape(s[1]).value else s[0]] + rest)
  }

  function Unquote(s: string): Option<string> {
    if |s| < 2 || s[0] != '\"' then None else UnquoteBody(s[1..])
  }

  function TrimQuotes(s: string): string {
    if s != "" && s[0] == '\"' then TrimQuotes(s[1..])
    else if s != "" && s[|s| - 1] == '\"' then TrimQuotes(s[..|s| - 1])
    else s
  }

  function ReadValue(s: string): string {
    var u := Unquote(s);
    if u.Some? then u.value else TrimQuotes(s)
  }

  ghost predicate AllQuotes(s: string) {
    forall i | 0 <= i < |s| :: s[i] == '\"'
  }

  /** What is not a quoted text loses the quotes at its ends, all of them, and nothing else. */
  lemma {:induction false} TrimQuotesMeans(s: string) returns (a: string, b: string)
    ensures s == a + TrimQuotes(s) + b
    ensures AllQuotes(a) && AllQuotes(b)
    ensures var t := TrimQuotes(s); t != "" ==> t[0] != '\"' && t[|t| - 1] != '\"'
  {
    hide AllQuotes;
    a, b := "", "";
    NoQuotes();
    if s != "" && s[0] == '\"' {
      var c, d := TrimQuotesMeans(s[1..]);
      a, b := "\"" + c, d;
      OneMoreQuote(c);
      assert s == "\"" + s[1..];
    } else if s != "" && s[|s| - 1] == '\"' {
      var c, d := TrimQuotesMeans(s[..|s| - 1]);
      a, b := c, d + "\"";
      OneMoreQuote(d);
      assert s == s[..|s| - 1] + "\"";
    }
  }

  lemma NoQuotes()
    ensures AllQuotes("")
  {
  }

  lemma OneMoreQuote(s: string)
    requires AllQuotes(s)
    ensures AllQuotes("\"" + s) && AllQuotes(s + "\"")
  {
  }

  // ---------- Parsing replies ----------

  /** The lines after BEGIN LIST UPS: the names added to those read so far, and the rest of the stream. */
  function ParseUPSBody(s: string, names: seq<string>): Result<(seq<string>, string), PollError>
    decreases |s|
  {
    match ReadLine(s)
    case None => Err(ReadFailed)
    case Some((raw, rest)) =>
      var line := TrimSpace(raw);
      if line == "END LIST UPS" then Ok((names, rest))
      else
        var parts := SplitN(line, ' ', 3);
        if |parts| < 2 || parts[0] != "UPS" then Err(Unexpected(line))
        else ParseUPSBody(rest, names + [parts[1]])
  }

  /** The lines after BEGIN LIST VAR: the variables added to those read so far, and the rest of the stream. */
  function ParseVarBody(s: string, name: string, variables: map<string, string>)
    : Result<(map<string, string>, string), PollError>
    decreases |s|
  {
    match ReadLine(s)
    case None => Err(ReadFailed)
    case Some((raw, rest)) =>
      var line := TrimSpace(raw);
      if line == "END LIST VAR " + name then Ok((variables, rest))
      else
        var parts := SplitN(line, ' ', 4);
        if |parts| < 4 || parts[0] != "VAR" || parts[1] != name then Err(Unexpected(line))
        else ParseVarBody(rest, name, variables[parts[2] := ReadValue(parts[3])])
  }

  /** A whole LIST UPS reply. */
  function ParseUPSList(s: string): Result<(seq<string>, string), PollError> {
    match ReadLine(s)
    case None => Err(ReadFailed)
    case Some((raw, rest)) =>
      if TrimSpace(raw) != "BEGIN LIST UPS" then Err(Unexpected(TrimSpace(raw))) else ParseUPSBody(rest, [])
  }

  /** A whole LIST VAR reply. */
  function ParseVarList(s: string, name: string): Result<(map<string, string>, string), PollError> {
    match ReadLine(s)
    case None => Err(ReadFailed)
    case Some((raw, rest)) =>
      if TrimSpace(raw) != "BEGIN LIST VAR " + name then Err(Unexpected(TrimSpace(raw)))
      else ParseVarBody(rest, name, map[])
  }

  /** An entry adds its name, with or without a description after it; the END line ends the list there. */
  lemma EntryIsRead(line: string, rest: string, names: seq<string>)
    requires '\n' !in line
    ensures var parts := SplitN(TrimSpace(line), ' ', 3);
            && (TrimSpace(line) == "END LIST UPS" ==> ParseUPSBody(line + "\n" + rest, names) == Ok((names, rest)))
            && (|parts| >= 2 && parts[0] == "UPS" ==>
                  ParseUPSBody(line + "\n" + rest, names) == ParseUPSBody(rest, names + [parts[1]]))
            && (|parts| < 2 && TrimSpace(line) != "END LIST UPS" ==>
                  ParseUPSBody(line + "\n" + rest, names) == Err(Unexpected(TrimSpace(line))))
  {
    hide TrimSpace, SplitN, IndexOf;
    ReadLineFirst(line, rest);
    EndIsNoEntry();
  }

  lemma EndIsNoEntry()
    ensures SplitN("END LIST UPS", ' ', 3)[0] != "UPS"
  {
    assert "END LIST UPS" == "END" + " " + "LIST UPS";
    SplitNCons("END", ' ', "LIST UPS", 3);
  }

  /** A reply that is cut off, or that holds a line of another kind, is an error and no shorter list. */
  lemma BadReplyFails(line: string, rest: string, names: seq<string>, name: string, variables: map<string, string>)
    requires '\n' !in line
    ensures ParseUPSBody(line, names) == Err(ReadFailed) && ParseVarBody(line, name, variables) == Err(ReadFailed)
    ensures TrimSpace(line) != "END LIST UPS" && SplitN(TrimSpace(line), ' ', 3)[0] != "UPS" ==>
              ParseUPSBody(line + "\n" + rest, names) == Err(Unexpected(TrimSpace(line)))
    ensures TrimSpace(line) != "END LIST VAR " + name
            && (|SplitN(TrimSpace(line), ' ', 4)| < 4 || SplitN(TrimSpace(line), ' ', 4)[..2] != ["VAR", name]) ==>
              ParseVarBody(line + "\n" + rest, name, variables) == Err(Unexpected(TrimSpace(line)))
  {
    hide SplitN, TrimSpace, ReadLine, ReadValue;
    ReadLineFirst(line, rest);
    assert ReadLine(line).None?;
  }

  // ---------- The conversation ----------

  ghost function Sent(server: Server, ch: Channel, command: string): Result<Channel, PollError> {
    var served := Serve(server, ch, command + "\n");
    match ReadLine(served.unread)
    case None => Err(ReadFailed)
    case Some((raw, rest)) =>
      if "OK" <= TrimSpace(raw) then Ok(served.(unread := rest)) else Err(Rejected(TrimSpace(raw)))
  }

  ghost function ListedUPSes(server: Server, ch: Channel): Result<(seq<string>, Channel), PollError> {
    var served := Serve(server, ch, "LIST UPS\n");
    match ParseUPSList(served.unread)
    case Err(e) => Err(e)
    case Ok((names, rest)) => Ok((SortStrings(names), served.(unread := rest)))
  }

  ghost function ListedVariables(server: Server, ch: Channel, name: string)
    : Result<(map<string, string>, Channel), PollError>
  {
    var served := Serve(server, ch, "LIST VAR " + name + "\n");
    match ParseVarList(served.unread, name)
    case Err(e) => Err(e)
    case Ok((variables, rest)) => Ok((variables, served.(unread := rest)))
  }

  function Find(variables: map<string, string>, key: string): string {
    if key in variables then variables[key] else ""
  }

  function SnapshotOf(name: string, variables: map<string, string>): Snapshot {
    Snapshot(name,
             FirstNonEmpty([Find(variables, "driver.name"), Find(variables, "device.driver"),
                            Find(variables, "driver.parameter.driver")]),
             variables)
  }

  ghost function PolledAll(server: Server, ch: Channel, names: seq<string>, snapshots: seq<Snapshot>)
    : Result<seq<Snapshot>, PollError>
    decreases |names|
  {
    if names == [] then Ok(snapshots)
    else
      match ListedVariables(server, ch, names[0])
      case Err(e) => Err(e)
      case Ok((variables, next)) => PolledAll(server, next, names[1..], snapshots + [SnapshotOf(names[0], variables)])
  }

  ghost function Polled(server: Server, username: string, password: string): Result<seq<Snapshot>, PollError> {
    match Sent(server, NEW_CHANNEL, "USERNAME " + username)
    case Err(e) => Err(e)
    case Ok(named) =>
      match Sent(server, named, "PASSWORD " + password)
      case Err(e) => Err(e)
      case Ok(authed) =>
        match ListedUPSes(server, authed)
        case Err(e) => Err(e)
        case Ok((names, listed)) => PolledAll(server, listed, names, [])
  }

  method SendCommand(conn: Connection, command: string) returns (err: Option<PollError>)
    modifies conn, conn.session
    ensures match Sent(conn.server, old(conn.View()), command)
            case Err(e) => err == Some(e)
            case Ok(ch) => err == None && conn.View() == ch
  {
    hide Serve, TrimSpace, ReadLine;
    conn.Write(command + "\n");
    var line := conn.ReadString();
    if line.None? {
      return Some(ReadFailed);
    }
    var text := TrimSpace(line.value);
    if !("OK" <= text) {
      return Some(Rejected(text));
    }
    return None;
  }

  method ListUPSes(conn: Connection) returns (r: Result<seq<string>, PollError>)
    modifies conn, conn.session
    ensures match ListedUPSes(conn.server, old(conn.View()))
            case Err(e) => r == Err(e)
            case Ok((names, ch)) => r == Ok(names) && conn.View() == ch
  {
    hide Serve, TrimSpace, SplitN, ReadLine;
    conn.Write("LIST UPS\n");
    var start := conn.ReadString();
    if start.None? {
      return Err(ReadFailed);
    } else if TrimSpace(start.value) != "BEGIN LIST UPS" {
      return Err(Unexpected(TrimSpace(start.value)));
    }
    var names: seq<string> := [];
    ghost var goal, session, open := ParseUPSBody(conn.unread, []), conn.session.State(), conn.open;
    while true
      invariant ParseUPSBody(conn.unread, names) == goal
      invariant conn.session.State() == session && conn.open == open
      decreases |conn.unread|
    {
      var raw := conn.ReadString();
      if raw.None? {
        return Err(ReadFailed);
      }
      var line := TrimSpace(raw.value);
      if line == "END LIST UPS" {
        break;
      }
      var parts := SplitN(line, ' ', 3);
      if |parts| < 2 || parts[0] != "UPS" {
        return Err(Unexpected(line));
      }
      names := names + [parts[1]];
    }
    return Ok(SortStrings(names));
  }

  method ListVariables(conn: Connection, name: string) returns (r: Result<map<string, string>, PollError>)
    modifies conn, conn.session
    ensures match ListedVariables(conn.server, old(conn.View()), name)
            case Err(e) => r == Err(e)
            case Ok((variables, ch)) => r == Ok(variables) && conn.View() == ch
  {
    hide Serve, TrimSpace, SplitN, ReadLine, ReadValue;
    conn.Write("LIST VAR " + name + "\n");
    var start := conn.ReadString();
    if start.None? {
      return Err(ReadFailed);
    } else if TrimSpace(start.value) != "BEGIN LIST VAR " + name {
      return Err(Unexpected(TrimSpace(start.value)));
    }
    var variables: map<string, string> := map[];
    ghost var goal, session, open := ParseVarBody(conn.unread, name, map[]), conn.session.State(), conn.open;
    while true
      invariant ParseVarBody(conn.unread, name, variables) == goal
      invariant conn.session.State() == session && conn.open == open
      decreases |conn.unread|
    {
      var raw := conn.ReadString();
      if raw.None? {
        return Err(ReadFailed);
      }
      var line := TrimSpace(raw.value);
      if line == "END LIST VAR " + name {
        break;
      }
      var parts := SplitN(line, ' ', 4);
      if |parts| < 4 || parts[0] != "VAR" || parts[1] != name {
        return Err(Unexpected(line));
      }
      variables := variables[parts[2] := ReadValue(parts[3])];
    }
    return Ok(variables);
  }

  /** One poll of the server at address; dialed tells whether it could be reached. */
  method Poll(server: Server, address: string, dialed: bool, username: string, password: string)
    returns (r: Result<seq<Snapshot>, PollError>)
    ensures r == if TrimSpace(address) == "" then Err(AddressRequired)
                 else if TrimSpace(username) == "" || TrimSpace(password) == "" then Err(CredentialsRequired)
                 else if !dialed then Err(DialFailed)
                 else Polled(server, username, password)
  {
    if TrimSpace(address) == "" {
      return Err(AddressRequired);
    } else if TrimSpace(username) == "" || TrimSpace(password) == "" {
      return Err(CredentialsRequired);
    } else if !dialed {
      return Err(DialFailed);
    }
    var conn := new Connection(server);
    var err := SendCommand(conn, "USERNAME " + username);
    if err.Some? {
      return Err(err.value);
    }
    err := SendCommand(conn, "PASSWORD " + password);
    if err.Some? {
      return Err(err.value);
    }
    var listed := ListUPSes(conn);
    if listed.Err? {
      return Err(listed.error);
    }
    var left, snapshots := listed.value, [];
    ghost var goal := PolledAll(server, conn.View(), left, []);
    while left != []
      invariant PolledAll(server, conn.View(), left, snapshots) == goal
      decreases |left|
    {
      var variables := ListVariables(conn, left[0]);
      if variables.Err? {
        return Err(variables.error);
      }
      snapshots := snapshots + [SnapshotOf(left[0], variables.value)];
      left := left[1..];
    }
    return Ok(snapshots);
  }
}
