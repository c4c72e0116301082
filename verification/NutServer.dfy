/** The controller's aggregate NUT listener: one session's commands and the lines printed in reply. */
module NutServer {
  import opened Basics
  import opened Text
  import opened Sorting

  datatype UPS = UPS(name: string, description: string, variables: map<string, string>)

  datatype Command = Command(name: string, description: string)

  datatype Failure = UnknownUPS | Unavailable

  /** What the fleet answers while a command is handled. */
  datatype Backend = Backend(list: Option<seq<UPS>>,
                             commands: string -> Result<seq<Command>, Failure>,
                             run: (string, string) -> Option<Failure>)

  datatype Server = Server(backend: Option<Backend>, auth: Option<(string, string) -> bool>)

  /** A session: the last user name given, and whether its password was accepted. */
  datatype Session = Session(username: string, authed: bool)

  const NEW_SESSION := Session("", false)

  predicate Authenticate(server: Server, username: string, password: string) {
    if server.auth.Some? then server.auth.value(TrimSpace(username), TrimSpace(password))
    else TrimSpace(username) != "" && TrimSpace(password) != ""
  }

  // ---------- Printing ----------

  /** strings.ReplaceAll of one character by a text. */
  function ReplaceAll(s: string, c: char, text: string): string {
    if s == "" then "" else (if s[0] == c then text else [s[0]]) + ReplaceAll(s[1..], c, text)
  }

  /** Backslashes first, then quotes. */
  function EscapeNUTString(value: string): string {
    ReplaceAll(ReplaceAll(value, '\\', "\\\\"), '\"', "\\\"")
  }

  function Quoted(value: string): string {
    "\"" + EscapeNUTString(value) + "\""
  }

  function UPSName(ups: UPS): string { ups.name }

  /** A word, a space and the rest of a line. */
  function Spaced(word: string, rest: string): string {
    word + [' '] + rest
  }

  function UPSLine(ups: UPS): string {
    Spaced("UPS", Spaced(ups.name, Quoted(FirstNonEmpty([ups.description, ups.name]))))
  }

  function UPSLines(upses: seq<UPS>): seq<string> {
    seq(|upses|, i requires 0 <= i < |upses| => UPSLine(upses[i]))
  }

  function ListUPSReply(upses: seq<UPS>): seq<string> {
    ["BEGIN LIST UPS"] + UPSLines(SortBy(upses, UPSName)) + ["END LIST UPS"]
  }

  function VarLine(name: string, key: string, value: string): string {
    Spaced("VAR", Spaced(name, Spaced(key, Quoted(value))))
  }

  function VarLines(name: string, variables: map<string, string>, keys: seq<string>): seq<string>
    requires forall k | k in keys :: k in variables
  {
    seq(|keys|, i requires 0 <= i < |keys| => VarLine(name, keys[i], variables[keys[i]]))
  }

  ghost function ListVarReply(ups: UPS): seq<string> {
    ["BEGIN LIST VAR " + ups.name] + VarLines(ups.name, ups.variables, Listing(ups.variables.Keys))
    + ["END LIST VAR " + ups.name]
  }

  function CommandName(c: Command): string { c.name }

  function CommandLines(name: string, commands: seq<Command>): seq<string> {
    seq(|commands|, i requires 0 <= i < |commands| => Spaced("CMD", Spaced(name, commands[i].name)))
  }

  function ListCmdReply(name: string, commands: seq<Command>): seq<string> {
    ["BEGIN LIST CMD " + name] + CommandLines(name, SortBy(commands, CommandName)) + ["END LIST CMD " + name]
  }

  // ---------- One command ----------

  function FindUPS(upses: seq<UPS>, name: string): Result<UPS, Failure> {
    if upses == [] then Err(UnknownUPS)
    else if upses[0].name == name then Ok(upses[0])
    else FindUPS(upses[1..], name)
  }

  function LookupUPS(backend: Backend, name: string): Result<UPS, Failure> {
    if backend.list.None? then Err(Unavailable) else FindUPS(backend.list.value, name)
  }

  function FindCommand(commands: seq<Command>, name: string): Option<Command> {
    if commands == [] then None
    else if commands[0].name == name then Some(commands[0])
    else FindCommand(commands[1..], name)
  }

  function ErrorLine(f: Failure): string {
    if f.UnknownUPS? then "ERR UNKNOWN-UPS" else "ERR DRIVER-NOT-CONNECTED"
  }

  ghost function ListReply(backend: Backend, parts: seq<string>): seq<string> {
    if |parts| < 2 then ["ERR INVALID-ARGUMENT"]
    else
      var target := Upper(parts[1]);
      if target == "UPS" then
        if |parts| != 2 then ["ERR INVALID-ARGUMENT"]
        else if backend.list.None? then ["ERR DRIVER-NOT-CONNECTED"]
        else ListUPSReply(backend.list.value)
      else if target == "VAR" || target == "CMD" then
        if |parts| < 3 then ["ERR INVALID-ARGUMENT"]
        else
          match LookupUPS(backend, parts[2])
          case Err(f) => [ErrorLine(f)]
          case Ok(ups) =>
            if target == "VAR" then ListVarReply(ups)
            else
              match backend.commands(ups.name)
              case Err(f) => [ErrorLine(f)]
              case Ok(commands) => ListCmdReply(ups.name, commands)
      else ["ERR UNKNOWN-COMMAND"]
  }

  function GetReply(backend: Backend, parts: seq<string>): seq<string> {
    if |parts| < 4 then ["ERR INVALID-ARGUMENT"]
    else
      var target := Upper(parts[1]);
      if target != "VAR" && target != "CMDDESC" then ["ERR UNKNOWN-COMMAND"]
      else
        match LookupUPS(backend, parts[2])
        case Err(f) => [ErrorLine(f)]
        case Ok(ups) =>
          if target == "VAR" then
            if parts[3] in ups.variables then [VarLine(ups.name, parts[3], ups.variables[parts[3]])]
            else ["ERR VAR-NOT-SUPPORTED"]
          else
            match backend.commands(ups.name)
            case Err(f) => [ErrorLine(f)]
            case Ok(commands) =>
              match FindCommand(commands, parts[3])
              case None => ["ERR CMD-NOT-SUPPORTED"]
              case Some(c) =>
                [Spaced("CMDDESC", Spaced(ups.name, Spaced(c.name, Quoted(FirstNonEmpty([c.description, c.name])))))]
  }

  function InstCmdReply(backend: Backend, parts: seq<string>): seq<string> {
    if |parts| < 3 then ["ERR INVALID-ARGUMENT"]
    else
      match LookupUPS(backend, parts[1])
      case Err(f) => [ErrorLine(f)]
      case Ok(_) =>
        match backend.run(parts[1], parts[2])
        case None => ["OK"]
        case Some(f) => [if f.UnknownUPS? then "ERR UNKNOWN-UPS" else "ERR FAILED"]
  }

  /** The reply to a command once the session is authenticated. */
  ghost function BackendReply(backend: Option<Backend>, parts: seq<string>): seq<string>
    requires parts != []
  {
    if backend.None? then ["ERR DRIVER-NOT-CONNECTED"]
    else
      match Upper(parts[0])
      case "LIST" => ListReply(backend.value, parts)
      case "GET" => GetReply(backend.value, parts)
      case "INSTCMD" => InstCmdReply(backend.value, parts)
      case _ => ["ERR UNKNOWN-COMMAND"]
  }

  datatype Response = Response(lines: seq<string>, session: Session, keepOpen: bool)

  ghost function Respond(server: Server, s: Session, line: string): Response {
    var parts := Fields(line);
    if parts == [] then Response([], s, true)
    else
      match Upper(parts[0])
      case "QUIT" => Response(["OK Goodbye"], s, false)
      case "LOGOUT" => Response(["OK Goodbye"], s, false)
      case "USERNAME" =>
        if |parts| < 2 then Response(["ERR INVALID-ARGUMENT"], s, true)
        else Response(["OK"], Session(TrimSpace(parts[1]), false), true)
      case "PASSWORD" =>
        if |parts| < 2 || TrimSpace(s.username) == "" then Response(["ERR ACCESS-DENIED"], s, true)
        else if Authenticate(server, s.username, TrimSpace(parts[1])) then Response(["OK"], s.(authed := true), true)
        else Response(["ERR ACCESS-DENIED"], s.(authed := false), true)
      case _ =>
        Response(if s.authed then BackendReply(server.backend, parts) else ["ERR ACCESS-DENIED"], s, true)
  }

  // ---------- A connection ----------

  /** One connection seen from the client: the session, what was printed but not read yet, and
      whether the listener still serves it. */
  datatype Channel = Channel(session: Session, unread: string, open: bool)

  const NEW_CHANNEL := Channel(NEW_SESSION, "", true)

  /** Everything the listener prints for the given input, line after line until it hangs up. */
  ghost function Serve(server: Server, ch: Channel, input: string): Channel
    decreases |input|
  {
    if !ch.open then ch
    else
      match ReadLine(input)
      case None => ch
      case Some((raw, rest)) =>
        var line := TrimSpace(raw);
        if line == "" then Serve(server, ch, rest)
        else
          var r := Respond(server, ch.session, line);
          Serve(server, Channel(r.session, ch.unread + Unlines(r.lines), r.keepOpen), rest)
  }

  class NutSession {
    var username: string
    var authed: bool

    constructor ()
      ensures State() == NEW_SESSION
    {
      username, authed := "", false;
    }

    function State(): Session
      reads this
    {
      Session(username, authed)
    }

    method HandleCommand(server: Server, line: string) returns (lines: seq<string>, keepOpen: bool)
      modifies this
      ensures Response(lines, State(), keepOpen) == Respond(server, old(State()), line)
    {
      var parts := Fields(line);
      keepOpen := true;
      if parts == [] {
        return [], true;
      }
      var command := Upper(parts[0]);
      if command == "QUIT" || command == "LOGOUT" {
        return ["OK Goodbye"], false;
      } else if command == "USERNAME" {
        if |parts| < 2 {
          return ["ERR INVALID-ARGUMENT"], true;
        }
        username, authed := TrimSpace(parts[1]), false;
        return ["OK"], true;
      } else if command == "PASSWORD" {
        if |parts| < 2 || TrimSpace(username) == "" {
          return ["ERR ACCESS-DENIED"], true;
        }
        authed := Authenticate(server, username, TrimSpace(parts[1]));
        return [if authed then "OK" else "ERR ACCESS-DENIED"], true;
      }
      if !authed {
        return ["ERR ACCESS-DENIED"], true;
      }
      lines := AskBackend(server.backend, parts);
    }
  }

  // ---------- What the replies say ----------

  /** One line that begins with ERR. */
  predicate IsError(lines: seq<string>) {
    |lines| == 1 && "ERR " <= lines[0]
  }

  predicate HasUPS(backend: Backend, name: string) {
    backend.list.Some? && exists i | 0 <= i < |backend.list.value| :: backend.list.value[i].name == name
  }

  lemma {:induction false} FindUPSFinds(upses: seq<UPS>, name: string)
    ensures FindUPS(upses, name).Ok? <==> exists i | 0 <= i < |upses| :: upses[i].name == name
    ensures FindUPS(upses, name).Ok? ==> FindUPS(upses, name).value in upses && FindUPS(upses, name).value.name == name
    ensures FindUPS(upses, name).Err? ==> FindUPS(upses, name).error.UnknownUPS?
  {
    if upses != [] {
      FindUPSFinds(upses[1..], name);
      if upses[0].name != name {
        assert (exists i | 0 <= i < |upses| :: upses[i].name == name) ==>
            exists i | 0 <= i < |upses| - 1 :: upses[1..][i].name == name by {
          if i :| 0 <= i < |upses| && upses[i].name == name {
            assert upses[1..][i - 1].name == name;
          }
        }
      }
    }
  }

  lemma LookupFinds(backend: Backend, name: string)
    ensures LookupUPS(backend, name).Ok? <==> HasUPS(backend, name)
    ensures LookupUPS(backend, name).Ok? ==> LookupUPS(backend, name).value.name == name
  {
    hide FindUPS;
    if backend.list.Some? {
      FindUPSFinds(backend.list.value, name);
    }
  }

  /** A LIST command that can be answered. */
  predicate CanList(backend: Backend, parts: seq<string>) {
    && |parts| >= 2
    && match Upper(parts[1])
       case "UPS" => |parts| == 2 && backend.list.Some?
       case "VAR" => |parts| >= 3 && HasUPS(backend, parts[2])
       case "CMD" => |parts| >= 3 && HasUPS(backend, parts[2]) && backend.commands(parts[2]).Ok?
       case _ => false
  }

  function ListTitle(parts: seq<string>): string
    requires |parts| >= 2
  {
    match Upper(parts[1])
    case "UPS" => "LIST UPS"
    case "VAR" => if |parts| >= 3 then "LIST VAR " + parts[2] else ""
    case _ => if |parts| >= 3 then "LIST CMD " + parts[2] else ""
  }

  /** The entries of an answer, in no particular order. */
  function ListEntries(backend: Backend, parts: seq<string>): set<string>
    requires CanList(backend, parts)
  {
    match Upper(parts[1])
    case "UPS" => set u | u in backend.list.value :: UPSLine(u)
    case "VAR" =>
      LookupFinds(backend, parts[2]);
      var ups := LookupUPS(backend, parts[2]).value;
      set k | k in ups.variables :: VarLine(ups.name, k, ups.variables[k])
    case _ => set c | c in backend.commands(parts[2]).value :: Spaced("CMD", Spaced(parts[2], c.name))
  }

  /** A BEGIN line, exactly the entries, and the matching END line. */
  ghost predicate IsBlock(lines: seq<string>, title: string, entries: set<string>) {
    && |lines| >= 2 && lines[0] == "BEGIN " + title && lines[|lines| - 1] == "END " + title
    && forall line :: line in lines[1..|lines| - 1] <==> line in entries
  }

  lemma BlockOf(begin: string, body: seq<string>, end: string, title: string, entries: set<string>)
    requires begin == "BEGIN " + title && end == "END " + title
    requires forall line :: line in body <==> line in entries
    ensures IsBlock([begin] + body + [end], title, entries)
  {
    var lines := [begin] + body + [end];
    assert lines[1..|lines| - 1] == body;
  }

  lemma UPSBlock(upses: seq<UPS>)
    ensures IsBlock(ListUPSReply(upses), "LIST UPS", set u | u in upses :: UPSLine(u))
  {
    hide UPSLine, SortBy;
    var sorted := SortBy(upses, UPSName);
    var entries := set u | u in upses :: UPSLine(u);
    SortByElements(upses, UPSName);
    forall line ensures line in UPSLines(sorted) <==> line in entries {
      if line in UPSLines(sorted) {
        var i :| 0 <= i < |sorted| && UPSLines(sorted)[i] == line;
        assert sorted[i] in upses;
      }
      if line in entries {
        var u :| u in upses && UPSLine(u) == line;
        var i :| 0 <= i < |sorted| && sorted[i] == u;
        assert UPSLines(sorted)[i] == line;
      }
    }
    assert "BEGIN " + "LIST UPS" == "BEGIN LIST UPS" && "END " + "LIST UPS" == "END LIST UPS";
    BlockOf("BEGIN LIST UPS", UPSLines(sorted), "END LIST UPS", "LIST UPS", entries);
  }

  lemma VarBlock(ups: UPS)
    ensures IsBlock(ListVarReply(ups), "LIST VAR " + ups.name,
                    set k | k in ups.variables :: VarLine(ups.name, k, ups.variables[k]))
  {
    hide VarLine, Listing;
    var keys := Listing(ups.variables.Keys);
    var body := VarLines(ups.name, ups.variables, keys);
    var entries := set k | k in ups.variables :: VarLine(ups.name, k, ups.variables[k]);
    forall line ensures line in body <==> line in entries {
      if line in body {
        var i :| 0 <= i < |keys| && body[i] == line;
        assert keys[i] in keys;
      }
      if line in entries {
        var k :| k in ups.variables && VarLine(ups.name, k, ups.variables[k]) == line;
        assert k in keys;
        var i :| 0 <= i < |keys| && keys[i] == k;
        assert body[i] == line;
      }
    }
    assert "BEGIN " + ("LIST VAR " + ups.name) == "BEGIN LIST VAR " + ups.name;
    assert "END " + ("LIST VAR " + ups.name) == "END LIST VAR " + ups.name;
    BlockOf("BEGIN LIST VAR " + ups.name, body, "END LIST VAR " + ups.name, "LIST VAR " + ups.name, entries);
  }

  lemma CmdBlock(name: string, commands: seq<Command>)
    ensures IsBlock(ListCmdReply(name, commands), "LIST CMD " + name,
                    set c | c in commands :: Spaced("CMD", Spaced(name, c.name)))
  {
    hide SortBy, Spaced;
    var sorted := SortBy(commands, CommandName);
    var body := CommandLines(name, sorted);
    var entries := set c | c in commands :: Spaced("CMD", Spaced(name, c.name));
    SortByElements(commands, CommandName);
    forall line ensures line in body <==> line in entries {
      if line in body {
        var i :| 0 <= i < |sorted| && body[i] == line;
        assert sorted[i] in commands;
      }
      if line in entries {
        var c :| c in commands && Spaced("CMD", Spaced(name, c.name)) == line;
        var i :| 0 <= i < |sorted| && sorted[i] == c;
        assert body[i] == line;
      }
    }
    assert "BEGIN " + ("LIST CMD " + name) == "BEGIN LIST CMD " + name;
    assert "END " + ("LIST CMD " + name) == "END LIST CMD " + name;
    BlockOf("BEGIN LIST CMD " + name, body, "END LIST CMD " + name, "LIST CMD " + name, entries);
  }

  lemma ErrorLines(f: Failure)
    ensures IsError([ErrorLine(f)]) && IsError(["ERR INVALID-ARGUMENT"]) && IsError(["ERR UNKNOWN-COMMAND"])
    ensures IsError(["ERR DRIVER-NOT-CONNECTED"]) && IsError(["ERR VAR-NOT-SUPPORTED"])
    ensures IsError(["ERR CMD-NOT-SUPPORTED"]) && IsError(["ERR FAILED"]) && !IsError(["OK"])
  {
  }

  /** LIST is answered by one error line exactly when it cannot be answered, and else by a block of exactly the
      inventory's UPSes, the UPS's variables or its commands. */
  lemma ListAnswers(backend: Backend, parts: seq<string>)
    ensures var lines := ListReply(backend, parts);
            && (IsError(lines) <==> !CanList(backend, parts))
            && (CanList(backend, parts) ==> IsBlock(lines, ListTitle(parts), ListEntries(backend, parts)))
  {
    hide ListUPSReply, ListVarReply, ListCmdReply, LookupUPS, HasUPS, Upper, UPSLine, VarLine, Spaced, ErrorLine;
    if |parts| >= 2 {
      if backend.list.Some? {
        UPSBlock(backend.list.value);
      }
      if |parts| >= 3 {
        LookupFinds(backend, parts[2]);
        var found := LookupUPS(backend, parts[2]);
        if found.Ok? {
          VarBlock(found.value);
          var commands := backend.commands(parts[2]);
          if commands.Ok? {
            CmdBlock(parts[2], commands.value);
          } else {
            ErrorLines(commands.error);
          }
        } else {
          ErrorLines(found.error);
        }
      }
    }
    ErrorLines(Unavailable);
  }

  /** A GET command that can be answered. */
  predicate CanGet(backend: Backend, parts: seq<string>) {
    && |parts| >= 4 && HasUPS(backend, parts[2])
    && match Upper(parts[1])
       case "VAR" => LookupUPS(backend, parts[2]).Ok? && parts[3] in LookupUPS(backend, parts[2]).value.variables
       case "CMDDESC" => backend.commands(parts[2]).Ok? && FindCommand(backend.commands(parts[2]).value, parts[3]).Some?
       case _ => false
  }

  /** The command was given to a UPS of the inventory, and it ran. */
  predicate Ran(backend: Backend, parts: seq<string>) {
    |parts| >= 3 && HasUPS(backend, parts[1]) && backend.run(parts[1], parts[2]).None?
  }

  lemma NotAnError(word: string, rest: string)
    requires word != "" && word[0] != 'E'
    ensures !IsError([Spaced(word, rest)])
  {
    assert Spaced(word, rest)[0] == word[0] && "ERR "[0] == 'E';
  }

  /** GET is answered by one error line exactly when it cannot be answered, and else by one other line. */
  lemma GetAnswers(backend: Backend, parts: seq<string>)
    ensures var lines := GetReply(backend, parts); |lines| == 1 && (IsError(lines) <==> !CanGet(backend, parts))
  {
    hide LookupUPS, HasUPS, Upper, FindCommand, Quoted, ErrorLine, FirstNonEmpty, IsError, Spaced;
    if |parts| >= 4 {
      LookupFinds(backend, parts[2]);
      var found := LookupUPS(backend, parts[2]);
      if found.Ok? {
        var ups := found.value;
        if parts[3] in ups.variables {
          NotAnError("VAR", Spaced(ups.name, Spaced(parts[3], Quoted(ups.variables[parts[3]]))));
        }
        var commands := backend.commands(parts[2]);
        if commands.Err? {
          ErrorLines(commands.error);
        } else if FindCommand(commands.value, parts[3]).Some? {
          var c := FindCommand(commands.value, parts[3]).value;
          NotAnError("CMDDESC",
                     Spaced(ups.name, Spaced(c.name, Quoted(FirstNonEmpty([c.description, c.name])))));
        }
      } else {
        ErrorLines(found.error);
      }
    }
    ErrorLines(Unavailable);
  }

  /** INSTCMD is answered by OK exactly when the UPS exists and the command ran, and else by one error line. */
  lemma InstCmdAnswers(backend: Backend, parts: seq<string>)
    ensures var lines := InstCmdReply(backend, parts);
            (if Ran(backend, parts) then lines == ["OK"] else IsError(lines)) && !IsError(["OK"])
  {
    hide LookupUPS, HasUPS;
    if |parts| >= 3 {
      LookupFinds(backend, parts[1]);
      var found := LookupUPS(backend, parts[1]);
      if found.Err? {
        ErrorLines(found.error);
      }
    }
    if |parts| >= 3 && LookupUPS(backend, parts[1]).Ok? {
      var failure := backend.run(parts[1], parts[2]);
      assert failure.Some? ==> IsError([if failure.value.UnknownUPS? then "ERR UNKNOWN-UPS" else "ERR FAILED"]);
    }
    ErrorLines(UnknownUPS);
    ErrorLines(Unavailable);
  }

  /** What a command about a UPS is answered when the inventory lacks the UPS, or cannot be had. */
  lemma MissingUPSReplies(backend: Backend, parts: seq<string>)
    ensures |parts| >= 3 && !HasUPS(backend, parts[2]) && (Upper(parts[1]) == "VAR" || Upper(parts[1]) == "CMD") ==>
              ListReply(backend, parts) ==
              [if backend.list.Some? then "ERR UNKNOWN-UPS" else "ERR DRIVER-NOT-CONNECTED"]
    ensures |parts| >= 4 && !HasUPS(backend, parts[2]) && (Upper(parts[1]) == "VAR" || Upper(parts[1]) == "CMDDESC") ==>
              GetReply(backend, parts) ==
              [if backend.list.Some? then "ERR UNKNOWN-UPS" else "ERR DRIVER-NOT-CONNECTED"]
    ensures |parts| >= 3 && !HasUPS(backend, parts[1]) ==>
              InstCmdReply(backend, parts) ==
              [if backend.list.Some? then "ERR UNKNOWN-UPS" else "ERR DRIVER-NOT-CONNECTED"]
  {
    hide FindUPS, Upper, HasUPS, ListUPSReply, ListVarReply, ListCmdReply, VarLine, Quoted;
    assert "VAR"[0] != "UPS"[0] && "CMD"[0] != "UPS"[0];
    if |parts| >= 3 {
      LookupFinds(backend, parts[1]);
      LookupFinds(backend, parts[2]);
      LookupFails(backend, parts[1]);
      LookupFails(backend, parts[2]);
    }
  }

  /** What the other commands that cannot be answered get: too few words, an unknown target, a variable or a command the
      UPS lacks, a command that fails, and no fleet at all. */
  lemma RefusalLines(backend: Backend, parts: seq<string>)
    requires parts != []
    ensures BackendReply(None, parts) == ["ERR DRIVER-NOT-CONNECTED"]
    ensures Upper(parts[0]) != "LIST" && Upper(parts[0]) != "GET" && Upper(parts[0]) != "INSTCMD" ==>
              BackendReply(Some(backend), parts) == ["ERR UNKNOWN-COMMAND"]
    ensures |parts| < 2 ==> ListReply(backend, parts) == ["ERR INVALID-ARGUMENT"]
    ensures |parts| < 4 ==> GetReply(backend, parts) == ["ERR INVALID-ARGUMENT"]
    ensures |parts| < 3 ==> InstCmdReply(backend, parts) == ["ERR INVALID-ARGUMENT"]
    ensures |parts| >= 4 && Upper(parts[1]) != "VAR" && Upper(parts[1]) != "CMDDESC" ==>
              GetReply(backend, parts) == ["ERR UNKNOWN-COMMAND"]
    ensures |parts| >= 2 && Upper(parts[1]) != "UPS" && Upper(parts[1]) != "VAR" && Upper(parts[1]) != "CMD" ==>
              ListReply(backend, parts) == ["ERR UNKNOWN-COMMAND"]
    ensures |parts| >= 2 && Upper(parts[1]) == "UPS" ==>
              (|parts| > 2 ==> ListReply(backend, parts) == ["ERR INVALID-ARGUMENT"])
              && (|parts| == 2 && backend.list.None? ==> ListReply(backend, parts) == ["ERR DRIVER-NOT-CONNECTED"])
    ensures |parts| == 2 && (Upper(parts[1]) == "VAR" || Upper(parts[1]) == "CMD") ==>
              ListReply(backend, parts) == ["ERR INVALID-ARGUMENT"]
    ensures |parts| >= 3 && HasUPS(backend, parts[1]) && backend.run(parts[1], parts[2]).Some? ==>
              InstCmdReply(backend, parts) ==
              [if backend.run(parts[1], parts[2]).value.UnknownUPS? then "ERR UNKNOWN-UPS" else "ERR FAILED"]
  {
    hide FindUPS, Upper, HasUPS, ListUPSReply, ListVarReply, ListCmdReply, VarLine, Quoted;
    if |parts| >= 3 {
      LookupFinds(backend, parts[1]);
    }
  }

  /** What a command gets that needs the UPS's commands when these cannot be had. */
  lemma MissingCommandReplies(backend: Backend, target: string, ups: string, name: string)
    requires HasUPS(backend, ups) && backend.commands(ups).Err?
    ensures var unknown := backend.commands(ups).error.UnknownUPS?;
            var line := if unknown then "ERR UNKNOWN-UPS" else "ERR DRIVER-NOT-CONNECTED";
            && (Upper(target) == "CMD" ==> ListReply(backend, ["LIST", target, ups]) == [line])
            && (Upper(target) == "CMDDESC" ==> GetReply(backend, ["GET", target, ups, name]) == [line])
  {
    hide FindUPS, Upper, HasUPS, LookupUPS, FindCommand, Quoted, VarLine, FirstNonEmpty;
    LookupFinds(backend, ups);
    assert "VAR"[0] != "CMDDESC"[0] && "VAR"[0] != "CMD"[0] && "UPS"[0] != "CMD"[0];
  }

  /** What GET gets for a variable or a command that the UPS lacks. */
  lemma AbsentReplies(backend: Backend, target: string, ups: string, name: string)
    requires HasUPS(backend, ups)
    ensures var lines := GetReply(backend, ["GET", target, ups, name]);
            && LookupUPS(backend, ups).Ok?
            && (Upper(target) == "VAR" ==>
                  (lines == ["ERR VAR-NOT-SUPPORTED"] <==> name !in LookupUPS(backend, ups).value.variables))
            && (Upper(target) == "CMDDESC" && backend.commands(ups).Ok? ==>
                  (lines == ["ERR CMD-NOT-SUPPORTED"] <==> FindCommand(backend.commands(ups).value, name).None?))
  {
    hide FindUPS, Upper, HasUPS, LookupUPS, FindCommand, Quoted, VarLine, FirstNonEmpty;
    LookupFinds(backend, ups);
    var found := LookupUPS(backend, ups).value;
    assert "VAR"[0] != "CMDDESC"[0];
    assert "ERR VAR-NOT-SUPPORTED"[0] == 'E' && "ERR CMD-NOT-SUPPORTED"[0] == 'E';
    if name in found.variables {
      StartsWithV(found.name, name, found.variables[name]);
    }
  }

  lemma StartsWithV(ups: string, name: string, value: string)
    ensures VarLine(ups, name, value)[..1] == "V"
  {
    hide Quoted;
  }

  lemma LookupFails(backend: Backend, name: string)
    ensures LookupUPS(backend, name).Err? ==>
              LookupUPS(backend, name).error == if backend.list.Some? then UnknownUPS else Unavailable
  {
    hide FindUPS;
    if backend.list.Some? {
      FindUPSFinds(backend.list.value, name);
    }
  }

  /** The first command of the name asked for. */
  lemma {:induction false} FindCommandFinds(commands: seq<Command>, name: string)
    ensures match FindCommand(commands, name)
            case None => forall i | 0 <= i < |commands| :: commands[i].name != name
            case Some(c) =>
              exists i :: 0 <= i < |commands| && commands[i] == c && c.name == name
                          && forall j | 0 <= j < i :: commands[j].name != name
  {
    if commands != [] {
      FindCommandFinds(commands[1..], name);
      if commands[0].name == name {
        assert commands[0] == FindCommand(commands, name).value;
      } else if FindCommand(commands, name).Some? {
        var c := FindCommand(commands, name).value;
        var i :| 0 <= i < |commands[1..]| && commands[1..][i] == c && c.name == name
          && forall j | 0 <= j < i :: commands[1..][j].name != name;
        assert commands[i + 1] == c;
        assert forall j | 0 <= j < i + 1 :: j > 0 ==> commands[j] == commands[1..][j - 1];
      } else {
        assert forall i | 1 <= i < |commands| :: commands[i] == commands[1..][i - 1];
      }
    }
  }

  /** An authenticated command that can be answered. */
  predicate CanAnswer(backend: Option<Backend>, parts: seq<string>)
    requires parts != []
  {
    && backend.Some?
    && match Upper(parts[0])
       case "LIST" => CanList(backend.value, parts)
       case "GET" => CanGet(backend.value, parts)
       case "INSTCMD" => Ran(backend.value, parts)
       case _ => false
  }

  /** A reply is one error line exactly when the command cannot be answered. */
  method AskBackend(backend: Option<Backend>, parts: seq<string>) returns (lines: seq<string>)
    requires parts != []
    ensures lines == BackendReply(backend, parts)
    ensures IsError(lines) <==> !CanAnswer(backend, parts)
    ensures CanAnswer(backend, parts) ==>
              match Upper(parts[0])
              case "LIST" => IsBlock(lines, ListTitle(parts), ListEntries(backend.value, parts))
              case "GET" => |lines| == 1
              case _ => lines == ["OK"]
  {
    hide Upper, ListReply, GetReply, InstCmdReply, CanList, CanGet, Ran, IsBlock, ListEntries, ListTitle, IsError;
    ErrorLines(Unavailable);
    if backend.None? {
      return ["ERR DRIVER-NOT-CONNECTED"];
    }
    var command := Upper(parts[0]);
    if command == "LIST" {
      lines := List(backend.value, parts);
    } else if command == "GET" {
      lines := Get(backend.value, parts);
    } else if command == "INSTCMD" {
      lines := InstCmd(backend.value, parts);
    } else {
      lines := ["ERR UNKNOWN-COMMAND"];
    }
  }

  method List(backend: Backend, parts: seq<string>) returns (lines: seq<string>)
    ensures lines == ListReply(backend, parts)
    ensures IsError(lines) <==> !CanList(backend, parts)
    ensures CanList(backend, parts) ==> IsBlock(lines, ListTitle(parts), ListEntries(backend, parts))
  {
    hide ListUPSReply, ListVarReply, ListCmdReply, LookupUPS, CanList, IsBlock, ListEntries, ListTitle, Upper, IsError;
    ListAnswers(backend, parts);
    if |parts| < 2 {
      return ["ERR INVALID-ARGUMENT"];
    }
    var target := Upper(parts[1]);
    if target == "UPS" {
      if |parts| != 2 {
        return ["ERR INVALID-ARGUMENT"];
      } else if backend.list.None? {
        return ["ERR DRIVER-NOT-CONNECTED"];
      }
      lines := PrintUPSList(backend.list.value);
    } else if target == "VAR" || target == "CMD" {
      if |parts| < 3 {
        return ["ERR INVALID-ARGUMENT"];
      }
      var ups := LookupUPS(backend, parts[2]);
      if ups.Err? {
        return [ErrorLine(ups.error)];
      }
      if target == "VAR" {
        lines := PrintVarList(ups.value);
        return;
      }
      var commands := backend.commands(ups.value.name);
      if commands.Err? {
        return [ErrorLine(commands.error)];
      }
      lines := PrintCmdList(ups.value.name, commands.value);
    } else {
      lines := ["ERR UNKNOWN-COMMAND"];
    }
  }

  method PrintCmdList(name: string, commands: seq<Command>) returns (lines: seq<string>)
    ensures lines == ListCmdReply(name, commands)
  {
    hide SortBy, Spaced;
    var sorted := SortBy(commands, CommandName);
    lines := ["BEGIN LIST CMD " + name];
    for i := 0 to |sorted|
      invariant lines == ["BEGIN LIST CMD " + name] + CommandLines(name, sorted)[..i]
    {
      lines := lines + [Spaced("CMD", Spaced(name, sorted[i].name))];
    }
    lines := lines + ["END LIST CMD " + name];
  }

  method Get(backend: Backend, parts: seq<string>) returns (lines: seq<string>)
    ensures lines == GetReply(backend, parts)
    ensures |lines| == 1 && (IsError(lines) <==> !CanGet(backend, parts))
  {
    hide LookupUPS, CanGet, VarLine, Quoted, FindCommand, Upper, FirstNonEmpty, IsError;
    GetAnswers(backend, parts);
    if |parts| < 4 {
      return ["ERR INVALID-ARGUMENT"];
    }
    var target := Upper(parts[1]);
    if target != "VAR" && target != "CMDDESC" {
      return ["ERR UNKNOWN-COMMAND"];
    }
    var ups := LookupUPS(backend, parts[2]);
    if ups.Err? {
      return [ErrorLine(ups.error)];
    }
    if target == "VAR" {
      if parts[3] !in ups.value.variables {
        return ["ERR VAR-NOT-SUPPORTED"];
      }
      return [VarLine(ups.value.name, parts[3], ups.value.variables[parts[3]])];
    }
    var commands := backend.commands(ups.value.name);
    if commands.Err? {
      return [ErrorLine(commands.error)];
    }
    var found := FindCommand(commands.value, parts[3]);
    if found.None? {
      return ["ERR CMD-NOT-SUPPORTED"];
    }
    var c := found.value;
    var description := Quoted(FirstNonEmpty([c.description, c.name]));
    lines := [Spaced("CMDDESC", Spaced(ups.value.name, Spaced(c.name, description)))];
  }

  method InstCmd(backend: Backend, parts: seq<string>) returns (lines: seq<string>)
    ensures lines == InstCmdReply(backend, parts)
    ensures if Ran(backend, parts) then lines == ["OK"] else IsError(lines)
  {
    hide LookupUPS, Ran, IsError;
    InstCmdAnswers(backend, parts);
    if |parts| < 3 {
      return ["ERR INVALID-ARGUMENT"];
    }
    var ups := LookupUPS(backend, parts[1]);
    if ups.Err? {
      return [ErrorLine(ups.error)];
    }
    var failure := backend.run(parts[1], parts[2]);
    if failure.Some? {
      return [if failure.value.UnknownUPS? then "ERR UNKNOWN-UPS" else "ERR FAILED"];
    }
    lines := ["OK"];
  }

  method PrintUPSList(upses: seq<UPS>) returns (lines: seq<string>)
    ensures lines == ListUPSReply(upses)
  {
    hide SortBy, UPSLine;
    var sorted := SortBy(upses, UPSName);
    lines := ["BEGIN LIST UPS"];
    for i := 0 to |sorted|
      invariant lines == ["BEGIN LIST UPS"] + UPSLines(sorted)[..i]
    {
      lines := lines + [UPSLine(sorted[i])];
    }
    lines := lines + ["END LIST UPS"];
  }

  method PrintVarList(ups: UPS) returns (lines: seq<string>)
    ensures lines == ListVarReply(ups)
  {
    hide Listing, VarLine;
    var keys := SortedElements(ups.variables.Keys);
    lines := ["BEGIN LIST VAR " + ups.name];
    for i := 0 to |keys|
      invariant lines == ["BEGIN LIST VAR " + ups.name] + VarLines(ups.name, ups.variables, keys)[..i]
    {
      assert keys[i] in keys;
      lines := lines + [VarLine(ups.name, keys[i], ups.variables[keys[i]])];
    }
    lines := lines + ["END LIST VAR " + ups.name];
  }

  /** Both ends of one connection: the listener's session and the bytes on their way to the peer. */
  class Connection {
    const server: Server
    const session: NutSession
    var unread: string
    var open: bool

    constructor (server: Server)
      ensures this.server == server && View() == NEW_CHANNEL && fresh(session)
    {
      this.server, unread, open := server, "", true;
      session := new NutSession();
    }

    function View(): Channel
      reads this, session
    {
      Channel(session.State(), unread, open)
    }

    /** The peer writes input and the listener's read loop takes it line by line. */
    method Write(input: string)
      modifies this, session
      ensures View() == Serve(server, old(View()), input)
    {
      var left := input;
      while open
        invariant Serve(server, View(), left) == old(Serve(server, View(), input))
        decreases |left|, open
      {
        var next := ReadLine(left);
        if next.None? {
          return;
        }
        var line := TrimSpace(next.value.0);
        left := next.value.1;
        if line != "" {
          var lines, keepOpen := session.HandleCommand(server, line);
          unread, open := unread + Unlines(lines), keepOpen;
        }
      }
    }

    /** The peer reads one line, without its newline; None is a read error. */
    method ReadString() returns (line: Option<string>)
      modifies this`unread
      ensures match ReadLine(old(unread))
              case None => line.None? && unread == old(unread)
              case Some((first, rest)) => line == Some(first) && unread == rest
    {
      var next := ReadLine(unread);
      if next.None? {
        return None;
      }
      line, unread := Some(next.value.0), next.value.1;
    }
  }

  /** What the listener prints on a connection whose peer sends input and never reads. */
  method HandleConn(server: Server, input: string) returns (output: string)
    ensures output == Serve(server, NEW_CHANNEL, input).unread
  {
    var conn := new Connection(server);
    conn.Write(input);
    output := conn.unread;
  }

  // ---------- What an unauthenticated peer can learn ----------

  /** The session is not logged in now, nor after any of the lines it is served. */
  ghost predicate NeverLogsIn(server: Server, ch: Channel, input: string)
    decreases |input|
  {
    && !ch.session.authed
    && (ch.open ==>
          match ReadLine(input)
          case None => true
          case Some((raw, rest)) =>
            var line := TrimSpace(raw);
            if line == "" then NeverLogsIn(server, ch, rest)
            else
              var r := Respond(server, ch.session, line);
              NeverLogsIn(server, Channel(r.session, ch.unread + Unlines(r.lines), r.keepOpen), rest))
  }

  /** A line that does not end in a logged-in session is answered without asking the fleet. */
  lemma DeniedLine(server: Server, other: Server, s: Session, line: string)
    requires server.auth == other.auth && !s.authed
    ensures Respond(server, s, line) == Respond(other, s, line)
  {
    hide Fields, TrimSpace, Upper, BackendReply;
    assert forall user, password :: Authenticate(server, user, password) == Authenticate(other, user, password);
  }

  /** A peer that never logs in learns nothing of the fleet: its whole conversation is the same with any other
      fleet behind the listener. */
  lemma {:induction false} RejectedPeerLearnsNothing(server: Server, other: Server, ch: Channel, input: string)
    requires server.auth == other.auth && NeverLogsIn(server, ch, input)
    ensures Serve(server, ch, input) == Serve(other, ch, input)
    ensures NeverLogsIn(other, ch, input)
    decreases |input|
  {
    hide Respond, TrimSpace;
    if ch.open && ReadLine(input).Some? {
      var (raw, rest) := ReadLine(input).value;
      var line := TrimSpace(raw);
      if line == "" {
        RejectedPeerLearnsNothing(server, other, ch, rest);
      } else {
        var r := Respond(server, ch.session, line);
        DeniedLine(server, other, ch.session, line);
        RejectedPeerLearnsNothing(server, other, Channel(r.session, ch.unread + Unlines(r.lines), r.keepOpen), rest);
      }
    }
  }

  /** The pair of credentials a line completes, if it is a PASSWORD command that reaches the authenticator. */
  function Offered(s: Session, line: string): Option<(string, string)> {
    var parts := Fields(line);
    if |parts| >= 2 && Upper(parts[0]) == "PASSWORD" && TrimSpace(s.username) != ""
    then Some((s.username, TrimSpace(parts[1])))
    else None
  }

  /** A line logs a session in exactly when it completes a pair of credentials the listener accepts: its authenticator
      does, or, where it has none, neither is blank. */
  lemma LogsInExactly(server: Server, s: Session, line: string)
    requires !s.authed
    ensures Respond(server, s, line).session.authed <==>
            && Offered(s, line).Some?
            && var (username, password) := Offered(s, line).value;
               if server.auth.Some? then server.auth.value(TrimSpace(username), TrimSpace(password))
               else TrimSpace(username) != "" && TrimSpace(password) != ""
  {
    hide Fields, TrimSpace, Upper, BackendReply;
    assert "QUIT"[0] != "PASSWORD"[0] && "LOGOUT"[0] != "PASSWORD"[0] && "USERNAME"[0] != "PASSWORD"[0];
  }

  /** The connection is closed exactly after QUIT or LOGOUT; USERNAME takes a new user name and logs the session out,
      a rejected password logs it out, and nothing else does; and a session that is not logged in gets no reply from
      the fleet. */
  lemma SessionAfter(server: Server, s: Session, line: string)
    ensures var parts, r := Fields(line), Respond(server, s, line);
            var command := if parts == [] then "" else Upper(parts[0]);
            && (!r.keepOpen <==> command == "QUIT" || command == "LOGOUT")
            && (!r.keepOpen ==> r.lines == ["OK Goodbye"])
            && r.session.username == (if command == "USERNAME" && |parts| >= 2 then TrimSpace(parts[1]) else s.username)
            && (s.authed && !r.session.authed <==>
                  && s.authed
                  && ((command == "USERNAME" && |parts| >= 2)
                      || (Offered(s, line).Some?
                          && !Authenticate(server, Offered(s, line).value.0, Offered(s, line).value.1))))
            && (!s.authed && r.keepOpen && parts != [] && command != "USERNAME" && command != "PASSWORD" ==>
                  r.lines == ["ERR ACCESS-DENIED"])
  {
    hide Fields, TrimSpace, Upper, BackendReply, Authenticate;
    assert "QUIT"[0] != "PASSWORD"[0] && "LOGOUT"[0] != "PASSWORD"[0] && "USERNAME"[0] != "PASSWORD"[0];
    assert "QUIT"[0] != "USERNAME"[0] && "LOGOUT"[0] != "USERNAME"[0];
  }

  /** A new connection is denied everything until it gives a user name: a password too. */
  lemma NewSessionDenies(server: Server, line: string)
    requires Fields(line) != []
    requires Upper(Fields(line)[0]) != "USERNAME" && Upper(Fields(line)[0]) != "QUIT"
    requires Upper(Fields(line)[0]) != "LOGOUT"
    ensures Respond(server, NEW_SESSION, line) == Response(["ERR ACCESS-DENIED"], Session("", false), true)
  {
    hide Fields, Upper, BackendReply;
    NothingToTrim();
  }

  lemma {:induction false} RejectedByAll(server: Server, ch: Channel, input: string)
    requires server.auth.Some? && forall u: string, p: string :: !server.auth.value(u, p)
    requires !ch.session.authed
    ensures NeverLogsIn(server, ch, input)
    decreases |input|
  {
    hide Respond, TrimSpace;
    if ch.open && ReadLine(input).Some? {
      var (raw, rest) := ReadLine(input).value;
      var line := TrimSpace(raw);
      if line == "" {
        RejectedByAll(server, ch, rest);
      } else {
        var r := Respond(server, ch.session, line);
        LogsInExactly(server, ch.session, line);
        RejectedByAll(server, Channel(r.session, ch.unread + Unlines(r.lines), r.keepOpen), rest);
      }
    }
  }

  /** On a listener whose authenticator accepts nobody a new connection prints the same whatever the fleet. */
  lemma ClosedListenerTellsNothing(server: Server, other: Server, input: string)
    requires server.auth.Some? && forall u: string, p: string :: !server.auth.value(u, p)
    requires other.auth == server.auth
    ensures Serve(server, NEW_CHANNEL, input).unread == Serve(other, NEW_CHANNEL, input).unread
  {
    RejectedByAll(server, NEW_CHANNEL, input);
    RejectedPeerLearnsNothing(server, other, NEW_CHANNEL, input);
  }
}
