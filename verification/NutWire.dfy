/** Printer and parser agree: quoting is undone, every LIST reply delimits itself, and a poll of the
    aggregate listener returns exactly the fleet behind it. */
module NutWire {
  import opened Basics
  import opened Text
  import opened Sorting
  import opened NutServer
  import opened NutClient

  // ---------- Quoting ----------

  lemma {:induction false} ReplaceAllAppend(a: string, b: string, c: char, text: string)
    ensures ReplaceAll(a + b, c, text) == ReplaceAll(a, c, text) + ReplaceAll(b, c, text)
  {
    if a == "" {
      assert a + b == b;
    } else {
      assert (a + b)[1..] == a[1..] + b;
      ReplaceAllAppend(a[1..], b, c, text);
    }
  }

  lemma {:induction false} ReplaceAllLacks(s: string, c: char, text: string, absent: char)
    requires absent !in s && absent !in text
    ensures absent !in ReplaceAll(s, c, text)
  {
    if s != "" {
      ReplaceAllLacks(s[1..], c, text, absent);
    }
  }

  /** The two passes together put a backslash before every backslash and every quote. */
  lemma EscapeFirst(v: string)
    requires v != ""
    ensures EscapeNUTString(v) ==
            (if v[0] == '\\' then "\\\\" else if v[0] == '\"' then "\\\"" else [v[0]]) + EscapeNUTString(v[1..])
  {
    var head := if v[0] == '\\' then "\\\\" else [v[0]];
    var tail := ReplaceAll(v[1..], '\\', "\\\\");
    ReplaceAllAppend(head, tail, '\"', "\\\"");
    assert ReplaceAll(v, '\\', "\\\\") == head + tail;
    if v[0] == '\\' {
      assert head[1..] == "\\" && head[1..][1..] == "";
      assert ReplaceAll(head, '\"', "\\\"") == "\\\\";
    } else {
      assert head[1..] == "";
      assert ReplaceAll(head, '\"', "\\\"") == if v[0] == '\"' then "\\\"" else head;
    }
  }

  lemma EscapeNothing()
    ensures EscapeNUTString("") == ""
  {
  }

  lemma {:induction false} UnquoteEscaped(v: string)
    ensures UnquoteBody(EscapeNUTString(v) + "\"") == if '\n' in v then None else Some(v)
  {
    hide ReplaceAll;
    var s := EscapeNUTString(v) + "\"";
    if v == "" {
      assert EscapeNUTString("") == "" by { EscapeNothing(); }
      assert s == "\"";
    } else {
      EscapeFirst(v);
      UnquoteEscaped(v[1..]);
      var rest := EscapeNUTString(v[1..]) + "\"";
      assert v == [v[0]] + v[1..];
      if v[0] == '\\' || v[0] == '\"' {
        assert s == ['\\', v[0]] + rest;
        assert s[2..] == rest;
      } else {
        assert s == [v[0]] + rest;
        assert s[1..] == rest;
      }
    }
  }

  /** Unquoting undoes the two-pass escaping for exactly the values without a newline. */
  lemma QuotingRoundTrip(v: string)
    ensures Unquote(Quoted(v)) == Some(v) <==> '\n' !in v
  {
    UnquoteEscaped(v);
    assert Quoted(v)[1..] == EscapeNUTString(v) + "\"";
  }

  lemma QuotedLacksNewline(v: string)
    requires '\n' !in v
    ensures '\n' !in Quoted(v)
  {
    ReplaceAllLacks(v, '\\', "\\\\", '\n');
    ReplaceAllLacks(ReplaceAll(v, '\\', "\\\\"), '\"', "\\\"", '\n');
  }

  // ---------- Lines ----------

  /** What a fleet must satisfy to be listed line by line. */
  predicate Listable(ups: UPS) {
    && IsWord(ups.name) && '\n' !in ups.description
    && forall k | k in ups.variables :: NoSpaces(k) && '\n' !in ups.variables[k]
  }

  lemma WordLacks(w: string)
    requires NoSpaces(w)
    ensures '\n' !in w && ' ' !in w
  {
    assert IsSpace('\n') && IsSpace(' ');
  }

  lemma SplitSpaced(word: string, rest: string, n: nat)
    requires n >= 2 && ' ' !in word
    ensures SplitN(Spaced(word, rest), ' ', n) == [word] + SplitN(rest, ' ', n - 1)
  {
    SplitNCons(word, ' ', rest, n);
  }

  lemma SplitRest(s: string)
    ensures SplitN(s, ' ', 1) == [s]
  {
  }

  lemma TightEnds(a: string, b: string)
    requires a != "" && !IsSpace(a[0]) && b != "" && !IsSpace(b[|b| - 1])
    ensures TrimSpace(a + b) == a + b
  {
    hide *;
    TrimKeepsTight(a + b);
  }

  /** A printed line that ends in a quoted text loses nothing to trimming. */
  lemma QuotedLineTight(word: string, rest: string, line: string)
    requires line == Spaced(word, rest) && word != "" && !IsSpace(word[0])
    requires rest != "" && rest[|rest| - 1] == '\"'
    ensures TrimSpace(line) == line && line[0] == word[0] && line[|line| - 1] == '\"'
  {
    hide TrimSpace;
    TightEnds(word + [' '], rest);
  }

  lemma QuotedEnds(value: string)
    ensures Quoted(value) != "" && Quoted(value)[|Quoted(value)| - 1] == '\"'
  {
    hide EscapeNUTString;
  }

  lemma UPSLineReads(ups: UPS)
    requires Listable(ups)
    ensures SplitN(UPSLine(ups), ' ', 3) == ["UPS", ups.name, Quoted(FirstNonEmpty([ups.description, ups.name]))]
    ensures '\n' !in UPSLine(ups) && TrimSpace(UPSLine(ups)) == UPSLine(ups) && UPSLine(ups)[0] == 'U'
  {
    hide SplitN, Quoted, FirstNonEmpty, TrimSpace;
    var described := FirstNonEmpty([ups.description, ups.name]);
    var quoted := Quoted(described);
    WordLacks(ups.name);
    FirstNonEmptyLacks([ups.description, ups.name], '\n');
    QuotedLacksNewline(described);
    SplitSpaced("UPS", Spaced(ups.name, quoted), 3);
    SplitSpaced(ups.name, quoted, 2);
    SplitRest(quoted);
    QuotedEnds(described);
    QuotedLineTight("UPS", Spaced(ups.name, quoted), UPSLine(ups));
  }

  lemma VarLineReads(name: string, key: string, value: string)
    requires NoSpaces(name) && NoSpaces(key) && '\n' !in value
    ensures SplitN(VarLine(name, key, value), ' ', 4) == ["VAR", name, key, Quoted(value)]
    ensures var line := VarLine(name, key, value); '\n' !in line && TrimSpace(line) == line && line[0] == 'V'
  {
    hide SplitN, Quoted, TrimSpace;
    var quoted := Quoted(value);
    WordLacks(name);
    WordLacks(key);
    QuotedLacksNewline(value);
    SplitSpaced("VAR", Spaced(name, Spaced(key, quoted)), 4);
    SplitSpaced(name, Spaced(key, quoted), 3);
    SplitSpaced(key, quoted, 2);
    SplitRest(quoted);
    QuotedEnds(value);
    QuotedLineTight("VAR", Spaced(name, Spaced(key, quoted)), VarLine(name, key, value));
  }

  lemma VarLimits(begin: string, name: string)
    requires IsWord(name) && begin != "" && !IsSpace(begin[0]) && '\n' !in begin
    ensures TrimSpace(begin + name) == begin + name && '\n' !in begin + name
  {
    WordLacks(name);
    TightEnds(begin, name);
  }

  function NamesOf(upses: seq<UPS>): seq<string> {
    seq(|upses|, i requires 0 <= i < |upses| => upses[i].name)
  }

  lemma UnlinesCons(line: string, lines: seq<string>, rest: string)
    ensures Unlines([line] + lines) + rest == line + "\n" + (Unlines(lines) + rest)
  {
    assert ([line] + lines)[1..] == lines;
  }

  lemma UnlinesLast(line: string, rest: string)
    ensures Unlines([line]) + rest == line + "\n" + rest
  {
    assert [line][1..] == [];
  }

  lemma UPSBodyEnds(names: seq<string>, rest: string)
    ensures ParseUPSBody("END LIST UPS" + "\n" + rest, names) == Ok((names, rest))
  {
    hide ReadLine, TrimSpace, SplitN;
    ReadLineFirst("END LIST UPS", rest);
    TrimKeepsTight("END LIST UPS");
  }

  lemma UPSBodyGoesOn(ups: UPS, names: seq<string>, rest: string)
    requires Listable(ups)
    ensures ParseUPSBody(UPSLine(ups) + "\n" + rest, names) == ParseUPSBody(rest, names + [ups.name])
  {
    hide ReadLine, TrimSpace, SplitN, UPSLine;
    UPSLineReads(ups);
    ReadLineFirst(UPSLine(ups), rest);
  }

  lemma {:induction false} UPSBodyDelimited(upses: seq<UPS>, names: seq<string>, rest: string)
    requires forall u | u in upses :: Listable(u)
    ensures ParseUPSBody(Unlines(UPSLines(upses) + ["END LIST UPS"]) + rest, names)
            == Ok((names + NamesOf(upses), rest))
    decreases |upses|
  {
    hide ParseUPSBody, UPSLine, Unlines;
    var end := "END LIST UPS";
    if upses == [] {
      UnlinesLast(end, rest);
      assert UPSLines(upses) + [end] == [end];
      assert names + NamesOf(upses) == names;
      UPSBodyEnds(names, rest);
    } else {
      var more := UPSLines(upses[1..]) + [end];
      UnlinesCons(UPSLine(upses[0]), more, rest);
      assert UPSLines(upses) + [end] == [UPSLine(upses[0])] + more;
      UPSBodyGoesOn(upses[0], names, Unlines(more) + rest);
      UPSBodyDelimited(upses[1..], names + [upses[0].name], rest);
      assert names + [upses[0].name] + NamesOf(upses[1..]) == names + NamesOf(upses);
    }
  }

  /** A LIST UPS reply is parsed to the sorted names, and what follows it on the stream is untouched. */
  lemma UPSListDelimited(upses: seq<UPS>, rest: string)
    requires forall u | u in upses :: Listable(u)
    ensures ParseUPSList(Unlines(ListUPSReply(upses)) + rest) == Ok((NamesOf(SortBy(upses, UPSName)), rest))
  {
    hide ParseUPSBody, UPSLine, Unlines, ReadLine, TrimSpace, SortBy;
    var sorted, begin := SortBy(upses, UPSName), "BEGIN LIST UPS";
    SortByElements(upses, UPSName);
    var more := UPSLines(sorted) + ["END LIST UPS"];
    assert ListUPSReply(upses) == [begin] + more;
    UnlinesCons(begin, more, rest);
    ReadLineFirst(begin, Unlines(more) + rest);
    TrimKeepsTight(begin);
    UPSBodyDelimited(sorted, [], rest);
    assert [] + NamesOf(sorted) == NamesOf(sorted);
  }

  /** The variables read so far, and those of the keys still to come. */
  function Extended(read: map<string, string>, variables: map<string, string>, keys: seq<string>): map<string, string>
    requires forall k | k in keys :: k in variables
  {
    read + map k | k in keys :: variables[k]
  }

  lemma ExtendedStep(read: map<string, string>, variables: map<string, string>, keys: seq<string>)
    requires keys != [] && forall k | k in keys :: k in variables
    ensures Extended(read[keys[0] := variables[keys[0]]], variables, keys[1..]) == Extended(read, variables, keys)
  {
    assert keys == [keys[0]] + keys[1..];
  }

  lemma VarBodyEnds(name: string, read: map<string, string>, rest: string)
    requires IsWord(name)
    ensures ParseVarBody("END LIST VAR " + name + "\n" + rest, name, read) == Ok((read, rest))
  {
    hide ReadLine, TrimSpace, SplitN;
    VarLimits("END LIST VAR ", name);
    ReadLineFirst("END LIST VAR " + name, rest);
  }

  lemma VarBodyGoesOn(name: string, key: string, value: string, read: map<string, string>, rest: string)
    requires NoSpaces(name) && NoSpaces(key) && '\n' !in value
    ensures ParseVarBody(VarLine(name, key, value) + "\n" + rest, name, read)
            == ParseVarBody(rest, name, read[key := value])
  {
    hide ReadLine, TrimSpace, SplitN, VarLine;
    VarLineReads(name, key, value);
    QuotingRoundTrip(value);
    ReadLineFirst(VarLine(name, key, value), rest);
    assert ("END LIST VAR " + name)[0] == 'E';
  }

  lemma {:induction false} VarBodyDelimited(name: string, variables: map<string, string>, keys: seq<string>,
                                            read: map<string, string>, rest: string)
    requires IsWord(name)
    requires forall k | k in keys :: k in variables && NoSpaces(k) && '\n' !in variables[k]
    ensures ParseVarBody(Unlines(VarLines(name, variables, keys) + ["END LIST VAR " + name]) + rest, name, read)
            == Ok((Extended(read, variables, keys), rest))
    decreases |keys|
  {
    hide ParseVarBody, VarLine, Unlines;
    var end := "END LIST VAR " + name;
    if keys == [] {
      UnlinesLast(end, rest);
      assert VarLines(name, variables, keys) + [end] == [end];
      assert Extended(read, variables, keys) == read;
      VarBodyEnds(name, read, rest);
    } else {
      var k, v := keys[0], variables[keys[0]];
      var more := VarLines(name, variables, keys[1..]) + [end];
      UnlinesCons(VarLine(name, k, v), more, rest);
      assert VarLines(name, variables, keys) + [end] == [VarLine(name, k, v)] + more;
      VarBodyGoesOn(name, k, v, read, Unlines(more) + rest);
      VarBodyDelimited(name, variables, keys[1..], read[k := v], rest);
      ExtendedStep(read, variables, keys);
    }
  }

  /** A LIST VAR reply is parsed to exactly the variables printed, and what follows it is untouched. */
  lemma VarListDelimited(ups: UPS, rest: string)
    requires Listable(ups)
    ensures ParseVarList(Unlines(ListVarReply(ups)) + rest, ups.name) == Ok((ups.variables, rest))
  {
    hide ParseVarBody, VarLine, Unlines, ReadLine, TrimSpace, Listing;
    var begin, keys := "BEGIN LIST VAR " + ups.name, Listing(ups.variables.Keys);
    var more := VarLines(ups.name, ups.variables, keys) + ["END LIST VAR " + ups.name];
    assert ListVarReply(ups) == [begin] + more;
    UnlinesCons(begin, more, rest);
    VarLimits("BEGIN LIST VAR ", ups.name);
    ReadLineFirst(begin, Unlines(more) + rest);
    VarBodyDelimited(ups.name, ups.variables, keys, map[], rest);
    assert Extended(map[], ups.variables, keys) == ups.variables;
  }

  // ---------- The conversation ----------

  lemma {:induction false} FieldsBeforeSpace(s: string, c: char)
    requires IsSpace(c)
    ensures Fields(s + [c]) == Fields(s)
    decreases |s|
  {
    TrimLeftBefore(s, c);
    TrimLeftLength(s);
    var t := TrimLeft(s);
    if t != "" {
      WordBefore(t, c);
      assert (t + [c])[|Word(t)|..] == t[|Word(t)|..] + [c];
      FieldsBeforeSpace(t[|Word(t)|..], c);
    }
  }

  lemma {:induction false} TrimLeftBefore(s: string, c: char)
    requires IsSpace(c)
    ensures TrimLeft(s + [c]) == if TrimLeft(s) == "" then "" else TrimLeft(s) + [c]
  {
    if s == "" {
      assert s + [c] == [c] && [c][1..] == "";
    } else if IsSpace(s[0]) {
      assert (s + [c])[1..] == s[1..] + [c];
      TrimLeftBefore(s[1..], c);
    }
  }

  lemma {:induction false} WordBefore(s: string, c: char)
    requires IsSpace(c)
    ensures Word(s + [c]) == Word(s)
  {
    if s != "" && !IsSpace(s[0]) {
      assert (s + [c])[1..] == s[1..] + [c];
      WordBefore(s[1..], c);
    }
  }

  lemma {:induction false} FieldsTrimRight(s: string)
    ensures Fields(TrimRight(s)) == Fields(s)
  {
    if s != "" && IsSpace(s[|s| - 1]) {
      assert s == s[..|s| - 1] + [s[|s| - 1]];
      FieldsBeforeSpace(s[..|s| - 1], s[|s| - 1]);
      FieldsTrimRight(s[..|s| - 1]);
    }
  }

  lemma {:induction false} WordIsTight(s: string)
    ensures NoSpaces(Word(s))
  {
    if s != "" && !IsSpace(s[0]) {
      WordIsTight(s[1..]);
    }
  }

  /** The word of a credential that the listener takes: the first one. */
  function FirstWord(s: string): string {
    Word(TrimLeft(s))
  }

  lemma FirstField(s: string)
    requires TrimSpace(s) != ""
    ensures Fields(s) != [] && Fields(s)[0] == FirstWord(s) && IsWord(FirstWord(s))
    ensures TrimSpace(FirstWord(s)) == FirstWord(s)
  {
    hide TrimRight;
    TrimLeftLength(s);
    assert TrimLeft(s) != "" by {
      assert TrimRight("") == "" by { TrimKeepsTight(""); }
    }
    WordIsTight(TrimLeft(s));
    TrimKeepsTight(FirstWord(s));
  }

  /** The fields of a command line with an argument, whatever white space surrounds the argument. */
  lemma CommandFields(command: string, s: string)
    requires IsWord(command)
    ensures Fields(TrimSpace(command + " " + s)) == [command] + Fields(s)
    ensures TrimSpace(command + " " + s) != ""
  {
    hide Fields, TrimRight;
    var line := command + " " + s;
    assert TrimLeft(line) == line;
    FieldsTrimRight(line);
    assert line == command + (" " + s);
    FieldsCons(command, " " + s);
    FieldsSkip(" " + s);
    assert (" " + s)[1..] == s;
    FieldsOfEmpty();
  }

  lemma FieldsOfEmpty()
    ensures Fields("") == []
  {
  }

  lemma FirstWordOfCommand(command: string, s: string)
    requires IsWord(command) && TrimSpace(s) != ""
    ensures var parts := Fields(TrimSpace(command + " " + s));
            && |parts| >= 2 && parts[0] == command && parts[1] == FirstWord(s)
            && TrimSpace(FirstWord(s)) == FirstWord(s) != ""
    ensures TrimSpace(command + " " + s) != ""
  {
    hide Fields, TrimSpace, FirstWord;
    FirstField(s);
    CommandFields(command, s);
  }

  /** One command line is answered by one response. */
  lemma ServeOne(server: Server, ch: Channel, command: string)
    requires ch.open && '\n' !in command && TrimSpace(command) != ""
    ensures var r := Respond(server, ch.session, TrimSpace(command));
            Serve(server, ch, command + "\n") == Channel(r.session, ch.unread + Unlines(r.lines), r.keepOpen)
  {
    ReadLineFirst(command, "");
    assert command + "\n" + "" == command + "\n";
    assert ReadLine("").None?;
  }

  /** A one-line reply is read back whole. */
  lemma ReadReply(line: string)
    requires '\n' !in line
    ensures ReadLine("" + Unlines([line])) == Some((line, ""))
  {
    UnlinesCons(line, [], "");
    assert [line] + [] == [line] && "" + Unlines([line]) == Unlines([line]) + "" && Unlines([]) + "" == "";
    ReadLineFirst(line, "");
  }

  lemma CommandWords()
    ensures IsWord("USERNAME") && IsWord("PASSWORD") && IsWord("LIST") && IsWord("UPS") && IsWord("VAR")
    ensures Upper("USERNAME") == "USERNAME" && Upper("PASSWORD") == "PASSWORD"
    ensures Upper("LIST") == "LIST" && Upper("UPS") == "UPS" && Upper("VAR") == "VAR"
  {
  }

  /** A command answered by one line, seen from the client. */
  lemma SentOne(server: Server, ch: Channel, command: string, reply: string, next: Session)
    requires ch.open && ch.unread == "" && '\n' !in command && TrimSpace(command) != "" && '\n' !in reply
    requires Respond(server, ch.session, TrimSpace(command)) == Response([reply], next, true)
    ensures Sent(server, ch, command) ==
            if "OK" <= TrimSpace(reply) then Ok(Channel(next, "", true)) else Err(Rejected(TrimSpace(reply)))
  {
    hide Serve, Respond, Unlines, ReadLine, TrimSpace;
    ServeOne(server, ch, command);
    ReadReply(reply);
  }

  lemma UsernameTaken(server: Server, s: Session, username: string)
    requires TrimSpace(username) != ""
    ensures Respond(server, s, TrimSpace("USERNAME " + username))
            == Response(["OK"], Session(FirstWord(username), false), true)
  {
    hide Fields, TrimSpace, FirstWord, Upper;
    CommandWords();
    assert "USERNAME" + " " == "USERNAME ";
    FirstWordOfCommand("USERNAME", username);
  }

  lemma PasswordChecked(server: Server, s: Session, password: string)
    requires TrimSpace(password) != "" && TrimSpace(s.username) != ""
    ensures Respond(server, s, TrimSpace("PASSWORD " + password))
            == if Authenticate(server, s.username, FirstWord(password)) then Response(["OK"], s.(authed := true), true)
               else Response(["ERR ACCESS-DENIED"], s.(authed := false), true)
  {
    hide Fields, TrimSpace, FirstWord, Upper, Authenticate;
    CommandWords();
    assert "PASSWORD" + " " == "PASSWORD ";
    FirstWordOfCommand("PASSWORD", password);
  }

  lemma ReplyWords()
    ensures TrimSpace("OK") == "OK" && TrimSpace("ERR ACCESS-DENIED") == "ERR ACCESS-DENIED"
    ensures !("OK" <= "ERR ACCESS-DENIED")
  {
    TrimKeepsTight("OK");
    TrimKeepsTight("ERR ACCESS-DENIED");
    assert "OK"[0] != "ERR ACCESS-DENIED"[0];
  }

  /** Logging in opens the session exactly when the listener accepts the first words of the credentials. */
  lemma LoginAnswered(server: Server, username: string, password: string)
    requires TrimSpace(username) != "" && TrimSpace(password) != "" && '\n' !in username && '\n' !in password
    ensures var named := Channel(Session(FirstWord(username), false), "", true);
            && Sent(server, NEW_CHANNEL, "USERNAME " + username) == Ok(named)
            && Sent(server, named, "PASSWORD " + password) ==
               if Authenticate(server, FirstWord(username), FirstWord(password))
               then Ok(named.(session := Session(FirstWord(username), true)))
               else Err(Rejected("ERR ACCESS-DENIED"))
  {
    hide Sent, Respond, TrimSpace, FirstWord, Authenticate, Fields;
    var named := Channel(Session(FirstWord(username), false), "", true);
    CommandWords();
    ReplyWords();
    UsernameTaken(server, NEW_SESSION, username);
    assert "USERNAME" + " " == "USERNAME ";
    FirstWordOfCommand("USERNAME", username);
    SentOne(server, NEW_CHANNEL, "USERNAME " + username, "OK", named.session);
    PasswordChecked(server, named.session, password);
    assert "PASSWORD" + " " == "PASSWORD ";
    FirstWordOfCommand("PASSWORD", password);
    if Authenticate(server, FirstWord(username), FirstWord(password)) {
      SentOne(server, named, "PASSWORD " + password, "OK", named.session.(authed := true));
    } else {
      SentOne(server, named, "PASSWORD " + password, "ERR ACCESS-DENIED", named.session);
    }
  }

  lemma FieldsOne(a: string)
    requires IsWord(a)
    ensures Fields(a) == [a]
  {
    hide Fields;
    assert a + "" == a;
    FieldsCons(a, "");
    FieldsOfEmpty();
  }

  lemma FieldsSpaced(a: string, rest: string)
    requires IsWord(a)
    ensures Fields(Spaced(a, rest)) == [a] + Fields(rest)
  {
    hide Fields;
    assert Spaced(a, rest) == a + ([' '] + rest) && ([' '] + rest)[1..] == rest;
    FieldsCons(a, [' '] + rest);
    FieldsSkip([' '] + rest);
  }

  lemma ListCommands(name: string)
    requires IsWord(name)
    ensures Fields("LIST VAR " + name) == ["LIST", "VAR", name] && TrimSpace("LIST VAR " + name) == "LIST VAR " + name
    ensures '\n' !in "LIST VAR " + name
    ensures Fields("LIST UPS") == ["LIST", "UPS"] && TrimSpace("LIST UPS") == "LIST UPS"
  {
    hide Fields, TrimSpace;
    CommandWords();
    WordLacks(name);
    assert "LIST VAR " + name == Spaced("LIST", Spaced("VAR", name)) && "LIST UPS" == Spaced("LIST", "UPS");
    FieldsSpaced("LIST", Spaced("VAR", name));
    FieldsSpaced("VAR", name);
    FieldsOne(name);
    FieldsSpaced("LIST", "UPS");
    FieldsOne("UPS");
    TightEnds("LIST VAR ", name);
    TightEnds("LIST ", "UPS");
    assert "LIST " + "UPS" == "LIST UPS";
  }

  ghost predicate Serves(server: Server, upses: seq<UPS>) {
    && server.backend.Some? && server.backend.value.list == Some(upses)
    && DistinctKeys(upses, UPSName)
    && forall u | u in upses :: Listable(u)
  }

  lemma {:induction false} FindUPSByName(upses: seq<UPS>, ups: UPS)
    requires DistinctKeys(upses, UPSName) && ups in upses
    ensures FindUPS(upses, ups.name) == Ok(ups)
  {
    if upses[0] != ups {
      var i :| 0 < i < |upses| && upses[i] == ups;
      assert UPSName(upses[0]) != UPSName(upses[i]);
      assert upses[1..][i - 1] == ups;
      FindUPSByName(upses[1..], ups);
    }
  }

  lemma NamesListed(server: Server, upses: seq<UPS>, ch: Channel)
    requires Serves(server, upses) && ch.open && ch.session.authed && ch.unread == ""
    ensures ListedUPSes(server, ch) == Ok((NamesOf(SortBy(upses, UPSName)), ch))
  {
    hide Fields, TrimSpace, ParseUPSList, ListUPSReply, Serve, Unlines, SortBy;
    ListCommands("x");
    CommandWords();
    ServeOne(server, ch, "LIST UPS");
    UPSListDelimited(upses, "");
    assert "LIST UPS" + "\n" == "LIST UPS\n";
    assert "" + Unlines(ListUPSReply(upses)) == Unlines(ListUPSReply(upses)) + "";
    var sorted := SortBy(upses, UPSName);
    SortBySorted(upses, UPSName);
    forall i, j | 0 <= i < j < |sorted| ensures Less(Itself(NamesOf(sorted)[i]), Itself(NamesOf(sorted)[j])) {
      assert Less(UPSName(sorted[i]), UPSName(sorted[j]));
    }
    StrictlySortedIsFixed(NamesOf(sorted));
  }

  lemma VariablesListed(server: Server, upses: seq<UPS>, ch: Channel, ups: UPS)
    requires Serves(server, upses) && ch.open && ch.session.authed && ch.unread == "" && ups in upses
    ensures ListedVariables(server, ch, ups.name) == Ok((ups.variables, ch))
  {
    hide Fields, TrimSpace, ParseVarList, ListVarReply, Serve, Unlines, FindUPS;
    ListCommands(ups.name);
    CommandWords();
    ServeOne(server, ch, "LIST VAR " + ups.name);
    FindUPSByName(upses, ups);
    VarListDelimited(ups, "");
    assert "" + Unlines(ListVarReply(ups)) == Unlines(ListVarReply(ups)) + "";
  }

  /** GET VAR prints one of the lines of LIST VAR, and that line carries exactly the variable's value. */
  lemma GetAgreesWithList(backend: Backend, ups: UPS, key: string)
    requires Listable(ups) && key in ups.variables && LookupUPS(backend, ups.name) == Ok(ups)
    ensures var line := VarLine(ups.name, key, ups.variables[key]);
            && GetReply(backend, ["GET", "VAR", ups.name, key]) == [line]
            && line in ListVarReply(ups)
            && SplitN(line, ' ', 4) == ["VAR", ups.name, key, Quoted(ups.variables[key])]
            && Unquote(Quoted(ups.variables[key])) == Some(ups.variables[key])
  {
    hide SplitN, Unquote, Quoted, VarLine, Listing, LookupUPS;
    var line := VarLine(ups.name, key, ups.variables[key]);
    CommandWords();
    VarLineReads(ups.name, key, ups.variables[key]);
    QuotingRoundTrip(ups.variables[key]);
    var keys := Listing(ups.variables.Keys);
    assert key in keys;
    var i :| 0 <= i < |keys| && keys[i] == key;
    assert VarLines(ups.name, ups.variables, keys)[i] == line;
    assert ListVarReply(ups)[i + 1] == line;
  }

  /** What a poll should return: every UPS with its variables, in name order. */
  function Fleet(upses: seq<UPS>): seq<Snapshot> {
    seq(|upses|, i requires 0 <= i < |upses| => SnapshotOf(upses[i].name, upses[i].variables))
  }

  lemma {:induction false} AllPolled(server: Server, upses: seq<UPS>, ch: Channel, left: seq<UPS>,
                                     snapshots: seq<Snapshot>)
    requires Serves(server, upses) && ch.open && ch.session.authed && ch.unread == ""
    requires forall u | u in left :: u in upses
    ensures PolledAll(server, ch, NamesOf(left), snapshots) == Ok(snapshots + Fleet(left))
    decreases |left|
  {
    hide ListedVariables, SnapshotOf;
    if left == [] {
      assert snapshots + Fleet(left) == snapshots;
    } else {
      var first := SnapshotOf(left[0].name, left[0].variables);
      VariablesListed(server, upses, ch, left[0]);
      AllPolled(server, upses, ch, left[1..], snapshots + [first]);
      assert NamesOf(left)[1..] == NamesOf(left[1..]);
      assert snapshots + [first] + Fleet(left[1..]) == snapshots + Fleet(left);
    }
  }

  /** GET CMDDESC prints the description of the first command of that name, or the name where it has none. */
  lemma GetDescribesCommand(backend: Backend, ups: string, name: string) returns (c: Command)
    requires HasUPS(backend, ups) && backend.commands(ups).Ok? && NoSpaces(ups) && NoSpaces(name)
    requires exists i :: 0 <= i < |backend.commands(ups).value| && backend.commands(ups).value[i].name == name
    ensures c in backend.commands(ups).value && c.name == name
    ensures var lines := GetReply(backend, ["GET", "CMDDESC", ups, name]);
            var described := if TrimSpace(c.description) != "" then TrimSpace(c.description) else TrimSpace(name);
            && |lines| == 1
            && SplitN(lines[0], ' ', 4) == ["CMDDESC", ups, name, Quoted(described)]
            && (Unquote(Quoted(described)) == Some(described) <==> '\n' !in described)
  {
    hide SplitN, Unquote, Quoted, LookupUPS, FirstNonEmpty, TrimSpace;
    var commands := backend.commands(ups).value;
    CommandWords();
    assert Upper("CMDDESC") == "CMDDESC" by { UpperCmdDesc(); }
    assert "CMDDESC"[0] != "VAR"[0];
    LookupFinds(backend, ups);
    FindCommandFinds(commands, name);
    c := FindCommand(commands, name).value;
    var described := if TrimSpace(c.description) != "" then TrimSpace(c.description) else TrimSpace(name);
    FirstOfThree(c.description, c.name, "");
    FirstOfTwo(c.description, c.name);
    var quoted := Quoted(described);
    WordLacks(ups);
    WordLacks(name);
    SplitSpaced("CMDDESC", Spaced(ups, Spaced(name, quoted)), 4);
    SplitSpaced(ups, Spaced(name, quoted), 3);
    SplitSpaced(name, quoted, 2);
    SplitRest(quoted);
    QuotingRoundTrip(described);
  }

  lemma UpperCmdDesc()
    ensures Upper("CMDDESC") == "CMDDESC"
  {
  }

  lemma FirstOfTwo(a: string, b: string)
    ensures FirstNonEmpty([a, b]) == if TrimSpace(a) != "" then TrimSpace(a) else TrimSpace(b)
  {
    hide TrimSpace;
    NothingToTrim();
    assert [a, b][1..] == [b] && [b][1..] == [];
    assert FirstNonEmpty([b]) == if TrimSpace(b) != "" then TrimSpace(b) else FirstNonEmpty([]);
  }

  /** A line of LIST UPS names the UPS and carries its description, or its name where it has none. */
  lemma UPSLineDescribes(ups: UPS)
    requires Listable(ups)
    ensures var described := if TrimSpace(ups.description) != "" then TrimSpace(ups.description) else ups.name;
            && SplitN(UPSLine(ups), ' ', 3) == ["UPS", ups.name, Quoted(described)]
            && Unquote(Quoted(described)) == Some(described)
  {
    hide SplitN, Unquote, Quoted, FirstNonEmpty, TrimSpace, TrimLeft, TrimRight;
    UPSLineReads(ups);
    FirstOfTwo(ups.description, ups.name);
    TrimKeepsTight(ups.name);
    FirstNonEmptyLacks([ups.description, ups.name], '\n');
    QuotingRoundTrip(FirstNonEmpty([ups.description, ups.name]));
  }

  /** QUIT is answered and ends the conversation: what follows is never read. */
  lemma QuitEnds(server: Server, ch: Channel, rest: string)
    requires ch.open
    ensures Serve(server, ch, "QUIT\n" + rest) == Channel(ch.session, ch.unread + "OK Goodbye\n", false)
  {
    hide Fields, TrimSpace, Unlines, BackendReply;
    assert "QUIT\n" + rest == "QUIT" + "\n" + rest;
    ReadLineFirst("QUIT", rest);
    TrimKeepsTight("QUIT");
    assert IsWord("QUIT") && Upper("QUIT") == "QUIT";
    FieldsOne("QUIT");
    UnlinesLast("OK Goodbye", "");
    assert Unlines(["OK Goodbye"]) + "" == Unlines(["OK Goodbye"]);
    assert "OK Goodbye" + "\n" + "" == "OK Goodbye\n";
  }

  /** A variable's value without the white space around it; blank when it is missing. */
  function Trimmed(variables: map<string, string>, key: string): string {
    if key in variables then TrimSpace(variables[key]) else ""
  }

  /** The driver is the first of three variables that is not blank. */
  predicate IsDriverOf(variables: map<string, string>, driver: string) {
    driver ==
    if Trimmed(variables, "driver.name") != "" then Trimmed(variables, "driver.name")
    else if Trimmed(variables, "device.driver") != "" then Trimmed(variables, "device.driver")
    else Trimmed(variables, "driver.parameter.driver")
  }

  lemma SnapshotHolds(name: string, variables: map<string, string>)
    ensures var snapshot := SnapshotOf(name, variables);
            snapshot.name == name && snapshot.variables == variables && IsDriverOf(variables, snapshot.driver)
  {
    hide TrimSpace;
    NothingToTrim();
    var a, b, c := Find(variables, "driver.name"), Find(variables, "device.driver"),
        Find(variables, "driver.parameter.driver");
    FirstOfThree(a, b, c);
  }

  lemma FirstOfThree(a: string, b: string, c: string)
    ensures FirstNonEmpty([a, b, c]) ==
            if TrimSpace(a) != "" then TrimSpace(a) else if TrimSpace(b) != "" then TrimSpace(b) else TrimSpace(c)
  {
    hide TrimSpace;
    assert [a, b, c][1..] == [b, c] && [b, c][1..] == [c] && [c][1..] == [];
    assert FirstNonEmpty([c]) == if TrimSpace(c) != "" then TrimSpace(c) else FirstNonEmpty([]);
    assert FirstNonEmpty([b, c]) == if TrimSpace(b) != "" then TrimSpace(b) else FirstNonEmpty([c]);
  }

  lemma PollIsFleet(server: Server, upses: seq<UPS>, username: string, password: string)
    requires Serves(server, upses)
    requires TrimSpace(username) != "" && TrimSpace(password) != "" && '\n' !in username && '\n' !in password
    requires Authenticate(server, FirstWord(username), FirstWord(password))
    ensures Polled(server, username, password) == Ok(Fleet(SortBy(upses, UPSName)))
  {
    hide Sent, ListedUPSes, PolledAll, SortBy, Authenticate, FirstWord, TrimSpace;
    var ch := Channel(Session(FirstWord(username), true), "", true);
    var sorted := SortBy(upses, UPSName);
    LoginAnswered(server, username, password);
    NamesListed(server, upses, ch);
    SortByElements(upses, UPSName);
    AllPolled(server, upses, ch, sorted, []);
    assert [] + Fleet(sorted) == Fleet(sorted);
  }

  /** Polling the aggregate listener with accepted credentials returns exactly the fleet's UPSes in name order, each
      with exactly the fleet's variables for it and its driver. */
  lemma PollReturnsFleet(server: Server, upses: seq<UPS>, username: string, password: string)
    requires Serves(server, upses)
    requires TrimSpace(username) != "" && TrimSpace(password) != "" && '\n' !in username && '\n' !in password
    requires Authenticate(server, FirstWord(username), FirstWord(password))
    ensures Polled(server, username, password).Ok?
    ensures var snapshots, sorted := Polled(server, username, password).value, SortBy(upses, UPSName);
            && |snapshots| == |sorted| == |upses| && multiset(sorted) == multiset(upses)
            && StrictlySorted(sorted, UPSName)
            && forall i | 0 <= i < |sorted| ::
                 && snapshots[i].name == sorted[i].name && snapshots[i].variables == sorted[i].variables
                 && IsDriverOf(sorted[i].variables, snapshots[i].driver)
  {
    hide Polled, SortBy, Authenticate, FirstWord, TrimSpace, SnapshotOf, IsDriverOf, StrictlySorted;
    var sorted := SortBy(upses, UPSName);
    PollIsFleet(server, upses, username, password);
    SortBySame(upses, UPSName);
    SortBySorted(upses, UPSName);
    forall i | 0 <= i < |sorted|
      ensures var snapshot := Fleet(sorted)[i];
              && snapshot.name == sorted[i].name && snapshot.variables == sorted[i].variables
              && IsDriverOf(sorted[i].variables, snapshot.driver)
    {
      SnapshotHolds(sorted[i].name, sorted[i].variables);
    }
  }

  /** With credentials whose first words the listener rejects, no poll succeeds. */
  lemma PollRejected(server: Server, username: string, password: string)
    requires TrimSpace(username) != "" && TrimSpace(password) != "" && '\n' !in username && '\n' !in password
    requires !Authenticate(server, FirstWord(username), FirstWord(password))
    ensures Polled(server, username, password) == Err(Rejected("ERR ACCESS-DENIED"))
  {
    hide Sent, Authenticate, FirstWord, TrimSpace;
    LoginAnswered(server, username, password);
  }
}
