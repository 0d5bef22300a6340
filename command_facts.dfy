/**
 * What the command router promises: how a line is parsed, the order in
 * which each identity command checks its input, what it changes when it
 * succeeds, and the flood rule's consequences for a chat line.
 */
module CommandFacts {
  import opened Wrappers
  import opened Text
  import opened Bounded
  import opened Config
  import opened Identity
  import opened RateLimiter
  import opened Registry
  import opened BroadcastFacts
  import opened Commands

  /** A blank line is ignored: no reply, no change. */
  lemma BlankLineIsIgnored(s: State, w: Writer, raw: string, e: Env)
    requires Wf(s) && w in s.sessions
    requires AllSpace(raw)
    ensures HandleLine(s, w, raw, e) == Ran(s, false)
  {
    StripBlank(raw);
  }

  /**
   * A command with two arguments, surrounded and separated by any blanks:
   * the keyword is lower-cased, the first argument is one word, and the
   * second is the rest of the line with its inner blanks kept.
   */
  lemma CommandWithArguments(g0: string, cmd: string, g1: string, arg: string,
                             g2: string, rest: string, g3: string)
    requires AllSpace(g0) && AllSpace(g1) && AllSpace(g2) && AllSpace(g3) && g1 != [] && g2 != []
    requires cmd != [] && cmd[0] == '/' && NoSpace(cmd) && arg != [] && NoSpace(arg)
    requires rest != [] && !IsSpace(rest[0]) && !IsSpace(rest[|rest| - 1])
    ensures var line := Strip(g0 + cmd + g1 + arg + g2 + rest + g3);
            && line != [] && line[0] == '/'
            && ParseCommand(line) == (Lower(cmd), arg, rest)
  {
    var t := cmd + g1 + arg + g2 + rest;
    assert g0 + cmd + g1 + arg + g2 + rest + g3 == g0 + t + g3;
    assert t[0] == cmd[0] && t[|t| - 1] == rest[|rest| - 1];
    StripFramed(g0, t, g3);
    SplitOfTriple(cmd, g1, arg, g2, rest);
    assert ParseCommand(t) == (Lower(cmd), arg, rest);
  }

  /** A bare command keyword gets empty arguments. */
  lemma BareCommand(g0: string, cmd: string, g3: string)
    requires AllSpace(g0) && AllSpace(g3)
    requires cmd != [] && cmd[0] == '/' && NoSpace(cmd)
    ensures var line := Strip(g0 + cmd + g3);
            && line != [] && line[0] == '/'
            && ParseCommand(line) == (Lower(cmd), "", "")
  {
    StripFramed(g0, cmd, g3);
    SplitOfWord(cmd);
  }

  /** A command keyword and one argument: the second argument is empty. */
  lemma CommandWithOneArgument(g0: string, cmd: string, g1: string, arg: string, g3: string)
    requires AllSpace(g0) && AllSpace(g1) && AllSpace(g3) && g1 != []
    requires cmd != [] && cmd[0] == '/' && NoSpace(cmd) && arg != [] && NoSpace(arg)
    ensures var line := Strip(g0 + cmd + g1 + arg + g3);
            && line != [] && line[0] == '/'
            && ParseCommand(line) == (Lower(cmd), arg, "")
  {
    var t := cmd + g1 + arg;
    assert g0 + cmd + g1 + arg + g3 == g0 + t + g3;
    StripFramed(g0, t, g3);
    SplitOfPair(cmd, g1, arg);
  }

  /** A line that strips to something starting with '/' goes to the router. */
  lemma CommandLine(s: State, w: Writer, raw: string, e: Env)
    requires Wf(s) && w in s.sessions
    requires Strip(raw) != [] && Strip(raw)[0] == '/'
    ensures var (cmd, arg, arg2) := ParseCommand(Strip(raw));
            HandleLine(s, w, raw, e) == Dispatch(s, w, cmd, arg, arg2, e)
  {
  }

  /** An unrecognised command changes nothing and only tells the issuer so. */
  lemma UnknownCommandOnlyReplies(s: State, w: Writer, raw: string, e: Env)
    requires Wf(s) && w in s.sessions
    requires Strip(raw) != [] && Strip(raw)[0] == '/'
    requires ParseCommand(Strip(raw)).0 !in Known
    ensures var r := HandleLine(s, w, raw, e);
            && r.st.(sent := s.sent) == s
            && r.st.sent == (if Delivers(s, e.down, w) then s.sent + [Delivery(w, "Unknown command. Try /help" + CRLF)] else s.sent)
            && (r.raised <==> !Delivers(s, e.down, w))
  {
    var (cmd, arg, arg2) := ParseCommand(Strip(raw));
    assert HandleLine(s, w, raw, e) == Dispatch(s, w, cmd, arg, arg2, e);
    assert cmd != "/register" && cmd != "/login" && cmd != "/logout" && cmd != "/nick";
    assert cmd != "/who" && cmd != "/msg" && cmd != "/avatar" && cmd != "/forum";
    assert cmd != "/clear" && cmd != "/quit" && cmd != "/exit" && cmd != "/help";
    assert Dispatch(s, w, cmd, arg, arg2, e) == Reply(s, e.down, w, "Unknown command. Try /help" + CRLF);
  }

  /**
   * `/nick` cuts the name to 32 characters and then refuses it, in this
   * order, when it is empty, when it is a banned name in any case, or when
   * the client is logged in; a refusal changes nothing but the reply.
   */
  lemma NickRefusals(s: State, w: Writer, arg: string, e: Env)
    requires Wf(s) && w in s.sessions
    ensures var wanted := NickWanted(arg);
            var r := Nick(s, w, arg, e);
            && (wanted == [] ==> r == Reply(s, e.down, w, "Usage: /nick <name>" + CRLF))
            && (wanted != [] && IsBanned(wanted) ==>
                  r == Reply(s, e.down, w, "This nickname is prohibited. Choose another." + CRLF))
            && (wanted != [] && !IsBanned(wanted) && Truthy(s.sessions[w].authUser) ==>
                  r == Reply(s, e.down, w, "You're logged in; to set a separate nick, logout first." + CRLF))
            && (wanted == [] || IsBanned(wanted) || Truthy(s.sessions[w].authUser) ==>
                  r.st.(sent := s.sent) == s)
  {
  }

  /**
   * An accepted `/nick` sets only the nickname, sends no reply (the
   * outcome is the broadcast and nothing after it), and makes
   * exactly one broadcast of its own, "* old now is new", before any
   * departures it causes; the client is then shown under the new name.
   */
  lemma NickAccepted(s: State, w: Writer, arg: string, e: Env)
    requires Wf(s) && w in s.sessions
    requires NickWanted(arg) != [] && !IsBanned(NickWanted(arg)) && !Truthy(s.sessions[w].authUser)
    ensures var c := s.sessions[w];
            var r := Nick(s, w, arg, e);
            var line := "* " + SafeNick(c) + " now is " + NickWanted(arg);
            && !r.raised
            && r.st.sessions == s.sessions[w := c.(nick := Some(NickWanted(arg)))]
            && SafeNick(r.st.sessions[w]) == NickWanted(arg)
            && r.st.users == s.users && r.st.nextId == s.nextId
            && IsPrefix(s.log + [Entry(e.now, line)], r.st.log)
            && |r.st.log| == |s.log| + 1 + (|s.registry| - |r.st.registry|)
            && r == Ran(Broadcast(s.(sessions := s.sessions[w := c.(nick := Some(NickWanted(arg)))]), e.down, e.now, line, None), false)
  {
    var c := s.sessions[w];
    var c' := c.(nick := Some(NickWanted(arg)));
    var s1 := SetClient(s, w, c');
    SafeNickPriority(c');
    BroadcastKeeps(s1, e.down, e.now, "* " + SafeNick(c) + " now is " + SafeNick(c'), None);
    BroadcastLogs(s1, e.down, e.now, "* " + SafeNick(c) + " now is " + SafeNick(c'), None);
  }

  /**
   * `/register` refuses, in this order, a missing name or password, a
   * banned name in any case, and a name already taken -- compared with its
   * case; a refusal changes nothing but the reply.
   */
  lemma RegisterRefusals(s: State, w: Writer, arg: string, arg2: string, e: Env)
    requires Wf(s) && w in s.sessions
    ensures var u := Strip(arg);
            var p := Strip(arg2);
            var r := Register(s, w, arg, arg2, e);
            && (u == [] || p == [] ==> r == Reply(s, e.down, w, "Usage: /register <user> <password>" + CRLF))
            && (u != [] && p != [] && IsBanned(u) ==>
                  r == Reply(s, e.down, w, "This username is prohibited. Choose another." + CRLF))
            && (u != [] && p != [] && !IsBanned(u) && u in s.users ==>
                  r == Reply(s, e.down, w, "Username already exists." + CRLF))
            && (u == [] || p == [] || IsBanned(u) || u in s.users ==> r.st.(sent := s.sent) == s)
  {
  }

  /** The banned-name test ignores case; the taken-name test does not. */
  lemma NameTestsAndCase(s: State, w: Writer, e: Env)
    requires Wf(s) && w in s.sessions
    requires "alice" in s.users && "Alice" !in s.users
    ensures IsBanned("Admin") && IsBanned("ROOT")
    ensures Register(s, w, "Alice", "pw", e).st.users == s.users["Alice" := e.salted]
  {
    BannedSamples();
    StripFramed("", "Alice", "");
    StripFramed("", "pw", "");
    RegisterSucceeds(s, w, "Alice", "pw", e);
  }

  lemma BannedSamples()
    ensures IsBanned("Admin") && IsBanned("ROOT") && !IsBanned("Alice")
  {
    assert Lower("Admin") == "admin";
    assert Lower("ROOT") == "root";
    assert Lower("Alice") == "alice";
  }

  /**
   * A successful `/register` stores the account, logs the client in under
   * it with the nickname cleared and the strike count zeroed, and
   * announces it before replying.
   */
  lemma RegisterSucceeds(s: State, w: Writer, arg: string, arg2: string, e: Env)
    requires Wf(s) && w in s.sessions
    requires Strip(arg) != [] && Strip(arg2) != [] && !IsBanned(Strip(arg)) && Strip(arg) !in s.users
    ensures var u := Strip(arg);
            var r := Register(s, w, arg, arg2, e);
            && r.st.users == s.users[u := e.salted]
            && r.st.sessions == s.sessions[w := s.sessions[w].(authUser := Some(u), nick := None, floodCount := 0)]
            && SafeNick(r.st.sessions[w]) == u
            && IsPrefix(s.log + [Entry(e.now, "* " + u + " registered and logged in")], r.st.log)
            && (r.raised <==> w in e.down || w in r.st.closed)
            && (!r.raised ==> |r.st.sent| > 0 && r.st.sent[|r.st.sent| - 1] == Delivery(w, "Registered and logged in." + CRLF))
  {
    var u := Strip(arg);
    var c := s.sessions[w].(authUser := Some(u), nick := None, floodCount := 0);
    var s1 := SetClient(s, w, c).(users := s.users[u := e.salted]);
    SafeNickPriority(c);
    BroadcastKeeps(s1, e.down, e.now, "* " + u + " registered and logged in", None);
    BroadcastLogs(s1, e.down, e.now, "* " + u + " registered and logged in", None);
  }

  /**
   * `/login` refuses, in this order, a missing name or password, an
   * unknown account, an account some registered client (the issuer
   * included) is logged in as, and a wrong password; a refusal changes
   * nothing but the reply.
   */
  lemma LoginRefusals(s: State, w: Writer, arg: string, arg2: string, e: Env)
    requires Wf(s) && w in s.sessions
    ensures var u := Strip(arg);
            var p := Strip(arg2);
            var r := Login(s, w, arg, arg2, e);
            && (u == [] || p == [] ==> r == Reply(s, e.down, w, "Usage: /login <user> <password>" + CRLF))
            && (u != [] && p != [] && u !in s.users ==> r == Reply(s, e.down, w, "Unknown user." + CRLF))
            && (u != [] && p != [] && u in s.users && HeldBy(s, u) ==>
                  r == Reply(s, e.down, w, "User already logged in elsewhere." + CRLF))
            && (u != [] && p != [] && u in s.users && !HeldBy(s, u) && !e.verify(s.users[u], p) ==>
                  r == Reply(s, e.down, w, "Invalid password." + CRLF))
            && (u == [] || p == [] || u !in s.users || HeldBy(s, u) || !e.verify(s.users[u], p) ==>
                  r.st.(sent := s.sent) == s)
  {
  }

  /** A client can never log in to the account it is already using. */
  lemma NoSecondLoginToSameAccount(s: State, w: Writer, arg: string, arg2: string, e: Env)
    requires Wf(s) && w in s.registry
    requires Truthy(s.sessions[w].authUser) && Strip(arg) == s.sessions[w].authUser.value
    ensures Login(s, w, arg, arg2, e).st.(sent := s.sent) == s
  {
    var i :| 0 <= i < |s.registry| && s.registry[i] == w;
    assert s.sessions[s.registry[i]].authUser == Some(Strip(arg));
  }

  /**
   * A successful `/login` logs the client in with the nickname cleared
   * and the strike count zeroed, and announces it before replying.
   */
  lemma LoginSucceeds(s: State, w: Writer, arg: string, arg2: string, e: Env)
    requires Wf(s) && w in s.sessions
    requires Strip(arg) != [] && Strip(arg2) != [] && Strip(arg) in s.users
    requires !HeldBy(s, Strip(arg)) && e.verify(s.users[Strip(arg)], Strip(arg2))
    ensures var u := Strip(arg);
            var r := Login(s, w, arg, arg2, e);
            && r.st.users == s.users
            && r.st.sessions == s.sessions[w := s.sessions[w].(authUser := Some(u), nick := None, floodCount := 0)]
            && SafeNick(r.st.sessions[w]) == u
            && IsPrefix(s.log + [Entry(e.now, "* " + u + " logged in")], r.st.log)
            && (r.raised <==> w in e.down || w in r.st.closed)
            && (!r.raised ==> |r.st.sent| > 0 && r.st.sent[|r.st.sent| - 1] == Delivery(w, "Login successful." + CRLF))
  {
    var u := Strip(arg);
    var c := s.sessions[w].(authUser := Some(u), nick := None, floodCount := 0);
    SafeNickPriority(c);
    BroadcastKeeps(SetClient(s, w, c), e.down, e.now, "* " + u + " logged in", None);
    BroadcastLogs(SetClient(s, w, c), e.down, e.now, "* " + u + " logged in", None);
  }

  /** `/logout` clears the account and nickname only when logged in;
      otherwise it only replies. */
  lemma LogoutOutcome(s: State, w: Writer, e: Env)
    requires Wf(s) && w in s.sessions
    ensures var c := s.sessions[w];
            var r := Logout(s, w, e);
            && (Truthy(c.authUser) ==>
                  && r.st.sessions == s.sessions[w := c.(authUser := None, nick := None, floodCount := 0)]
                  && SafeNick(r.st.sessions[w]) == DefaultName(c.id)
                  && IsPrefix(s.log + [Entry(e.now, "* " + c.authUser.value + " logged out")], r.st.log)
                  && (r.raised <==> w in e.down || w in r.st.closed)
                  && (!r.raised ==> |r.st.sent| > 0 && r.st.sent[|r.st.sent| - 1] == Delivery(w, "Logged out." + CRLF)))
            && (!Truthy(c.authUser) ==> r == Reply(s, e.down, w, "Not logged in." + CRLF) && r.st.(sent := s.sent) == s)
  {
    var c := s.sessions[w];
    if Truthy(c.authUser) {
      var c' := c.(authUser := None, nick := None, floodCount := 0);
      SafeNickPriority(c');
      BroadcastKeeps(SetClient(s, w, c'), e.down, e.now, "* " + c.authUser.value + " logged out", None);
      BroadcastLogs(SetClient(s, w, c'), e.down, e.now, "* " + c.authUser.value + " logged out", None);
    }
  }

  /**
   * `/avatar`: a picture the converter could render becomes the client's
   * avatar and is acknowledged; otherwise the client is told it failed and
   * nothing changes. Only the client's avatar and the one reply change, and
   * the handler raises exactly when that reply cannot be written.
   */
  lemma AvatarOutcome(s: State, w: Writer, e: Env)
    requires Wf(s) && w in s.sessions
    ensures var r := Avatar(s, w, e);
            && (Truthy(e.avatar) ==> r.st.sessions == s.sessions[w := s.sessions[w].(avatar := e.avatar)])
            && (!Truthy(e.avatar) ==> r.st.sessions == s.sessions)
            && r.st.(sent := s.sent, sessions := s.sessions) == s
            && (r.raised <==> w in e.down || w in s.closed)
            && r.st.sent == if r.raised then s.sent
                            else if Truthy(e.avatar) then s.sent + [Delivery(w, "Avatar set successfully." + CRLF)]
                            else s.sent + [Delivery(w, "Failed to load avatar." + CRLF)]
  {
    if Truthy(e.avatar) {
      var s1 := SetClient(s, w, s.sessions[w].(avatar := e.avatar));
      assert s1.(sessions := s.sessions) == s && s1.closed == s.closed;
    }
  }

  /**
   * A flooded chat line is never broadcast: the client's window and
   * strike count are updated and a warning goes to it; below three strikes,
   * or when the warning cannot be written, nothing else happens.
   */
  lemma FloodedLine(s: State, w: Writer, line: string, e: Env)
    requires Wf(s) && w in s.sessions
    requires Throttle(s.sessions[w], e.now).flooded
    ensures var c := Throttle(s.sessions[w], e.now).client;
            var r := Chat(s, w, line, e);
            && c.floodCount == s.sessions[w].floodCount + 1
            && (c.floodCount < MaxStrikes || r.raised ==>
                  && r == Reply(s.(sessions := s.sessions[w := c]), e.down, w, FloodWarning(c.floodCount))
                  && r.st.log == s.log && r.st.registry == s.registry)
  {
  }

  /**
   * The third strike disconnects a registered client for flooding: it
   * leaves the registry and its departure is the next line broadcast.
   */
  lemma ThirdStrike(s: State, w: Writer, line: string, e: Env)
    requires Wf(s) && w in s.registry
    requires Throttle(s.sessions[w], e.now).flooded
    requires Throttle(s.sessions[w], e.now).client.floodCount >= MaxStrikes
    requires Delivers(s, e.down, w)
    ensures var c := Throttle(s.sessions[w], e.now).client;
            var r := Chat(s, w, line, e);
            && !r.raised
            && r.st.sessions == s.sessions[w := c]
            && w !in r.st.registry
            && IsPrefix(s.log + [Entry(e.now, Departure(SafeNick(c), "flood"))], r.st.log)
  {
    var c := Throttle(s.sessions[w], e.now).client;
    var s1 := SetClient(s, w, c);
    var warned := Reply(s1, e.down, w, FloodWarning(c.floodCount));
    DisconnectKeeps(warned.st, e.down, e.now, w, "flood");
    var s2 := Send(warned.st, e.down, w, "Goodbye." + CRLF);
    var s3 := s2.(registry := Without(warned.st.registry, w), closed := warned.st.closed + {w});
    BroadcastLogs(s3, e.down, e.now, Departure(SafeNick(c), "flood"), None);
  }

  /** A chat line that is not flooded is broadcast under the sender's
      name, with its avatar above it when it has one. */
  lemma ChatLineBroadcast(s: State, w: Writer, line: string, e: Env)
    requires Wf(s) && w in s.sessions
    requires !Throttle(s.sessions[w], e.now).flooded
    ensures var c := Throttle(s.sessions[w], e.now).client;
            var r := Chat(s, w, line, e);
            && !r.raised
            && r.st.sessions == s.sessions[w := c]
            && IsPrefix(s.log + [Entry(e.now, ChatLine(c, line))], r.st.log)
  {
    var c := Throttle(s.sessions[w], e.now).client;
    BroadcastKeeps(SetClient(s, w, c), e.down, e.now, ChatLine(c, line), None);
    BroadcastLogs(SetClient(s, w, c), e.down, e.now, ChatLine(c, line), None);
  }

  /** The chat line's format. */
  lemma ChatLineShape(c: Client, line: string)
    ensures !Truthy(c.avatar) ==> ChatLine(c, line) == "[" + SafeNick(c) + "] " + line
    ensures Truthy(c.avatar) ==> ChatLine(c, line) == c.avatar.value + "\n[" + SafeNick(c) + "] " + line
  {
  }

  /**
   * `/msg` goes to the first registered client shown under the name, and
   * the sender is told; when no registered client has that name only the
   * sender hears about it.
   */
  lemma MsgFirstMatch(s: State, w: Writer, arg: string, arg2: string, e: Env, i: nat)
    requires Wf(s) && w in s.sessions
    requires arg != [] && arg2 != []
    requires i < |s.registry| && SafeNick(s.sessions[s.registry[i]]) == arg
    requires forall j :: 0 <= j < i ==> SafeNick(s.sessions[s.registry[j]]) != arg
    requires s.registry[i] !in e.down && s.registry[i] !in s.closed
    ensures var pm := "[PM from " + SafeNick(s.sessions[w]) + "] " + arg2 + CRLF;
            var s1 := Send(s, e.down, s.registry[i], pm);
            && s1.sent == s.sent + [Delivery(s.registry[i], pm)]
            && Msg(s, w, arg, arg2, e) == Reply(s1, e.down, w, "[PM to " + arg + "] " + arg2 + CRLF)
  {
    assert FirstNamed(s.registry, s.sessions, arg) == Some(i);
  }

  lemma MsgNoMatch(s: State, w: Writer, arg: string, arg2: string, e: Env)
    requires Wf(s) && w in s.sessions
    requires arg != [] && arg2 != []
    requires forall j :: 0 <= j < |s.registry| ==> SafeNick(s.sessions[s.registry[j]]) != arg
    ensures Msg(s, w, arg, arg2, e) == Reply(s, e.down, w, "User not found." + CRLF)
  {
  }

  /** A private message whose delivery fails disconnects its recipient,
      yet the sender is still told it was sent. */
  lemma MsgToDeadRecipient(s: State, w: Writer, arg: string, arg2: string, e: Env, i: nat)
    requires Wf(s) && w in s.sessions
    requires arg != [] && arg2 != []
    requires FirstNamed(s.registry, s.sessions, arg) == Some(i)
    requires s.registry[i] in e.down
    ensures var r := Msg(s, w, arg, arg2, e);
            && s.registry[i] !in r.st.registry
            && (Delivers(Disconnect(s, e.down, e.now, s.registry[i], "write-error"), e.down, w) ==>
                  r.st.sent[|r.st.sent| - 1] == Delivery(w, "[PM to " + arg + "] " + arg2 + CRLF))
  {
    DisconnectKeeps(s, e.down, e.now, s.registry[i], "write-error");
  }

  /** The roster of one more client is the roster so far and that
      client's line. */
  lemma RosterSnoc(q: seq<Writer>, sessions: map<Writer, Client>, w: Writer)
    requires forall x :: x in q ==> x in sessions
    requires w in sessions
    ensures RosterLines(q + [w], sessions) == RosterLines(q, sessions) + " - " + SafeNick(sessions[w]) + CRLF
  {
    assert (q + [w])[..|q|] == q;
  }
}
