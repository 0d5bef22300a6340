/**
 * What holds of every state the server can reach: the registry stays
 * within capacity and never lists a closed connection, ids are unique and
 * below the counter, the history is the tail of everything broadcast,
 * every registered client has fewer than three flood strikes, a logged-in
 * client's account exists, and no account is in use by two registered
 * clients at once.
 */
module Invariants {
  import opened Wrappers
  import opened Text
  import opened Bounded
  import opened Config
  import opened Identity
  import opened RateLimiter
  import opened Registry
  import opened BroadcastFacts
  import opened Commands
  import opened Lifecycle

  /** Facts about one client record that depend only on the counter and
      the account store. */
  ghost predicate ClientOk(s: State, c: Client) {
    && 1 <= c.id < s.nextId
    && |c.stamps| <= WindowSize
    && (Truthy(c.nick) ==> !IsBanned(c.nick.value))
    && (Truthy(c.authUser) ==> c.authUser.value in s.users)
  }

  /** No account is held by two registered clients. */
  ghost predicate UniqueLogins(s: State)
    requires Wf(s)
  {
    forall x, y :: x in s.registry && y in s.registry && x != y && Truthy(s.sessions[x].authUser) ==>
      s.sessions[x].authUser != s.sessions[y].authUser
  }

  /** The invariant, except that the client of `ex` (when given) may have
      reached three strikes: the state between a failed reply and the
      disconnect it causes. */
  ghost predicate InvExcept(s: State, ex: Option<Writer>) {
    && Wf(s)
    && s.nextId >= 1
    && |s.registry| <= MaxClients
    && HistoryIsTail(s)
    && (forall x :: x in s.registry ==> x !in s.closed)
    && (forall x :: x in s.sessions ==> ClientOk(s, s.sessions[x]))
    && (forall x, y :: x in s.sessions && y in s.sessions && x != y ==> s.sessions[x].id != s.sessions[y].id)
    && (forall x :: x in s.registry && Some(x) != ex ==> s.sessions[x].floodCount < MaxStrikes)
    && UniqueLogins(s)
  }

  ghost predicate Inv(s: State) {
    InvExcept(s, None)
  }

  /** The id counter never goes back, and the account store only gains
      names, never a banned one. */
  ghost predicate Grows(s: State, r: State) {
    && r.nextId >= s.nextId
    && (forall u :: u in s.users ==> u in r.users)
    && (forall u :: u in r.users && u !in s.users ==> !IsBanned(u))
  }

  /** The recursion of broadcasting and disconnecting keeps the invariant. */
  lemma ShrinkKeepsInv(s: State, r: State, ex: Option<Writer>)
    requires InvExcept(s, ex) && Shrinks(s, r) && Kept(s, r) && HistoryIsTail(r)
    ensures InvExcept(r, ex) && Grows(s, r)
  {
    assert forall x :: x in r.sessions ==> ClientOk(r, r.sessions[x]) by {
      forall x | x in r.sessions
        ensures ClientOk(r, r.sessions[x])
      {
        assert ClientOk(s, s.sessions[x]);
      }
    }
  }

  lemma BroadcastInv(s: State, down: set<Writer>, now: int, msg: string, ex: Option<Writer>, skip: Option<Writer>)
    requires InvExcept(s, ex)
    ensures InvExcept(Broadcast(s, down, now, msg, skip), ex)
    ensures Grows(s, Broadcast(s, down, now, msg, skip))
  {
    BroadcastKeeps(s, down, now, msg, skip);
    BroadcastLogs(s, down, now, msg, skip);
    ShrinkKeepsInv(s, Broadcast(s, down, now, msg, skip), ex);
  }

  /** Disconnecting keeps the invariant, and disconnecting the one client
      the invariant exempted restores it in full. */
  lemma DisconnectInv(s: State, down: set<Writer>, now: int, w: Writer, reason: string, ex: Option<Writer>)
    requires InvExcept(s, ex)
    ensures InvExcept(Disconnect(s, down, now, w, reason), ex)
    ensures ex == Some(w) ==> Inv(Disconnect(s, down, now, w, reason))
    ensures Grows(s, Disconnect(s, down, now, w, reason))
  {
    var r := Disconnect(s, down, now, w, reason);
    DisconnectKeeps(s, down, now, w, reason);
    DisconnectLogs(s, down, now, w, reason);
    ShrinkKeepsInv(s, r, ex);
  }

  /** A client record replaced by one that keeps its id and meets the
      per-record facts, the strike bound and the one-login rule. */
  lemma SetClientInv(s: State, w: Writer, c: Client, ex: Option<Writer>)
    requires InvExcept(s, ex) && w in s.sessions
    requires c.id == s.sessions[w].id && ClientOk(s, c)
    requires w in s.registry && Some(w) != ex ==> c.floodCount < MaxStrikes
    requires w in s.registry && Truthy(c.authUser) ==>
               forall y :: y in s.registry && y != w ==> s.sessions[y].authUser != c.authUser
    ensures InvExcept(SetClient(s, w, c), ex)
  {
    var r := SetClient(s, w, c);
    assert forall x :: x in r.sessions ==> ClientOk(r, r.sessions[x]) by {
      forall x | x in r.sessions
        ensures ClientOk(r, r.sessions[x])
      {
        if x != w { assert ClientOk(s, s.sessions[x]); }
      }
    }
    assert UniqueLogins(r) by {
      forall x, y | x in r.registry && y in r.registry && x != y && Truthy(r.sessions[x].authUser)
        ensures r.sessions[x].authUser != r.sessions[y].authUser
      {
        if x != w && y != w {
          assert s.sessions[x].authUser != s.sessions[y].authUser;
        }
      }
    }
  }

  /** A new account with a name no client is logged in under. */
  lemma AddAccountInv(s: State, u: string, cred: Credential, ex: Option<Writer>)
    requires InvExcept(s, ex)
    ensures InvExcept(s.(users := s.users[u := cred]), ex)
  {
    var r := s.(users := s.users[u := cred]);
    assert forall x :: x in r.sessions ==> ClientOk(r, r.sessions[x]) by {
      forall x | x in r.sessions
        ensures ClientOk(r, r.sessions[x])
      {
        assert ClientOk(s, s.sessions[x]);
      }
    }
  }

  /** A reply only adds a write. */
  lemma ReplyInv(s: State, down: set<Writer>, w: Writer, text: string, ex: Option<Writer>)
    requires InvExcept(s, ex)
    ensures InvExcept(Reply(s, down, w, text).st, ex)
    ensures Grows(s, Reply(s, down, w, text).st)
  {
    var r := Reply(s, down, w, text).st;
    assert r.(sent := s.sent) == s;
    assert r.sessions == s.sessions && r.registry == s.registry && r.users == s.users;
    assert r.nextId == s.nextId && r.closed == s.closed && r.history == s.history && r.log == s.log;
  }

  lemma RegisterInv(s: State, w: Writer, arg: string, arg2: string, e: Env)
    requires Inv(s) && w in s.sessions
    ensures Inv(Register(s, w, arg, arg2, e).st)
    ensures Grows(s, Register(s, w, arg, arg2, e).st)
  {
    var u := Strip(arg);
    if u == [] || Strip(arg2) == [] {
      ReplyInv(s, e.down, w, "Usage: /register <user> <password>" + CRLF, None);
    } else if IsBanned(u) {
      ReplyInv(s, e.down, w, "This username is prohibited. Choose another." + CRLF, None);
    } else if u in s.users {
      ReplyInv(s, e.down, w, "Username already exists." + CRLF, None);
    } else {
      var c := s.sessions[w].(authUser := Some(u), nick := None, floodCount := 0);
      var s1 := SetClient(s, w, c).(users := s.users[u := e.salted]);
      var s2 := Broadcast(s1, e.down, e.now, "* " + SafeNick(c) + " registered and logged in", None);
      NewAccountLoginInv(s, w, u, e.salted);
      BroadcastInv(s1, e.down, e.now, "* " + SafeNick(c) + " registered and logged in", None, None);
      ReplyInv(s2, e.down, w, "Registered and logged in." + CRLF, None);
    }
  }

  /** Creating an account nobody holds yet and logging a client in under it. */
  lemma NewAccountLoginInv(s: State, w: Writer, u: string, cred: Credential)
    requires Inv(s) && w in s.sessions && u !in s.users && !IsBanned(u)
    ensures var c := s.sessions[w].(authUser := Some(u), nick := None, floodCount := 0);
            var s1 := SetClient(s, w, c).(users := s.users[u := cred]);
            Inv(s1) && Grows(s, s1)
  {
    var c := s.sessions[w].(authUser := Some(u), nick := None, floodCount := 0);
    var s0 := s.(users := s.users[u := cred]);
    AddAccountInv(s, u, cred, None);
    assert ClientOk(s, s.sessions[w]);
    forall y | y in s.registry && y != w && Truthy(s.sessions[y].authUser)
      ensures s.sessions[y].authUser != c.authUser
    {
      assert ClientOk(s, s.sessions[y]);
    }
    SetClientInv(s0, w, c, None);
  }

  lemma LoginInv(s: State, w: Writer, arg: string, arg2: string, e: Env)
    requires Inv(s) && w in s.sessions
    ensures Inv(Login(s, w, arg, arg2, e).st)
    ensures Grows(s, Login(s, w, arg, arg2, e).st)
  {
    var u := Strip(arg);
    var p := Strip(arg2);
    if u == [] || p == [] {
      ReplyInv(s, e.down, w, "Usage: /login <user> <password>" + CRLF, None);
    } else if u !in s.users {
      ReplyInv(s, e.down, w, "Unknown user." + CRLF, None);
    } else if HeldBy(s, u) {
      ReplyInv(s, e.down, w, "User already logged in elsewhere." + CRLF, None);
    } else if e.verify(s.users[u], p) {
      var c := s.sessions[w].(authUser := Some(u), nick := None, floodCount := 0);
      var s1 := SetClient(s, w, c);
      assert InvExcept(s1, None) by {
        assert ClientOk(s, s.sessions[w]);
        forall y | y in s.registry && y != w
          ensures s.sessions[y].authUser != c.authUser
        {
          var i :| 0 <= i < |s.registry| && s.registry[i] == y;
          assert s.sessions[s.registry[i]].authUser != Some(u);
        }
        SetClientInv(s, w, c, None);
      }
      var s2 := Broadcast(s1, e.down, e.now, "* " + SafeNick(c) + " logged in", None);
      BroadcastInv(s1, e.down, e.now, "* " + SafeNick(c) + " logged in", None, None);
      ReplyInv(s2, e.down, w, "Login successful." + CRLF, None);
    } else {
      ReplyInv(s, e.down, w, "Invalid password." + CRLF, None);
    }
  }

  lemma LogoutInv(s: State, w: Writer, e: Env)
    requires Inv(s) && w in s.sessions
    ensures Inv(Logout(s, w, e).st)
    ensures Grows(s, Logout(s, w, e).st)
  {
    var c := s.sessions[w];
    if Truthy(c.authUser) {
      var c' := c.(authUser := None, nick := None, floodCount := 0);
      var s1 := Broadcast(SetClient(s, w, c'), e.down, e.now, "* " + c.authUser.value + " logged out", None);
      assert ClientOk(s, c);
      SetClientInv(s, w, c', None);
      BroadcastInv(SetClient(s, w, c'), e.down, e.now, "* " + c.authUser.value + " logged out", None, None);
      ReplyInv(s1, e.down, w, "Logged out." + CRLF, None);
    } else {
      ReplyInv(s, e.down, w, "Not logged in." + CRLF, None);
    }
  }

  lemma NickInv(s: State, w: Writer, arg: string, e: Env)
    requires Inv(s) && w in s.sessions
    ensures Inv(Nick(s, w, arg, e).st)
    ensures Grows(s, Nick(s, w, arg, e).st)
  {
    var wanted := NickWanted(arg);
    var c := s.sessions[w];
    if wanted == [] {
      ReplyInv(s, e.down, w, "Usage: /nick <name>" + CRLF, None);
    } else if IsBanned(wanted) {
      ReplyInv(s, e.down, w, "This nickname is prohibited. Choose another." + CRLF, None);
    } else if Truthy(c.authUser) {
      ReplyInv(s, e.down, w, "You're logged in; to set a separate nick, logout first." + CRLF, None);
    } else {
      var c' := c.(nick := Some(wanted));
      assert ClientOk(s, c);
      SetClientInv(s, w, c', None);
      BroadcastInv(SetClient(s, w, c'), e.down, e.now, "* " + SafeNick(c) + " now is " + SafeNick(c'), None, None);
    }
  }

  lemma MsgInv(s: State, w: Writer, arg: string, arg2: string, e: Env)
    requires Inv(s) && w in s.sessions
    ensures Inv(Msg(s, w, arg, arg2, e).st)
    ensures Grows(s, Msg(s, w, arg, arg2, e).st)
  {
    if arg == [] || arg2 == [] {
      ReplyInv(s, e.down, w, "Usage: /msg <user> <text>" + CRLF, None);
    } else {
      match FirstNamed(s.registry, s.sessions, arg)
      case None =>
        ReplyInv(s, e.down, w, "User not found." + CRLF, None);
      case Some(i) =>
        var t := s.registry[i];
        var pm := "[PM from " + SafeNick(s.sessions[w]) + "] " + arg2 + CRLF;
        var s1 := if Delivers(s, e.down, t) then Send(s, e.down, t, pm)
                  else Disconnect(s, e.down, e.now, t, "write-error");
        if Delivers(s, e.down, t) {
          SendInv(s, e.down, t, pm);
        } else {
          DisconnectInv(s, e.down, e.now, t, "write-error", None);
        }
        ReplyInv(s1, e.down, w, "[PM to " + arg + "] " + arg2 + CRLF, None);
    }
  }

  /** One write only adds a delivery. */
  lemma SendInv(s: State, down: set<Writer>, w: Writer, payload: string)
    requires Inv(s)
    ensures Inv(Send(s, down, w, payload)) && Grows(s, Send(s, down, w, payload))
  {
    var r := Send(s, down, w, payload);
    assert r.sessions == s.sessions && r.registry == s.registry && r.users == s.users;
    assert r.nextId == s.nextId && r.closed == s.closed && r.history == s.history && r.log == s.log;
  }

  /** Writes alone keep the invariant. */
  lemma WritesInv(s: State, r: State)
    requires Inv(s) && r.(sent := s.sent) == s
    ensures Inv(r)
  {
    assert r.sessions == s.sessions && r.registry == s.registry && r.users == s.users;
    assert r.nextId == s.nextId && r.closed == s.closed && r.history == s.history && r.log == s.log;
  }

  lemma AvatarInv(s: State, w: Writer, e: Env)
    requires Inv(s) && w in s.sessions
    ensures Inv(Avatar(s, w, e).st)
    ensures Grows(s, Avatar(s, w, e).st)
  {
    if Truthy(e.avatar) {
      assert ClientOk(s, s.sessions[w]);
      SetClientInv(s, w, s.sessions[w].(avatar := e.avatar), None);
    }
  }

  /** A chat line keeps the invariant, except that a client whose
      warning could not be written may be left registered at three
      strikes -- until the disconnect that failure causes. */
  lemma ChatInv(s: State, w: Writer, line: string, e: Env)
    requires Inv(s) && w in s.sessions
    ensures InvExcept(Chat(s, w, line, e).st, Some(w))
    ensures !Chat(s, w, line, e).raised ==> Inv(Chat(s, w, line, e).st)
    ensures Grows(s, Chat(s, w, line, e).st)
  {
    var check := Throttle(s.sessions[w], e.now);
    var c := check.client;
    var s1 := SetClient(s, w, c);
    assert ClientOk(s, c) by { assert ClientOk(s, s.sessions[w]); }
    SetClientInv(s, w, c, Some(w));
    var r := Chat(s, w, line, e);
    if check.flooded {
      var warned := Reply(s1, e.down, w, FloodWarning(c.floodCount));
      ReplyInv(s1, e.down, w, FloodWarning(c.floodCount), Some(w));
      if !warned.raised && c.floodCount >= MaxStrikes {
        assert r.st == Disconnect(warned.st, e.down, e.now, w, "flood");
        DisconnectInv(warned.st, e.down, e.now, w, "flood", Some(w));
      } else {
        assert r == warned;
        if !warned.raised {
          SetClientInv(s, w, c, None);
          ReplyInv(s1, e.down, w, FloodWarning(c.floodCount), None);
        }
      }
    } else {
      assert r.st == Broadcast(s1, e.down, e.now, ChatLine(c, line), None);
      SetClientInv(s, w, c, None);
      BroadcastInv(s1, e.down, e.now, ChatLine(c, line), None, None);
    }
  }

  /** Every branch of the router keeps the invariant in the same sense. */
  lemma HandleLineInv(s: State, w: Writer, raw: string, e: Env)
    requires Inv(s) && w in s.sessions
    ensures InvExcept(HandleLine(s, w, raw, e).st, Some(w))
    ensures !HandleLine(s, w, raw, e).raised ==> Inv(HandleLine(s, w, raw, e).st)
    ensures Grows(s, HandleLine(s, w, raw, e).st)
  {
    var line := Strip(raw);
    if line == [] {
    } else if line[0] == '/' {
      var (cmd, arg, arg2) := ParseCommand(line);
      DispatchInv(s, w, cmd, arg, arg2, e);
    } else {
      ChatInv(s, w, line, e);
    }
  }

  lemma DispatchInv(s: State, w: Writer, cmd: string, arg: string, arg2: string, e: Env)
    requires Inv(s) && w in s.sessions
    ensures Inv(Dispatch(s, w, cmd, arg, arg2, e).st)
    ensures InvExcept(Dispatch(s, w, cmd, arg, arg2, e).st, Some(w))
    ensures Grows(s, Dispatch(s, w, cmd, arg, arg2, e).st)
  {
    if cmd == "/register" { RegisterInv(s, w, arg, arg2, e); }
    else if cmd == "/login" { LoginInv(s, w, arg, arg2, e); }
    else if cmd == "/logout" { LogoutInv(s, w, e); }
    else if cmd == "/nick" { NickInv(s, w, arg, e); }
    else if cmd == "/who" { ReplyInv(s, e.down, w, WhoText(s), None); }
    else if cmd == "/msg" { MsgInv(s, w, arg, arg2, e); }
    else if cmd == "/avatar" { AvatarInv(s, w, e); }
    else if cmd == "/forum" { }
    else if cmd == "/clear" { ReplyInv(s, e.down, w, ClearScreen, None); }
    else if cmd == "/quit" || cmd == "/exit" { DisconnectInv(s, e.down, e.now, w, "user-quit", None); }
    else if cmd == "/help" { ReplyInv(s, e.down, w, HelpText, None); }
    else { ReplyInv(s, e.down, w, "Unknown command. Try /help" + CRLF, None); }
    InvRelaxes(Dispatch(s, w, cmd, arg, arg2, e).st, w);
  }

  /** The full invariant implies the invariant with an exemption. */
  lemma InvRelaxes(s: State, w: Writer)
    requires Inv(s)
    ensures InvExcept(s, Some(w))
  {
  }

  lemma ReceiveInv(s: State, w: Writer, raw: string, e: Env)
    requires Inv(s) && w in s.sessions
    ensures Inv(Receive(s, w, raw, e))
    ensures Grows(s, Receive(s, w, raw, e))
  {
    var ran := HandleLine(s, w, raw, e);
    HandleLineInv(s, w, raw, e);
    if ran.raised {
      DisconnectInv(ran.st, e.down, e.now, w, "connection-closed", Some(w));
    }
  }

  lemma HangupInv(s: State, down: set<Writer>, now: int, w: Writer)
    requires Inv(s)
    ensures Inv(Hangup(s, down, now, w))
    ensures Grows(s, Hangup(s, down, now, w))
  {
    DisconnectInv(s, down, now, w, "connection-closed", None);
  }

  lemma ConnectInv(s: State, down: set<Writer>, now: int, w: Writer)
    requires Inv(s) && Fresh(s, w)
    ensures Inv(Connect(s, down, now, w))
    ensures Grows(s, Connect(s, down, now, w))
  {
    if |s.registry| >= MaxClients {
      ConnectRefused(s, down, now, w);
    } else {
      var s1 := Admit(s, w);
      AdmitInv(s, w);
      if w in down {
        ConnectWelcomeFails(s, down, now, w);
        DisconnectInv(s1, down, now, w, "welcome-fail", None);
      } else {
        ConnectWelcomed(s, down, now, w);
        var s2 := Greet(s1, down, w);
        WritesInv(s1, s2);
        BroadcastInv(s2, down, now, "* " + DefaultName(s.nextId) + " joined", None, None);
      }
    }
  }

  /** Registering a new connection under the next id keeps the invariant. */
  lemma AdmitInv(s: State, w: Writer)
    requires Inv(s) && Fresh(s, w) && |s.registry| < MaxClients
    ensures Inv(Admit(s, w)) && Grows(s, Admit(s, w))
  {
    var s1 := Admit(s, w);
    AdmitRecordsOk(s, w);
    assert Wf(s1) && s1.closed == s.closed && HistoryIsTail(s1);
    assert forall x :: x in s1.registry ==> x in s.registry || x == w;
    assert !Truthy(s1.sessions[w].authUser) && s1.sessions[w].floodCount == 0;
    assert forall x :: x in s1.registry ==> s1.sessions[x].floodCount < MaxStrikes by {
      forall x | x in s1.registry
        ensures s1.sessions[x].floodCount < MaxStrikes
      {
        if x != w { assert s1.sessions[x] == s.sessions[x]; }
      }
    }
    assert UniqueLogins(s1) by {
      forall x, y | x in s1.registry && y in s1.registry && x != y && Truthy(s1.sessions[x].authUser)
        ensures s1.sessions[x].authUser != s1.sessions[y].authUser
      {
        if y != w {
          assert x != w && s1.sessions[x] == s.sessions[x] && s1.sessions[y] == s.sessions[y];
        }
      }
    }
  }

  /** The records after admission: each meets the per-record facts under
      the advanced counter, and ids stay unique. */
  lemma AdmitRecordsOk(s: State, w: Writer)
    requires Inv(s) && Fresh(s, w) && |s.registry| < MaxClients
    ensures var s1 := Admit(s, w);
            && (forall x :: x in s1.sessions ==> ClientOk(s1, s1.sessions[x]))
            && (forall x, y :: x in s1.sessions && y in s1.sessions && x != y ==> s1.sessions[x].id != s1.sessions[y].id)
  {
    var s1 := Admit(s, w);
    var c := NewClient(s.nextId);
    assert s1.sessions == s.sessions[w := c] && s1.users == s.users && s1.nextId == s.nextId + 1;
    forall x | x in s1.sessions
      ensures ClientOk(s1, s1.sessions[x])
    {
      if x != w { assert ClientOk(s, s.sessions[x]); }
    }
    forall x | x in s.sessions
      ensures s.sessions[x].id != c.id
    {
      assert ClientOk(s, s.sessions[x]);
    }
  }

  /** With no banned account names to begin with, no client is ever
      shown under a banned name. */
  lemma NoBannedDisplayName(s: State, x: Writer)
    requires Inv(s) && x in s.sessions
    requires forall u :: u in s.users ==> !IsBanned(u)
    ensures !IsBanned(SafeNick(s.sessions[x]))
  {
    var c := s.sessions[x];
    assert ClientOk(s, c);
    SafeNickPriority(c);
    DefaultNameNotBanned(c.id);
  }

  lemma InitialInv(users: map<string, Credential>)
    ensures Inv(Initial(users))
  {
  }

  lemma StepInv(n: World, ev: Event)
    requires Inv(n.st)
    ensures Inv(Step(n, ev).st) && Grows(n.st, Step(n, ev).st)
  {
    match ev
    case Arrive(w, down, now) =>
      if Fresh(n.st, w) { ConnectInv(n.st, down, now, w); }
    case Line(w, raw, env) =>
      if Serving(n, w) { ReceiveInv(n.st, w, raw, env); }
    case Close(w, down, now) =>
      if Serving(n, w) { HangupInv(n.st, down, now, w); }
  }

  /**
   * Every state reachable from a fresh server satisfies the invariant, and
   * if the account store started without banned names, no client is ever
   * shown under one.
   */
  lemma {:induction false} RunInv(n: World, evs: seq<Event>)
    requires Inv(n.st)
    ensures Inv(Run(n, evs).st)
    ensures (forall u :: u in n.st.users ==> !IsBanned(u)) ==>
              forall u :: u in Run(n, evs).st.users ==> !IsBanned(u)
    ensures Run(n, evs).st.nextId >= n.st.nextId
    decreases |evs|
  {
    if evs != [] {
      StepInv(n, evs[0]);
      RunInv(Step(n, evs[0]), evs[1..]);
    }
  }

  lemma Reachable(users: map<string, Credential>, evs: seq<Event>, x: Writer)
    requires forall u :: u in users ==> !IsBanned(u)
    ensures Inv(Run(World(Initial(users), {}), evs).st)
    ensures var s := Run(World(Initial(users), {}), evs).st;
            x in s.sessions ==> !IsBanned(SafeNick(s.sessions[x]))
  {
    var n := World(Initial(users), {});
    InitialInv(users);
    RunInv(n, evs);
    var s := Run(n, evs).st;
    if x in s.sessions {
      NoBannedDisplayName(s, x);
    }
  }
}

