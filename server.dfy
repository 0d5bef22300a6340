/**
 * The server as the program runs it: one object holding the `clients`
 * registry, the history deque, the account store and the connections'
 * outputs, updated in place by `broadcast`, `disconnect_writer`, the
 * command handlers and the connection lifecycle. Every method is proved to
 * have exactly the effect of the specification function of the same name
 * on the state it represents, `Abs()`.
 */
module Server {
  import opened Wrappers
  import opened Text
  import opened Bounded
  import opened Config
  import opened Identity
  import opened RateLimiter
  import opened Registry
  import Commands
  import opened BroadcastFacts
  import Lifecycle
  import Invariants
  import CommandFacts

  class Subnet {
    var nextId: nat
    var registry: seq<Writer>
    var sessions: map<Writer, Client>
    var closed: set<Writer>
    var history: seq<Entry>
    ghost var log: seq<Entry>
    var users: map<string, Credential>
    var sent: seq<Delivery>

    /** The state these fields represent. */
    ghost function Abs(): State
      reads this
    {
      State(nextId, registry, sessions, closed, history, log, users, sent)
    }

    /** A server with no connections over an existing account store. */
    constructor (accounts: map<string, Credential>)
      ensures Abs() == Lifecycle.Initial(accounts)
      ensures Invariants.Inv(Abs())
    {
      nextId := 1;
      registry := [];
      sessions := map[];
      closed := {};
      history := [];
      log := [];
      users := accounts;
      sent := [];
      Invariants.InitialInv(accounts);
    }

    /**
     * `broadcast(message, exclude_writer)`: the line joins the history, is
     * written to every writer of a snapshot of the registry but the
     * excluded one, and the writers whose write failed are disconnected
     * afterwards, in snapshot order.
     */
    method Broadcast(down: set<Writer>, now: int, msg: string, ex: Option<Writer>)
      requires Wf(Abs())
      modifies this
      ensures Abs() == Registry.Broadcast(old(Abs()), down, now, msg, ex)
      decreases |registry|, 2
    {
      ghost var s0 := Abs();
      var e := Entry(now, msg);
      var fan, dead := FanOut(down, msg + CRLF, ex);
      BroadcastUnfolds(s0, down, now, msg, ex);
      history, log, sent := Push(history, e, HistorySize), log + [e], sent + fan;
      assert Abs() == s0.(history := Push(s0.history, e, HistorySize), log := s0.log + [e], sent := s0.sent + fan);
      DisconnectEach(down, now, dead, "write-error");
    }

    /** The write loop of `broadcast` over a snapshot of the registry: the
        writes that get through, in snapshot order, and the writers whose
        write failed. */
    method FanOut(down: set<Writer>, payload: string, ex: Option<Writer>) returns (fan: seq<Delivery>, dead: seq<Writer>)
      ensures fan == Deliveries(Reached(registry, ex, down), payload)
      ensures dead == Failed(registry, ex, down)
    {
      var snapshot := registry;
      fan := [];
      dead := [];
      ghost var done: seq<Writer> := [];
      assert Deliveries([], payload) == [];
      var i := 0;
      while i < |snapshot|
        invariant 0 <= i <= |snapshot| && done == snapshot[..i]
        invariant fan == Deliveries(Reached(done, ex, down), payload)
        invariant dead == Failed(done, ex, down)
      {
        var w := snapshot[i];
        FanOutStep(done, w, ex, down, payload);
        if Some(w) != ex && w !in down {
          fan := fan + [Delivery(w, payload)];
        } else if Some(w) != ex {
          dead := dead + [w];
          assert fan + [] == fan;
        } else {
          assert fan + [] == fan;
          assert dead + [] == dead;
        }
        PrefixSnoc(snapshot, i);
        done := done + [w];
        i := i + 1;
      }
      assert done == snapshot by { assert snapshot[..i] == snapshot; }
    }

    /** `for d in dead: disconnect_writer(d)`. */
    method DisconnectEach(down: set<Writer>, now: int, ws: seq<Writer>, reason: string)
      requires Wf(Abs())
      modifies this
      ensures Abs() == DisconnectAll(old(Abs()), down, now, ws, reason)
      decreases |registry|, 1
    {
      ghost var s0 := Abs();
      var j := 0;
      while j < |ws|
        invariant 0 <= j <= |ws|
        invariant Wf(Abs()) && |registry| <= |s0.registry|
        invariant DisconnectAll(Abs(), down, now, ws[j..], reason) == DisconnectAll(s0, down, now, ws, reason)
      {
        assert ws[j..][1..] == ws[j + 1..];
        Disconnect(down, now, ws[j], reason);
        j := j + 1;
      }
      assert ws[j..] == [];
    }

    /**
     * `disconnect_writer(writer, reason)`: for a registered writer, a
     * best-effort "Goodbye.", the connection closed and dropped from the
     * registry, and its departure broadcast under the name it had.
     */
    method Disconnect(down: set<Writer>, now: int, w: Writer, reason: string)
      requires Wf(Abs())
      modifies this
      ensures Abs() == Registry.Disconnect(old(Abs()), down, now, w, reason)
      decreases |registry|, 0
    {
      if w in registry {
        var who := SafeNick(sessions[w]);
        if w !in down && w !in closed {
          sent := sent + [Delivery(w, "Goodbye." + CRLF)];
        }
        registry := Without(registry, w);
        closed := closed + {w};
        Broadcast(down, now, Departure(who, reason), None);
      }
    }

    /** A write to the issuing client and `drain()`; `raised` when it failed. */
    method Reply(down: set<Writer>, w: Writer, text: string) returns (raised: bool)
      modifies this
      ensures Commands.Ran(Abs(), raised) == Commands.Reply(old(Abs()), down, w, text)
    {
      raised := w in down || w in closed;
      if !raised {
        sent := sent + [Delivery(w, text)];
      }
    }

    /** Index of the first registered client shown as `name`: the search
        `/msg` makes over the `clients` dict. */
    method FindByName(name: string) returns (r: Option<nat>)
      requires forall x :: x in registry ==> x in sessions
      ensures r == Commands.FirstNamed(registry, sessions, name)
    {
      var q, clients := registry, sessions;
      var i := 0;
      while i < |q|
        invariant 0 <= i <= |q|
        invariant forall j :: 0 <= j < i ==> SafeNick(clients[q[j]]) != name
      {
        if SafeNick(clients[q[i]]) == name {
          return Some(i);
        }
        i := i + 1;
      }
      return None;
    }

    /** Whether some registered client is logged in as `user`: the scan
        `/login` makes before accepting a password. */
    method AuthHeld(user: string) returns (held: bool)
      requires Wf(Abs())
      ensures held == Commands.HeldBy(Abs(), user)
    {
      var i := 0;
      while i < |registry|
        invariant 0 <= i <= |registry|
        invariant forall j :: 0 <= j < i ==> sessions[registry[j]].authUser != Some(user)
      {
        if sessions[registry[i]].authUser == Some(user) {
          return true;
        }
        i := i + 1;
      }
      return false;
    }

    /** The `/who` reply: a header and one line per registered client, in
        registration order. */
    method Roster() returns (text: string)
      requires Wf(Abs())
      ensures text == Commands.WhoText(Abs())
    {
      var lines := "";
      ghost var done: seq<Writer> := [];
      var i := 0;
      while i < |registry|
        invariant 0 <= i <= |registry| && done == registry[..i]
        invariant lines == Commands.RosterLines(done, sessions)
      {
        var w := registry[i];
        CommandFacts.RosterSnoc(done, sessions, w);
        lines := lines + " - " + SafeNick(sessions[w]) + CRLF;
        PrefixSnoc(registry, i);
        done := done + [w];
        i := i + 1;
      }
      assert done == registry by { assert registry[..i] == registry; }
      text := "Users connected:" + CRLF + lines;
    }

    /** `/register <user> <password>`. */
    method Register(w: Writer, arg: string, arg2: string, e: Commands.Env) returns (raised: bool)
      requires Wf(Abs()) && w in sessions
      modifies this
      ensures Commands.Ran(Abs(), raised) == Commands.Register(old(Abs()), w, arg, arg2, e)
    {
      ghost var s0 := Abs();
      var username := Strip(arg);
      var password := Strip(arg2);
      if username == [] || password == [] {
        raised := Reply(e.down, w, "Usage: /register <user> <password>" + CRLF);
      } else if IsBanned(username) {
        raised := Reply(e.down, w, "This username is prohibited. Choose another." + CRLF);
      } else if username in users {
        raised := Reply(e.down, w, "Username already exists." + CRLF);
      } else {
        var c := sessions[w].(authUser := Some(username), nick := None, floodCount := 0);
        ghost var s1 := Commands.SetClient(s0, w, c).(users := s0.users[username := e.salted]);
        sessions := sessions[w := c];
        users := users[username := e.salted];
        assert Abs() == s1;
        Broadcast(e.down, e.now, "* " + SafeNick(c) + " registered and logged in", None);
        ghost var s2 := Abs();
        raised := Reply(e.down, w, "Registered and logged in." + CRLF);
        assert Commands.Register(s0, w, arg, arg2, e) == Commands.Reply(s2, e.down, w, "Registered and logged in." + CRLF);
      }
    }

    /** `/login <user> <password>`. */
    method Login(w: Writer, arg: string, arg2: string, e: Commands.Env) returns (raised: bool)
      requires Wf(Abs()) && w in sessions
      modifies this
      ensures Commands.Ran(Abs(), raised) == Commands.Login(old(Abs()), w, arg, arg2, e)
    {
      ghost var s0 := Abs();
      var username := Strip(arg);
      var password := Strip(arg2);
      if username == [] || password == [] {
        raised := Reply(e.down, w, "Usage: /login <user> <password>" + CRLF);
        return;
      }
      if username !in users {
        raised := Reply(e.down, w, "Unknown user." + CRLF);
        return;
      }
      var held := AuthHeld(username);
      if held {
        raised := Reply(e.down, w, "User already logged in elsewhere." + CRLF);
      } else if e.verify(users[username], password) {
        var c := sessions[w].(authUser := Some(username), nick := None, floodCount := 0);
        ghost var s1 := Commands.SetClient(s0, w, c);
        sessions := sessions[w := c];
        assert Abs() == s1;
        Broadcast(e.down, e.now, "* " + SafeNick(c) + " logged in", None);
        ghost var s2 := Abs();
        raised := Reply(e.down, w, "Login successful." + CRLF);
        assert Commands.Login(s0, w, arg, arg2, e) == Commands.Reply(s2, e.down, w, "Login successful." + CRLF);
      } else {
        raised := Reply(e.down, w, "Invalid password." + CRLF);
      }
    }

    /** `/logout`. */
    method Logout(w: Writer, e: Commands.Env) returns (raised: bool)
      requires Wf(Abs()) && w in sessions
      modifies this
      ensures Commands.Ran(Abs(), raised) == Commands.Logout(old(Abs()), w, e)
    {
      var c := sessions[w];
      if Truthy(c.authUser) {
        sessions := sessions[w := c.(authUser := None, nick := None, floodCount := 0)];
        Broadcast(e.down, e.now, "* " + c.authUser.value + " logged out", None);
        raised := Reply(e.down, w, "Logged out." + CRLF);
      } else {
        raised := Reply(e.down, w, "Not logged in." + CRLF);
      }
    }

    /** `/nick <name>`. */
    method Nick(w: Writer, arg: string, e: Commands.Env) returns (raised: bool)
      requires Wf(Abs()) && w in sessions
      modifies this
      ensures Commands.Ran(Abs(), raised) == Commands.Nick(old(Abs()), w, arg, e)
    {
      var wanted := Commands.NickWanted(arg);
      var c := sessions[w];
      if wanted == [] {
        raised := Reply(e.down, w, "Usage: /nick <name>" + CRLF);
      } else if IsBanned(wanted) {
        raised := Reply(e.down, w, "This nickname is prohibited. Choose another." + CRLF);
      } else if Truthy(c.authUser) {
        raised := Reply(e.down, w, "You're logged in; to set a separate nick, logout first." + CRLF);
      } else {
        var c' := c.(nick := Some(wanted));
        sessions := sessions[w := c'];
        Broadcast(e.down, e.now, "* " + SafeNick(c) + " now is " + SafeNick(c'), None);
        raised := false;
      }
    }

    /** `/msg <user> <text>`. */
    method Msg(w: Writer, arg: string, arg2: string, e: Commands.Env) returns (raised: bool)
      requires Wf(Abs()) && w in sessions
      modifies this
      ensures Commands.Ran(Abs(), raised) == Commands.Msg(old(Abs()), w, arg, arg2, e)
    {
      if arg == [] || arg2 == [] {
        raised := Reply(e.down, w, "Usage: /msg <user> <text>" + CRLF);
        return;
      }
      var found := FindByName(arg);
      if found.None? {
        raised := Reply(e.down, w, "User not found." + CRLF);
      } else {
        var t := registry[found.value];
        var pm := "[PM from " + SafeNick(sessions[w]) + "] " + arg2 + CRLF;
        if t !in e.down && t !in closed {
          sent := sent + [Delivery(t, pm)];
        } else {
          Disconnect(e.down, e.now, t, "write-error");
        }
        raised := Reply(e.down, w, "[PM to " + arg + "] " + arg2 + CRLF);
      }
    }

    /** `/avatar <file>`, given what the image converter returned. */
    method Avatar(w: Writer, e: Commands.Env) returns (raised: bool)
      requires Wf(Abs()) && w in sessions
      modifies this
      ensures Commands.Ran(Abs(), raised) == Commands.Avatar(old(Abs()), w, e)
    {
      if Truthy(e.avatar) {
        sessions := sessions[w := sessions[w].(avatar := e.avatar)];
        raised := Reply(e.down, w, "Avatar set successfully." + CRLF);
      } else {
        raised := Reply(e.down, w, "Failed to load avatar." + CRLF);
      }
    }

    /** A chat line: the flood check on the sender's timestamps, then the
        warning (and, at the third strike, the disconnection) or the
        broadcast. */
    method Chat(w: Writer, line: string, e: Commands.Env) returns (raised: bool)
      requires Wf(Abs()) && w in sessions
      modifies this
      ensures Commands.Ran(Abs(), raised) == Commands.Chat(old(Abs()), w, line, e)
    {
      var check := Throttle(sessions[w], e.now);
      var c := check.client;
      sessions := sessions[w := c];
      if check.flooded {
        raised := Reply(e.down, w, Commands.FloodWarning(c.floodCount));
        if !raised && c.floodCount >= MaxStrikes {
          Disconnect(e.down, e.now, w, "flood");
        }
      } else {
        Broadcast(e.down, e.now, Commands.ChatLine(c, line), None);
        raised := false;
      }
    }

    /** The branch of `handle_commands` a lower-cased command selects. */
    method Dispatch(w: Writer, cmd: string, arg: string, arg2: string, e: Commands.Env) returns (raised: bool)
      requires Wf(Abs()) && w in sessions
      modifies this
      ensures Commands.Ran(Abs(), raised) == Commands.Dispatch(old(Abs()), w, cmd, arg, arg2, e)
    {
      if cmd == "/register" {
        raised := Register(w, arg, arg2, e);
      } else if cmd == "/login" {
        raised := Login(w, arg, arg2, e);
      } else if cmd == "/logout" {
        raised := Logout(w, e);
      } else if cmd == "/nick" {
        raised := Nick(w, arg, e);
      } else if cmd == "/who" {
        var text := Roster();
        raised := Reply(e.down, w, text);
      } else if cmd == "/msg" {
        raised := Msg(w, arg, arg2, e);
      } else if cmd == "/avatar" {
        raised := Avatar(w, e);
      } else if cmd == "/forum" {
        raised := false;
      } else if cmd == "/clear" {
        raised := Reply(e.down, w, Commands.ClearScreen);
      } else if cmd == "/quit" || cmd == "/exit" {
        Disconnect(e.down, e.now, w, "user-quit");
        raised := false;
      } else if cmd == "/help" {
        raised := Reply(e.down, w, Commands.HelpText);
      } else {
        raised := Reply(e.down, w, "Unknown command. Try /help" + CRLF);
      }
    }

    /** `handle_commands(line, client)`: blank lines are ignored, a line
        starting with '/' is a command, anything else is chat. */
    method HandleLine(w: Writer, raw: string, e: Commands.Env) returns (raised: bool)
      requires Wf(Abs()) && w in sessions
      modifies this
      ensures Commands.Ran(Abs(), raised) == Commands.HandleLine(old(Abs()), w, raw, e)
    {
      var line := Strip(raw);
      if line == [] {
        return false;
      }
      if line[0] == '/' {
        var (cmd, arg, arg2) := Commands.ParseCommand(line);
        raised := Dispatch(w, cmd, arg, arg2, e);
      } else {
        raised := Chat(w, line, e);
      }
    }

    /** The lines `send_history` writes: nothing for an empty history,
        else the header, the last five history lines with their times, and
        the footer. */
    method ReplayLines() returns (out: seq<string>)
      ensures out == Lifecycle.Replay(history)
    {
      if history == [] {
        return [];
      }
      var recent := Last(history, ReplayCount);
      var lines: seq<string> := [];
      var k := 0;
      while k < |recent|
        invariant 0 <= k <= |recent| && |lines| == k
        invariant forall j :: 0 <= j < k ==> lines[j] == Lifecycle.EntryLine(recent[j])
      {
        lines := lines + [Lifecycle.EntryLine(recent[k])];
        k := k + 1;
      }
      assert lines == seq(|recent|, j requires 0 <= j < |recent| => Lifecycle.EntryLine(recent[j]));
      out := ["--- LAST MESSAGES (last 5) ---" + CRLF] + lines + ["--- END HISTORY ---" + CRLF];
    }

    /** `send_history(writer)`: the replay written and drained once, lost
        when the connection is gone; nothing else changes. */
    method SendHistory(down: set<Writer>, w: Writer)
      modifies this
      ensures Abs() == Lifecycle.SendHistory(old(Abs()), down, w)
    {
      var out := ReplayLines();
      if w !in down && w !in closed {
        sent := sent + Lifecycle.WritesTo(w, out);
      }
    }

    /**
     * The admission part of `handle_client`: a full server refuses the
     * connection; otherwise the client is created and registered, greeted
     * (or disconnected when the greeting cannot be written), shown the
     * recent history, and its arrival broadcast. The server invariant is
     * kept.
     */
    method Connect(down: set<Writer>, now: int, w: Writer)
      requires Invariants.Inv(Abs()) && Lifecycle.Fresh(Abs(), w)
      modifies this
      ensures Abs() == Lifecycle.Connect(old(Abs()), down, now, w)
      ensures Invariants.Inv(Abs())
    {
      ghost var s0 := Abs();
      Invariants.ConnectInv(s0, down, now, w);
      if |registry| >= MaxClients {
        Lifecycle.ConnectRefused(s0, down, now, w);
        if w !in down && w !in closed {
          sent := sent + [Delivery(w, "Server full, try again." + CRLF)];
        }
        closed := closed + {w};
        return;
      }
      var id := nextId;
      nextId := nextId + 1;
      registry := registry + [w];
      sessions := sessions[w := NewClient(id)];
      ghost var s1 := Lifecycle.Admit(s0, w);
      assert Abs() == s1;
      if w in down || w in closed {
        Lifecycle.ConnectWelcomeFails(s0, down, now, w);
        Disconnect(down, now, w, "welcome-fail");
        return;
      }
      Lifecycle.ConnectWelcomed(s0, down, now, w);
      ghost var greeted := Lifecycle.WriteAll(s1, down, w, Lifecycle.Greeting);
      sent := sent + Lifecycle.WritesTo(w, Lifecycle.Greeting);
      assert Abs() == greeted;
      SendHistory(down, w);
      assert Abs() == Lifecycle.SendHistory(greeted, down, w);
      Broadcast(down, now, "* " + SafeNick(sessions[w]) + " joined", None);
    }

    /** One line read from the connection; a reply that could not be
        written ends the connection. The server invariant is kept. */
    method Receive(w: Writer, raw: string, e: Commands.Env)
      requires Invariants.Inv(Abs()) && w in sessions
      modifies this
      ensures Abs() == Lifecycle.Receive(old(Abs()), w, raw, e)
      ensures Invariants.Inv(Abs())
    {
      Invariants.ReceiveInv(Abs(), w, raw, e);
      var raised := HandleLine(w, raw, e);
      if raised {
        Disconnect(e.down, e.now, w, "connection-closed");
      }
    }

    /** The connection's stream ended. The server invariant is kept. */
    method Hangup(down: set<Writer>, now: int, w: Writer)
      requires Invariants.Inv(Abs())
      modifies this
      ensures Abs() == Lifecycle.Hangup(old(Abs()), down, now, w)
      ensures Invariants.Inv(Abs())
    {
      Invariants.HangupInv(Abs(), down, now, w);
      Disconnect(down, now, w, "connection-closed");
    }
  }
}

