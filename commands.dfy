/**
 * `handle_commands`: one line from a client, either a `/command` or a chat
 * line, and its effect on the shared state.
 *
 * Every reply to the issuing client is a write followed by `drain()`; when
 * that write fails the exception leaves the handler at once, which the
 * model reports as `raised` (the connection's read loop then tears the
 * connection down).
 */
module Commands {
  import opened Wrappers
  import opened Text
  import opened Bounded
  import opened Config
  import opened Identity
  import opened RateLimiter
  import opened Registry

  /**
   * What the world decides during one handler call: the time (ms), which
   * connections' writes fail, the verifier `hash_password` makes for a new
   * account (its salt is random), the password check, and what the image
   * converter made of the `/avatar` argument.
   */
  datatype Env = Env(
    now: int,
    down: set<Writer>,
    salted: Credential,
    verify: (Credential, string) -> bool,
    avatar: Option<string>)

  /** A handler's effect, and whether a write to the issuer raised out of it. */
  datatype Ran = Ran(st: State, raised: bool)

  const ClearScreen: string := "\U{1B}[2J\U{1B}[H"

  const HelpText: string :=
    "/register <user> <password> - create account and login\r\n" +
    "/login <user> <password> - login to existing account\r\n" +
    "/logout - logout of account\r\n" +
    "/nick <name> - temporary nick (not while logged in)\r\n" +
    "/who - list users\r\n" +
    "/msg <user> <text> - private message\r\n" +
    "/forum - view forum /forum post <text> - post\r\n" +
    "/avatar <file> - set ASCII avatar (server-side)\r\n" +
    "/clear - clear your screen\r\n" +
    "/quit - exit\r\n"

  /** A write to the issuing client followed by `drain()`. */
  function Reply(s: State, down: set<Writer>, w: Writer, text: string): (r: Ran)
    ensures r.st.(sent := s.sent) == s
    ensures r.raised <==> !Delivers(s, down, w)
    ensures r.st.sent == if r.raised then s.sent else s.sent + [Delivery(w, text)]
  {
    if Delivers(s, down, w) then Ran(Send(s, down, w, text), false) else Ran(s, true)
  }

  /** The issuer's record replaced by `c`. */
  function SetClient(s: State, w: Writer, c: Client): (r: State)
    requires Wf(s) && w in s.sessions
    ensures Wf(r) && r.sessions.Keys == s.sessions.Keys
  {
    s.(sessions := s.sessions[w := c])
  }

  /** `/register <user> <password>`. */
  function Register(s: State, w: Writer, arg: string, arg2: string, e: Env): (r: Ran)
    requires Wf(s) && w in s.sessions
    ensures Wf(r.st)
  {
    var username := Strip(arg);
    var password := Strip(arg2);
    if username == [] || password == [] then
      Reply(s, e.down, w, "Usage: /register <user> <password>" + CRLF)
    else if IsBanned(username) then
      Reply(s, e.down, w, "This username is prohibited. Choose another." + CRLF)
    else if username in s.users then
      Reply(s, e.down, w, "Username already exists." + CRLF)
    else
      var c := s.sessions[w].(authUser := Some(username), nick := None, floodCount := 0);
      var s1 := SetClient(s, w, c).(users := s.users[username := e.salted]);
      var s2 := Broadcast(s1, e.down, e.now, "* " + SafeNick(c) + " registered and logged in", None);
      Reply(s2, e.down, w, "Registered and logged in." + CRLF)
  }

  /** Whether some registered client is logged in as `user`. */
  predicate HeldBy(s: State, user: string)
    requires Wf(s)
  {
    exists i :: 0 <= i < |s.registry| && s.sessions[s.registry[i]].authUser == Some(user)
  }

  /** `/login <user> <password>`. */
  function Login(s: State, w: Writer, arg: string, arg2: string, e: Env): (r: Ran)
    requires Wf(s) && w in s.sessions
    ensures Wf(r.st)
  {
    var username := Strip(arg);
    var password := Strip(arg2);
    if username == [] || password == [] then
      Reply(s, e.down, w, "Usage: /login <user> <password>" + CRLF)
    else if username !in s.users then
      Reply(s, e.down, w, "Unknown user." + CRLF)
    else if HeldBy(s, username) then
      Reply(s, e.down, w, "User already logged in elsewhere." + CRLF)
    else if e.verify(s.users[username], password) then
      var c := s.sessions[w].(authUser := Some(username), nick := None, floodCount := 0);
      var s1 := Broadcast(SetClient(s, w, c), e.down, e.now, "* " + SafeNick(c) + " logged in", None);
      Reply(s1, e.down, w, "Login successful." + CRLF)
    else
      Reply(s, e.down, w, "Invalid password." + CRLF)
  }

  /** `/logout`. */
  function Logout(s: State, w: Writer, e: Env): (r: Ran)
    requires Wf(s) && w in s.sessions
    ensures Wf(r.st)
  {
    var c := s.sessions[w];
    if Truthy(c.authUser) then
      var c' := c.(authUser := None, nick := None, floodCount := 0);
      var s1 := Broadcast(SetClient(s, w, c'), e.down, e.now, "* " + c.authUser.value + " logged out", None);
      Reply(s1, e.down, w, "Logged out." + CRLF)
    else
      Reply(s, e.down, w, "Not logged in." + CRLF)
  }

  /** The nickname `/nick <name>` asks for: the name cut to 32 characters. */
  function NickWanted(arg: string): (n: string)
    ensures |n| <= NickLength
    ensures |Strip(arg)| > NickLength ==> n == Strip(arg)[..NickLength]
    ensures |Strip(arg)| <= NickLength ==> n == Strip(arg)
  {
    Take(Strip(arg), NickLength)
  }

  /** `/nick <name>`. */
  function Nick(s: State, w: Writer, arg: string, e: Env): (r: Ran)
    requires Wf(s) && w in s.sessions
    ensures Wf(r.st)
  {
    var wanted := NickWanted(arg);
    var c := s.sessions[w];
    if wanted == [] then
      Reply(s, e.down, w, "Usage: /nick <name>" + CRLF)
    else if IsBanned(wanted) then
      Reply(s, e.down, w, "This nickname is prohibited. Choose another." + CRLF)
    else if Truthy(c.authUser) then
      Reply(s, e.down, w, "You're logged in; to set a separate nick, logout first." + CRLF)
    else
      var c' := c.(nick := Some(wanted));
      Ran(Broadcast(SetClient(s, w, c'), e.down, e.now, "* " + SafeNick(c) + " now is " + SafeNick(c'), None), false)
  }

  /** The `/who` lines for the writers `q`, one per writer, in order. */
  function RosterLines(q: seq<Writer>, sessions: map<Writer, Client>): string
    requires forall x :: x in q ==> x in sessions
  {
    if q == [] then ""
    else RosterLines(q[..|q| - 1], sessions) + " - " + SafeNick(sessions[q[|q| - 1]]) + CRLF
  }

  /** The whole `/who` reply. */
  function WhoText(s: State): string
    requires Wf(s)
  {
    "Users connected:" + CRLF + RosterLines(s.registry, s.sessions)
  }

  /** Index of the first writer in `q` shown as `name`. */
  function FirstNamed(q: seq<Writer>, sessions: map<Writer, Client>, name: string): (r: Option<nat>)
    requires forall x :: x in q ==> x in sessions
    ensures r.Some? ==> r.value < |q| && SafeNick(sessions[q[r.value]]) == name
    ensures r.Some? ==> forall j :: 0 <= j < r.value ==> SafeNick(sessions[q[j]]) != name
    ensures r.None? ==> forall j :: 0 <= j < |q| ==> SafeNick(sessions[q[j]]) != name
  {
    if q == [] then None
    else if SafeNick(sessions[q[0]]) == name then Some(0)
    else match FirstNamed(q[1..], sessions, name)
      case None => None
      case Some(i) => Some(i + 1)
  }

  /** `/msg <user> <text>`: delivered to the first registered client shown
      under that name; a failed delivery disconnects the recipient, and the
      sender is told it was sent either way. */
  function Msg(s: State, w: Writer, arg: string, arg2: string, e: Env): (r: Ran)
    requires Wf(s) && w in s.sessions
    ensures Wf(r.st)
  {
    if arg == [] || arg2 == [] then
      Reply(s, e.down, w, "Usage: /msg <user> <text>" + CRLF)
    else
      match FirstNamed(s.registry, s.sessions, arg)
      case None => Reply(s, e.down, w, "User not found." + CRLF)
      case Some(i) =>
        var t := s.registry[i];
        var pm := "[PM from " + SafeNick(s.sessions[w]) + "] " + arg2 + CRLF;
        var s1 := if Delivers(s, e.down, t) then Send(s, e.down, t, pm)
                  else Disconnect(s, e.down, e.now, t, "write-error");
        Reply(s1, e.down, w, "[PM to " + arg + "] " + arg2 + CRLF)
  }

  /** `/avatar <file>`, given what the image converter returned. */
  function Avatar(s: State, w: Writer, e: Env): (r: Ran)
    requires Wf(s) && w in s.sessions
    ensures Wf(r.st)
  {
    if Truthy(e.avatar) then
      Reply(SetClient(s, w, s.sessions[w].(avatar := e.avatar)), e.down, w, "Avatar set successfully." + CRLF)
    else
      Reply(s, e.down, w, "Failed to load avatar." + CRLF)
  }

  /** The warning for the `n`-th flood strike. */
  function FloodWarning(n: nat): string {
    "\U{26A0}\U{FE0F} Flood detected (" + Decimal(n) + "/3). Slow down." + CRLF
  }

  /** A chat line as broadcast: the sender's name, and its avatar above it. */
  function ChatLine(c: Client, line: string): string {
    var msg := "[" + SafeNick(c) + "] " + line;
    if Truthy(c.avatar) then c.avatar.value + "\n" + msg else msg
  }

  /** A line that is not a command: flood control, then a broadcast. */
  function Chat(s: State, w: Writer, line: string, e: Env): (r: Ran)
    requires Wf(s) && w in s.sessions
    ensures Wf(r.st)
  {
    var check := Throttle(s.sessions[w], e.now);
    var c := check.client;
    var s1 := SetClient(s, w, c);
    if check.flooded then
      var warned := Reply(s1, e.down, w, FloodWarning(c.floodCount));
      if !warned.raised && c.floodCount >= MaxStrikes then
        Ran(Disconnect(warned.st, e.down, e.now, w, "flood"), false)
      else
        warned
    else
      Ran(Broadcast(s1, e.down, e.now, ChatLine(c, line), None), false)
  }

  /** The command keywords the router knows. */
  const Known: set<string> :=
    {"/register", "/login", "/logout", "/nick", "/who", "/msg", "/avatar", "/forum", "/clear", "/quit", "/exit", "/help"}

  /** The branch of `handle_commands` a lower-cased command selects. */
  function Dispatch(s: State, w: Writer, cmd: string, arg: string, arg2: string, e: Env): (r: Ran)
    requires Wf(s) && w in s.sessions
    ensures Wf(r.st)
  {
    if cmd == "/register" then Register(s, w, arg, arg2, e)
    else if cmd == "/login" then Login(s, w, arg, arg2, e)
    else if cmd == "/logout" then Logout(s, w, e)
    else if cmd == "/nick" then Nick(s, w, arg, e)
    else if cmd == "/who" then Reply(s, e.down, w, WhoText(s))
    else if cmd == "/msg" then Msg(s, w, arg, arg2, e)
    else if cmd == "/avatar" then Avatar(s, w, e)
    else if cmd == "/forum" then Ran(s, false)
    else if cmd == "/clear" then Reply(s, e.down, w, ClearScreen)
    else if cmd == "/quit" || cmd == "/exit" then Ran(Disconnect(s, e.down, e.now, w, "user-quit"), false)
    else if cmd == "/help" then Reply(s, e.down, w, HelpText)
    else Reply(s, e.down, w, "Unknown command. Try /help" + CRLF)
  }

  /** The command, first argument and rest of a stripped line that starts
      with '/': `line.split(maxsplit=2)` with the command lower-cased and
      missing fields empty. */
  function ParseCommand(line: string): (r: (string, string, string))
    requires line != [] && line[0] == '/'
    ensures r.0 != [] && NoSpace(r.1)
  {
    assert !AllSpace(line) by { assert !IsSpace(line[0]); }
    var parts := SplitFields(line);
    (Lower(parts[0]), if |parts| > 1 then parts[1] else "", if |parts| > 2 then parts[2] else "")
  }

  /** `handle_commands(line, client)`. */
  function HandleLine(s: State, w: Writer, raw: string, e: Env): (r: Ran)
    requires Wf(s) && w in s.sessions
    ensures Wf(r.st)
  {
    var line := Strip(raw);
    if line == [] then Ran(s, false)
    else if line[0] == '/' then
      var (cmd, arg, arg2) := ParseCommand(line);
      Dispatch(s, w, cmd, arg, arg2, e)
    else Chat(s, w, line, e)
  }
}
