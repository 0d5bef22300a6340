/**
 * `handle_client`: admitting a connection (or refusing it when the server
 * is full), the welcome and the replay of recent history, handling each
 * line the connection sends, and tearing the connection down when its
 * stream ends or a reply to it fails.
 */
module Lifecycle {
  import opened Wrappers
  import opened Text
  import opened Bounded
  import opened Config
  import opened Identity
  import opened Registry
  import opened Commands

  /** The banner sent to every admitted connection, cut down to its
      title line: the coloured block-letter art around it is fixed text. */
  const Welcome: string := "\U{1B}[95m» \U{1B}[96mWELCOME TO \U{1B}[92mSUBNET BBS\U{1B}[95m — \U{1B}[94mREAL-TIME TERMINAL NODE\U{1B}[0m\n"

  /** The three writes that greet an admitted connection. */
  const Greeting: seq<string> := [
    Welcome + CRLF,
    "Register with /register <user> <pass> or /login <user> <pass>" + CRLF,
    "Set a temporary nick with /nick <name> (or login/register to use account name)" + CRLF
  ]

  /** One replayed history line: its `%H:%M:%S` time, then the text. */
  function EntryLine(x: Entry): string {
    Clock(x.at) + " " + x.line + CRLF
  }

  /** The writes of `send_history`: nothing for an empty history, else a
      header, the last five entries oldest first, and a footer. */
  function Replay(history: seq<Entry>): (r: seq<string>)
    ensures history == [] ==> r == []
    ensures history != [] ==>
              && |r| == |Last(history, ReplayCount)| + 2
              && r[0] == "--- LAST MESSAGES (last 5) ---" + CRLF
              && r[|r| - 1] == "--- END HISTORY ---" + CRLF
              && forall k :: 0 <= k < |r| - 2 ==> r[k + 1] == EntryLine(Last(history, ReplayCount)[k])
  {
    if history == [] then []
    else
      var recent := Last(history, ReplayCount);
      ["--- LAST MESSAGES (last 5) ---" + CRLF]
      + seq(|recent|, k requires 0 <= k < |recent| => EntryLine(recent[k]))
      + ["--- END HISTORY ---" + CRLF]
  }

  /** Several writes to one connection followed by one `drain()`: all of
      them arrive, or -- the connection being gone -- none does. */
  function WriteAll(s: State, down: set<Writer>, w: Writer, payloads: seq<string>): (r: State)
    ensures r.(sent := s.sent) == s
    ensures r.sent == if Delivers(s, down, w) then s.sent + WritesTo(w, payloads) else s.sent
  {
    if Delivers(s, down, w) then s.(sent := s.sent + WritesTo(w, payloads)) else s
  }

  /** The deliveries of `payloads` to `w`, in order. */
  function WritesTo(w: Writer, payloads: seq<string>): (r: seq<Delivery>)
    ensures |r| == |payloads|
    ensures forall k :: 0 <= k < |r| ==> r[k] == Delivery(w, payloads[k])
  {
    seq(|payloads|, k requires 0 <= k < |payloads| => Delivery(w, payloads[k]))
  }

  /** `send_history(writer)`: the replay, best effort; nothing else changes. */
  function SendHistory(s: State, down: set<Writer>, w: Writer): (r: State)
    ensures r.(sent := s.sent) == s
  {
    WriteAll(s, down, w, Replay(s.history))
  }

  /** A connection object the server has never seen. */
  predicate Fresh(s: State, w: Writer) {
    w !in s.sessions && w !in s.closed && w !in s.registry
  }

  /** A new client under the next id, registered last. */
  function Admit(s: State, w: Writer): (r: State)
    requires Wf(s) && Fresh(s, w)
    ensures Wf(r)
    ensures r.nextId == s.nextId + 1
    ensures |r.registry| == |s.registry| + 1 && r.registry[..|s.registry|] == s.registry && r.registry[|s.registry|] == w
    ensures r.sessions.Keys == s.sessions.Keys + {w} && forall x :: x in s.sessions ==> r.sessions[x] == s.sessions[x]
    ensures SafeNick(r.sessions[w]) == DefaultName(s.nextId) && r.sessions[w].floodCount == 0 && r.sessions[w].stamps == []
    ensures r.(nextId := s.nextId, registry := s.registry, sessions := s.sessions) == s
  {
    s.(nextId := s.nextId + 1, registry := s.registry + [w], sessions := s.sessions[w := NewClient(s.nextId)])
  }

  /** The greeting followed by the history replay; only writes change. */
  function Greet(s: State, down: set<Writer>, w: Writer): (r: State)
    ensures r.(sent := s.sent) == s
    ensures r.sent == if Delivers(s, down, w) then s.sent + WritesTo(w, Greeting) + WritesTo(w, Replay(s.history)) else s.sent
  {
    SendHistory(WriteAll(s, down, w, Greeting), down, w)
  }

  /**
   * The admission part of `handle_client`. A full server (200 registered
   * connections) says so and closes the connection without creating a
   * client. Otherwise the client gets the next id and is registered; if the
   * greeting cannot be written it is disconnected at once, else it is
   * greeted, shown the recent history, and its arrival is broadcast -- to
   * itself as well.
   */
  function Connect(s: State, down: set<Writer>, now: int, w: Writer): (r: State)
    requires Wf(s) && Fresh(s, w)
    ensures Wf(r)
  {
    if |s.registry| >= MaxClients then
      Send(s, down, w, "Server full, try again." + CRLF).(closed := s.closed + {w})
    else
      var s1 := Admit(s, w);
      if !Delivers(s1, down, w) then
        Disconnect(s1, down, now, w, "welcome-fail")
      else
        Broadcast(Greet(s1, down, w), down, now, "* " + SafeNick(s1.sessions[w]) + " joined", None)
  }

  /** The three branches of `Connect`, one at a time. */
  lemma ConnectRefused(s: State, down: set<Writer>, now: int, w: Writer)
    requires Wf(s) && Fresh(s, w) && |s.registry| >= MaxClients
    ensures Connect(s, down, now, w) == Send(s, down, w, "Server full, try again." + CRLF).(closed := s.closed + {w})
  {
  }

  lemma ConnectWelcomeFails(s: State, down: set<Writer>, now: int, w: Writer)
    requires Wf(s) && Fresh(s, w) && |s.registry| < MaxClients && w in down
    ensures Connect(s, down, now, w) == Disconnect(Admit(s, w), down, now, w, "welcome-fail")
  {
    assert !Delivers(Admit(s, w), down, w);
  }

  lemma ConnectWelcomed(s: State, down: set<Writer>, now: int, w: Writer)
    requires Wf(s) && Fresh(s, w) && |s.registry| < MaxClients && w !in down
    ensures Connect(s, down, now, w)
            == Broadcast(Greet(Admit(s, w), down, w), down, now, "* " + DefaultName(s.nextId) + " joined", None)
  {
    var s1 := Admit(s, w);
    assert Delivers(s1, down, w);
    assert s1.sessions[w] == NewClient(s.nextId);
  }

  /** One line read from the connection; a reply that could not be
      written ends the connection. */
  function Receive(s: State, w: Writer, raw: string, e: Env): (r: State)
    requires Wf(s) && w in s.sessions
    ensures Wf(r)
  {
    var ran := HandleLine(s, w, raw, e);
    if ran.raised then Disconnect(ran.st, e.down, e.now, w, "connection-closed") else ran.st
  }

  /** The connection's stream ended. */
  function Hangup(s: State, down: set<Writer>, now: int, w: Writer): (r: State)
    requires Wf(s)
    ensures Wf(r)
  {
    Disconnect(s, down, now, w, "connection-closed")
  }

  /** The server before any connection, over an existing account store. */
  function Initial(users: map<string, Credential>): (s: State)
    ensures Wf(s) && s.registry == [] && s.history == [] && s.nextId == 1
  {
    State(1, [], map[], {}, [], [], users, [])
  }

  /** What can happen next: a connection arrives, a connected client
      sends a line, or a connection's stream ends. */
  datatype Event =
    | Arrive(w: Writer, down: set<Writer>, now: int)
    | Line(w: Writer, raw: string, env: Env)
    | Close(w: Writer, down: set<Writer>, now: int)

  /**
   * The server together with the connections whose `handle_client` has
   * returned. A handler that is still reading keeps its client even once
   * that client is disconnected (by `/quit`, or by a failed write during
   * someone else's broadcast), so lines already buffered on it are still
   * handled.
   */
  datatype World = World(st: State, ended: set<Writer>)

  /** Whether `handle_client` for `w` is in its read loop. */
  predicate Serving(n: World, w: Writer) {
    w in n.st.sessions && w !in n.ended
  }

  /** Whether `handle_client` returns before its read loop: the server is
      full, or the greeting could not be written. */
  predicate Refused(s: State, down: set<Writer>, w: Writer)
    requires Wf(s) && Fresh(s, w)
  {
    |s.registry| >= MaxClients || !Delivers(Admit(s, w), down, w)
  }

  /**
   * One event. An arrival on a connection already seen cannot happen; a
   * line or an end of stream reaches the server only through a handler
   * still in its read loop, so on any other connection it changes nothing.
   * A handler returns when it refuses its connection, when a reply to its
   * client fails (after tearing the connection down), and at end of stream.
   */
  function Step(n: World, ev: Event): (r: World)
    requires Wf(n.st)
    ensures Wf(r.st) && n.ended <= r.ended
    ensures !ev.Arrive? && !Serving(n, ev.w) ==> r == n
    ensures ev.Arrive? && !Fresh(n.st, ev.w) ==> r == n
    ensures ev.Arrive? && Fresh(n.st, ev.w) ==>
              && r.st == Connect(n.st, ev.down, ev.now, ev.w)
              && (Refused(n.st, ev.down, ev.w) ==> ev.w in r.ended)
              && (!Refused(n.st, ev.down, ev.w) ==> Serving(r, ev.w) == (ev.w !in n.ended))
    ensures ev.Line? && Serving(n, ev.w) ==>
              && r.st == Receive(n.st, ev.w, ev.raw, ev.env)
              && (ev.w in r.ended <==> HandleLine(n.st, ev.w, ev.raw, ev.env).raised)
    ensures ev.Close? && Serving(n, ev.w) ==>
              r.st == Hangup(n.st, ev.down, ev.now, ev.w) && !Serving(r, ev.w)
  {
    match ev
    case Arrive(w, down, now) =>
      if !Fresh(n.st, w) then n
      else World(Connect(n.st, down, now, w), if Refused(n.st, down, w) then n.ended + {w} else n.ended)
    case Line(w, raw, env) =>
      if !Serving(n, w) then n
      else
        var ended := if HandleLine(n.st, w, raw, env).raised then n.ended + {w} else n.ended;
        World(Receive(n.st, w, raw, env), ended)
    case Close(w, down, now) =>
      if !Serving(n, w) then n else World(Hangup(n.st, down, now, w), n.ended + {w})
  }

  /** The events in order, each handled to completion before the next; a
      handler that has returned stays returned. */
  function Run(n: World, evs: seq<Event>): (r: World)
    requires Wf(n.st)
    ensures Wf(r.st) && n.ended <= r.ended
    decreases |evs|
  {
    if evs == [] then n else Run(Step(n, evs[0]), evs[1..])
  }
}
