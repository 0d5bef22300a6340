/**
 * What admission, the history replay and the read loop promise.
 */
module LifecycleFacts {
  import opened Wrappers
  import opened Text
  import opened Bounded
  import opened Config
  import opened Identity
  import opened Registry
  import opened BroadcastFacts
  import opened Commands
  import opened Lifecycle

  /** A full server refuses the connection: no client is created, the id
      counter does not move, and nothing but the refusal and the closing
      of that connection happens. */
  lemma FullServerRefuses(s: State, down: set<Writer>, now: int, w: Writer)
    requires Wf(s) && Fresh(s, w)
    requires |s.registry| >= MaxClients
    ensures var r := Connect(s, down, now, w);
            && r.nextId == s.nextId && r.registry == s.registry && r.sessions == s.sessions
            && r.history == s.history && r.log == s.log && r.users == s.users
            && r.closed == s.closed + {w}
            && r.sent == (if Delivers(s, down, w) then s.sent + [Delivery(w, "Server full, try again." + CRLF)] else s.sent)
  {
  }

  /** Below capacity the connection gets the next id and exactly one new
      registry entry; no other client is added. */
  lemma AdmissionAddsOne(s: State, down: set<Writer>, now: int, w: Writer)
    requires Wf(s) && Fresh(s, w)
    requires |s.registry| < MaxClients
    ensures var r := Connect(s, down, now, w);
            && r.nextId == s.nextId + 1
            && r.sessions == s.sessions[w := NewClient(s.nextId)]
            && (forall x :: x in r.registry ==> x in s.registry || x == w)
            && |r.registry| <= |s.registry| + 1
  {
    var s1 := Admit(s, w);
    assert s1.sessions == s.sessions[w := NewClient(s.nextId)];
    if w in down {
      ConnectWelcomeFails(s, down, now, w);
      DisconnectKeeps(s1, down, now, w, "welcome-fail");
    } else {
      ConnectWelcomed(s, down, now, w);
      BroadcastKeeps(Greet(s1, down, w), down, now, "* " + DefaultName(s.nextId) + " joined", None);
    }
  }

  /**
   * When no write fails, an admitted connection is registered last, is
   * sent the greeting and then the replay, and its arrival is then
   * broadcast to every registered client, itself included.
   */
  lemma QuietAdmission(s: State, down: set<Writer>, now: int, w: Writer)
    requires Wf(s) && Fresh(s, w)
    requires |s.registry| < MaxClients
    requires w !in down && forall x :: x in s.registry ==> x !in down
    ensures var r := Connect(s, down, now, w);
            var joined := "* " + DefaultName(s.nextId) + " joined";
            && r.registry == s.registry + [w]
            && r.log == s.log + [Entry(now, joined)]
            && r.history == Push(s.history, Entry(now, joined), HistorySize)
            && r.sent == s.sent + WritesTo(w, Greeting) + WritesTo(w, Replay(s.history))
                         + Deliveries(s.registry + [w], joined + CRLF)
  {
    var joined := "* " + DefaultName(s.nextId) + " joined";
    var s2 := Greet(Admit(s, w), down, w);
    ConnectWelcomed(s, down, now, w);
    assert s2.registry == s.registry + [w] && s2.history == s.history && s2.log == s.log;
    assert s2.sent == s.sent + WritesTo(w, Greeting) + WritesTo(w, Replay(s.history));
    QuietBroadcast(s2, down, now, joined, None);
    ReachedAll(s2.registry, down);
  }

  /** The replay shows the last five lines ever broadcast, oldest first,
      whenever the history is the tail of the broadcast log. */
  lemma ReplayIsRecent(s: State)
    requires HistoryIsTail(s)
    ensures Last(s.history, ReplayCount) == Last(s.log, ReplayCount)
    ensures s.log != [] ==>
              var r := Replay(s.history);
              && |r| == |Last(s.log, ReplayCount)| + 2
              && forall k :: 0 <= k < |r| - 2 ==> r[k + 1] == EntryLine(Last(s.log, ReplayCount)[k])
  {
    LastWithin(s.log, HistorySize, ReplayCount);
  }

  /** Replaying the history changes nothing but the writes. */
  lemma ReplayOnlyWrites(s: State, down: set<Writer>, w: Writer)
    ensures var r := SendHistory(s, down, w);
            && r.(sent := s.sent) == s
            && r.sent == (if Delivers(s, down, w) then s.sent + WritesTo(w, Replay(s.history)) else s.sent)
  {
  }

  /** A blank line from a connected client changes nothing. */
  lemma BlankLineChangesNothing(s: State, w: Writer, raw: string, e: Env)
    requires Wf(s) && w in s.sessions && AllSpace(raw)
    ensures Receive(s, w, raw, e) == s
  {
    StripBlank(raw);
  }

  /** A client whose reply cannot be written is disconnected: it is no
      longer registered after the line. */
  lemma FailedReplyEndsConnection(s: State, w: Writer, raw: string, e: Env)
    requires Wf(s) && w in s.sessions
    requires HandleLine(s, w, raw, e).raised
    ensures w !in Receive(s, w, raw, e).registry
  {
    var ran := HandleLine(s, w, raw, e);
    DisconnectKeeps(ran.st, e.down, e.now, w, "connection-closed");
  }

  /** Ending a connection twice is ending it once. */
  lemma HangupIdempotent(s: State, down: set<Writer>, now: int, w: Writer)
    requires Wf(s)
    ensures Hangup(Hangup(s, down, now, w), down, now, w) == Hangup(s, down, now, w)
  {
    DisconnectKeeps(s, down, now, w, "connection-closed");
  }
}
