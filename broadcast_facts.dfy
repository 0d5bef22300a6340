/**
 * What `broadcast` and `disconnect_writer` guarantee, proved by following
 * their mutual recursion: the registry only loses writers whose writes
 * failed, every writer it loses is closed and announced once, the history
 * stays the tail of everything broadcast, and writes are only ever added.
 */
module BroadcastFacts {
  import opened Wrappers
  import opened Bounded
  import opened Config
  import opened Identity
  import opened Registry

  /** Fields the recursion never touches, and the closed set growing by
      exactly the writers that left the registry. */
  ghost predicate Kept(s: State, r: State) {
    && r.nextId == s.nextId
    && r.users == s.users
    && (forall x :: x in r.closed <==> x in s.closed || (x in s.registry && x !in r.registry))
  }

  /** Every writer that left the registry was one whose writes fail. */
  ghost predicate OnlyDownLeft(s: State, r: State, down: set<Writer>) {
    forall x :: x in s.registry && x !in r.registry ==> x in down
  }

  lemma {:induction false} BroadcastKeeps(s: State, down: set<Writer>, now: int, msg: string, ex: Option<Writer>)
    requires Wf(s)
    ensures var r := Broadcast(s, down, now, msg, ex);
            && Kept(s, r)
            && OnlyDownLeft(s, r, down)
            && (ex.None? ==> forall x :: x in r.registry ==> x !in down)
    decreases |s.registry|, 2, 0
  {
    var e := Entry(now, msg);
    var s1 := s.(history := Push(s.history, e, HistorySize), log := s.log + [e],
                 sent := s.sent + Deliveries(Reached(s.registry, ex, down), msg + CRLF));
    DisconnectAllKeeps(s1, down, now, Failed(s.registry, ex, down), "write-error");
  }

  lemma {:induction false} DisconnectAllKeeps(s: State, down: set<Writer>, now: int, ws: seq<Writer>, reason: string)
    requires Wf(s)
    requires forall x :: x in ws ==> x in down
    ensures var r := DisconnectAll(s, down, now, ws, reason);
            && Kept(s, r)
            && OnlyDownLeft(s, r, down)
            && forall x :: x in ws ==> x !in r.registry
    decreases |s.registry|, 1, |ws|
  {
    if ws != [] {
      var s1 := Disconnect(s, down, now, ws[0], reason);
      DisconnectKeeps(s, down, now, ws[0], reason);
      DisconnectAllKeeps(s1, down, now, ws[1..], reason);
    }
  }

  lemma {:induction false} DisconnectKeeps(s: State, down: set<Writer>, now: int, w: Writer, reason: string)
    requires Wf(s)
    ensures var r := Disconnect(s, down, now, w, reason);
            && Kept(s, r)
            && (forall x :: x in s.registry && x !in r.registry ==> x in down || x == w)
            && w !in r.registry
    decreases |s.registry|, 0, 0
  {
    if w in s.registry {
      var s1 := Send(s, down, w, "Goodbye." + CRLF);
      var s2 := s1.(registry := Without(s.registry, w), closed := s.closed + {w});
      BroadcastKeeps(s2, down, now, Departure(SafeNick(s.sessions[w]), reason), None);
    }
  }

  ghost predicate IsPrefix<T>(a: seq<T>, b: seq<T>) {
    |a| <= |b| && b[..|a|] == a
  }

  lemma PrefixTransitive<T>(a: seq<T>, b: seq<T>, c: seq<T>)
    requires IsPrefix(a, b) && IsPrefix(b, c)
    ensures IsPrefix(a, c)
  {
    assert c[..|b|][..|a|] == c[..|a|];
  }

  lemma PrefixOfAppend<T>(a: seq<T>, b: seq<T>)
    ensures IsPrefix(a, a + b)
  {
    assert (a + b)[..|a|] == a;
  }

  /** The history is the tail of everything broadcast. */
  ghost predicate HistoryIsTail(s: State) {
    s.history == Last(s.log, HistorySize)
  }

  /**
   * A broadcast logs its own line first and then exactly one departure
   * line per writer the registry lost; the history stays the tail of the
   * log.
   */
  lemma {:induction false} BroadcastLogs(s: State, down: set<Writer>, now: int, msg: string, ex: Option<Writer>)
    requires Wf(s)
    ensures var r := Broadcast(s, down, now, msg, ex);
            && |r.log| == |s.log| + 1 + (|s.registry| - |r.registry|)
            && IsPrefix(s.log + [Entry(now, msg)], r.log)
            && (HistoryIsTail(s) ==> HistoryIsTail(r))
    decreases |s.registry|, 2, 0
  {
    var e := Entry(now, msg);
    var s1 := s.(history := Push(s.history, e, HistorySize), log := s.log + [e],
                 sent := s.sent + Deliveries(Reached(s.registry, ex, down), msg + CRLF));
    PushOntoLast(s.log, e, HistorySize);
    DisconnectAllLogs(s1, down, now, Failed(s.registry, ex, down), "write-error");
  }

  lemma {:induction false} DisconnectAllLogs(s: State, down: set<Writer>, now: int, ws: seq<Writer>, reason: string)
    requires Wf(s)
    ensures var r := DisconnectAll(s, down, now, ws, reason);
            && |r.log| == |s.log| + (|s.registry| - |r.registry|)
            && IsPrefix(s.log, r.log)
            && (HistoryIsTail(s) ==> HistoryIsTail(r))
    decreases |s.registry|, 1, |ws|
  {
    if ws != [] {
      var s1 := Disconnect(s, down, now, ws[0], reason);
      DisconnectLogs(s, down, now, ws[0], reason);
      DisconnectAllLogs(s1, down, now, ws[1..], reason);
      PrefixTransitive(s.log, s1.log, DisconnectAll(s, down, now, ws, reason).log);
    }
  }

  lemma {:induction false} DisconnectLogs(s: State, down: set<Writer>, now: int, w: Writer, reason: string)
    requires Wf(s)
    ensures var r := Disconnect(s, down, now, w, reason);
            && |r.log| == |s.log| + (|s.registry| - |r.registry|)
            && IsPrefix(s.log, r.log)
            && (HistoryIsTail(s) ==> HistoryIsTail(r))
    decreases |s.registry|, 0, 0
  {
    if w in s.registry {
      var s1 := Send(s, down, w, "Goodbye." + CRLF);
      var s2 := s1.(registry := Without(s.registry, w), closed := s.closed + {w});
      var d := Departure(SafeNick(s.sessions[w]), reason);
      BroadcastLogs(s2, down, now, d, None);
      PrefixTransitive(s.log, s.log + [Entry(now, d)], Disconnect(s, down, now, w, reason).log);
    }
  }

  /** A broadcast's first writes are its own line to each reachable
      writer of the snapshot, in registry order; nothing written before is
      ever lost. */
  lemma {:induction false} BroadcastWrites(s: State, down: set<Writer>, now: int, msg: string, ex: Option<Writer>)
    requires Wf(s)
    ensures IsPrefix(s.sent + Deliveries(Reached(s.registry, ex, down), msg + CRLF),
                     Broadcast(s, down, now, msg, ex).sent)
    decreases |s.registry|, 2, 0
  {
    var e := Entry(now, msg);
    var s1 := s.(history := Push(s.history, e, HistorySize), log := s.log + [e],
                 sent := s.sent + Deliveries(Reached(s.registry, ex, down), msg + CRLF));
    DisconnectAllWrites(s1, down, now, Failed(s.registry, ex, down), "write-error");
  }

  lemma {:induction false} DisconnectAllWrites(s: State, down: set<Writer>, now: int, ws: seq<Writer>, reason: string)
    requires Wf(s)
    ensures IsPrefix(s.sent, DisconnectAll(s, down, now, ws, reason).sent)
    decreases |s.registry|, 1, |ws|
  {
    if ws != [] {
      var s1 := Disconnect(s, down, now, ws[0], reason);
      DisconnectWrites(s, down, now, ws[0], reason);
      DisconnectAllWrites(s1, down, now, ws[1..], reason);
      PrefixTransitive(s.sent, s1.sent, DisconnectAll(s, down, now, ws, reason).sent);
    }
  }

  lemma {:induction false} DisconnectWrites(s: State, down: set<Writer>, now: int, w: Writer, reason: string)
    requires Wf(s)
    ensures IsPrefix(s.sent, Disconnect(s, down, now, w, reason).sent)
    decreases |s.registry|, 0, 0
  {
    if w in s.registry {
      var s1 := Send(s, down, w, "Goodbye." + CRLF);
      var s2 := s1.(registry := Without(s.registry, w), closed := s.closed + {w});
      var d := Departure(SafeNick(s.sessions[w]), reason);
      var r := Disconnect(s, down, now, w, reason);
      assert r == Broadcast(s2, down, now, d, None);
      var fanout := Deliveries(Reached(s2.registry, None, down), d + CRLF);
      BroadcastWrites(s2, down, now, d, None);
      PrefixOfAppend(s2.sent, fanout);
      PrefixTransitive(s2.sent, s2.sent + fanout, r.sent);
      assert IsPrefix(s.sent, s2.sent) by {
        PrefixOfAppend(s.sent, if Delivers(s, down, w) then [Delivery(w, "Goodbye." + CRLF)] else []);
      }
      PrefixTransitive(s.sent, s2.sent, r.sent);
    }
  }

  /** `disconnect_writer` on a writer that is not registered does nothing
      at all: no write, no broadcast, no change. */
  lemma DisconnectUnknown(s: State, down: set<Writer>, now: int, w: Writer, reason: string)
    requires Wf(s) && w !in s.registry
    ensures Disconnect(s, down, now, w, reason) == s
  {
  }

  /** Tearing a connection down twice is tearing it down once: the second
      call finds the writer gone and changes nothing. */
  lemma DisconnectIdempotent(s: State, down: set<Writer>, now: int, w: Writer, reason: string, reason2: string)
    requires Wf(s)
    ensures var r := Disconnect(s, down, now, w, reason);
            Disconnect(r, down, now, w, reason2) == r
  {
    DisconnectKeeps(s, down, now, w, reason);
  }

  /** How many times `d` occurs in `ds`. */
  function Count(ds: seq<Delivery>, d: Delivery): nat {
    if ds == [] then 0 else (if ds[0] == d then 1 else 0) + Count(ds[1..], d)
  }

  lemma {:induction false} DeliveredOnce(ws: seq<Writer>, payload: string, x: Writer)
    requires Distinct(ws)
    ensures Count(Deliveries(ws, payload), Delivery(x, payload)) == if x in ws then 1 else 0
  {
    if ws != [] {
      assert Deliveries(ws, payload)[1..] == Deliveries(ws[1..], payload);
      DeliveredOnce(ws[1..], payload, x);
    }
  }

  /** The fan-out of a broadcast writes its line exactly once to every
      registered writer but the excluded one whose write gets through, and
      to no one else. */
  lemma FanOutOnce(s: State, down: set<Writer>, msg: string, ex: Option<Writer>, x: Writer)
    requires Wf(s)
    ensures Count(Deliveries(Reached(s.registry, ex, down), msg + CRLF), Delivery(x, msg + CRLF))
            == if x in s.registry && Some(x) != ex && x !in down then 1 else 0
  {
    DeliveredOnce(Reached(s.registry, ex, down), msg + CRLF, x);
  }

  lemma {:induction false} ReachedAll(q: seq<Writer>, down: set<Writer>)
    requires forall x :: x in q ==> x !in down
    ensures Reached(q, None, down) == q
  {
    if q != [] {
      var init, w := q[..|q| - 1], q[|q| - 1];
      assert init + [w] == q;
      assert w !in down by { assert w in q; }
      ReachedAll(init, down);
      assert Reached(q, None, down) == Reached(init, None, down) + [w];
    }
  }

  lemma NoneFailed(q: seq<Writer>, ex: Option<Writer>, down: set<Writer>)
    requires forall x :: x in q && Some(x) != ex ==> x !in down
    ensures Failed(q, ex, down) == []
  {
  }

  /** When every write gets through, a broadcast only adds its line to the
      history and writes it to everyone but the excluded writer. */
  lemma QuietBroadcast(s: State, down: set<Writer>, now: int, msg: string, ex: Option<Writer>)
    requires Wf(s)
    requires forall x :: x in s.registry && Some(x) != ex ==> x !in down
    ensures Broadcast(s, down, now, msg, ex)
            == s.(history := Push(s.history, Entry(now, msg), HistorySize),
                  log := s.log + [Entry(now, msg)],
                  sent := s.sent + Deliveries(Reached(s.registry, ex, down), msg + CRLF))
  {
    NoneFailed(s.registry, ex, down);
  }

  /**
   * When no other write fails, disconnecting a registered writer removes
   * exactly that writer (the others keep their order), closes it, and
   * issues exactly one departure broadcast, which everyone left receives.
   */
  lemma QuietDisconnect(s: State, down: set<Writer>, now: int, w: Writer, reason: string)
    requires Wf(s) && w in s.registry
    requires forall x :: x in s.registry && x != w ==> x !in down
    ensures var d := Entry(now, Departure(SafeNick(s.sessions[w]), reason));
            var rest := Without(s.registry, w);
            Disconnect(s, down, now, w, reason)
            == s.(registry := rest, closed := s.closed + {w},
                  history := Push(s.history, d, HistorySize), log := s.log + [d],
                  sent := Send(s, down, w, "Goodbye." + CRLF).sent + Deliveries(rest, d.line + CRLF))
  {
    var rest := Without(s.registry, w);
    var d := Departure(SafeNick(s.sessions[w]), reason);
    var s1 := Send(s, down, w, "Goodbye." + CRLF);
    var s2 := s1.(registry := rest, closed := s.closed + {w});
    QuietBroadcast(s2, down, now, d, None);
    ReachedAll(rest, down);
  }

  /** Writing to one more writer adds one delivery at the end. */
  lemma DeliveriesSnoc(ws: seq<Writer>, w: Writer, payload: string)
    ensures Deliveries(ws + [w], payload) == Deliveries(ws, payload) + [Delivery(w, payload)]
  {
  }

  /** One more writer of the snapshot: one more delivery when its write gets
      through, one more dead writer when it fails. */
  lemma FanOutStep(done: seq<Writer>, w: Writer, ex: Option<Writer>, down: set<Writer>, payload: string)
    ensures Deliveries(Reached(done + [w], ex, down), payload)
            == Deliveries(Reached(done, ex, down), payload)
               + (if Some(w) != ex && w !in down then [Delivery(w, payload)] else [])
    ensures Failed(done + [w], ex, down)
            == Failed(done, ex, down) + (if Some(w) != ex && w in down then [w] else [])
  {
    assert (done + [w])[..|done|] == done;
    var before := Reached(done, ex, down);
    if Some(w) != ex && w !in down {
      DeliveriesSnoc(before, w, payload);
    } else {
      assert before + [] == before;
    }
  }

  /** `broadcast` is the history push and the fan-out, then the
      disconnection of the writers whose write failed. */
  lemma BroadcastUnfolds(s: State, down: set<Writer>, now: int, msg: string, ex: Option<Writer>)
    requires Wf(s)
    ensures var e := Entry(now, msg);
            var s1 := s.(history := Push(s.history, e, HistorySize), log := s.log + [e],
                         sent := s.sent + Deliveries(Reached(s.registry, ex, down), msg + CRLF));
            Wf(s1) && Broadcast(s, down, now, msg, ex) == DisconnectAll(s1, down, now, Failed(s.registry, ex, down), "write-error")
  {
  }
}
