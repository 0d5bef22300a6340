/**
 * The shared state of the server -- the registry of live connections, the
 * broadcast history, the account store -- and the two operations that
 * every other path goes through: `broadcast` and `disconnect_writer`.
 *
 * Sockets are replaced by a log of deliveries, and the outcome of every
 * write by an input: the set `down` of connections whose writes fail in
 * this step. A writer that has been closed never receives anything again.
 */
module Registry {
  import opened Wrappers
  import opened Text
  import opened Bounded
  import opened Config
  import opened Identity

  /** A connection's write end; the model names connections by number. */
  type Writer = nat

  /** One broadcast line with the time (ms) it was sent. */
  datatype Entry = Entry(at: int, line: string)

  /** One successful write: the text and the connection it went to. */
  datatype Delivery = Delivery(to: Writer, payload: string)

  /** An account's stored password verifier (salt and PBKDF2 hash). */
  datatype Credential = Credential(salt: string, hash: string)

  /**
   * `registry` lists the keys of the `clients` dictionary in insertion
   * order. `sessions` holds every `Client` ever accepted, by its writer:
   * a connection's handler keeps its record after the registry dropped it.
   * `log` is every broadcast ever made (the history is its tail), and
   * `sent` every write that reached its connection, in order.
   */
  datatype State = State(
    nextId: nat,
    registry: seq<Writer>,
    sessions: map<Writer, Client>,
    closed: set<Writer>,
    history: seq<Entry>,
    log: seq<Entry>,
    users: map<string, Credential>,
    sent: seq<Delivery>)

  const CRLF: string := "\r\n"

  predicate Distinct(q: seq<Writer>) {
    forall i, j :: 0 <= i < j < |q| ==> q[i] != q[j]
  }

  /** What broadcasting and disconnecting need: every registered writer
      has its client, and none is registered twice. */
  ghost predicate Wf(s: State) {
    && (forall w :: w in s.registry ==> w in s.sessions)
    && Distinct(s.registry)
  }

  /** The writer's entry taken out of the registry, the others kept in order. */
  function Without(q: seq<Writer>, w: Writer): (r: seq<Writer>)
    ensures forall x :: x in r <==> x in q && x != w
    ensures |r| <= |q|
    ensures Distinct(q) ==> Distinct(r)
    ensures Distinct(q) && w in q ==> |r| == |q| - 1
    ensures w !in q ==> r == q
  {
    if q == [] then []
    else if q[0] == w then
      assert Distinct(q) ==> w !in q[1..];
      Without(q[1..], w)
    else
      var rest := Without(q[1..], w);
      assert Distinct(q) ==> q[0] !in rest;
      [q[0]] + rest
  }

  /** Taking out the entry at `i` keeps every other entry in its order,
      as `dict.pop` keeps insertion order. */
  lemma WithoutKeepsOrder(q: seq<Writer>, w: Writer, i: nat)
    requires Distinct(q) && i < |q| && q[i] == w
    ensures Without(q, w) == q[..i] + q[i + 1..]
  {
    WithoutOnlyEntry(q, w, i);
  }

  lemma {:induction false} WithoutOnlyEntry(q: seq<Writer>, w: Writer, i: nat)
    requires i < |q| && q[i] == w
    requires forall j :: 0 <= j < |q| && j != i ==> q[j] != w
    ensures Without(q, w) == q[..i] + q[i + 1..]
  {
    var t := q[1..];
    if i == 0 {
      assert w !in t by {
        forall j | 0 <= j < |t| ensures t[j] != w { assert t[j] == q[j + 1]; }
      }
      assert q[..0] + q[1..] == t;
    } else {
      assert q[0] != w;
      assert forall j :: 0 <= j < |t| && j != i - 1 ==> t[j] != w by {
        forall j | 0 <= j < |t| && j != i - 1 ensures t[j] != w { assert t[j] == q[j + 1]; }
      }
      WithoutOnlyEntry(t, w, i - 1);
      ConsSlices(q, i);
    }
  }

  lemma ConsSlices<T>(q: seq<T>, i: nat)
    requires 0 < i < |q|
    ensures q[..i] + q[i + 1..] == [q[0]] + (q[1..][..i - 1] + q[1..][i..])
  {
    assert q[..i] == [q[0]] + q[1..][..i - 1];
    assert q[i + 1..] == q[1..][i..];
  }

  /** Whether a write to `w` gets through. */
  predicate Delivers(s: State, down: set<Writer>, w: Writer) {
    w !in down && w !in s.closed
  }

  /** One write to `w`: logged when it gets through, lost otherwise. */
  function Send(s: State, down: set<Writer>, w: Writer, payload: string): (r: State)
    ensures r.(sent := s.sent) == s
    ensures r.sent == if Delivers(s, down, w) then s.sent + [Delivery(w, payload)] else s.sent
  {
    if Delivers(s, down, w) then s.(sent := s.sent + [Delivery(w, payload)]) else s
  }

  /** The same text written to each of `ws`, in order. */
  function Deliveries(ws: seq<Writer>, payload: string): (r: seq<Delivery>)
    ensures |r| == |ws|
    ensures forall i :: 0 <= i < |ws| ==> r[i] == Delivery(ws[i], payload)
  {
    seq(|ws|, i requires 0 <= i < |ws| => Delivery(ws[i], payload))
  }

  /** Writers of a broadcast snapshot that are not excluded and whose
      write gets through, in snapshot order. */
  function Reached(q: seq<Writer>, ex: Option<Writer>, down: set<Writer>): (r: seq<Writer>)
    ensures forall x :: x in r <==> x in q && Some(x) != ex && x !in down
    ensures Distinct(q) ==> Distinct(r)
  {
    if q == [] then []
    else
      var w := q[|q| - 1];
      var init := Reached(q[..|q| - 1], ex, down);
      assert Distinct(q) ==> w !in q[..|q| - 1];
      init + (if Some(w) != ex && w !in down then [w] else [])
  }

  /** Writers of a broadcast snapshot that are not excluded and whose
      write fails, in snapshot order: the `dead` list of `broadcast`. */
  function Failed(q: seq<Writer>, ex: Option<Writer>, down: set<Writer>): (r: seq<Writer>)
    ensures forall x :: x in r <==> x in q && Some(x) != ex && x in down
  {
    if q == [] then []
    else
      var w := q[|q| - 1];
      Failed(q[..|q| - 1], ex, down) + (if Some(w) != ex && w in down then [w] else [])
  }

  /** What every step of the broadcast/disconnect recursion keeps: the
      clients are untouched and the registry only loses writers. */
  ghost predicate Shrinks(s: State, r: State) {
    && Wf(r)
    && r.sessions == s.sessions
    && |r.registry| <= |s.registry|
    && (forall x :: x in r.registry ==> x in s.registry)
  }

  /**
   * `broadcast(message, exclude_writer)`: the line goes into the history,
   * is written to every registered writer but the excluded one, and every
   * writer whose write failed is then disconnected with reason
   * `write-error` -- which broadcasts again, on a registry one shorter.
   */
  function Broadcast(s: State, down: set<Writer>, now: int, msg: string, ex: Option<Writer>): (r: State)
    requires Wf(s)
    ensures Shrinks(s, r)
    decreases |s.registry|, 2, 0
  {
    var e := Entry(now, msg);
    var fanout := Deliveries(Reached(s.registry, ex, down), msg + CRLF);
    var s1 := s.(history := Push(s.history, e, HistorySize), log := s.log + [e], sent := s.sent + fanout);
    DisconnectAll(s1, down, now, Failed(s.registry, ex, down), "write-error")
  }

  /** Disconnecting each of `ws` in turn (`for d in dead: disconnect_writer(d)`). */
  function DisconnectAll(s: State, down: set<Writer>, now: int, ws: seq<Writer>, reason: string): (r: State)
    requires Wf(s)
    ensures Shrinks(s, r)
    decreases |s.registry|, 1, |ws|
  {
    if ws == [] then s
    else DisconnectAll(Disconnect(s, down, now, ws[0], reason), down, now, ws[1..], reason)
  }

  /**
   * `disconnect_writer(writer, reason)`: nothing for a writer that is not
   * registered; otherwise a best-effort "Goodbye.", the writer is closed and
   * dropped from the registry, and its departure is broadcast under the name
   * it had.
   */
  function Disconnect(s: State, down: set<Writer>, now: int, w: Writer, reason: string): (r: State)
    requires Wf(s)
    ensures Shrinks(s, r)
    decreases |s.registry|, 0, 0
  {
    if w !in s.registry then s
    else
      var who := SafeNick(s.sessions[w]);
      var s1 := Send(s, down, w, "Goodbye." + CRLF);
      var s2 := s1.(registry := Without(s.registry, w), closed := s.closed + {w});
      Broadcast(s2, down, now, Departure(who, reason), None)
  }

  /** The line announcing that `who` left, and why. */
  function Departure(who: string, reason: string): string {
    "* " + who + " disconnected (" + reason + ")"
  }
}
