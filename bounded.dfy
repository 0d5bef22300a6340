/**
 * `collections.deque(maxlen=cap)`, the bounded queue behind both the
 * broadcast history and each client's window of message timestamps.
 */
module Bounded {

  /** The last `n` elements of `q`, in order (all of `q` when it is shorter). */
  function Last<T>(q: seq<T>, n: nat): (r: seq<T>)
    ensures |r| == if |q| < n then |q| else n
    ensures r == q[|q| - |r|..]
  {
    if |q| <= n then q else q[|q| - n..]
  }

  /**
   * `append(x)` on a deque with `maxlen=cap`: when the deque is full its
   * oldest element is dropped before `x` goes in at the end.
   */
  function Push<T>(q: seq<T>, x: T, cap: nat): (r: seq<T>)
    requires cap > 0
    ensures |r| <= cap && r != [] && r[|r| - 1] == x
    ensures r == Last(q + [x], cap)
  {
    if |q| < cap then q + [x] else q[|q| - cap + 1..] + [x]
  }

  /** Appending `xs` one after another. */
  function PushAll<T>(q: seq<T>, xs: seq<T>, cap: nat): seq<T>
    requires cap > 0
    decreases xs
  {
    if xs == [] then q else PushAll(Push(q, xs[0], cap), xs[1..], cap)
  }

  /** Keeping the last `cap` of a log and then pushing is the same as
      pushing onto the whole log and keeping its last `cap`. */
  lemma PushOntoLast<T>(log: seq<T>, x: T, cap: nat)
    requires cap > 0
    ensures Push(Last(log, cap), x, cap) == Last(log + [x], cap)
  {
    var l := Last(log, cap);
    assert Last(l + [x], cap) == Last(log + [x], cap) by {
      var n := |Last(log + [x], cap)|;
      assert (l + [x])[|l| + 1 - n..] == (log + [x])[|log| + 1 - n..];
    }
  }

  /**
   * However many elements are appended, the deque holds exactly the most
   * recent `cap` of everything it has seen, oldest first.
   */
  lemma {:induction false} PushAllKeepsRecent<T>(q: seq<T>, xs: seq<T>, cap: nat)
    requires cap > 0
    requires |q| <= cap
    ensures PushAll(q, xs, cap) == Last(q + xs, cap)
    decreases xs
  {
    if xs == [] {
      assert q + xs == q;
    } else {
      var x, rest := xs[0], xs[1..];
      assert q + xs == (q + [x]) + rest by { assert xs == [x] + rest; }
      PushAllKeepsRecent(Push(q, x, cap), rest, cap);
      LastOfLast(q + [x], rest, cap);
    }
  }

  /** Trimming a prefix to its last `n` elements does not change the last
      `n` elements of a longer sequence. */
  lemma LastOfLast<T>(a: seq<T>, b: seq<T>, n: nat)
    ensures Last(Last(a, n) + b, n) == Last(a + b, n)
  {
    if |a| > n {
      var ab := a + b;
      var l := a[|a| - n..];
      assert Last(a, n) == l;
      assert l + b == ab[|a| - n..];
      assert Last(l + b, n) == ab[|a| - n..][|b|..];
      assert ab[|a| - n..][|b|..] == ab[|ab| - n..];
    }
  }

  /** The last `m` of the last `n` are the last `m`, when `m <= n`. */
  lemma LastWithin<T>(q: seq<T>, n: nat, m: nat)
    requires m <= n
    ensures Last(Last(q, n), m) == Last(q, m)
  {
    var l := Last(q, n);
    if |q| > m {
      assert Last(l, m) == l[|l| - m..];
      assert l[|l| - m..] == q[|q| - m..];
    }
  }

  /** A prefix one longer is the prefix and the next element. */
  lemma PrefixSnoc<T>(q: seq<T>, i: nat)
    requires i < |q|
    ensures q[..i + 1] == q[..i] + [q[i]]
  {
  }

  /** Appending one element after a concatenation. */
  lemma SnocAssoc<T>(a: seq<T>, b: seq<T>, x: T)
    ensures (a + b) + [x] == a + (b + [x])
  {
  }
}
