/**
 * Flood control for plain chat lines: each line's time goes into the
 * client's bounded window of timestamps, and a line counts as a flood when
 * the window holds at least `RateLimitPerSec` stamps and its OLDEST stamp
 * (up to `WindowSize` lines back) is less than a second old.
 */
module RateLimiter {
  import opened Bounded
  import opened Config
  import opened Identity

  /** The client after flood control has seen one chat line, and whether
      that line was a flood. */
  datatype Check = Check(client: Client, flooded: bool)

  function Throttle(c: Client, now: int): (r: Check)
    ensures r.client == c.(stamps := Push(c.stamps, now, WindowSize), floodCount := r.client.floodCount)
    ensures r.flooded <==> |r.client.stamps| >= RateLimitPerSec && now - r.client.stamps[0] < FloodSpan
    ensures r.flooded ==> r.client.floodCount == c.floodCount + 1
    ensures !r.flooded && |r.client.stamps| >= RateLimitPerSec ==> r.client.floodCount == 0
    ensures |r.client.stamps| < RateLimitPerSec ==> r.client.floodCount == c.floodCount
  {
    var stamps := Push(c.stamps, now, WindowSize);
    if |stamps| >= RateLimitPerSec then
      if now - stamps[0] < FloodSpan then
        Check(c.(stamps := stamps, floodCount := c.floodCount + 1), true)
      else
        Check(c.(stamps := stamps, floodCount := 0), false)
    else
      Check(c.(stamps := stamps), false)
  }

  /** The client after flood control has seen chat lines at `times`. */
  function ThrottleAll(c: Client, times: seq<int>): Client
    decreases times
  {
    if times == [] then c else ThrottleAll(Throttle(c, times[0]).client, times[1..])
  }

  /** Whatever was sent, a client's window holds the times of its latest
      `WindowSize` chat lines, oldest first. */
  lemma {:induction false} WindowHoldsLatest(c: Client, times: seq<int>)
    requires |c.stamps| <= WindowSize
    ensures ThrottleAll(c, times).stamps == Last(c.stamps + times, WindowSize)
    ensures |ThrottleAll(c, times).stamps| <= WindowSize
  {
    WindowFold(c, times);
    PushAllKeepsRecent(c.stamps, times, WindowSize);
  }

  /** ThrottleAll moves the window exactly as the deque would. */
  lemma {:induction false} WindowFold(c: Client, times: seq<int>)
    ensures ThrottleAll(c, times).stamps == PushAll(c.stamps, times, WindowSize)
    decreases times
  {
    if times != [] {
      WindowFold(Throttle(c, times[0]).client, times[1..]);
    }
  }

  /** Consecutive timestamps at least `gap` apart. */
  ghost predicate Spaced(stamps: seq<int>, gap: int) {
    forall k :: 0 < k < |stamps| ==> stamps[k] - stamps[k - 1] >= gap
  }

  lemma {:induction false} SpacedSpan(stamps: seq<int>, gap: int, k: nat)
    requires Spaced(stamps, gap) && gap >= 0 && k < |stamps|
    ensures stamps[k] - stamps[0] >= k * gap
  {
    if k > 0 {
      SpacedSpan(stamps, gap, k - 1);
    }
  }

  /**
   * A client whose retained chat lines are at least a quarter of a second
   * apart (so that any five of them span a second) is never flagged: once
   * it has enough lines for the check, its strikes go back to zero.
   */
  lemma SlowSenderPasses(c: Client, now: int)
    requires Spaced(Push(c.stamps, now, WindowSize), 250)
    ensures !Throttle(c, now).flooded
    ensures |Push(c.stamps, now, WindowSize)| >= RateLimitPerSec ==> Throttle(c, now).client.floodCount == 0
  {
    var w := Push(c.stamps, now, WindowSize);
    if |w| >= RateLimitPerSec {
      SpacedSpan(w, 250, |w| - 1);
    }
  }

  /** Five or more retained lines all sent within the last second are a flood. */
  lemma BurstIsFlagged(c: Client, now: int)
    requires |Push(c.stamps, now, WindowSize)| >= RateLimitPerSec
    requires forall t :: t in Push(c.stamps, now, WindowSize) ==> now - t < FloodSpan
    ensures Throttle(c, now).flooded
    ensures Throttle(c, now).client.floodCount == c.floodCount + 1
  {
    var w := Push(c.stamps, now, WindowSize);
    assert w[0] in w;
  }

  /**
   * The test looks at the oldest of up to ten stamps, not at the fifth most
   * recent: here the last five lines come within 400 ms, yet the line is
   * not a flood because the window still holds a line from 5.4 s before.
   */
  lemma OldestStampDecides()
    ensures var c := NewClient(1).(stamps := [0, 1000, 2000, 3000, 4000, 5000, 5100, 5200, 5300]);
            var w := Push(c.stamps, 5400, WindowSize);
            5400 - w[|w| - RateLimitPerSec] < FloodSpan && !Throttle(c, 5400).flooded
  {
  }
}
