/** The server's fixed limits and names. */
module Config {

  /** Connections beyond this many are refused. */
  const MaxClients: nat := 200

  /** Broadcast lines kept for replay. */
  const HistorySize: nat := 200

  /** Lines replayed to a newly joined connection. */
  const ReplayCount: nat := 5

  /** Chat lines per second before flood control looks at the window. */
  const RateLimitPerSec: nat := 5

  /** Timestamps kept per client: twice the per-second limit. */
  const WindowSize: nat := RateLimitPerSec * 2

  /** One second, in the millisecond ticks the model uses for time. */
  const FloodSpan: int := 1000

  /** Flood strikes that get a connection dropped. */
  const MaxStrikes: nat := 3

  /** A nickname is cut to this many characters. */
  const NickLength: nat := 32

  /** Names no one may take as a nickname or register, compared in lower case. */
  const BannedNicks: set<string> := {"admin", "root", "system", "moderator", "server"}
}
