/**
 * One connection's identity: the `Client` record and the name it is shown
 * under.
 */
module Identity {
  import opened Wrappers
  import opened Text
  import opened Config

  /**
   * A connected client. `id` comes from the server's connection counter;
   * `nick` is the temporary nickname and `authUser` the account logged in;
   * `stamps` are the times (in ms) of its latest chat lines.
   */
  datatype Client = Client(
    id: nat,
    nick: Option<string>,
    authUser: Option<string>,
    avatar: Option<string>,
    floodCount: nat,
    stamps: seq<int>)

  /** The name of a client that chose none. */
  function DefaultName(id: nat): (name: string)
    ensures |name| > 4 && name[..4] == "User"
  {
    "User" + Decimal(id)
  }

  /** The state of a client when its connection is accepted. */
  function NewClient(id: nat): (c: Client)
    ensures c.id == id && !Truthy(c.nick) && !Truthy(c.authUser) && !Truthy(c.avatar)
    ensures c.floodCount == 0 && c.stamps == []
  {
    Client(id, None, None, None, 0, [])
  }

  /**
   * The name a client is shown under: its account when logged in, else its
   * nickname, else `User<id>`.
   */
  function SafeNick(c: Client): (name: string)
    ensures name != []
    ensures name == DefaultName(c.id) || Some(name) == c.authUser || Some(name) == c.nick
  {
    if Truthy(c.authUser) then c.authUser.value
    else if Truthy(c.nick) then c.nick.value
    else DefaultName(c.id)
  }

  /** Whether a name is one of the banned names, ignoring case. */
  predicate IsBanned(name: string) {
    Lower(name) in BannedNicks
  }

  /** The display name follows the identity state machine: the account
      wins over the nickname, and a client with neither shows its id. */
  lemma SafeNickPriority(c: Client)
    ensures Truthy(c.authUser) ==> SafeNick(c) == c.authUser.value
    ensures !Truthy(c.authUser) && Truthy(c.nick) ==> SafeNick(c) == c.nick.value
    ensures !Truthy(c.authUser) && !Truthy(c.nick) ==> SafeNick(c) == DefaultName(c.id)
  {
  }

  /** Two connections with different ids never share a default name. */
  lemma DefaultNamesDistinct(a: nat, b: nat)
    requires a != b
    ensures DefaultName(a) != DefaultName(b)
  {
    if DefaultName(a) == DefaultName(b) {
      assert Decimal(a) == DefaultName(a)[4..];
      DecimalInjective(a, b);
    }
  }

  /** A default name is never a banned one. */
  lemma DefaultNameNotBanned(id: nat)
    ensures !IsBanned(DefaultName(id))
  {
    var l := Lower(DefaultName(id));
    assert l[0] == 'u';
  }
}
