/** The rotation over the configured relay servers. */
module RelayRotation {
  import opened Arith

  /** The server picked and the counter afterwards; short lists do not touch the counter. */
  function Pick(servers: seq<string>, counter: nat): (string, nat) {
    if |servers| == 0 then ("", counter)
    else if |servers| == 1 then (servers[0], counter)
    else (servers[(counter + 1) % |servers|], counter + 1)
  }

  class Rotation {
    var counter: nat

    constructor ()
      ensures counter == 0
    {
      counter := 0;
    }

    method GetRelayServer(servers: seq<string>) returns (server: string)
      modifies this
      ensures (server, counter) == Pick(servers, old(counter))
    {
      if |servers| == 0 {
        return "";
      } else if |servers| == 1 {
        return servers[0];
      }
      counter := counter + 1;
      var i := counter % |servers|;
      return servers[i];
    }
  }

  /** The servers that `calls` calls in a row return, each starting with the counter left by the one
      before. */
  function Served(servers: seq<string>, counter: nat, calls: nat): (r: seq<string>)
    ensures |r| == calls
    decreases calls
  {
    if calls == 0 then []
    else
      var (server, next) := Pick(servers, counter);
      [server] + Served(servers, next, calls - 1)
  }

  lemma {:induction false} ServedAt(servers: seq<string>, counter: nat, calls: nat, k: nat)
    requires |servers| >= 2 && k < calls
    ensures Served(servers, counter, calls)[k] == servers[(counter + 1 + k) % |servers|]
    decreases calls
  {
    if k == 0 {
    } else {
      ServedAt(servers, counter + 1, calls - 1, k - 1);
    }
  }

  /** As many calls in a row as there are servers go once through the list, from wherever the counter
      stands. */
  lemma RotationGoesRound(servers: seq<string>, counter: nat)
    requires |servers| >= 2
    ensures var start := (counter + 1) % |servers|;
            Served(servers, counter, |servers|) == servers[start..] + servers[..start]
  {
    var n := |servers|;
    var start := (counter + 1) % n;
    forall k: nat | k < n
      ensures Served(servers, counter, n)[k] == (servers[start..] + servers[..start])[k]
    {
      ServedAt(servers, counter, n, k);
      ModOfSum(counter + 1, k, n);
    }
  }

  /** So they return every server exactly once, repeated entries as often as they are listed. */
  lemma RotationIsFair(servers: seq<string>, counter: nat)
    ensures multiset(Served(servers, counter, |servers|)) == multiset(servers)
  {
    if |servers| == 0 {
    } else if |servers| == 1 {
      assert Served(servers, counter, 1) == [servers[0]] + Served(servers, counter, 0) == servers;
    } else {
      var start := (counter + 1) % |servers|;
      RotationGoesRound(servers, counter);
      assert servers == servers[..start] + servers[start..];
    }
  }

  /** Only lists with a choice move the counter, by one. */
  lemma PickMovesIff(servers: seq<string>, counter: nat)
    ensures Pick(servers, counter).1 == if |servers| >= 2 then counter + 1 else counter
    ensures servers == [] ==> Pick(servers, counter).0 == ""
  {
  }

  lemma ModOfSum(a: nat, k: nat, n: nat)
    requires 0 <= k < n
    ensures (a + k) % n == if a % n + k < n then a % n + k else a % n + k - n
  {
    var q, r := a / n, a % n;
    if r + k < n {
      DivModUnique(a + k, q, r + k, n);
    } else {
      assert a + k == (q + 1) * n + (r + k - n);
      DivModUnique(a + k, q + 1, r + k - n, n);
    }
  }
}
