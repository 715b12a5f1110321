/** The IP-to-username map under any sequence of registrations and removals. */
module Registry {
  import opened Wrappers

  type Users = map<string, string>

  datatype Operation = Create(ip: string, username: string) | Delete(ip: string)

  /** `Create` refuses a username in use and otherwise overwrites whatever the IP had; `Delete` ignores unknown IPs. */
  function Apply(users: Users, op: Operation): Users
  {
    match op
    case Create(ip, username) => if username in users.Values then users else users[ip := username]
    case Delete(ip) => users - {ip}
  }

  function ApplyAll(users: Users, ops: seq<Operation>): Users
    decreases |ops|
  {
    if ops == [] then users else ApplyAll(Apply(users, ops[0]), ops[1..])
  }

  function AfterAll(ops: seq<Operation>): Users
  {
    ApplyAll(map[], ops)
  }

  predicate Injective(users: Users)
  {
    forall ip, ip' | ip in users && ip' in users && users[ip] == users[ip'] :: ip == ip'
  }

  /** The lookup by IP. */
  function Found(users: Users, ip: string): Option<string>
  {
    if ip in users then Some(users[ip]) else None
  }

  /** What a scan of the map in any order may answer when asked for a username. */
  predicate FoundBy(users: Users, username: string, r: Option<string>)
  {
    match r
    case Some(ip) => ip in users && users[ip] == username
    case None => username !in users.Values
  }

  lemma {:induction false} StaysInjective(users: Users, ops: seq<Operation>)
    requires Injective(users)
    ensures Injective(ApplyAll(users, ops))
    decreases |ops|
  {
    if ops != [] {
      var users' := Apply(users, ops[0]);
      forall ip, ip' | ip in users' && ip' in users' && users'[ip] == users'[ip'] ensures ip == ip' {
        if ops[0].Create? && ops[0].username !in users.Values {
          assert forall k | k in users :: users[k] in users.Values;
        }
      }
      StaysInjective(users', ops[1..]);
    }
  }

  /**
   After any history of operations the answer to a username lookup does not
   depend on the order of the scan and is the exact inverse of the lookup by IP.
   */
  lemma LookupIsInverse(ops: seq<Operation>, username: string, r: Option<string>)
    requires FoundBy(AfterAll(ops), username, r)
    ensures forall r' | FoundBy(AfterAll(ops), username, r') :: r' == r
    ensures forall ip :: Found(AfterAll(ops), ip) == Some(username) <==> r == Some(ip)
  {
    StaysInjective(map[], ops);
    assert forall ip | ip in AfterAll(ops) :: AfterAll(ops)[ip] in AfterAll(ops).Values;
  }

  lemma {:induction false} ApplyLast(users: Users, ops: seq<Operation>)
    requires ops != []
    ensures ApplyAll(users, ops) == Apply(ApplyAll(users, ops[..|ops| - 1]), ops[|ops| - 1])
    decreases |ops|
  {
    if |ops| > 1 {
      ApplyLast(Apply(users, ops[0]), ops[1..]);
      assert ops[1..][..|ops| - 2] == ops[..|ops| - 1][1..];
    } else {
      assert ops[..0] == [] && ops[1..] == [];
    }
  }

  /** Operation `m` changes what the IP is registered as: a removal, or a registration that is not refused. */
  predicate Touches(ops: seq<Operation>, m: nat, ip: string)
    requires m < |ops|
  {
    ops[m].ip == ip && (ops[m].Create? ==> ops[m].username !in AfterAll(ops[..m]).Values)
  }

  /** Operation `k` registered the username for the IP, and nothing has touched the IP since. */
  ghost predicate Stands(ops: seq<Operation>, k: nat, ip: string, username: string)
  {
    && k < |ops| && ops[k] == Create(ip, username) && Touches(ops, k, ip)
    && forall m | k < m < |ops| :: !Touches(ops, m, ip)
  }

  lemma StandsLater(ops: seq<Operation>, k: nat, ip: string, username: string)
    requires ops != []
    ensures var n := |ops| - 1;
      Stands(ops, k, ip, username)
      <==> if Touches(ops, n, ip) then k == n && ops[n] == Create(ip, username) else Stands(ops[..n], k, ip, username)
  {
    var n := |ops| - 1;
    forall m: nat | m < n ensures Touches(ops, m, ip) == Touches(ops[..n], m, ip) {
      assert ops[..n][..m] == ops[..m];
    }
    hide Touches;
  }

  lemma {:induction false} HolderStands(ops: seq<Operation>, ip: string, username: string)
    ensures (ip in AfterAll(ops) && AfterAll(ops)[ip] == username) <==> exists k :: Stands(ops, k, ip, username)
    decreases |ops|
  {
    if ops != [] {
      var n := |ops| - 1;
      var before := ops[..n];
      HolderStands(before, ip, username);
      ApplyLast(map[], ops);
      forall k: nat ensures Stands(ops, k, ip, username)
        <==> if Touches(ops, n, ip) then k == n && ops[n] == Create(ip, username) else Stands(before, k, ip, username)
      {
        StandsLater(ops, k, ip, username);
      }
      hide Stands;
      if Touches(ops, n, ip) && ops[n] == Create(ip, username) {
        assert Stands(ops, n, ip, username);
      } else if !Touches(ops, n, ip) {
        if k: nat :| Stands(before, k, ip, username) {
          assert Stands(ops, k, ip, username);
        }
      }
    }
  }

  /**
   What `Read` answers after any history: the username of the last registration
   of that IP that was not refused, unless the IP was removed after it.
   */
  lemma ReadFindsLastRegistration(ops: seq<Operation>, ip: string, username: string)
    ensures Found(AfterAll(ops), ip) == Some(username) <==> exists k :: Stands(ops, k, ip, username)
  {
    HolderStands(ops, ip, username);
  }
}
