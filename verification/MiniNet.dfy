/**
 Addresses of the simulated hosts: server n has the network 10.(n+1).0.0/16, and
 host i is the next address of server i mod S. An address is 16 bytes, big end
 first, and is increased in place with a carry.
 */
module MiniNet {

  import opened Arith
  import opened Geometric
  import opened Wrappers

  type Byte = x: int | 0 <= x < 256

  // ----- byte-wise increment

  function Number(b: seq<Byte>): nat {
    if b == [] then 0 else Number(b[..|b| - 1]) * 256 + b[|b| - 1]
  }

  /** The next address; all ones go to all zeros. */
  function Increased(b: seq<Byte>): (r: seq<Byte>)
    ensures |r| == |b|
  {
    if b == [] then []
    else
      var n := |b| - 1;
      if b[n] == 255 then Increased(b[..n]) + [0] else b[..n] + [b[n] + 1]
  }

  ghost predicate AllOnes(b: seq<Byte>) {
    forall i :: 0 <= i < |b| ==> b[i] == 255
  }

  lemma {:induction false} NumberBound(b: seq<Byte>)
    ensures Number(b) < Pow(256, |b|)
    ensures AllOnes(b) <==> Number(b) == Pow(256, |b|) - 1
  {
    if b != [] {
      var n := |b| - 1;
      NumberBound(b[..n]);
      assert AllOnes(b) <==> AllOnes(b[..n]) && b[n] == 255;
    }
  }

  lemma {:induction false} IncreasedNumber(b: seq<Byte>)
    ensures Number(Increased(b)) == if AllOnes(b) then 0 else Number(b) + 1
  {
    if b != [] {
      var n := |b| - 1;
      IncreasedNumber(b[..n]);
      assert AllOnes(b) <==> AllOnes(b[..n]) && b[n] == 255;
      assert Increased(b)[..n] == if b[n] == 255 then Increased(b[..n]) else b[..n];
    }
  }

  /** Addresses of one length are told apart by their numbers. */
  lemma {:induction false} NumberInjective(a: seq<Byte>, b: seq<Byte>)
    requires |a| == |b| && Number(a) == Number(b)
    ensures a == b
  {
    if a != [] {
      var n := |a| - 1;
      NumberInjective(a[..n], b[..n]);
      assert a == a[..n] + [a[n]] && b == b[..n] + [b[n]];
    }
  }

  /** How the increase looks byte by byte: zeros at the end, one more before them, the rest as it was. */
  lemma {:induction false} CarryTo(was: seq<Byte>, r: seq<Byte>, j: int)
    requires |r| == |was| && -1 <= j < |was|
    requires forall i :: j < i < |was| ==> was[i] == 255 && r[i] == 0
    requires j >= 0 ==> was[j] < 255 && r[j] == was[j] + 1
    requires forall i :: 0 <= i < j ==> r[i] == was[i]
    ensures r == Increased(was)
  {
    if was != [] {
      var n := |was| - 1;
      if j < n {
        CarryTo(was[..n], r[..n], j);
        assert r == r[..n] + [0];
      } else {
        assert r == was[..n] + [was[n] + 1];
      }
    }
  }

  method Increase(ip: array<Byte>)
    modifies ip
    ensures ip[..] == Increased(old(ip[..]))
  {
    var j := ip.Length - 1;
    ghost var was := ip[..];
    hide Increased;
    while j >= 0
      invariant -1 <= j < ip.Length
      invariant forall i :: 0 <= i <= j ==> ip[i] == was[i]
      invariant forall i :: j < i < ip.Length ==> was[i] == 255 && ip[i] == 0
    {
      ip[j] := (ip[j] as int + 1) % 256;
      if ip[j] > 0 {
        break;
      }
      j := j - 1;
    }
    CarryTo(was, ip[..], j);
  }

  // ----- the addresses

  /** The address 10.(n+1).0.1 with the prefix that marks four-byte addresses. */
  function FirstAddress(n: nat): (r: seq<Byte>)
    requires n < 255
    ensures |r| == 16
  {
    [0, 0, 0, 0, 0, 0, 0, 0, 0, 0, 255, 255, 10, n + 1, 0, 1]
  }

  /** The number of the network address of server n. */
  const PREFIX: nat := 0xffff_0a01_0000

  function Network(n: nat): nat {
    PREFIX + 0x1_0000 * n
  }

  lemma {:induction false} FirstNumber(n: nat)
    requires n < 255
    ensures Number(FirstAddress(n)) == Network(n) + 1
  {
    var a := FirstAddress(n);
    NumberStep(a, 15);
    NumberStep(a, 14);
    NumberStep(a, 13);
    NumberStep(a, 12);
    NumberStep(a, 11);
    NumberStep(a, 10);
    NumberZeros(a[..10]);
    assert a[..16] == a;
  }

  lemma {:induction false} NumberStep(a: seq<Byte>, k: nat)
    requires k < |a|
    ensures Number(a[..k + 1]) == Number(a[..k]) * 256 + a[k]
  {
    assert a[..k + 1][..k] == a[..k];
  }

  lemma {:induction false} NumberZeros(a: seq<Byte>)
    requires forall i :: 0 <= i < |a| ==> a[i] == 0
    ensures Number(a) == 0
  {
    if a != [] {
      NumberZeros(a[..|a| - 1]);
    }
  }

  // ----- how many hosts a server has

  /** Hosts of server n among the first `hosts`, as the list of servers states it. */
  function PerServer(hosts: nat, servers: nat, n: nat): nat
    requires n < servers
  {
    (hosts + servers - 1 - n) / servers
  }

  /** Host i comes after the i div S hosts that its server has already. */
  lemma {:induction false} HostPlace(i: nat, servers: nat)
    requires servers > 0
    ensures i % servers < servers && PerServer(i, servers, i % servers) == i / servers
  {
    var q, r := i / servers, i % servers;
    DivBounds(i, servers);
    DivUnique(i + servers - 1 - r, servers, q);
  }

  lemma {:induction false} NextHost(i: nat, servers: nat, n: nat)
    requires n < servers
    ensures PerServer(i + 1, servers, n) == PerServer(i, servers, n) + if i % servers == n then 1 else 0
  {
    DivBounds(i, servers);
    NextCount(i, servers, n, i / servers, i % servers);
  }

  lemma {:induction false} NextCount(i: nat, servers: nat, n: nat, q: nat, r: nat)
    requires n < servers && r < servers && i == servers * q + r
    ensures PerServer(i + 1, servers, n) == PerServer(i, servers, n) + if r == n then 1 else 0
  {
    Distribute(servers, q, 1);
    DivUnique(i + servers - 1 - n, servers, if n < r then q + 1 else q);
    DivUnique(i + servers - n, servers, if n <= r then q + 1 else q);
  }

  lemma {:induction false} NoHostsYet(servers: nat, n: nat)
    requires n < servers
    ensures PerServer(0, servers, n) == 0
  {
    DivUnique(servers - 1 - n, servers, 0);
  }

  function SumPerServer(hosts: nat, servers: nat, upTo: nat): nat
    requires upTo <= servers
  {
    if upTo == 0 then 0 else SumPerServer(hosts, servers, upTo - 1) + PerServer(hosts, servers, upTo - 1)
  }

  lemma {:induction false} SumNext(i: nat, servers: nat, upTo: nat)
    requires upTo <= servers && servers > 0
    ensures SumPerServer(i + 1, servers, upTo) == SumPerServer(i, servers, upTo) + if i % servers < upTo then 1 else 0
  {
    if upTo > 0 {
      SumNext(i, servers, upTo - 1);
      NextHost(i, servers, upTo - 1);
    }
  }

  lemma {:induction false} SumOfNone(servers: nat, upTo: nat)
    requires upTo <= servers
    ensures SumPerServer(0, servers, upTo) == 0
  {
    if upTo > 0 {
      SumOfNone(servers, upTo - 1);
      NoHostsYet(servers, upTo - 1);
    }
  }

  lemma {:induction false} SumOverAll(hosts: nat, servers: nat)
    requires servers > 0
    ensures SumPerServer(hosts, servers, servers) == hosts
  {
    if hosts == 0 {
      SumOfNone(servers, servers);
    } else {
      SumOverAll(hosts - 1, servers);
      SumNext(hosts - 1, servers, servers);
      DivBounds(hosts - 1, servers);
    }
  }

  /** The servers that are listed have all the hosts. */
  lemma {:induction false} ListedHaveAll(hosts: nat, servers: nat, listed: nat)
    requires servers > 0 && listed <= servers && (listed == servers || hosts <= listed)
    ensures SumPerServer(hosts, servers, listed) == hosts
    decreases servers - listed
  {
    if listed == servers {
      SumOverAll(hosts, servers);
    } else {
      ListedHaveAll(hosts, servers, listed + 1);
      DivUnique(hosts + servers - 1 - listed, servers, 0);
    }
  }

  // ----- the start script and the host list agree

  /** Some host of the list is number `number` on server n. */
  ghost predicate Assigned(hosts: nat, servers: nat, n: nat, number: int)
    requires n < servers
  {
    exists i: nat :: IsHost(i, hosts, servers, n, number)
  }

  predicate IsHost(i: nat, hosts: nat, servers: nat, n: nat, number: int)
    requires n < servers
  {
    i < hosts && i % servers == n && 2 + i / servers == number
  }

  /** The numbers that server n hands out to its h hosts: ipAdd(i + 1) for i in 1..h. */
  predicate StartedBy(h: nat, number: int) {
    1 <= number - 1 <= h
  }

  /** A server starts exactly the hosts that the host list names on its network. */
  lemma {:induction false} StartsItsHosts(hosts: nat, servers: nat, n: nat, number: int)
    requires n < servers
    ensures Assigned(hosts, servers, n, number) <==> StartedBy(PerServer(hosts, servers, n), number)
  {
    var h := PerServer(hosts, servers, n);
    DivBounds(hosts + servers - 1 - n, servers);
    if i: nat :| IsHost(i, hosts, servers, n, number) {
      DivBounds(i, servers);
      Distribute(servers, i / servers, 1);
      CancelLeft(servers, i / servers + 1, h);
    }
    if StartedBy(h, number) {
      var q := number - 2;
      var i := servers * q + n;
      DivUnique(i, servers, q);
      MulMonotone(servers, q + 1, h);
      Distribute(servers, q, 1);
      assert IsHost(i, hosts, servers, n, number);
    }
  }

  // ----- addresses that clash

  /** The number of the address of host i. */
  function HostNumber(i: nat, servers: nat): nat
    requires servers > 0
  {
    Network(i % servers) + 2 + i / servers
  }

  ghost predicate AllDistinct(hosts: nat, servers: nat)
    requires servers > 0
  {
    forall i: nat, j: nat :: i < j < hosts ==> HostNumber(i, servers) != HostNumber(j, servers)
  }

  lemma {:induction false} SameNumber(i: nat, j: nat, servers: nat)
    requires servers > 0 && HostNumber(i, servers) == HostNumber(j, servers)
    requires servers == 1 || (i < 0x1_0000 * servers && j < 0x1_0000 * servers)
    ensures i == j
  {
    Digits(i, servers);
    Digits(j, servers);
    var a, q, b, p := i % servers, i / servers, j % servers, j / servers;
    if servers > 1 {
      SameDigits(a, q, b, p);
    }
  }

  lemma {:induction false} Digits(i: nat, servers: nat)
    requires servers > 0
    ensures i == servers * (i / servers) + i % servers && 0 <= i % servers < servers && i / servers >= 0
    ensures i < 0x1_0000 * servers ==> i / servers < 0x1_0000
  {
    DivBounds(i, servers);
    if i < 0x1_0000 * servers {
      CancelLeft(servers, i / servers, 0xffff);
    }
  }

  lemma {:induction false} SameDigits(a: nat, b: nat, c: nat, d: nat)
    requires b < 0x1_0000 && d < 0x1_0000 && 0x1_0000 * a + b == 0x1_0000 * c + d
    ensures a == c && b == d
  {
  }

  /** No two hosts share an address if and only if there is one server or no server has more than 65536 hosts. */
  lemma {:induction false} DistinctIff(hosts: nat, servers: nat)
    requires servers > 0
    ensures AllDistinct(hosts, servers) <==> servers == 1 || hosts <= 0x1_0000 * servers
  {
    if servers == 1 || hosts <= 0x1_0000 * servers {
      forall i: nat, j: nat | i < j < hosts ensures HostNumber(i, servers) != HostNumber(j, servers) {
        if HostNumber(i, servers) == HostNumber(j, servers) {
          SameNumber(i, j, servers);
        }
      }
    } else {
      DivUnique(0x1_0000 * servers, servers, 0x1_0000);
      DivUnique(1, servers, 0);
      assert HostNumber(1, servers) == HostNumber(0x1_0000 * servers, servers);
    }
  }

  /** Host i is in the network of its server if and only if its number there fits in two bytes. */
  lemma {:induction false} InNetworkIff(i: nat, servers: nat)
    requires servers > 0
    ensures Network(i % servers) < HostNumber(i, servers) < Network(i % servers + 1) <==> i < 65534 * servers
  {
    DivBounds(i, servers);
    if i / servers < 65534 {
      MulMonotone(servers, i / servers + 1, 65534);
      Distribute(servers, i / servers, 1);
    } else {
      MulMonotone(servers, 65534, i / servers);
    }
  }

  // ----- the host list

  /** A line of the list: which server, whose network is the same number, and how many hosts. */
  datatype Line = Line(server: nat, hosts: nat)

  datatype HostList =
    | BadConfig
    | BadNetwork
    | Crash
    | HostList(hosts: seq<seq<Byte>>, list: seq<Line>)

  /** The largest value of a 64-bit int. */
  const MAX_INT: nat := 0x7fff_ffff_ffff_ffff

  ghost predicate Lists(r: HostList, servers: nat, hosts: nat) {
    && r.HostList?
    && |r.hosts| == hosts
    && (forall i :: 0 <= i < hosts ==> |r.hosts[i]| == 16)
    && (forall i :: 0 <= i < hosts ==> servers > 0 && Number(r.hosts[i]) == HostNumber(i, servers))
    && |r.list| == (if hosts < servers then hosts else servers)
    && (forall n :: 0 <= n < |r.list| ==> r.list[n] == Line(n, PerServer(hosts, servers, n)))
  }

  method MakeNetworks(servers: nat) returns (ips: seq<array<Byte>>)
    requires servers <= 255
    ensures |ips| == servers && (forall n :: 0 <= n < servers ==> fresh(ips[n]))
    ensures forall n, m :: 0 <= n < m < servers ==> ips[n] != ips[m]
    ensures forall n :: 0 <= n < servers ==> ips[n][..] == FirstAddress(n)
  {
    ips := [];
    while |ips| < servers
      invariant |ips| <= servers && (forall n :: 0 <= n < |ips| ==> fresh(ips[n]))
      invariant forall n, m :: 0 <= n < m < |ips| ==> ips[n] != ips[m]
      invariant forall n :: 0 <= n < |ips| ==> ips[n][..] == FirstAddress(n)
    {
      var a := FirstAddress(|ips|);
      var ip := new Byte[16](i requires 0 <= i < 16 => a[i]);
      assert ip[..] == a;
      ips := ips + [ip];
    }
  }

  /** Where the address of server n stands once i hosts have theirs. */
  ghost predicate Reached(b: seq<Byte>, i: nat, servers: nat, n: nat)
    requires n < servers
  {
    |b| == 16 && Number(b) == Network(n) + 1 + PerServer(i, servers, n)
  }

  lemma {:induction false} FourBytes(e: nat)
    ensures Pow(256, e + 4) == 0x1_0000_0000 * Pow(256, e)
  {
    assert Pow(256, e + 2) == 0x1_0000 * Pow(256, e);
    assert Pow(256, e + 4) == 0x1_0000 * Pow(256, e + 2);
  }

  lemma {:induction false} SixteenBytes()
    ensures Pow(256, 16) > 0x1_0000_0000_0000_0000
  {
    hide Pow;
    FourBytes(12);
    FourBytes(8);
    FourBytes(4);
    FourBytes(0);
    PowPositive(256, 0);
  }

  lemma {:induction false} PerServerAtMost(i: nat, servers: nat, n: nat)
    requires n < servers
    ensures PerServer(i, servers, n) <= i
  {
    DivBounds(i + servers - 1 - n, servers);
    if PerServer(i, servers, n) > i {
      MulMonotone(servers, i + 1, PerServer(i, servers, n));
      Distribute(servers, i, 1);
      MulMonotone(i, 1, servers);
    }
  }

  lemma {:induction false} NoOverflow(b: seq<Byte>, i: nat, servers: nat, n: nat)
    requires n < servers <= 255 && i <= MAX_INT && Reached(b, i, servers, n)
    ensures Number(Increased(b)) == Number(b) + 1
  {
    hide Pow, Number, Increased, AllOnes, PerServer;
    NumberBound(b);
    IncreasedNumber(b);
    SixteenBytes();
    PerServerAtMost(i, servers, n);
  }

  /** Gives the next host its address: only the address of its server moves on. */
  method NextAddress(ips: seq<array<Byte>>, i: nat, n: nat)
    requires 0 < |ips| <= 255 && i < MAX_INT && n == i % |ips|
    requires forall k, m :: 0 <= k < m < |ips| ==> ips[k] != ips[m]
    requires forall k :: 0 <= k < |ips| ==> Reached(ips[k][..], i, |ips|, k)
    modifies ips[n]
    ensures forall k :: 0 <= k < |ips| ==> Reached(ips[k][..], i + 1, |ips|, k)
    ensures ips[n].Length == 16 && Number(ips[n][..]) == HostNumber(i, |ips|)
  {
    hide Number, Increased, PerServer;
    NoOverflow(ips[n][..], i, |ips|, n);
    forall k | 0 <= k < |ips| ensures PerServer(i + 1, |ips|, k) == PerServer(i, |ips|, k) + if n == k then 1 else 0 {
      NextHost(i, |ips|, k);
    }
    HostPlace(i, |ips|);
    Increase(ips[n]);
  }

  method AssignHosts(ips: seq<array<Byte>>, nbrHosts: int) returns (hosts: seq<seq<Byte>>)
    requires nbrHosts <= MAX_INT && |ips| <= 255 && (nbrHosts > 0 ==> |ips| > 0)
    requires forall k, m :: 0 <= k < m < |ips| ==> ips[k] != ips[m]
    requires forall k :: 0 <= k < |ips| ==> Reached(ips[k][..], 0, |ips|, k)
    modifies set k | 0 <= k < |ips| :: ips[k]
    ensures |hosts| == if nbrHosts < 0 then 0 else nbrHosts
    ensures forall j :: 0 <= j < |hosts| ==> |hosts[j]| == 16 && Number(hosts[j]) == HostNumber(j, |ips|)
  {
    hide Number, Reached, HostNumber;
    hosts := [];
    var i := 0;
    while i < nbrHosts
      invariant i == |hosts| && (nbrHosts > 0 ==> i <= nbrHosts) && (nbrHosts <= 0 ==> i == 0)
      invariant forall k :: 0 <= k < |ips| ==> Reached(ips[k][..], i, |ips|, k)
      invariant forall j :: 0 <= j < i ==> |hosts[j]| == 16 && Number(hosts[j]) == HostNumber(j, |ips|)
    {
      var n := i % |ips|;
      NextAddress(ips, i, n);
      hosts := hosts + [ips[n][..]];
      i := i + 1;
    }
  }

  lemma {:induction false} StartsAtFirst(b: seq<Byte>, servers: nat, n: nat)
    requires n < servers <= 255 && b == FirstAddress(n)
    ensures Reached(b, 0, servers, n)
  {
    FirstNumber(n);
    NoHostsYet(servers, n);
  }

  method MakeList(nbrServers: nat, nbrHosts: int) returns (list: seq<Line>)
    ensures |list| == if nbrHosts < 0 then 0 else if nbrHosts < nbrServers then nbrHosts else nbrServers
    ensures forall n :: 0 <= n < |list| ==> list[n] == Line(n, PerServer(nbrHosts, nbrServers, n))
  {
    list := [];
    var i := 0;
    while i < nbrServers
      invariant 0 <= i == |list| <= nbrServers && (i > 0 ==> i <= nbrHosts)
      invariant forall n :: 0 <= n < i ==> list[n] == Line(n, PerServer(nbrHosts, nbrServers, n))
    {
      if i >= nbrHosts {
        break;
      }
      list := list + [Line(i, (nbrHosts + nbrServers - 1 - i) / nbrServers)];
      i := i + 1;
    }
  }

  /** How many servers are used: those asked for, but no more than there are. */
  function Used(servers: int, physicalServers: nat): int {
    if servers > physicalServers then physicalServers else servers
  }

  predicate CannotServe(used: int, hosts: Option<int>) {
    used < 0 || (used == 0 && hosts.Some? && hosts.value > 0)
  }

  /** The whole host list, with each way it can fail. */
  method GetHostList(physicalServers: nat, servers: Option<int>, hosts: Option<int>) returns (r: HostList)
    requires hosts.Some? ==> hosts.value <= MAX_INT
    ensures r.BadConfig? <==> servers.None? || (hosts.None? && 0 <= Used(servers.value, physicalServers) <= 255)
    ensures r.BadNetwork? <==> servers.Some? && Used(servers.value, physicalServers) > 255
    ensures r.Crash? <==> servers.Some? && CannotServe(Used(servers.value, physicalServers), hosts)
    ensures r.HostList? ==>
              Lists(r, Used(servers.value, physicalServers), if hosts.value < 0 then 0 else hosts.value)
  {
    if servers.None? {
      return BadConfig;
    }
    var nbrServers := servers.value;
    if nbrServers > physicalServers {
      nbrServers := physicalServers;
    }
    if nbrServers < 0 {
      return Crash;
    }
    if nbrServers > 255 {
      return BadNetwork;
    }
    var ips := MakeNetworks(nbrServers);
    if hosts.None? {
      return BadConfig;
    }
    var nbrHosts := hosts.value;
    if nbrHosts > 0 && nbrServers == 0 {
      return Crash;
    }
    hide Number, PerServer, HostNumber;
    forall k | 0 <= k < nbrServers ensures Reached(ips[k][..], 0, nbrServers, k) {
      StartsAtFirst(ips[k][..], nbrServers, k);
    }
    var addresses := AssignHosts(ips, nbrHosts);
    var list := MakeList(nbrServers, nbrHosts);
    r := HostList(addresses, list);
  }
}
