/** The record of ports and addresses in use on each libvirt host
    (pkg/cluster/driver/libvirt/net.go), as a value. */
module Addresses {
  import opened Text

  newtype uint16 = x: int | 0 <= x < 0x1_0000

  /** A numeric address by its value, anything else by its text. */
  datatype Addr = IP(value: nat) | Name(text: string)

  const LOOPBACK := IP(0x7F00_0001)
  const FIRST_PORT: uint16 := 6443
  const PORT_END: uint16 := 65535

  datatype HostInfo = HostInfo(ips: set<Addr>, ports: set<uint16>)
  datatype ClusterInfo = ClusterInfo(host: string, ip: Addr, port: uint16)
  datatype Info = Info(hosts: map<string, HostInfo>, clusters: map<string, ClusterInfo>)

  const EMPTY := Info(map[], map[])

  function HostOf(i: Info, host: string): HostInfo {
    if host in i.hosts then i.hosts[host] else HostInfo({}, {})
  }

  // ---------- what the operations do

  /** None when the cluster is already recorded. */
  function AddCluster(i: Info, host: string, name: string, ip: Addr, port: uint16): Option<Info> {
    if name in i.clusters then None
    else
      var h := HostOf(i, host);
      var h' := HostInfo(if ip == LOOPBACK then h.ips else h.ips + {ip}, h.ports + {port});
      Some(Info(i.hosts[host := h'], i.clusters[name := ClusterInfo(host, ip, port)]))
  }

  /** None when nothing is saved: an unknown cluster, or an unknown host. */
  function RemoveCluster(i: Info, name: string): Option<Info> {
    if name !in i.clusters || i.clusters[name].host !in i.hosts then None
    else
      var c := i.clusters[name];
      var h := i.hosts[c.host];
      Some(Info(i.hosts[c.host := HostInfo(h.ips - {c.ip}, h.ports - {c.port})], i.clusters - {name}))
  }

  /** What recording a cluster puts in the record: the cluster, its port and, but for
      loopback, its address; other clusters and hosts stay as they are. */
  lemma AddRecords(i: Info, host: string, name: string, ip: Addr, port: uint16)
    requires name !in i.clusters
    ensures var r := AddCluster(i, host, name, ip, port); r.Some? && Recorded(i, host, name, ip, port, r.value)
  {
  }

  ghost predicate Recorded(i: Info, host: string, name: string, ip: Addr, port: uint16, j: Info) {
    && j.clusters == i.clusters[name := ClusterInfo(host, ip, port)]
    && j.hosts.Keys == i.hosts.Keys + {host}
    && (forall h | h in i.hosts && h != host :: j.hosts[h] == i.hosts[h])
    && (forall p :: p in j.hosts[host].ports <==> p == port || (host in i.hosts && p in i.hosts[host].ports))
    && (forall a :: a in j.hosts[host].ips <==> (a == ip && ip != LOOPBACK) || (host in i.hosts && a in i.hosts[host].ips))
  }

  /** What removing one takes out: the cluster, and its port and address on its host. */
  lemma RemoveForgets(i: Info, name: string)
    requires name in i.clusters && i.clusters[name].host in i.hosts
    ensures var r := RemoveCluster(i, name); r.Some? && Forgotten(i, name, r.value)
  {
  }

  ghost predicate Forgotten(i: Info, name: string, j: Info)
    requires name in i.clusters
  {
    var c := i.clusters[name];
    && j.clusters == (map n | n in i.clusters && n != name :: i.clusters[n])
    && j.hosts.Keys == i.hosts.Keys && c.host in j.hosts
    && (forall h | h in i.hosts && h != c.host :: j.hosts[h] == i.hosts[h])
    && (forall p :: p in j.hosts[c.host].ports <==> p in i.hosts[c.host].ports && p != c.port)
    && (forall a :: a in j.hosts[c.host].ips <==> a in i.hosts[c.host].ips && a != c.ip)
  }

  /** `r` is the least port of the range not in `used`, None if there is none. */
  ghost predicate LeastFreePort(used: set<uint16>, r: Option<uint16>) {
    match r
    case Some(p) => FIRST_PORT <= p < PORT_END && p !in used && forall q: uint16 | FIRST_PORT <= q < p :: q in used
    case None => forall q: uint16 | FIRST_PORT <= q < PORT_END :: q in used
  }

  /** The gateway's subnet: a block of `size` addresses whose first is the
      gateway's address with the host part masked off. */
  predicate InSubnet(a: nat, gateway: nat, size: nat)
    requires size > 0
  {
    var base := gateway - gateway % size;
    base <= a < base + size
  }

  /** `r` is the least address 200 or more above the gateway, within its subnet,
      that is not in `used`; None if there is none. */
  ghost predicate LeastFreeIP(gateway: nat, size: nat, used: set<Addr>, r: Option<Addr>)
    requires size > 0
  {
    match r
    case Some(Name(_)) => false
    case Some(IP(a)) =>
      && gateway + 200 <= a && InSubnet(a, gateway, size) && IP(a) !in used
      && forall b | gateway + 200 <= b < a :: IP(b) in used
    case None => forall b | gateway + 200 <= b && InSubnet(b, gateway, size) :: IP(b) in used
  }

  // ---------- the representation invariant

  ghost function PortsOf(i: Info, host: string): set<uint16> {
    set n | n in i.clusters && i.clusters[n].host == host :: i.clusters[n].port
  }

  ghost function IPsOf(i: Info, host: string): set<Addr> {
    set n | n in i.clusters && i.clusters[n].host == host && i.clusters[n].ip != LOOPBACK :: i.clusters[n].ip
  }

  /** A host's used ports are exactly its recorded clusters' ports, and no two of
      them have the same one. */
  ghost predicate PortsExact(i: Info) {
    && (forall n | n in i.clusters :: i.clusters[n].host in i.hosts)
    && (forall h | h in i.hosts :: i.hosts[h].ports == PortsOf(i, h))
    && (forall m, n | m in i.clusters && n in i.clusters && m != n && i.clusters[m].host == i.clusters[n].host ::
          i.clusters[m].port != i.clusters[n].port)
  }

  ghost predicate IPsExact(i: Info) {
    && (forall h | h in i.hosts :: i.hosts[h].ips == IPsOf(i, h))
    && (forall m, n | m in i.clusters && n in i.clusters && m != n && i.clusters[m].host == i.clusters[n].host ::
          i.clusters[m].ip == i.clusters[n].ip ==> i.clusters[m].ip == LOOPBACK)
  }

  lemma AddKeepsPortsExact(i: Info, host: string, name: string, ip: Addr, port: uint16)
    requires PortsExact(i) && name !in i.clusters && port !in HostOf(i, host).ports
    ensures PortsExact(AddCluster(i, host, name, ip, port).value)
  {
    var j := AddCluster(i, host, name, ip, port).value;
    assert host !in i.hosts ==> PortsOf(i, host) == {};
    forall h | h in j.hosts
      ensures j.hosts[h].ports == PortsOf(j, h)
    {
      assert j.clusters[name].port in PortsOf(j, host);
      forall p | p in PortsOf(i, h)
        ensures p in PortsOf(j, h)
      {
        var n :| n in i.clusters && i.clusters[n].host == h && i.clusters[n].port == p;
        assert j.clusters[n] == i.clusters[n];
      }
    }
    forall m | m in i.clusters && i.clusters[m].host == host
      ensures i.clusters[m].port != port
    {
      assert i.clusters[m].port in PortsOf(i, host);
    }
  }

  /** Removal frees the cluster's port on its host, and no other. */
  lemma RemoveKeepsPortsExact(i: Info, name: string)
    requires PortsExact(i) && name in i.clusters
    ensures RemoveCluster(i, name).Some?
    ensures var j, c := RemoveCluster(i, name).value, i.clusters[name];
      && PortsExact(j)
      && j.clusters == i.clusters - {name}
      && c.port in i.hosts[c.host].ports
      && j.hosts.Keys == i.hosts.Keys
      && (forall h | h in i.hosts :: j.hosts[h].ports == if h == c.host then i.hosts[h].ports - {c.port} else i.hosts[h].ports)
  {
    var j, c := RemoveCluster(i, name).value, i.clusters[name];
    assert c.port in PortsOf(i, c.host);
    forall h | h in j.hosts
      ensures j.hosts[h].ports == PortsOf(j, h)
    {
      forall p | p in j.hosts[h].ports
        ensures p in PortsOf(j, h)
      {
        var n :| n in i.clusters && i.clusters[n].host == h && i.clusters[n].port == p;
        assert n in j.clusters;
      }
    }
  }

  // ---------- addresses

  lemma AddKeepsIPsExact(i: Info, host: string, name: string, ip: Addr, port: uint16)
    requires PortsExact(i) && IPsExact(i) && name !in i.clusters
    requires ip == LOOPBACK || ip !in HostOf(i, host).ips
    ensures IPsExact(AddCluster(i, host, name, ip, port).value)
  {
    var j := AddCluster(i, host, name, ip, port).value;
    assert host !in i.hosts ==> IPsOf(i, host) == {};
    forall h | h in j.hosts
      ensures j.hosts[h].ips == IPsOf(j, h)
    {
      assert ip != LOOPBACK ==> j.clusters[name].ip in IPsOf(j, host);
      forall a | a in IPsOf(i, h)
        ensures a in IPsOf(j, h)
      {
        var n :| n in i.clusters && i.clusters[n].host == h && i.clusters[n].ip == a;
        assert j.clusters[n] == i.clusters[n];
      }
    }
    forall m | m in i.clusters && i.clusters[m].host == host && i.clusters[m].ip != LOOPBACK
      ensures i.clusters[m].ip != ip
    {
      assert i.clusters[m].ip in IPsOf(i, host);
    }
  }

  /** And not otherwise: recording a cluster keeps the used addresses exact exactly
      when its address is loopback or free. */
  lemma AddKeepsIPsExactIff(i: Info, host: string, name: string, ip: Addr, port: uint16)
    requires PortsExact(i) && IPsExact(i) && name !in i.clusters
    ensures IPsExact(AddCluster(i, host, name, ip, port).value) <==> ip == LOOPBACK || ip !in HostOf(i, host).ips
  {
    if ip == LOOPBACK || ip !in HostOf(i, host).ips {
      AddKeepsIPsExact(i, host, name, ip, port);
    } else {
      var j := AddCluster(i, host, name, ip, port).value;
      var m :| m in i.clusters && i.clusters[m].host == host && i.clusters[m].ip == ip;
      assert j.clusters[m] == i.clusters[m] && j.clusters[name].ip == ip;
    }
  }

  lemma RemoveKeepsIPsExact(i: Info, name: string)
    requires PortsExact(i) && IPsExact(i) && name in i.clusters
    ensures var j, c := RemoveCluster(i, name).value, i.clusters[name];
      && IPsExact(j)
      && (forall h | h in i.hosts :: j.hosts[h].ips == if h == c.host then i.hosts[h].ips - {c.ip} else i.hosts[h].ips)
  {
    var j, c := RemoveCluster(i, name).value, i.clusters[name];
    forall h | h in j.hosts
      ensures j.hosts[h].ips == IPsOf(j, h)
    {
      assert LOOPBACK !in IPsOf(i, h);
      forall a | a in j.hosts[h].ips
        ensures a in IPsOf(j, h)
      {
        var n :| n in i.clusters && i.clusters[n].host == h && i.clusters[n].ip == a;
        assert n in j.clusters;
      }
    }
  }

  /** The gateway of a network, and the size of its subnet. */
  datatype Network = Network(gateway: nat, size: nat)

  /** The address of a cluster started by one process: loopback without bridge
      networking, the least free address of the network's subnet otherwise. */
  datatype Command =
    | Start(host: string, network: Network, name: string, ip: Addr, port: uint16)
    | FailedStart
    | Delete(name: string)

  ghost predicate CanRun(i: Info, c: Command) {
    match c
    case Start(host, network, _, ip, port) =>
      && (ip == LOOPBACK || (network.size > 0 && LeastFreeIP(network.gateway, network.size, HostOf(i, host).ips, Some(ip))))
      && LeastFreePort(HostOf(i, host).ports, Some(port))
    case _ => true
  }

  function After(i: Info, c: Command): Info {
    match c
    case Start(host, _, name, ip, port) => AddCluster(i, host, name, ip, port).GetOr(i)
    case FailedStart => i
    case Delete(name) => RemoveCluster(i, name).GetOr(i)
  }

  ghost predicate SequentialRun(i: Info, cs: seq<Command>, j: Info)
    decreases |cs|
  {
    if cs == [] then i == j
    else CanRun(i, cs[0]) && SequentialRun(After(i, cs[0]), cs[1..], j)
  }

  /** One process at a time, on any hosts and networks: used ports and used
      non-loopback addresses are exactly those of the recorded clusters. */
  lemma {:induction false} SequentialRunsAreExact(i: Info, cs: seq<Command>, j: Info)
    requires PortsExact(i) && IPsExact(i) && SequentialRun(i, cs, j)
    ensures PortsExact(j) && IPsExact(j)
    decreases |cs|
  {
    hide PortsExact, IPsExact, AddCluster, RemoveCluster;
    if cs != [] {
      match cs[0] {
        case Start(host, _, name, ip, port) =>
          if name !in i.clusters {
            AddKeepsPortsExact(i, host, name, ip, port);
            AddKeepsIPsExact(i, host, name, ip, port);
          }
          AddRefuses(i, host, name, ip, port);
        case FailedStart =>
        case Delete(name) =>
          if name in i.clusters {
            RemoveKeepsPortsExact(i, name);
            RemoveKeepsIPsExact(i, name);
          }
          RemoveRefuses(i, name);
      }
      SequentialRunsAreExact(After(i, cs[0]), cs[1..], j);
    }
  }

  lemma AddRefuses(i: Info, host: string, name: string, ip: Addr, port: uint16)
    ensures AddCluster(i, host, name, ip, port).None? <==> name in i.clusters
  {
  }

  lemma RemoveRefuses(i: Info, name: string)
    ensures name !in i.clusters ==> RemoveCluster(i, name).None?
  {
  }

  lemma EmptyIsExact()
    ensures PortsExact(EMPTY) && IPsExact(EMPTY)
  {
  }

  /** An address taken twice, by a virtual IP given by hand or by two processes
      that both look before either records, is free again when the first of the
      two clusters goes, although the second still has it. */
  lemma SharedIPFreedTooEarly(i: Info, host: string, a: string, b: string, ip: Addr, pa: uint16, pb: uint16)
    requires IPsExact(i) && a != b && a !in i.clusters && b !in i.clusters && ip != LOOPBACK
    ensures var one := AddCluster(i, host, a, ip, pa).value;
      var both := AddCluster(one, host, b, ip, pb).value;
      && !IPsExact(both)
      && RemoveCluster(both, a).Some?
      && var after := RemoveCluster(both, a).value;
         b in after.clusters && after.clusters[b] == ClusterInfo(host, ip, pb) && ip !in after.hosts[host].ips
  {
    var both := AddCluster(AddCluster(i, host, a, ip, pa).value, host, b, ip, pb).value;
    assert both.clusters[a].ip == both.clusters[b].ip && both.clusters[a].host == both.clusters[b].host;
  }
}
