/** The functions of pkg/cluster/driver/libvirt/net.go over the file of used
    addresses, in place as the source has them.  Marshalling is taken to lose
    nothing, so the file is the value it stands for. */
module AddressFile {
  import opened Text
  import opened Addresses

  class HostData {
    var ips: set<Addr>
    var ports: set<uint16>

    constructor (info: HostInfo)
      ensures Value() == info
    {
      ips, ports := info.ips, info.ports;
    }

    function Value(): HostInfo
      reads this
    {
      HostInfo(ips, ports)
    }

    lemma Shows()
      ensures Value() == HostInfo(ips, ports)
    {
    }
  }

  class NetworkInformation {
    var hosts: map<string, HostData>
    var clusters: map<string, ClusterInfo>

    /** No two hosts share their data. */
    ghost predicate Valid()
      reads this
    {
      forall g, h | g in hosts && h in hosts && g != h :: hosts[g] != hosts[h]
    }

    function View(): Info
      reads this, hosts.Values
    {
      Info(map h | h in hosts :: hosts[h].Value(), clusters)
    }

    /** Parses the file. */
    constructor Load(stored: Info)
      ensures Valid() && View() == stored
      ensures fresh(hosts.Values)
    {
      hosts, clusters := map[], stored.clusters;
      new;
      var left := stored.hosts.Keys;
      while left != {}
        invariant left <= stored.hosts.Keys && hosts.Keys == stored.hosts.Keys - left
        invariant Valid() && fresh(hosts.Values) && clusters == stored.clusters
        invariant forall h | h in hosts :: hosts[h].Value() == stored.hosts[h]
        decreases left
      {
        var h :| h in left;
        var hd := new HostData(stored.hosts[h]);
        assert forall g | g in hosts :: hosts[g] in hosts.Values;
        hosts := hosts[h := hd];
        left := left - {h};
      }
    }

    /** Finds the data of a host, or makes it. */
    method GetHostData(host: string) returns (hd: HostData)
      requires Valid()
      modifies this`hosts
      ensures Valid() && host in hosts && hosts[host] == hd
      ensures View() == old(View()).(hosts := old(View()).hosts[host := HostOf(old(View()), host)])
      ensures hd in old(hosts.Values) || fresh(hd)
    {
      if host in hosts {
        hd := hosts[host];
      } else {
        hd := new HostData(HostInfo({}, {}));
        assert forall g | g in hosts :: hosts[g] in hosts.Values;
        hosts := hosts[host := hd];
      }
    }

    /** The part of addCluster that writes: loopback is not kept. */
    method Record(host: string, hd: HostData, name: string, ip: Addr, port: uint16)
      requires Valid() && host in hosts && hosts[host] == hd && name !in clusters
      modifies this`clusters, hd
      ensures View() == AddCluster(old(View()), host, name, ip, port).value
    {
      ghost var before := View();
      ShowsHosts();
      hide View, HostData.Value;
      if ip != LOOPBACK {
        hd.ips := hd.ips + {ip};
      }
      hd.ports := hd.ports + {port};
      clusters := clusters[name := ClusterInfo(host, ip, port)];
      hd.Shows();
      assert forall h | h in hosts && h != host :: hosts[h].Value() == before.hosts[h];
      ViewIs(before.hosts[host := HostInfo(hd.ips, hd.ports)]);
    }

    lemma ShowsHosts()
      ensures View().hosts.Keys == hosts.Keys && View().clusters == clusters
      ensures forall h | h in hosts :: hosts[h].Value() == View().hosts[h] == HostInfo(hosts[h].ips, hosts[h].ports)
    {
    }

    lemma ViewIs(shown: map<string, HostInfo>)
      requires shown.Keys == hosts.Keys && forall h | h in hosts :: hosts[h].Value() == shown[h]
      ensures View() == Info(shown, clusters)
    {
    }
  }

  class UsedAddresses {
    var stored: Info

    constructor ()
      ensures stored == EMPTY
    {
      stored := EMPTY;
    }

    /** Picks a port; only the copy in memory is marked. */
    method AllocatePort(host: string) returns (r: Option<uint16>)
      ensures LeastFreePort(HostOf(stored, host).ports, r)
    {
      var ni := new NetworkInformation.Load(stored);
      var hd := ni.GetHostData(host);
      assert hd.Value() == ni.View().hosts[host];
      ghost var used := hd.ports;
      var p := FIRST_PORT;
      while p < PORT_END
        invariant FIRST_PORT <= p <= PORT_END && hd.ports == used
        invariant forall q: uint16 | FIRST_PORT <= q < p :: q in used
      {
        if p in hd.ports {
          p := p + 1;
          continue;
        }
        hd.ports := hd.ports + {p};
        break;
      }
      if p == PORT_END {
        return None;
      }
      return Some(p);
    }

    /** Picks an address 200 or more above the gateway.  Addresses run to `space`
        and wrap; a subnet is a proper part of them. */
    method AllocateIP(host: string, gateway: nat, size: nat, space: nat) returns (r: Option<Addr>)
      requires 0 < size < space && space % size == 0 && gateway < space
      ensures LeastFreeIP(gateway, size, HostOf(stored, host).ips, r)
    {
      SubnetFits(gateway, size, space);
      var ip := gateway;
      for i := 0 to 200
        invariant ip == gateway + i && InSubnet(ip, gateway, size)
      {
        ip := Increment(ip, space);
        if !InSubnet(ip, gateway, size) {
          return None;
        }
      }
      var ni := new NetworkInformation.Load(stored);
      var hd := ni.GetHostData(host);
      assert hd.Value() == ni.View().hosts[host];
      r := PickIP(ip, gateway, size, space, hd);
    }

    method PickIP(start: nat, gateway: nat, size: nat, space: nat, hd: HostData) returns (r: Option<Addr>)
      requires 0 < size < space && gateway - gateway % size + size <= space
      requires start == gateway + 200 && InSubnet(start, gateway, size)
      modifies hd
      ensures LeastFreeIP(gateway, size, old(hd.ips), r)
    {
      var ip := start;
      ghost var reached := ip;  // ip, before any wrap-around
      while InSubnet(ip, gateway, size)
        invariant hd.ips == old(hd.ips)
        invariant start <= reached && (ip == reached || !InSubnet(ip, gateway, size))
        invariant InSubnet(ip, gateway, size) <==> InSubnet(reached, gateway, size)
        invariant forall b | start <= b < reached :: IP(b) in hd.ips
        decreases space - reached
      {
        if IP(ip) !in hd.ips {
          hd.ips := hd.ips + {IP(ip)};
          return Some(IP(ip));
        }
        ip := Increment(ip, space);
        reached := reached + 1;
      }
      return None;
    }

    method AddCluster(host: string, name: string, ip: Addr, port: uint16) returns (ok: bool)
      modifies this
      ensures ok <==> name !in old(stored).clusters
      ensures stored == Addresses.AddCluster(old(stored), host, name, ip, port).GetOr(old(stored))
    {
      var ni := new NetworkInformation.Load(stored);
      if name in ni.clusters {
        assert Addresses.AddCluster(stored, host, name, ip, port).None?;
        return false;
      }
      hide NetworkInformation.Valid, HostOf, Addresses.AddCluster;
      HostMade(stored, host, name, ip, port);
      var hd := ni.GetHostData(host);
      ni.Record(host, hd, name, ip, port);
      stored := ni.View();
      ok := true;
    }

    method RemoveCluster(name: string)
      modifies this
      ensures stored == Addresses.RemoveCluster(old(stored), name).GetOr(old(stored))
    {
      var ni := new NetworkInformation.Load(stored);
      if name !in ni.clusters {
        return;
      }
      var cluster := ni.clusters[name];
      if cluster.host !in ni.hosts {
        return;
      }
      var hd := ni.hosts[cluster.host];
      assert hd in ni.hosts.Values;
      assert hd.Value() == ni.View().hosts[cluster.host];
      hd.ips := hd.ips - {cluster.ip};
      hd.ports := hd.ports - {cluster.port};
      ni.clusters := ni.clusters - {name};
      stored := ni.View();
    }
  }

  /** Making the data of a host first makes no difference. */
  lemma HostMade(i: Info, host: string, name: string, ip: Addr, port: uint16)
    requires name !in i.clusters
    ensures Addresses.AddCluster(i, host, name, ip, port).Some?
    ensures Addresses.AddCluster(i.(hosts := i.hosts[host := HostOf(i, host)]), host, name, ip, port)
         == Addresses.AddCluster(i, host, name, ip, port)
  {
    var h := HostOf(i, host);
    var recorded := HostInfo(if ip == LOOPBACK then h.ips else h.ips + {ip}, h.ports + {port});
    assert i.hosts[host := h][host := recorded] == i.hosts[host := recorded];
  }

  function Increment(ip: nat, space: nat): nat { if ip + 1 == space then 0 else ip + 1 }

  lemma SubnetFits(gateway: nat, size: nat, space: nat)
    requires 0 < size < space && space % size == 0 && gateway < space
    ensures gateway - gateway % size + size <= space
  {
    var n, k := space / size, gateway / size;
    assert space == n * size && gateway == k * size + gateway % size;
    if k >= n {
      Monotone(n, k, size);
      assert false;
    }
    Monotone(k + 1, n, size);
  }

  lemma Monotone(a: nat, b: nat, factor: nat)
    requires a <= b
    ensures a * factor <= b * factor
  {
  }
}
