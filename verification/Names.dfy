/** Libvirt domain names (pkg/cluster/driver/libvirt/util.go) and counted
    resource names (pkg/util/bump.go). */
module Names {
  import opened Text

  datatype Role = ControlPlane | Worker

  function RoleName(r: Role): (s: string) {
    match r
    case ControlPlane => "control-plane"
    case Worker => "worker"
  }

  function DomainName(cluster: string, role: Role, num: nat): string {
    cluster + "-" + RoleName(role) + "-" + Digits(num)
  }

  // ---------- which domains belong to a cluster

  /** The domain is the cluster's name, a role and a number, dash-separated. */
  ghost predicate NodeOf(domain: string, cluster: string, role: Role, t: string) {
    && domain == cluster + "-" + RoleName(role) + "-" + t
    && Free(t, '-')
    && Atoi(t).Some?
  }

  ghost predicate BelongsTo(domain: string, cluster: string) {
    exists role, t :: NodeOf(domain, cluster, role, t)
  }

  function RoleParts(r: Role): seq<string> {
    match r
    case ControlPlane => ["control", "plane"]
    case Worker => ["worker"]
  }

  lemma SplitRoleName(r: Role)
    ensures Join(RoleParts(r), '-') == RoleName(r)
    ensures Split(RoleName(r), '-') == RoleParts(r)
  {
    hide Split, IndexOf;
    match r {
      case Worker => SplitFree("worker", '-');
      case ControlPlane =>
        assert "control-plane" == "control" + ['-'] + "plane";
        SplitFirst("control", "plane", '-');
        SplitFree("plane", '-');
    }
  }

  lemma NodeOfSplit(domain: string, cluster: string, role: Role, t: string)
    requires NodeOf(domain, cluster, role, t)
    ensures Split(domain, '-') == Split(cluster, '-') + RoleParts(role) + [t]
  {
    var prefix := cluster + "-" + RoleName(role);
    assert domain == prefix + ['-'] + t && prefix == cluster + ['-'] + RoleName(role);
    SplitAppend(prefix, t, '-');
    SplitAppend(cluster, RoleName(role), '-');
    SplitFree(t, '-');
    SplitRoleName(role);
  }

  lemma JoinThree(parts: seq<string>, role: Role, t: string)
    requires |parts| >= 1
    ensures Join(parts + RoleParts(role) + [t], '-') == Join(parts, '-') + "-" + RoleName(role) + "-" + t
  {
    SplitRoleName(role);
    JoinAppend(parts + RoleParts(role), [t], '-');
    JoinAppend(parts, RoleParts(role), '-');
  }

  /** A domain name determines its cluster, its role and its number's text. */
  lemma NodeOfUnique(d: string, c: string, r: Role, t: string, c': string, r': Role, t': string)
    requires NodeOf(d, c, r, t) && NodeOf(d, c', r', t')
    ensures c == c' && r == r' && t == t'
  {
    hide Split, Join, Atoi, Free;
    NodeOfSplit(d, c, r, t);
    NodeOfSplit(d, c', r', t');
    var split, a, a' := Split(d, '-'), Split(c, '-'), Split(c', '-');
    assert t == split[|split| - 1] == t';
    assert r == r' by {
      assert split[|split| - 2] == RoleParts(r)[|RoleParts(r)| - 1];
      assert split[|split| - 2] == RoleParts(r')[|RoleParts(r')| - 1];
      assert "plane"[0] != "worker"[0];
    }
    assert a == split[..|split| - 1 - |RoleParts(r)|] == a';
    JoinSplit(c, '-');
    JoinSplit(c', '-');
  }

  lemma NameIsNode(cluster: string, role: Role, num: nat)
    requires num < INT64_LIMIT
    ensures NodeOf(DomainName(cluster, role, num), cluster, role, Digits(num))
  {
    ParseDigits(num);
  }

  /** A generated name belongs to its own cluster and to no other, whatever
      dashes the cluster names hold. */
  lemma GeneratedNameBelongs(cluster: string, role: Role, num: nat, other: string)
    requires num < INT64_LIMIT
    ensures BelongsTo(DomainName(cluster, role, num), other) <==> cluster == other
  {
    NameIsNode(cluster, role, num);
    var d := DomainName(cluster, role, num);
    if BelongsTo(d, other) {
      var r, t :| NodeOf(d, other, r, t);
      NodeOfUnique(d, cluster, role, Digits(num), other, r, t);
    }
  }

  lemma DomainNameInjective(c: string, r: Role, n: nat, c': string, r': Role, n': nat)
    requires n < INT64_LIMIT && n' < INT64_LIMIT
    requires DomainName(c, r, n) == DomainName(c', r', n')
    ensures c == c' && r == r' && n == n'
  {
    NameIsNode(c, r, n);
    NameIsNode(c', r', n');
    NodeOfUnique(DomainName(c, r, n), c, r, Digits(n), c', r', Digits(n'));
    DigitsInjective(n, n');
  }

  function TrimSuffix(s: string, c: char): string {
    if s != "" && s[|s| - 1] == c then s[..|s| - 1] else s
  }

  method IsDomainFromCluster(domain: string, cluster: string) returns (r: bool)
    ensures r <==> BelongsTo(domain, cluster)
  {
    hide NumeralValue, Split, Join, BelongsTo, Atoi;
    var split := Split(domain, '-');
    var n := |split|;
    if n < 3 || Atoi(split[n - 1]).None? {
      NotANode(domain, cluster);
      return false;
    }
    var potential := "";
    if split[n - 2] == "worker" {
      potential := Rebuild(split, n - 2);
      assert split[n - 2..n - 1] == ["worker"];
      Recognised(domain, cluster, Worker);
    } else if n > 3 && split[n - 2] == "plane" && split[n - 3] == "control" {
      potential := Rebuild(split, n - 3);
      assert split[n - 3..n - 1] == ["control", "plane"];
      Recognised(domain, cluster, ControlPlane);
    } else {
      NotANode(domain, cluster);
      return false;
    }
    potential := TrimSuffix(potential, '-');
    r := cluster == potential;
  }

  /** The loops that put the cluster name together, each part with a dash. */
  method Rebuild(parts: seq<string>, count: nat) returns (potential: string)
    requires 0 < count <= |parts|
    ensures potential == Join(parts[..count], '-') + "-"
  {
    potential := "";
    for i := 0 to count
      invariant potential == if i == 0 then "" else Join(parts[..i], '-') + "-"
    {
      JoinSnoc(parts, i);
      potential := potential + parts[i] + "-";
    }
  }

  lemma Recognised(domain: string, cluster: string, role: Role)
    requires var s := Split(domain, '-'); var k := |s| - 1 - |RoleParts(role)|;
      k > 0 && s[k..|s| - 1] == RoleParts(role) && Atoi(s[|s| - 1]).Some?
    ensures var s := Split(domain, '-'); var k := |s| - 1 - |RoleParts(role)|;
      BelongsTo(domain, cluster) <==> cluster == Join(s[..k], '-')
  {
    hide Split, Join, Atoi, Free, IndexOf;
    var s := Split(domain, '-');
    var k := |s| - 1 - |RoleParts(role)|;
    var t := s[|s| - 1];
    var potential := Join(s[..k], '-');
    assert s == s[..k] + RoleParts(role) + [t];
    JoinSplit(domain, '-');
    PartsFree(domain, '-', |s| - 1);
    JoinThree(s[..k], role, t);
    assert NodeOf(domain, potential, role, t);
    if BelongsTo(domain, cluster) {
      var r', t' :| NodeOf(domain, cluster, r', t');
      NodeOfUnique(domain, cluster, r', t', potential, role, t);
    }
  }

  lemma JoinSnoc(parts: seq<string>, i: nat)
    requires i < |parts|
    ensures Join(parts[..i + 1], '-') == if i == 0 then parts[0] else Join(parts[..i], '-') + "-" + parts[i]
  {
    if i > 0 {
      assert parts[..i + 1] == parts[..i] + [parts[i]];
      JoinAppend(parts[..i], [parts[i]], '-');
    }
  }

  /** The shapes that are refused are no cluster's node. */
  lemma NotANode(domain: string, cluster: string)
    requires var s := Split(domain, '-');
      || |s| < 3
      || Atoi(s[|s| - 1]).None?
      || (s[|s| - 2] != "worker" && !(|s| > 3 && s[|s| - 2] == "plane" && s[|s| - 3] == "control"))
    ensures !BelongsTo(domain, cluster)
  {
    hide Split, Join, Atoi, Free, IndexOf;
    if BelongsTo(domain, cluster) {
      var r, t :| NodeOf(domain, cluster, r, t);
      NodeOfSplit(domain, cluster, r, t);
    }
  }

  // ---------- the delete loop

  ghost function NodesOf(domains: seq<string>, cluster: string): (r: seq<string>)
    ensures forall d :: d in r <==> d in domains && BelongsTo(d, cluster)
  {
    if domains == [] then []
    else
      var rest := NodesOf(domains[1..], cluster);
      if BelongsTo(domains[0], cluster) then [domains[0]] + rest else rest
  }

  lemma {:induction false} NodesOfAppend(a: seq<string>, b: seq<string>, cluster: string)
    ensures NodesOf(a + b, cluster) == NodesOf(a, cluster) + NodesOf(b, cluster)
  {
    if a == [] {
      assert a + b == b;
    } else {
      assert (a + b)[1..] == a[1..] + b;
      NodesOfAppend(a[1..], b, cluster);
    }
  }

  /** The loop of Delete.  `fails` tells for which domains removeNode fails;
      the loop stops at the first of them. */
  method RemoveNodes(domains: seq<string>, cluster: string, fails: string -> bool)
    returns (removed: seq<string>, ok: bool)
    ensures removed <= NodesOf(domains, cluster)
    ensures ok ==> removed == NodesOf(domains, cluster)
    ensures ok <==> forall d | d in domains && BelongsTo(d, cluster) :: !fails(d)
    ensures forall d | d in removed :: BelongsTo(d, cluster) && !fails(d)
  {
    hide BelongsTo;
    removed, ok := [], true;
    for i := 0 to |domains|
      invariant ok
      invariant removed == NodesOf(domains[..i], cluster)
      invariant forall d | d in domains[..i] && BelongsTo(d, cluster) :: !fails(d)
    {
      assert domains[..i + 1] == domains[..i] + [domains[i]];
      NodesOfAppend(domains[..i], [domains[i]], cluster);
      assert domains == domains[..i] + domains[i..];
      NodesOfAppend(domains[..i], domains[i..], cluster);
      var mine := IsDomainFromCluster(domains[i], cluster);
      if !mine {
        continue;
      }
      if fails(domains[i]) {
        return removed, false;
      }
      removed := removed + [domains[i]];
    }
    assert domains[..|domains|] == domains;
  }

  datatype Node = Node(cluster: string, role: Role, num: nat)

  /** Deleting a cluster among generated domains removes all and only the
      domains of its own nodes. */
  lemma DeleteOwnNodesOnly(nodes: seq<Node>, domains: seq<string>, cluster: string, i: nat)
    requires |domains| == |nodes| && i < |nodes|
    requires forall j | 0 <= j < |nodes| :: nodes[j].num < INT64_LIMIT
    requires forall j | 0 <= j < |nodes| :: domains[j] == DomainName(nodes[j].cluster, nodes[j].role, nodes[j].num)
    ensures domains[i] in NodesOf(domains, cluster) <==> nodes[i].cluster == cluster
  {
    GeneratedNameBelongs(nodes[i].cluster, nodes[i].role, nodes[i].num, cluster);
  }

  // ---------- counted names

  /** What follows the last delimiter. */
  function LastField(name: string, delim: char): (s: string)
    ensures |s| <= |name| && name[|name| - |s|..] == s && Free(s, delim)
    ensures |s| < |name| ==> name[|name| - |s| - 1] == delim
  {
    if Free(name, delim) then name else LastField(name[1..], delim)
  }

  lemma FieldsOf(name: string, delim: char)
    ensures var last := LastField(name, delim);
      if last == name then Split(name, delim) == [name]
      else |last| < |name| && Split(name, delim) == Split(name[..|name| - |last| - 1], delim) + [last]
  {
    hide Split, Free;
    var last := LastField(name, delim);
    SplitFree(last, delim);
    if |last| == |name| {
      assert last == name;
    } else {
      var front := name[..|name| - |last| - 1];
      assert name == front + [delim] + last;
      SplitAppend(front, last, delim);
    }
  }

  lemma LastFieldOf(prefix: string, last: string, delim: char)
    requires Free(last, delim) && (prefix == "" || prefix[|prefix| - 1] == delim)
    ensures LastField(prefix + last, delim) == last
  {
    var s := LastField(prefix + last, delim);
    var name := prefix + last;
    assert name[|name| - |last|..] == last;
  }

  function Succ64(n: nat): nat { if n + 1 == UINT64_LIMIT then 0 else n + 1 }

  /** The name after `name`: the number after the last delimiter plus one, in
      64-bit arithmetic, or a first number appended. */
  function NextName(name: string, delim: char): string {
    var last := LastField(name, delim);
    match ParseUint(last)
    case None => name + [delim] + "1"
    case Some(count) => name[..|name| - |last|] + Digits(Succ64(count))
  }

  method IncrementCount(name: string, delim: char) returns (next: string)
    ensures next == NextName(name, delim)
  {
    hide Split, Free, LastField, Digits, NumeralValue;
    var fields := Split(name, delim);
    FieldsOf(name, delim);
    ghost var last := LastField(name, delim);
    var idx := |fields| - 1;
    match ParseUint(fields[idx]) {
      case None =>
        JoinSplit(name, delim);
        JoinAppend(fields, ["1"], delim);
        fields := fields + ["1"];
      case Some(count) =>
        fields := fields[idx := Digits(Succ64(count))];
        if last != name {
          ghost var front := name[..|name| - |last| - 1];
          assert fields == Split(front, delim) + [Digits(Succ64(count))];
          JoinAppend(Split(front, delim), [Digits(Succ64(count))], delim);
          JoinSplit(front, delim);
          assert name[..|name| - |last|] == front + [delim];
        }
    }
    next := Join(fields, delim);
  }

  function NthName(name: string, delim: char, n: nat): string {
    if n == 0 then name else NextName(NthName(name, delim, n - 1), delim)
  }

  lemma CountedName(prefix: string, text: string, delim: char, count: nat)
    requires !IsDigit(delim) && ParseUint(text) == Some(count)
    requires prefix == "" || prefix[|prefix| - 1] == delim
    ensures NextName(prefix + text, delim) == prefix + Digits(Succ64(count))
  {
    LastFieldOf(prefix, text, delim);
    assert (prefix + text)[..|prefix|] == prefix;
  }

  /** The number after which counting starts, if the name has one. */
  function FirstCount(name: string, delim: char): nat { ParseUint(LastField(name, delim)).GetOr(0) }

  /** What stays in front of the numbers. */
  function Stem(name: string, delim: char): string {
    var last := LastField(name, delim);
    if ParseUint(last).None? then name + [delim] else name[..|name| - |last|]
  }

  lemma StemEnds(name: string, delim: char)
    ensures Stem(name, delim) == "" || Stem(name, delim)[|Stem(name, delim)| - 1] == delim
  {
  }

  /** In 64-bit arithmetic, wrap-around included. */
  lemma {:induction false} NthIs(name: string, delim: char, n: nat)
    requires !IsDigit(delim) && 0 < n
    ensures NthName(name, delim, n) == Stem(name, delim) + Digits((FirstCount(name, delim) + n) % UINT64_LIMIT)
  {
    hide Digits, NumeralValue, AllDigits, Free, LastField, ParseUint;
    var k, stem := FirstCount(name, delim), Stem(name, delim);
    StemEnds(name, delim);
    if n == 1 {
      var last := LastField(name, delim);
      assert NthName(name, delim, 0) == name;
      if ParseUint(last).None? {
        assert NthName(name, delim, 1) == stem + "1" && Digits(1) == "1" by { OneDigit(); }
      } else {
        CountInRange(last);
        SuccModulo(k);
      }
    } else {
      NthIs(name, delim, n - 1);
      var m := (k + n - 1) % UINT64_LIMIT;
      ParseDigits(m);
      CountedName(stem, Digits(m), delim, m);
      SuccModulo(k + n - 1);
    }
  }

  lemma OneDigit()
    ensures Digits(1) == "1"
  {
  }

  lemma CountInRange(text: string)
    ensures ParseUint(text).Some? ==> ParseUint(text).value < UINT64_LIMIT
  {
  }

  lemma SuccModulo(n: nat)
    ensures Succ64(n % UINT64_LIMIT) == (n + 1) % UINT64_LIMIT
  {
  }

  /** From a name numbered k (leading zeros allowed), n steps give k + n. */
  lemma NthFromNumber(prefix: string, text: string, delim: char, k: nat, n: nat)
    requires !IsDigit(delim) && ParseUint(text) == Some(k)
    requires prefix == "" || prefix[|prefix| - 1] == delim
    requires 0 < n && k + n < UINT64_LIMIT
    ensures NthName(prefix + text, delim, n) == prefix + Digits(k + n)
  {
    hide Digits, NumeralValue, AllDigits, Free, NthName, LastField, ParseUint;
    NumeralFree(text, delim);
    LastFieldOf(prefix, text, delim);
    NthIs(prefix + text, delim, n);
    assert (prefix + text)[..|prefix|] == prefix;
    Unwrapped(k + n);
  }

  lemma NumeralFree(text: string, delim: char)
    requires !IsDigit(delim) && ParseUint(text).Some?
    ensures Free(text, delim)
  {
  }

  lemma Unwrapped(n: nat)
    requires n < UINT64_LIMIT
    ensures n % UINT64_LIMIT == n
  {
  }

  /** From a name without a number, n steps give that name and "-n". */
  lemma NthFromPlain(name: string, delim: char, n: nat)
    requires !IsDigit(delim) && ParseUint(LastField(name, delim)).None?
    requires 0 < n < UINT64_LIMIT
    ensures NthName(name, delim, n) == name + [delim] + Digits(n)
  {
    hide Digits, NumeralValue, NthName, LastField;
    NthIs(name, delim, n);
  }

  /** Two counted names are the same exactly when their counts agree modulo 2^64, so
      no name comes twice within 2^64 steps. */
  lemma NamesRepeatExactly(name: string, delim: char, i: nat, j: nat)
    requires !IsDigit(delim) && 0 < i && 0 < j
    ensures NthName(name, delim, i) == NthName(name, delim, j) <==> i % UINT64_LIMIT == j % UINT64_LIMIT
  {
    hide Digits, NumeralValue, AllDigits, IsDigit, LastField, NthName, NextName, Free, Stem, FirstCount;
    var k := FirstCount(name, delim);
    NthIs(name, delim, i);
    NthIs(name, delim, j);
    SameModulo(k, i, j);
    if (k + i) % UINT64_LIMIT != (k + j) % UINT64_LIMIT {
      Different(Stem(name, delim), (k + i) % UINT64_LIMIT, (k + j) % UINT64_LIMIT);
    }
  }

  lemma SameModulo(k: nat, i: nat, j: nat)
    ensures (k + i) % UINT64_LIMIT == (k + j) % UINT64_LIMIT <==> i % UINT64_LIMIT == j % UINT64_LIMIT
  {
  }

  lemma Different(prefix: string, a: nat, b: nat)
    requires a != b
    ensures prefix + Digits(a) != prefix + Digits(b)
  {
    if prefix + Digits(a) == prefix + Digits(b) {
      assert Digits(a) == (prefix + Digits(a))[|prefix|..] == (prefix + Digits(b))[|prefix|..] == Digits(b);
      DigitsInjective(a, b);
    }
  }

  /** The bound is needed: the step at the limit starts again at zero, and the
      empty name, which the source's comment calls unmodified, becomes "-1". */
  lemma CountWraps()
    ensures NextName(Digits(UINT64_LIMIT - 1), '-') == "0"
    ensures NextName("", '-') == "-1"
  {
    hide Digits, NumeralValue;
    ParseDigits(UINT64_LIMIT - 1);
    var most := Digits(UINT64_LIMIT - 1);
    CountedName("", most, '-', UINT64_LIMIT - 1);
    assert "" + most == most;
    assert Digits(0) == "0" by { ZeroDigits(); }
    assert NextName("", '-') == "" + ['-'] + "1";
  }

  lemma ZeroDigits()
    ensures Digits(0) == "0"
  {
  }
}
