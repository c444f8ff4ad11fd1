/** pkg/cluster/ignition/compare.go: order-insensitive comparison by greedy
    matching. */
module IgnitionCompare {
  import opened Text
  import opened IgnitionTypes

  // ---------- what the matchers decide

  /** The elements with a key, in order. */
  function WithKey<T>(s: seq<T>, key: T -> string, k: string): seq<T> {
    if s == [] then []
    else
      var n := |s| - 1;
      WithKey(s[..n], key, k) + if key(s[n]) == k then [s[n]] else []
  }

  /** Equally long, and for every key the elements with it are the same, in the
      same order. */
  ghost predicate SameByKey<T>(a: seq<T>, b: seq<T>, key: T -> string) {
    |a| == |b| && forall k :: WithKey(a, key, k) == WithKey(b, key, k)
  }

  // ---------- the matchers

  /** The elements with a key at positions not matched yet. */
  ghost function Unmatched<T>(b: seq<T>, matched: set<nat>, key: T -> string, k: string): seq<T> {
    if b == [] then []
    else
      var n := |b| - 1;
      Unmatched(b[..n], matched, key, k) + if n !in matched && key(b[n]) == k then [b[n]] else []
  }

  lemma {:induction false} UnmatchedFirst<T>(b: seq<T>, matched: set<nat>, key: T -> string, j: nat)
    requires j < |b| && j !in matched
    requires forall i | 0 <= i < j && key(b[i]) == key(b[j]) :: i in matched
    ensures forall k :: Unmatched(b, matched, key, k)
                     == (if k == key(b[j]) then [b[j]] else []) + Unmatched(b, matched + {j}, key, k)
  {
    var n := |b| - 1;
    if j < n {
      UnmatchedFirst(b[..n], matched, key, j);
    } else {
      forall k
        ensures Unmatched(b[..n], matched, key, k) == Unmatched(b[..n], matched + {j}, key, k)
        ensures k == key(b[j]) ==> Unmatched(b[..n], matched, key, k) == []
      {
        UnmatchedBelow(b[..n], matched, key, j, k);
      }
    }
  }

  lemma {:induction false} UnmatchedBelow<T>(b: seq<T>, matched: set<nat>, key: T -> string, j: nat, k: string)
    requires |b| <= j
    ensures Unmatched(b, matched, key, k) == Unmatched(b, matched + {j}, key, k)
    ensures (forall i | 0 <= i < |b| && key(b[i]) == k :: i in matched) ==> Unmatched(b, matched, key, k) == []
  {
    if b != [] {
      UnmatchedBelow(b[..|b| - 1], matched, key, j, k);
    }
  }

  lemma {:induction false} UnmatchedAll<T>(b: seq<T>, key: T -> string, k: string)
    ensures Unmatched(b, {}, key, k) == WithKey(b, key, k)
  {
    if b != [] {
      UnmatchedAll(b[..|b| - 1], key, k);
    }
  }

  lemma {:induction false} WithKeyAppend<T>(a: seq<T>, b: seq<T>, key: T -> string, k: string)
    ensures WithKey(a + b, key, k) == WithKey(a, key, k) + WithKey(b, key, k)
  {
    if b == [] {
      assert a + b == a;
    } else {
      var n := |b| - 1;
      assert (a + b)[..|a| + n] == a + b[..n];
      WithKeyAppend(a, b[..n], key, k);
    }
  }

  lemma {:induction false} SetBound(s: set<nat>, n: nat)
    requires forall i | i in s :: i < n
    ensures |s| <= n
  {
    if n == 0 {
      assert s == {};
    } else {
      SetBound(s - {n - 1}, n - 1);
    }
  }

  lemma FullSet(s: set<nat>, n: nat)
    requires (forall i | i in s :: i < n) && |s| == n
    ensures forall i: nat | i < n :: i in s
  {
    if i: nat :| i < n && i !in s {
      SetBound(s + {i}, n);
    }
  }

  /** The first i elements of a are matched. */
  ghost predicate Progress<T>(a: seq<T>, b: seq<T>, key: T -> string, i: nat, matched: set<nat>) {
    && i <= |a|
    && |matched| == i
    && (forall j | j in matched :: j < |b|)
    && forall k :: WithKey(b, key, k) == WithKey(a[..i], key, k) + Unmatched(b, matched, key, k)
  }

  lemma Start<T>(a: seq<T>, b: seq<T>, key: T -> string)
    ensures Progress(a, b, key, 0, {})
  {
    forall k
      ensures Unmatched(b, {}, key, k) == WithKey(b, key, k)
    {
      UnmatchedAll(b, key, k);
    }
  }

  lemma WithKeyOne<T>(x: T, key: T -> string, k: string)
    ensures WithKey([x], key, k) == if k == key(x) then [x] else []
  {
  }

  lemma NextElement<T>(a: seq<T>, i: nat, key: T -> string)
    requires i < |a|
    ensures forall k :: WithKey(a[..i + 1], key, k) == WithKey(a[..i], key, k) + if k == key(a[i]) then [a[i]] else []
    ensures WithKey(a[..i + 1], key, key(a[i])) <= WithKey(a, key, key(a[i]))
  {
    hide WithKey;
    assert a[..i + 1] == a[..i] + [a[i]];
    forall k
      ensures WithKey(a[..i + 1], key, k) == WithKey(a[..i], key, k) + if k == key(a[i]) then [a[i]] else []
    {
      WithKeyAppend(a[..i], [a[i]], key, k);
      WithKeyOne(a[i], key, k);
    }
    assert a == a[..i + 1] + a[i + 1..];
    WithKeyAppend(a[..i + 1], a[i + 1..], key, key(a[i]));
  }

  lemma Matching<T>(a: seq<T>, b: seq<T>, key: T -> string, i: nat, matched: set<nat>, j: nat)
    requires Progress(a, b, key, i, matched) && i < |a| && j < |b| && j !in matched && key(a[i]) == key(b[j])
    requires forall j' | 0 <= j' < j && key(b[j']) == key(b[j]) :: j' in matched
    ensures a[i] == b[j] ==> Progress(a, b, key, i + 1, matched + {j})
    ensures a[i] != b[j] ==> !SameByKey(a, b, key)
  {
    hide WithKey, Unmatched;
    var k0 := key(a[i]);
    UnmatchedFirst(b, matched, key, j);
    NextElement(a, i, key);
    var before := WithKey(a[..i], key, k0);
    assert WithKey(a, key, k0)[|before|] == a[i];
    assert WithKey(b, key, k0)[|before|] == b[j];
    if a[i] == b[j] {
      forall k
        ensures WithKey(b, key, k) == WithKey(a[..i + 1], key, k) + Unmatched(b, matched + {j}, key, k)
      {
      }
    }
  }

  lemma NotMatching<T>(a: seq<T>, b: seq<T>, key: T -> string, i: nat, matched: set<nat>)
    requires Progress(a, b, key, i, matched) && i < |a|
    requires forall j | 0 <= j < |b| && key(b[j]) == key(a[i]) :: j in matched
    ensures !SameByKey(a, b, key)
  {
    hide WithKey, Unmatched;
    NextElement(a, i, key);
    UnmatchedBelow(b, matched, key, |b|, key(a[i]));
    assert |WithKey(b, key, key(a[i]))| < |WithKey(a, key, key(a[i]))|;
  }

  lemma AllMatched<T>(a: seq<T>, b: seq<T>, key: T -> string, matched: set<nat>)
    requires Progress(a, b, key, |a|, matched) && |a| == |b|
    ensures SameByKey(a, b, key)
  {
    hide WithKey, Unmatched;
    assert a[..|a|] == a;
    FullSet(matched, |b|);
    forall k
      ensures WithKey(a, key, k) == WithKey(b, key, k)
    {
      UnmatchedBelow(b, matched, key, |b|, k);
    }
  }

  lemma LengthsDiffer<T>(a: seq<T>, b: seq<T>, key: T -> string)
    requires |a| != |b|
    ensures !SameByKey(a, b, key)
  {
  }

  /** The body the nine keyed matchers share. */
  method CompareKeyed<T(==)>(a: seq<T>, b: seq<T>, key: T -> string) returns (same: bool)
    ensures same <==> SameByKey(a, b, key)
  {
    hide Progress, SameByKey;
    if |a| != |b| {
      LengthsDiffer(a, b, key);
      return false;
    }
    var matchedB: set<nat> := {};
    Start(a, b, key);
    for i := 0 to |a|
      invariant Progress(a, b, key, i, matchedB)
    {
      var found := false;
      for j := 0 to |b|
        invariant !found && Progress(a, b, key, i, matchedB)
        invariant forall j' | 0 <= j' < j && key(b[j']) == key(a[i]) :: j' in matchedB
      {
        if j in matchedB {
          continue;
        }
        if key(a[i]) == key(b[j]) {
          Matching(a, b, key, i, matchedB, j);
          if a[i] != b[j] {
            return false;
          }
          matchedB := matchedB + {j};
          found := true;
          break;
        }
      }
      if !found {
        NotMatching(a, b, key, i, matchedB);
        return false;
      }
    }
    AllMatched(a, b, key, matchedB);
    same := true;
  }

  // ---------- lists without keys

  ghost function Rest<T>(b: seq<T>, matched: set<nat>): multiset<T> {
    if b == [] then multiset{}
    else
      var n := |b| - 1;
      Rest(b[..n], matched) + if n in matched then multiset{} else multiset{b[n]}
  }

  lemma {:induction false} RestWithout<T>(b: seq<T>, matched: set<nat>, j: nat)
    requires j !in matched
    ensures Rest(b, matched) == Rest(b, matched + {j}) + if j < |b| then multiset{b[j]} else multiset{}
  {
    if b != [] {
      var n := |b| - 1;
      RestWithout(b[..n], matched, j);
      var less := Rest(b[..n], matched + {j});
      if n == j {
        assert Rest(b[..n], matched) == less;
      } else {
        assert n in matched + {j} <==> n in matched;
      }
    }
  }

  lemma {:induction false} RestHas<T>(b: seq<T>, matched: set<nat>, x: T)
    ensures x in Rest(b, matched) <==> exists j :: 0 <= j < |b| && j !in matched && b[j] == x
  {
    if b != [] {
      var n := |b| - 1;
      RestHas(b[..n], matched, x);
      if n !in matched && b[n] == x {
        assert b[n] == x;
      }
      if x in Rest(b[..n], matched) {
        var j :| 0 <= j < n && j !in matched && b[..n][j] == x;
        assert b[j] == x;
      }
      if j :| 0 <= j < n && j !in matched && b[j] == x {
        assert b[..n][j] == x;
      }
    }
  }

  lemma {:induction false} RestAll<T>(b: seq<T>)
    ensures Rest(b, {}) == multiset(b)
  {
    if b != [] {
      var n := |b| - 1;
      RestAll(b[..n]);
      assert b == b[..n] + [b[n]];
    }
  }

  /** compareMergeAppend: the lists hold the same elements equally often. */
  method CompareMergeAppend<T(==)>(a: seq<T>, b: seq<T>) returns (same: bool)
    ensures same <==> multiset(a) == multiset(b)
  {
    hide Rest;
    if |a| != |b| {
      assert |multiset(a)| == |a| && |multiset(b)| == |b|;
      return false;
    }
    var matchedB: set<nat> := {};
    RestAll(b);
    for i := 0 to |a|
      invariant multiset(b) == multiset(a[..i]) + Rest(b, matchedB)
    {
      assert a[..i + 1] == a[..i] + [a[i]];
      assert a == a[..i + 1] + a[i + 1..];
      RestHas(b, matchedB, a[i]);
      var found := false;
      for j := 0 to |b|
        invariant !found && multiset(b) == multiset(a[..i]) + Rest(b, matchedB)
        invariant forall j' | 0 <= j' < j && j' !in matchedB :: b[j'] != a[i]
      {
        if j !in matchedB && a[i] == b[j] {
          RestWithout(b, matchedB, j);
          matchedB := matchedB + {j};
          found := true;
          break;
        }
      }
      if !found {
        RestHas(b, matchedB, a[i]);
        assert multiset(b)[a[i]] == multiset(a[..i])[a[i]] < multiset(a)[a[i]];
        return false;
      }
    }
    assert a[..|a|] == a;
    assert |multiset(b)| == |multiset(a)| + |Rest(b, matchedB)|;
    same := true;
  }

  // ---------- the whole comparison

  /** Units that share a name have the same dropins, name by name. */
  ghost predicate DropinsAgree(a: seq<Entry>, b: seq<Entry>) {
    forall i, j | 0 <= i < |a| && 0 <= j < |b| && a[i].key == b[j].key ::
      SameByKey(Items(a[i], DROPINS), Items(b[j], DROPINS), ItemKey)
  }

  /** A dropin is a name and contents, so comparing both compares all of it. */
  method CompareUnitDropins(a: seq<Entry>, b: seq<Entry>) returns (same: bool)
    ensures same <==> |a| == |b| && DropinsAgree(a, b)
  {
    hide SameByKey;
    if |a| != |b| {
      return false;
    }
    for i := 0 to |a|
      invariant DropinsAgree(a[..i], b)
    {
      for j := 0 to |b|
        invariant DropinsAgree([a[i]], b[..j])
      {
        if a[i].key == b[j].key {
          var ok := CompareKeyed(Items(a[i], DROPINS), Items(b[j], DROPINS), ItemKey);
          if !ok {
            return false;
          }
        }
        assert b[..j + 1] == b[..j] + [b[j]];
      }
      assert b[..|b|] == b;
      assert [a[i]][0] == a[i];
      assert a[..i + 1] == a[..i] + [a[i]];
    }
    assert a[..|a|] == a;
    same := true;
  }

  ghost predicate SameEntries(a: seq<Entry>, b: seq<Entry>) { SameByKey(a, b, EntryKey) }

  ghost predicate SameConfig(a: Config, b: Config) {
    && a.version == b.version
    && a.settings == b.settings && a.authorities == b.authorities
    && multiset(a.mergeRefs) == multiset(b.mergeRefs)
    && SameEntries(a.directories, b.directories) && SameEntries(a.files, b.files) && SameEntries(a.links, b.links)
    && SameEntries(a.disks, b.disks) && SameEntries(a.raid, b.raid) && SameEntries(a.filesystems, b.filesystems)
    && SameEntries(a.units, b.units) && DropinsAgree(a.units, b.units)
    && SameEntries(a.users, b.users) && SameEntries(a.groups, b.groups)
  }

  method CompareEntries(a: seq<Entry>, b: seq<Entry>) returns (same: bool)
    ensures same <==> SameEntries(a, b)
  {
    same := CompareKeyed(a, b, EntryKey);
  }

  method CompareStorage(a: Config, b: Config) returns (same: bool)
    ensures same <==>
      && SameEntries(a.directories, b.directories) && SameEntries(a.files, b.files) && SameEntries(a.links, b.links)
      && SameEntries(a.disks, b.disks) && SameEntries(a.raid, b.raid) && SameEntries(a.filesystems, b.filesystems)
  {
    hide SameEntries;
    same := CompareEntries(a.directories, b.directories);
    if !same { return false; }
    same := CompareEntries(a.files, b.files);
    if !same { return false; }
    same := CompareEntries(a.links, b.links);
    if !same { return false; }
    same := CompareEntries(a.disks, b.disks);
    if !same { return false; }
    same := CompareEntries(a.raid, b.raid);
    if !same { return false; }
    same := CompareEntries(a.filesystems, b.filesystems);
  }

  /** Compare; a missing configuration equals only a missing one. */
  method Compare(a: Option<Config>, b: Option<Config>) returns (same: bool)
    ensures same <==> (a.None? && b.None?) || (a.Some? && b.Some? && SameConfig(a.value, b.value))
  {
    hide SameEntries, DropinsAgree;
    if a.None? || b.None? {
      return a.None? && b.None?;
    }
    var x, y := a.value, b.value;
    if x.version != y.version || x.settings != y.settings || x.authorities != y.authorities {
      return false;
    }
    same := CompareMergeAppend(x.mergeRefs, y.mergeRefs);
    if !same { return false; }
    same := CompareStorage(x, y);
    if !same { return false; }
    same := CompareEntries(x.units, y.units);
    if !same { return false; }
    SameLength(x.units, y.units);
    same := CompareUnitDropins(x.units, y.units);
    if !same { return false; }
    same := CompareEntries(x.users, y.users);
    if !same { return false; }
    same := CompareEntries(x.groups, y.groups);
  }

  lemma SameLength(a: seq<Entry>, b: seq<Entry>)
    requires SameEntries(a, b)
    ensures |a| == |b|
  {
  }

  // ---------- laws

  ghost predicate DistinctKeys<T>(s: seq<T>, key: T -> string) {
    forall i, j | 0 <= i < |s| && 0 <= j < |s| && i != j :: key(s[i]) != key(s[j])
  }

  lemma {:induction false} Listed<T>(s: seq<T>, key: T -> string, i: nat)
    requires i < |s|
    ensures s[i] in WithKey(s, key, key(s[i]))
  {
    var n := |s| - 1;
    if i < n {
      Listed(s[..n], key, i);
    }
  }

  lemma {:induction false} ListedAt<T>(s: seq<T>, key: T -> string, k: string, j: nat) returns (i: nat)
    requires j < |WithKey(s, key, k)|
    ensures i < |s| && s[i] == WithKey(s, key, k)[j] && key(s[i]) == k
  {
    var n := |s| - 1;
    if j < |WithKey(s[..n], key, k)| {
      i := ListedAt(s[..n], key, k, j);
    } else {
      i := n;
    }
  }

  lemma {:induction false} ListedOnce<T>(s: seq<T>, key: T -> string, k: string)
    requires DistinctKeys(s, key)
    ensures |WithKey(s, key, k)| <= 1
  {
    if s != [] {
      var n := |s| - 1;
      ListedOnce(s[..n], key, k);
      if WithKey(s[..n], key, k) != [] {
        var i := ListedAt(s[..n], key, k, 0);
        assert key(s[i]) == k && i != n;
      }
    }
  }

  /** With distinct unit names the dropin comparison adds nothing. */
  lemma UnitsImplyDropins(a: seq<Entry>, b: seq<Entry>)
    requires DistinctKeys(a, EntryKey) && SameEntries(a, b)
    ensures DropinsAgree(a, b)
  {
    forall i, j | 0 <= i < |a| && 0 <= j < |b| && a[i].key == b[j].key
      ensures a[i] == b[j]
    {
      var k := a[i].key;
      Listed(a, EntryKey, i);
      Listed(b, EntryKey, j);
      ListedOnce(a, EntryKey, k);
      assert a[i] in WithKey(a, EntryKey, k) && b[j] in WithKey(a, EntryKey, k);
    }
  }

  /** Compare is reflexive exactly on configurations whose units of the same name
      have the same dropins; distinct names are enough. */
  lemma CompareReflexive(a: Config)
    ensures SameConfig(a, a) <==> DropinsAgree(a.units, a.units)
    ensures DistinctKeys(a.units, EntryKey) ==> SameConfig(a, a)
  {
    if DistinctKeys(a.units, EntryKey) {
      UnitsImplyDropins(a.units, a.units);
    }
  }

  lemma CompareSymmetric(a: Config, b: Config)
    requires SameConfig(a, b)
    ensures SameConfig(b, a)
  {
    hide WithKey;
    assert DropinsAgree(b.units, a.units) by {
      forall i, j | 0 <= i < |b.units| && 0 <= j < |a.units| && b.units[i].key == a.units[j].key
        ensures SameByKey(Items(b.units[i], DROPINS), Items(a.units[j], DROPINS), ItemKey)
      {
        assert SameByKey(Items(a.units[j], DROPINS), Items(b.units[i], DROPINS), ItemKey);
      }
    }
  }

  lemma CompareTransitive(a: Config, b: Config, c: Config)
    requires SameConfig(a, b) && SameConfig(b, c)
    ensures SameConfig(a, c)
  {
    hide WithKey;
    assert SameEntries(a.units, c.units);
    assert DropinsAgree(a.units, c.units) by {
      forall i, j | 0 <= i < |a.units| && 0 <= j < |c.units| && a.units[i].key == c.units[j].key
        ensures SameByKey(Items(a.units[i], DROPINS), Items(c.units[j], DROPINS), ItemKey)
      {
        SameKeys(a.units, b.units, i);
        var m :| 0 <= m < |b.units| && b.units[m].key == a.units[i].key;
        assert SameByKey(Items(a.units[i], DROPINS), Items(b.units[m], DROPINS), ItemKey);
        assert SameByKey(Items(b.units[m], DROPINS), Items(c.units[j], DROPINS), ItemKey);
      }
    }
  }

  lemma SameKeys(a: seq<Entry>, b: seq<Entry>, i: nat)
    requires SameEntries(a, b) && i < |a|
    ensures exists m :: 0 <= m < |b| && b[m].key == a[i].key
  {
    var k := a[i].key;
    Listed(a, EntryKey, i);
    var j :| 0 <= j < |WithKey(b, EntryKey, k)| && WithKey(b, EntryKey, k)[j] == a[i];
    var m := ListedAt(b, EntryKey, k, j);
  }

  /** The distinct names are needed: two units of one name with different dropins
      make a configuration that differs from itself. */
  lemma SharedNameBreaksReflexivity()
    ensures var unit := Entry("u", map[], map[]);
      var other := Entry("u", map[], map[DROPINS := [Item("d", map[])]]);
      !DropinsAgree([unit, other], [unit, other])
  {
    var unit := Entry("u", map[], map[]);
    var other := Entry("u", map[], map[DROPINS := [Item("d", map[])]]);
    assert [unit, other][0].key == [unit, other][1].key;
    assert !SameByKey(Items(unit, DROPINS), Items(other, DROPINS), ItemKey);
  }
}
