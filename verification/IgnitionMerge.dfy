/** Merging of Ignition configurations
    (vendor/github.com/coreos/ignition/v2/config/merge/merge.go): scalars of the
    child win, list elements with the same key are merged, others are appended. */
module IgnitionMerge {
  import opened Text
  import opened IgnitionTypes
  import opened IgnitionCompare

  // ---------- lists and keys

  function Keys<T>(s: seq<T>, key: T -> string): set<string> {
    set i | 0 <= i < |s| :: key(s[i])
  }

  /** The last element with a key. */
  function Find<T>(s: seq<T>, key: T -> string, k: string): Option<T> {
    if s == [] then None
    else
      var later := Find(s[1..], key, k);
      if later.Some? then later else if key(s[0]) == k then Some(s[0]) else None
  }

  /** slices.DeleteFunc for a set of keys. */
  function Without<T>(s: seq<T>, key: T -> string, gone: set<string>): seq<T> {
    if s == [] then []
    else (if key(s[0]) in gone then [] else [s[0]]) + Without(s[1..], key, gone)
  }

  function Only<T>(s: seq<T>, key: T -> string, wanted: set<string>): seq<T> {
    if s == [] then []
    else (if key(s[0]) in wanted then [s[0]] else []) + Only(s[1..], key, wanted)
  }

  // ---------- items

  /** How the elements of a list inside an entry are merged. */
  datatype Policy = Keyed | Appended | Headers

  function PolicyOf(list: string): Policy {
    if list in {"append", "options", "mountOptions"} then Appended
    else if list == "httpHeaders" then Headers
    else Keyed
  }

  const VALUE := "value"

  function MergeItem(p: Item, c: Item): Item { Item(c.key, p.fields + c.fields) }

  /** The parent's items, each with the child's item of the same key laid over
      it; a child header without a value takes the parent's header away. */
  function OverItems(policy: Policy, ps: seq<Item>, cs: seq<Item>): seq<Item> {
    if ps == [] then []
    else
      (match Find(cs, ItemKey, ps[0].key)
       case None => [ps[0]]
       case Some(c) => if policy == Headers && VALUE !in c.fields then [] else [MergeItem(ps[0], c)])
      + OverItems(policy, ps[1..], cs)
  }

  function MergeItems(policy: Policy, ps: seq<Item>, cs: seq<Item>): seq<Item> {
    if policy == Appended then ps + cs
    else OverItems(policy, ps, cs) + Without(cs, ItemKey, Keys(ps, ItemKey))
  }

  // ---------- entries

  function MergeLists(p: Entry, c: Entry): map<string, seq<Item>> {
    map n | n in p.lists.Keys + c.lists.Keys && MergeItems(PolicyOf(n), Items(p, n), Items(c, n)) != []
      :: MergeItems(PolicyOf(n), Items(p, n), Items(c, n))
  }

  function MergeEntry(p: Entry, c: Entry): Entry {
    Entry(c.key, p.fields + c.fields, MergeLists(p, c))
  }

  /** `gone` holds the keys whose entry in the child the library finds in a list of
      another name: a file takes the place of a directory at its path. */
  function OverEntry(p: Entry, cs: seq<Entry>, gone: set<string>): seq<Entry> {
    if p.key in gone then []
    else
      match Find(cs, EntryKey, p.key)
      case None => [p]
      case Some(c) => [MergeEntry(p, c)]
  }

  function OverEntries(ps: seq<Entry>, cs: seq<Entry>, gone: set<string>): seq<Entry> {
    if ps == [] then [] else OverEntry(ps[0], cs, gone) + OverEntries(ps[1..], cs, gone)
  }

  function MergeEntries(ps: seq<Entry>, cs: seq<Entry>, gone: set<string>): seq<Entry> {
    OverEntries(ps, cs, gone) + Without(cs, EntryKey, Keys(ps, EntryKey))
  }

  // ---------- facts about keys

  lemma {:induction false} FindIs<T>(s: seq<T>, key: T -> string, k: string)
    ensures Find(s, key, k).Some? <==> k in Keys(s, key)
    ensures Find(s, key, k).Some? ==> key(Find(s, key, k).value) == k && Find(s, key, k).value in s
  {
    if s != [] {
      FindIs(s[1..], key, k);
      assert s == [s[0]] + s[1..];
      assert Keys(s, key) == {key(s[0])} + Keys(s[1..], key) by {
        forall x | x in Keys(s, key)
          ensures x in {key(s[0])} + Keys(s[1..], key)
        {
          var i :| 0 <= i < |s| && key(s[i]) == x;
          assert i > 0 ==> s[1..][i - 1] == s[i];
        }
        forall x | x in Keys(s[1..], key)
          ensures x in Keys(s, key)
        {
          var i :| 0 <= i < |s| - 1 && key(s[1..][i]) == x;
          assert s[i + 1] == s[1..][i];
        }
      }
    }
  }

  lemma KeysCons<T>(x: T, s: seq<T>, key: T -> string)
    ensures Keys([x] + s, key) == {key(x)} + Keys(s, key)
  {
    KeysAppend([x], s, key);
    assert [x][0] == x;
  }

  lemma KeysAppend<T>(a: seq<T>, b: seq<T>, key: T -> string)
    ensures Keys(a + b, key) == Keys(a, key) + Keys(b, key)
  {
    forall k | k in Keys(a, key) + Keys(b, key)
      ensures k in Keys(a + b, key)
    {
      if k in Keys(a, key) {
        var i :| 0 <= i < |a| && key(a[i]) == k;
        assert (a + b)[i] == a[i];
      } else {
        var i :| 0 <= i < |b| && key(b[i]) == k;
        assert (a + b)[|a| + i] == b[i];
      }
    }
  }

  lemma {:induction false} FindAt<T>(s: seq<T>, key: T -> string, i: nat)
    requires DistinctKeys(s, key) && i < |s|
    ensures Find(s, key, key(s[i])) == Some(s[i])
  {
    FindIs(s[1..], key, key(s[i]));
    if i == 0 {
      DistinctHead(s, key);
    } else {
      assert DistinctKeys(s[1..], key);
      FindAt(s[1..], key, i - 1);
    }
  }

  lemma {:induction false} FindAppend<T>(a: seq<T>, b: seq<T>, key: T -> string, k: string)
    ensures Find(a + b, key, k) == if Find(b, key, k).Some? then Find(b, key, k) else Find(a, key, k)
  {
    if a == [] {
      assert a + b == b;
    } else {
      assert (a + b)[1..] == a[1..] + b;
      FindAppend(a[1..], b, key, k);
    }
  }

  lemma {:induction false} FindWithout<T>(s: seq<T>, key: T -> string, gone: set<string>, k: string)
    ensures Find(Without(s, key, gone), key, k) == if k in gone then None else Find(s, key, k)
  {
    if s != [] {
      var head := if key(s[0]) in gone then [] else [s[0]];
      FindWithout(s[1..], key, gone, k);
      FindAppend(head, Without(s[1..], key, gone), key, k);
      assert s == [s[0]] + s[1..];
    }
  }

  lemma KeysWithout<T>(s: seq<T>, key: T -> string, gone: set<string>)
    ensures Keys(Without(s, key, gone), key) == Keys(s, key) - gone
  {
    forall k
      ensures k in Keys(Without(s, key, gone), key) <==> k in Keys(s, key) - gone
    {
      FindIs(s, key, k);
      FindIs(Without(s, key, gone), key, k);
      FindWithout(s, key, gone, k);
    }
  }

  lemma {:induction false} WithoutAppend<T>(a: seq<T>, b: seq<T>, key: T -> string, gone: set<string>)
    ensures Without(a + b, key, gone) == Without(a, key, gone) + Without(b, key, gone)
  {
    if a == [] {
      assert a + b == b;
    } else {
      assert (a + b)[1..] == a[1..] + b;
      WithoutAppend(a[1..], b, key, gone);
    }
  }

  lemma {:induction false} WithoutNone<T>(s: seq<T>, key: T -> string, gone: set<string>)
    requires Keys(s, key) !! gone
    ensures Without(s, key, gone) == s
  {
    if s != [] {
      assert s == [s[0]] + s[1..];
      KeysCons(s[0], s[1..], key);
      WithoutNone(s[1..], key, gone);
    }
  }

  lemma {:induction false} WithoutAll<T>(s: seq<T>, key: T -> string, gone: set<string>)
    requires Keys(s, key) <= gone
    ensures Without(s, key, gone) == []
  {
    if s != [] {
      assert s == [s[0]] + s[1..];
      KeysCons(s[0], s[1..], key);
      WithoutAll(s[1..], key, gone);
    }
  }

  /** What is deleted, and that the survivors keep their content and order. */
  lemma {:induction false} WithoutPositions<T>(s: seq<T>, key: T -> string, gone: set<string>) returns (at: seq<nat>)
    ensures |at| == |Without(s, key, gone)|
    ensures forall i | 0 <= i < |at| :: at[i] < |s| && Without(s, key, gone)[i] == s[at[i]]
    ensures forall i, j | 0 <= i < j < |at| :: at[i] < at[j]
    ensures forall i: nat | i < |s| :: i in at <==> key(s[i]) !in gone
  {
    at := [];
    if s != [] {
      var n := |s| - 1;
      assert s == s[..n] + [s[n]];
      WithoutAppend(s[..n], [s[n]], key, gone);
      at := WithoutPositions(s[..n], key, gone);
      if key(s[n]) !in gone {
        assert Without([s[n]], key, gone) == [s[n]];
        at := at + [n];
      } else {
        assert Without([s[n]], key, gone) == [];
      }
    }
  }

  lemma {:induction false} DistinctTail<T>(a: seq<T>, b: seq<T>, key: T -> string)
    requires DistinctKeys(a, key) && DistinctKeys(b, key) && Keys(a, key) !! Keys(b, key)
    ensures DistinctKeys(a + b, key)
  {
    forall i, j | 0 <= i < |a + b| && 0 <= j < |a + b| && i != j
      ensures key((a + b)[i]) != key((a + b)[j])
    {
      assert i < |a| ==> key(a[i]) in Keys(a, key);
      assert j < |a| ==> key(a[j]) in Keys(a, key);
      assert i >= |a| ==> key(b[i - |a|]) in Keys(b, key);
      assert j >= |a| ==> key(b[j - |a|]) in Keys(b, key);
    }
  }

  lemma {:induction false} DistinctWithout<T>(s: seq<T>, key: T -> string, gone: set<string>)
    requires DistinctKeys(s, key)
    ensures DistinctKeys(Without(s, key, gone), key)
  {
    if s != [] {
      assert DistinctKeys(s[1..], key);
      DistinctWithout(s[1..], key, gone);
      KeysWithout(s[1..], key, gone);
      DistinctHead(s, key);
      DistinctTail(if key(s[0]) in gone then [] else [s[0]], Without(s[1..], key, gone), key);
    }
  }

  lemma DistinctHead<T>(s: seq<T>, key: T -> string)
    requires DistinctKeys(s, key) && s != []
    ensures key(s[0]) !in Keys(s[1..], key)
  {
    forall j | 0 <= j < |s| - 1
      ensures key(s[1..][j]) != key(s[0])
    {
      assert s[1..][j] == s[j + 1];
    }
  }

  // ---------- content by key

  lemma {:induction false} DistinctCount<T>(s: seq<T>, key: T -> string)
    requires DistinctKeys(s, key)
    ensures |Keys(s, key)| == |s|
  {
    if s == [] {
      assert Keys(s, key) == {};
    } else {
      assert s == [s[0]] + s[1..];
      DistinctHead(s, key);
      assert DistinctKeys(s[1..], key);
      DistinctCount(s[1..], key);
      KeysCons(s[0], s[1..], key);
    }
  }

  lemma WithKeyFind<T>(s: seq<T>, key: T -> string, k: string)
    requires DistinctKeys(s, key)
    ensures WithKey(s, key, k) == match Find(s, key, k) case None => [] case Some(x) => [x]
  {
    FindIs(s, key, k);
    ListedOnce(s, key, k);
    if WithKey(s, key, k) != [] {
      var i := ListedAt(s, key, k, 0);
      FindAt(s, key, i);
    } else if Find(s, key, k).Some? {
      var i :| 0 <= i < |s| && s[i] == Find(s, key, k).value;
      Listed(s, key, i);
    }
  }

  ghost predicate SameContent(a: seq<Entry>, b: seq<Entry>) {
    forall k :: Find(a, EntryKey, k) == Find(b, EntryKey, k)
  }

  /** With distinct keys the matchers decide whether each key has the same
      content. */
  lemma SameEntriesIsSameContent(a: seq<Entry>, b: seq<Entry>)
    requires DistinctKeys(a, EntryKey) && DistinctKeys(b, EntryKey)
    ensures SameEntries(a, b) <==> SameContent(a, b)
  {
    hide Find, WithKey, Keys;
    forall k
      ensures WithKey(a, EntryKey, k) == WithKey(b, EntryKey, k) <==> Find(a, EntryKey, k) == Find(b, EntryKey, k)
    {
      WithKeyFind(a, EntryKey, k);
      WithKeyFind(b, EntryKey, k);
    }
    if SameContent(a, b) {
      assert Keys(a, EntryKey) == Keys(b, EntryKey) by {
        forall k
          ensures k in Keys(a, EntryKey) <==> k in Keys(b, EntryKey)
        {
          FindIs(a, EntryKey, k);
          FindIs(b, EntryKey, k);
        }
      }
      DistinctCount(a, EntryKey);
      DistinctCount(b, EntryKey);
    }
  }

  lemma SameMultisetSameContent(a: seq<Entry>, b: seq<Entry>)
    requires DistinctKeys(a, EntryKey) && DistinctKeys(b, EntryKey) && multiset(a) == multiset(b)
    ensures SameContent(a, b)
  {
    forall k
      ensures Find(a, EntryKey, k) == Find(b, EntryKey, k)
    {
      FindIs(a, EntryKey, k);
      FindIs(b, EntryKey, k);
      if Find(a, EntryKey, k).Some? {
        FoundInBoth(a, b, k);
      } else if Find(b, EntryKey, k).Some? {
        FoundInBoth(b, a, k);
      }
    }
  }

  lemma FoundInBoth(a: seq<Entry>, b: seq<Entry>, k: string)
    requires DistinctKeys(b, EntryKey) && multiset(a) == multiset(b) && Find(a, EntryKey, k).Some?
    ensures Find(b, EntryKey, k) == Find(a, EntryKey, k)
  {
    FindIs(a, EntryKey, k);
    var e := Find(a, EntryKey, k).value;
    assert e in multiset(a) && e in multiset(b);
    var i :| 0 <= i < |b| && b[i] == e;
    FindAt(b, EntryKey, i);
  }

  // ---------- what merging does, key by key

  function Merged(p: Option<Entry>, c: Option<Entry>, elsewhere: bool): Option<Entry> {
    match (p, c)
    case (None, _) => c
    case (Some(x), _) => if elsewhere then None else if c.None? then p else Some(MergeEntry(x, c.value))
  }

  lemma {:induction false} FindOver(ps: seq<Entry>, cs: seq<Entry>, gone: set<string>, k: string)
    requires DistinctKeys(ps, EntryKey)
    ensures Find(OverEntries(ps, cs, gone), EntryKey, k)
         == if Find(ps, EntryKey, k).None? then None
            else Merged(Find(ps, EntryKey, k), Find(cs, EntryKey, k), k in gone)
  {
    if ps != [] {
      var head := OverEntry(ps[0], cs, gone);
      assert DistinctKeys(ps[1..], EntryKey);
      FindOver(ps[1..], cs, gone, k);
      FindIs(cs, EntryKey, ps[0].key);
      FindIs(ps[1..], EntryKey, k);
      DistinctHead(ps, EntryKey);
      FindAppend(head, OverEntries(ps[1..], cs, gone), EntryKey, k);
    }
  }

  lemma {:induction false} DistinctOver(ps: seq<Entry>, cs: seq<Entry>, gone: set<string>)
    requires DistinctKeys(ps, EntryKey)
    ensures DistinctKeys(OverEntries(ps, cs, gone), EntryKey)
    ensures Keys(OverEntries(ps, cs, gone), EntryKey) <= Keys(ps, EntryKey)
  {
    if ps != [] {
      var head := OverEntry(ps[0], cs, gone);
      assert DistinctKeys(ps[1..], EntryKey);
      DistinctOver(ps[1..], cs, gone);
      FindIs(cs, EntryKey, ps[0].key);
      DistinctHead(ps, EntryKey);
      assert ps == [ps[0]] + ps[1..];
      KeysCons(ps[0], ps[1..], EntryKey);
      assert Keys(head, EntryKey) <= {ps[0].key};
      DistinctTail(head, OverEntries(ps[1..], cs, gone), EntryKey);
      KeysAppend(head, OverEntries(ps[1..], cs, gone), EntryKey);
    }
  }

  lemma MergeByKey(ps: seq<Entry>, cs: seq<Entry>, gone: set<string>)
    requires DistinctKeys(ps, EntryKey) && DistinctKeys(cs, EntryKey)
    ensures DistinctKeys(MergeEntries(ps, cs, gone), EntryKey)
    ensures forall k :: Find(MergeEntries(ps, cs, gone), EntryKey, k)
                     == Merged(Find(ps, EntryKey, k), Find(cs, EntryKey, k), k in gone)
  {
    hide Find, OverEntries, Without, MergeEntry;
    var over, added := OverEntries(ps, cs, gone), Without(cs, EntryKey, Keys(ps, EntryKey));
    DistinctOver(ps, cs, gone);
    DistinctWithout(cs, EntryKey, Keys(ps, EntryKey));
    KeysWithout(cs, EntryKey, Keys(ps, EntryKey));
    DistinctTail(over, added, EntryKey);
    forall k
      ensures Find(MergeEntries(ps, cs, gone), EntryKey, k)
           == Merged(Find(ps, EntryKey, k), Find(cs, EntryKey, k), k in gone)
    {
      FindAppend(over, added, EntryKey, k);
      FindOver(ps, cs, gone, k);
      FindWithout(cs, EntryKey, Keys(ps, EntryKey), k);
      FindIs(ps, EntryKey, k);
    }
  }
}
