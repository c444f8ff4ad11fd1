/** When laying the same child over a second time, after the same dropins have
    been removed again, changes nothing. */
module IgnitionSettle {
  import opened Text
  import opened IgnitionTypes
  import opened IgnitionCompare
  import opened IgnitionMerge

  // ---------- items

  /** Nothing that stays comes after something that is removed. */
  ghost predicate RemovedLast(s: seq<Item>, removed: set<string>) {
    forall i, j | 0 <= i < j < |s| :: s[i].key in removed ==> s[j].key in removed
  }

  ghost predicate AllValued(policy: Policy, cs: seq<Item>) {
    policy == Headers ==> forall i | 0 <= i < |cs| :: VALUE in cs[i].fields
  }

  ghost predicate SettledItems(policy: Policy, ps: seq<Item>, cs: seq<Item>, removed: set<string>) {
    match policy
    case Appended => cs == []
    case Headers => AllValued(policy, cs)
    case Keyed => RemovedLast(Without(cs, ItemKey, Keys(ps, ItemKey)), removed)
  }

  lemma {:induction false} OverAgain(policy: Policy, ps: seq<Item>, cs: seq<Item>)
    requires AllValued(policy, cs)
    ensures OverItems(policy, OverItems(policy, ps, cs), cs) == OverItems(policy, ps, cs)
    ensures Keys(OverItems(policy, ps, cs), ItemKey) == Keys(ps, ItemKey)
  {
    if ps != [] {
      var rest := OverItems(policy, ps[1..], cs);
      OverAgain(policy, ps[1..], cs);
      FindIs(cs, ItemKey, ps[0].key);
      var head := match Find(cs, ItemKey, ps[0].key) case None => ps[0] case Some(c) => MergeItem(ps[0], c);
      assert OverItems(policy, ps, cs) == [head] + rest;
      assert match Find(cs, ItemKey, head.key) case None => head == ps[0] case Some(c) => MergeItem(head, c) == head;
      assert ([head] + rest)[1..] == rest;
      assert ps == [ps[0]] + ps[1..];
      KeysCons(ps[0], ps[1..], ItemKey);
      KeysCons(head, rest, ItemKey);
    }
  }

  lemma {:induction false} OverAppend(policy: Policy, a: seq<Item>, b: seq<Item>, cs: seq<Item>)
    ensures OverItems(policy, a + b, cs) == OverItems(policy, a, cs) + OverItems(policy, b, cs)
  {
    if a == [] {
      assert a + b == b;
    } else {
      assert (a + b)[1..] == a[1..] + b;
      OverAppend(policy, a[1..], b, cs);
    }
  }

  lemma {:induction false} OverOwn(policy: Policy, xs: seq<Item>, cs: seq<Item>)
    requires AllValued(policy, cs)
    requires forall i | 0 <= i < |xs| :: Find(cs, ItemKey, xs[i].key) == Some(xs[i])
    ensures OverItems(policy, xs, cs) == xs
  {
    if xs != [] {
      OverOwn(policy, xs[1..], cs);
      FindIs(cs, ItemKey, xs[0].key);
      assert MergeItem(xs[0], xs[0]) == xs[0];
    }
  }

  /** What a selection of the child's items finds in the child is itself. */
  lemma SelectedFound(cs: seq<Item>, gone: set<string>, removed: set<string>, s: seq<Item>)
    requires DistinctKeys(cs, ItemKey) && s == Without(Without(cs, ItemKey, gone), ItemKey, removed)
    ensures forall i | 0 <= i < |s| :: Find(cs, ItemKey, s[i].key) == Some(s[i])
  {
    hide Find, Without, Keys;
    var n := Without(cs, ItemKey, gone);
    DistinctWithout(cs, ItemKey, gone);
    DistinctWithout(n, ItemKey, removed);
    forall i | 0 <= i < |s|
      ensures Find(cs, ItemKey, s[i].key) == Some(s[i])
    {
      FindAt(s, ItemKey, i);
      FindWithout(n, ItemKey, removed, s[i].key);
      FindWithout(cs, ItemKey, gone, s[i].key);
    }
  }

  lemma {:induction false} WithoutBoth(cs: seq<Item>, p: set<string>, q: set<string>, removed: set<string>)
    requires forall i | 0 <= i < |cs| && cs[i].key !in p :: cs[i].key in q <==> cs[i].key !in removed
    ensures Without(cs, ItemKey, p + q) == Only(Without(cs, ItemKey, p), ItemKey, removed)
  {
    if cs != [] {
      WithoutBoth(cs[1..], p, q, removed);
      var rest := Without(cs[1..], ItemKey, p);
      if cs[0].key in p {
        assert Without(cs, ItemKey, p) == rest;
      } else {
        assert cs[0].key in q <==> cs[0].key !in removed;
        assert Without(cs, ItemKey, p) == [cs[0]] + rest;
        assert ([cs[0]] + rest)[1..] == rest;
      }
    }
  }

  lemma {:induction false} OnlyAll(s: seq<Item>, wanted: set<string>)
    requires forall i | 0 <= i < |s| :: s[i].key in wanted
    ensures Only(s, ItemKey, wanted) == s && Without(s, ItemKey, wanted) == []
  {
    if s != [] {
      OnlyAll(s[1..], wanted);
    }
  }

  /** Moving the removed items to the end changes nothing exactly when they are
      there already. */
  lemma {:induction false} Partition(s: seq<Item>, removed: set<string>)
    ensures Without(s, ItemKey, removed) + Only(s, ItemKey, removed) == s <==> RemovedLast(s, removed)
  {
    hide Without, Only, RemovedLast;
    if s == [] {
      OnlyAll(s, removed);
      NothingKept(s, removed);
    } else {
      var rest := s[1..];
      var w, o := Without(rest, ItemKey, removed), Only(rest, ItemKey, removed);
      Heads(s, removed);
      assert s == [s[0]] + rest;
      if s[0].key !in removed {
        Partition(rest, removed);
        RemovedLastTail(s, removed);
        assert ([s[0]] + w) + o == [s[0]] + (w + o);
        assert w + o == ([s[0]] + (w + o))[1..];
      } else if w == [] {
        WithoutEmpty(rest, removed);
        OnlyAll(s, removed);
        NothingKept(s, removed);
      } else {
        assert (w + ([s[0]] + o))[0] == w[0];
        var i := SomeKept(rest, removed);
        KeptAfterRemoved(s, removed, i + 1);
      }
    }
  }

  lemma Heads(s: seq<Item>, removed: set<string>)
    requires s != []
    ensures Without(s, ItemKey, removed) == (if s[0].key in removed then [] else [s[0]]) + Without(s[1..], ItemKey, removed)
    ensures Only(s, ItemKey, removed) == (if s[0].key in removed then [s[0]] else []) + Only(s[1..], ItemKey, removed)
  {
  }

  lemma NothingKept(s: seq<Item>, removed: set<string>)
    requires forall i | 0 <= i < |s| :: s[i].key in removed
    ensures RemovedLast(s, removed)
  {
  }

  lemma RemovedLastTail(s: seq<Item>, removed: set<string>)
    requires s != [] && s[0].key !in removed
    ensures RemovedLast(s, removed) <==> RemovedLast(s[1..], removed)
  {
    if RemovedLast(s, removed) {
      forall i, j | 0 <= i < j < |s[1..]|
        ensures s[1..][i].key in removed ==> s[1..][j].key in removed
      {
        assert s[1..][i] == s[i + 1] && s[1..][j] == s[j + 1];
      }
    } else {
      var i, j :| 0 <= i < j < |s| && s[i].key in removed && s[j].key !in removed;
      assert s[1..][i - 1] == s[i] && s[1..][j - 1] == s[j];
    }
  }

  lemma KeptAfterRemoved(s: seq<Item>, removed: set<string>, j: nat)
    requires 0 < j < |s| && s[0].key in removed && s[j].key !in removed
    ensures !RemovedLast(s, removed)
  {
  }

  /** If something is kept, its first element is none of those removed. */
  lemma SomeKept(s: seq<Item>, removed: set<string>) returns (i: nat)
    requires Without(s, ItemKey, removed) != []
    ensures i < |s| && s[i].key !in removed && Without(s, ItemKey, removed)[0].key !in removed
  {
    var w := Without(s, ItemKey, removed);
    KeysWithout(s, ItemKey, removed);
    assert w[0].key in Keys(w, ItemKey);
    i :| 0 <= i < |s| && s[i].key == w[0].key;
  }

  lemma WithoutEmpty(s: seq<Item>, removed: set<string>)
    requires Without(s, ItemKey, removed) == []
    ensures forall i | 0 <= i < |s| :: s[i].key in removed
  {
    KeysWithout(s, ItemKey, removed);
    forall i | 0 <= i < |s|
      ensures s[i].key in removed
    {
      assert s[i].key in Keys(s, ItemKey);
      assert Keys(Without(s, ItemKey, removed), ItemKey) == {};
    }
  }

  /** The second round, when every header has a value. */
  lemma SecondRound(policy: Policy, ps: seq<Item>, cs: seq<Item>, removed: set<string>)
    requires policy != Appended && AllValued(policy, cs)
    requires DistinctKeys(cs, ItemKey) && Keys(ps, ItemKey) !! removed
    ensures var over, added := OverItems(policy, ps, cs), Without(cs, ItemKey, Keys(ps, ItemKey));
      MergeItems(policy, Without(MergeItems(policy, ps, cs), ItemKey, removed), cs)
      == over + (Without(added, ItemKey, removed) + Only(added, ItemKey, removed))
  {
    hide OverItems, Without, Only, Find, Keys, DistinctKeys;
    var pk := Keys(ps, ItemKey);
    var over, added := OverItems(policy, ps, cs), Without(cs, ItemKey, pk);
    var kept := Without(added, ItemKey, removed);
    OverAgain(policy, ps, cs);
    WithoutAppend(over, added, ItemKey, removed);
    WithoutNone(over, ItemKey, removed);
    var s := Without(MergeItems(policy, ps, cs), ItemKey, removed);
    assert s == over + kept;
    OverAppend(policy, over, kept, cs);
    SelectedFound(cs, pk, removed, kept);
    OverOwn(policy, kept, cs);
    KeysAppend(over, kept, ItemKey);
    KeysWithout(cs, ItemKey, pk);
    KeysWithout(added, ItemKey, removed);
    KeysOf(cs);
    WithoutBoth(cs, pk, Keys(kept, ItemKey), removed);
    assert MergeItems(policy, s, cs) == (over + kept) + Only(added, ItemKey, removed);
  }

  lemma KeysOf(cs: seq<Item>)
    ensures forall i | 0 <= i < |cs| :: cs[i].key in Keys(cs, ItemKey)
  {
  }

  /** A header without a value comes and goes with every round. */
  lemma {:induction false} HeaderOver(ps: seq<Item>, cs: seq<Item>, k: string)
    requires Find(cs, ItemKey, k).Some? && VALUE !in Find(cs, ItemKey, k).value.fields
    ensures k !in Keys(OverItems(Headers, ps, cs), ItemKey)
  {
    if ps != [] {
      HeaderOver(ps[1..], cs, k);
      FindIs(cs, ItemKey, ps[0].key);
      var rest := OverItems(Headers, ps[1..], cs);
      match Find(cs, ItemKey, ps[0].key) {
        case None => KeysCons(ps[0], rest, ItemKey);
        case Some(c) => KeysCons(MergeItem(ps[0], c), rest, ItemKey);
      }
    }
  }

  lemma HeaderFlips(ps: seq<Item>, cs: seq<Item>, i: nat)
    requires DistinctKeys(cs, ItemKey) && i < |cs| && VALUE !in cs[i].fields
    ensures cs[i].key in Keys(MergeItems(Headers, ps, cs), ItemKey) <==> cs[i].key !in Keys(ps, ItemKey)
  {
    FindAt(cs, ItemKey, i);
    HeaderOver(ps, cs, cs[i].key);
    KeysAppend(OverItems(Headers, ps, cs), Without(cs, ItemKey, Keys(ps, ItemKey)), ItemKey);
    KeysWithout(cs, ItemKey, Keys(ps, ItemKey));
    assert cs[i].key in Keys(cs, ItemKey);
  }

  lemma ItemsSettle(policy: Policy, ps: seq<Item>, cs: seq<Item>, removed: set<string>)
    requires policy != Keyed ==> removed == {}
    requires policy != Appended ==> DistinctKeys(cs, ItemKey)
    requires Keys(ps, ItemKey) !! removed
    ensures var r := MergeItems(policy, ps, cs);
      MergeItems(policy, Without(r, ItemKey, removed), cs) == r <==> SettledItems(policy, ps, cs, removed)
  {
    hide OverItems, Without, Only, Find, Keys, DistinctKeys, RemovedLast;
    var r := MergeItems(policy, ps, cs);
    if policy == Appended {
      WithoutNone(r, ItemKey, {});
      assert |r + cs| == |r| + |cs|;
    } else if AllValued(policy, cs) {
      var over, added := OverItems(policy, ps, cs), Without(cs, ItemKey, Keys(ps, ItemKey));
      SecondRound(policy, ps, cs, removed);
      Partition(added, removed);
      var moved := Without(added, ItemKey, removed) + Only(added, ItemKey, removed);
      assert r == over + added;
      assert over + moved == over + added ==> moved == (over + moved)[|over|..] == added;
      if policy == Headers {
        NothingRemoved(added);
      }
    } else {
      var i :| 0 <= i < |cs| && VALUE !in cs[i].fields;
      WithoutNone(r, ItemKey, {});
      HeaderFlips(ps, cs, i);
      HeaderFlips(r, cs, i);
    }
  }

  lemma NothingRemoved(s: seq<Item>)
    ensures RemovedLast(s, {})
  {
  }

  // ---------- entries

  /** No list is there but empty. */
  ghost predicate Proper(e: Entry) { forall n | n in e.lists :: e.lists[n] != [] }

  /** The keys within a list of the entry are distinct, where keys matter. */
  ghost predicate ItemsDistinct(e: Entry) {
    forall n | n in e.lists && PolicyOf(n) != Appended :: DistinctKeys(e.lists[n], ItemKey)
  }

  function DropOf(list: string, removed: set<string>): set<string> { if list == DROPINS then removed else {} }

  function StripDropins(e: Entry, removed: set<string>): Entry {
    var left := Without(Items(e, DROPINS), ItemKey, removed);
    e.(lists := if left == [] then e.lists - {DROPINS} else e.lists[DROPINS := left])
  }

  lemma StripItems(e: Entry, removed: set<string>, n: string)
    ensures Items(StripDropins(e, removed), n) == Without(Items(e, n), ItemKey, DropOf(n, removed))
    ensures Proper(e) ==> Proper(StripDropins(e, removed))
  {
    WithoutNone(Items(e, n), ItemKey, {});
  }

  function ItemsIn(e: Option<Entry>, n: string): seq<Item> {
    match e case None => [] case Some(e) => Items(e, n)
  }

  function FirstRound(p: Option<Entry>, c: Entry): Entry {
    match p case None => c case Some(p) => MergeEntry(p, c)
  }

  lemma MergeListItems(p: Entry, c: Entry, n: string)
    ensures Items(MergeEntry(p, c), n) == MergeItems(PolicyOf(n), Items(p, n), Items(c, n))
    ensures Proper(MergeEntry(p, c))
  {
  }

  lemma FirstRoundItems(p: Option<Entry>, c: Entry, n: string)
    ensures Items(FirstRound(p, c), n) == MergeItems(PolicyOf(n), ItemsIn(p, n), Items(c, n))
  {
    match p {
      case None =>
        var none: seq<Item> := [];
        assert Keys(none, ItemKey) == {};
        WithoutNone(Items(c, n), ItemKey, {});
      case Some(e) => MergeListItems(e, c, n);
    }
  }

  lemma SameItemsSameEntry(a: Entry, b: Entry)
    requires a.key == b.key && a.fields == b.fields && Proper(a) && Proper(b)
    requires forall n :: Items(a, n) == Items(b, n)
    ensures a == b
  {
    assert a.lists == b.lists by {
      forall n
        ensures n in a.lists <==> n in b.lists
        ensures n in a.lists ==> a.lists[n] == b.lists[n]
      {
        assert Items(a, n) == Items(b, n);
      }
    }
  }

  /** The child has no list that grows or flips with every round, and those of its
      dropins that are removed each time stand after the other new ones. */
  ghost predicate SettledEntry(p: Option<Entry>, c: Entry, removed: set<string>) {
    forall n | n in c.lists :: SettledItems(PolicyOf(n), ItemsIn(p, n), c.lists[n], DropOf(n, removed))
  }

  lemma EntrySettles(p: Option<Entry>, c: Entry, removed: set<string>)
    requires Proper(c) && ItemsDistinct(c) && Keys(ItemsIn(p, DROPINS), ItemKey) !! removed
    ensures var r := FirstRound(p, c);
      MergeEntry(StripDropins(r, removed), c) == r <==> SettledEntry(p, c, removed)
  {
    hide MergeItems, Without, Keys, DistinctKeys, SettledItems, MergeLists;
    var r := FirstRound(p, c);
    var r2 := MergeEntry(StripDropins(r, removed), c);
    forall n
      ensures Items(r2, n) == Items(r, n)
        <==> SettledItems(PolicyOf(n), ItemsIn(p, n), Items(c, n), DropOf(n, removed))
    {
      MergeListItems(StripDropins(r, removed), c, n);
      StripItems(r, removed, n);
      FirstRoundItems(p, c, n);
      EmptyDistinct();
      KeysDisjointEmpty(ItemsIn(p, n));
      ItemsSettle(PolicyOf(n), ItemsIn(p, n), Items(c, n), DropOf(n, removed));
    }
    if SettledEntry(p, c, removed) {
      forall n
        ensures Items(r2, n) == Items(r, n)
      {
        if n !in c.lists {
          NoItemsSettle(PolicyOf(n), ItemsIn(p, n), DropOf(n, removed));
        }
      }
      MergeListItems(StripDropins(r, removed), c, "");
      if p.Some? {
        MergeListItems(p.value, c, "");
      }
      SameItemsSameEntry(r2, r);
    } else {
      var n :| n in c.lists && !SettledItems(PolicyOf(n), ItemsIn(p, n), c.lists[n], DropOf(n, removed));
      assert Items(r2, n) != Items(r, n);
    }
  }

  lemma EmptyDistinct()
    ensures DistinctKeys<Item>([], ItemKey)
  {
  }

  lemma KeysDisjointEmpty(s: seq<Item>)
    ensures Keys(s, ItemKey) !! {}
  {
  }

  lemma NoItemsSettle(policy: Policy, ps: seq<Item>, removed: set<string>)
    ensures SettledItems(policy, ps, [], removed)
  {
  }
}
