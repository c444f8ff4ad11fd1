/** What an update does to a configuration (UpdateIgnition in
    pkg/cluster/driver/capi/capi.go), field by field: the child's values win, what it
    does not name stays, what is listed is gone, and there is nothing else. */
module IgnitionEffect {
  import opened Text
  import opened IgnitionTypes
  import opened IgnitionCompare
  import opened IgnitionMerge
  import opened IgnitionSettle
  import opened IgnitionUpdate
  import opened IgnitionCalls

  // ---------- fields and items

  /** The second map's values over the first's. */
  ghost predicate FieldsOver(p: map<string, string>, c: map<string, string>, r: map<string, string>) {
    && (forall f | f in c :: f in r && r[f] == c[f])
    && (forall f | f in p && f !in c :: f in r && r[f] == p[f])
    && (forall f | f in r :: f in p || f in c)
  }

  ghost predicate HasItem(s: seq<Item>, k: string) { exists i | 0 <= i < |s| :: s[i].key == k }

  /** An item of the child is in the result, over the parent's item if there is one; a
      header without a value takes the parent's away. */
  ghost predicate ItemArrives(list: string, ps: seq<Item>, c: Item, rs: seq<Item>) {
    if list == "httpHeaders" && "value" !in c.fields && HasItem(ps, c.key) then !HasItem(rs, c.key)
    else if !HasItem(ps, c.key) then c in rs
    else exists i, j | 0 <= i < |ps| && 0 <= j < |rs| :: ItemOver(ps[i], c, rs[j])
  }

  ghost predicate ItemOver(p: Item, c: Item, r: Item) {
    p.key == c.key == r.key && FieldsOver(p.fields, c.fields, r.fields)
  }

  ghost predicate ItemsOver(list: string, ps: seq<Item>, cs: seq<Item>, rs: seq<Item>) {
    if list == "append" || list == "options" || list == "mountOptions" then rs == ps + cs
    else
      && (forall i | 0 <= i < |cs| :: ItemArrives(list, ps, cs[i], rs))
      && (forall i | 0 <= i < |ps| && !HasItem(cs, ps[i].key) :: ps[i] in rs)
      && (forall j | 0 <= j < |rs| :: HasItem(ps, rs[j].key) || HasItem(cs, rs[j].key))
  }

  ghost predicate EntryOver(p: Entry, c: Entry, r: Entry) {
    && r.key == c.key && FieldsOver(p.fields, c.fields, r.fields)
    && forall n: string :: ItemsOver(n, Items(p, n), Items(c, n), Items(r, n))
  }

  lemma KeysAreItems(s: seq<Item>, k: string)
    ensures HasItem(s, k) <==> k in Keys(s, ItemKey)
  {
    if HasItem(s, k) {
      var i :| 0 <= i < |s| && s[i].key == k;
      assert ItemKey(s[i]) in Keys(s, ItemKey);
    }
  }

  lemma {:induction false} OverItemsAre(policy: Policy, ps: seq<Item>, cs: seq<Item>)
    ensures forall i | 0 <= i < |ps| && Find(cs, ItemKey, ps[i].key).None? :: ps[i] in OverItems(policy, ps, cs)
    ensures forall i | 0 <= i < |ps| && Find(cs, ItemKey, ps[i].key).Some?
              && !(policy == Headers && VALUE !in Find(cs, ItemKey, ps[i].key).value.fields) ::
              MergeItem(ps[i], Find(cs, ItemKey, ps[i].key).value) in OverItems(policy, ps, cs)
  {
    if ps != [] {
      OverItemsAre(policy, ps[1..], cs);
      assert forall i | 0 < i < |ps| :: ps[i] == ps[1..][i - 1];
    }
  }

  lemma MergeItemIs(p: Item, c: Item)
    requires p.key == c.key
    ensures ItemOver(p, c, MergeItem(p, c))
  {
  }

  lemma {:induction false} OverItemsKeys(policy: Policy, ps: seq<Item>, cs: seq<Item>)
    ensures Keys(OverItems(policy, ps, cs), ItemKey) <= Keys(ps, ItemKey)
  {
    if ps != [] {
      var rest := OverItems(policy, ps[1..], cs);
      var head := match Find(cs, ItemKey, ps[0].key)
        case None => [ps[0]]
        case Some(c) => if policy == Headers && VALUE !in c.fields then [] else [MergeItem(ps[0], c)];
      OverItemsKeys(policy, ps[1..], cs);
      FindIs(cs, ItemKey, ps[0].key);
      assert ps == [ps[0]] + ps[1..];
      KeysCons(ps[0], ps[1..], ItemKey);
      KeysAppend(head, rest, ItemKey);
    }
  }

  lemma MergeItemsAre(list: string, ps: seq<Item>, cs: seq<Item>)
    requires PolicyOf(list) != Appended ==> DistinctKeys(cs, ItemKey)
    ensures ItemsOver(list, ps, cs, MergeItems(PolicyOf(list), ps, cs))
  {
    hide Find, OverItems, Without, Keys, ItemArrives, HasItem;
    var policy := PolicyOf(list);
    if policy != Appended {
      var over, added := OverItems(policy, ps, cs), Without(cs, ItemKey, Keys(ps, ItemKey));
      var rs := MergeItems(policy, ps, cs);
      forall i | 0 <= i < |cs|
        ensures ItemArrives(list, ps, cs[i], rs)
      {
        ItemIsMerged(list, ps, cs, i);
      }
      OverItemsAre(policy, ps, cs);
      forall i | 0 <= i < |ps| && !HasItem(cs, ps[i].key)
        ensures ps[i] in rs
      {
        KeysAreItems(cs, ps[i].key);
        FindIs(cs, ItemKey, ps[i].key);
      }
      OverItemsKeys(policy, ps, cs);
      KeysWithout(cs, ItemKey, Keys(ps, ItemKey));
      KeysAppend(over, added, ItemKey);
      forall j | 0 <= j < |rs|
        ensures HasItem(ps, rs[j].key) || HasItem(cs, rs[j].key)
      {
        KeysAreItems(ps, rs[j].key);
        KeysAreItems(cs, rs[j].key);
        KeysAreItems(rs, rs[j].key);
        Listed1(rs, j);
      }
    }
  }

  lemma Listed1(s: seq<Item>, j: nat)
    requires j < |s|
    ensures HasItem(s, s[j].key)
  {
  }

  lemma ItemIsMerged(list: string, ps: seq<Item>, cs: seq<Item>, i: nat)
    requires PolicyOf(list) != Appended && DistinctKeys(cs, ItemKey) && i < |cs|
    ensures ItemArrives(list, ps, cs[i], MergeItems(PolicyOf(list), ps, cs))
  {
    hide Find, OverItems, Without, Keys;
    var policy, c := PolicyOf(list), cs[i];
    var over, added := OverItems(policy, ps, cs), Without(cs, ItemKey, Keys(ps, ItemKey));
    var rs := over + added;
    FindAt(cs, ItemKey, i);
    KeysAreItems(ps, c.key);
    if !HasItem(ps, c.key) {
      var at := WithoutPositions(cs, ItemKey, Keys(ps, ItemKey));
      assert i in at;
      var j :| 0 <= j < |at| && at[j] == i;
      assert rs[|over| + j] == c;
    } else if policy == Headers && VALUE !in c.fields {
      HeaderOver(ps, cs, c.key);
      KeysWithout(cs, ItemKey, Keys(ps, ItemKey));
      KeysAppend(over, added, ItemKey);
      KeysAreItems(rs, c.key);
    } else {
      var h :| 0 <= h < |ps| && ps[h].key == c.key;
      OverItemsAre(policy, ps, cs);
      MergeItemIs(ps[h], c);
      var j :| 0 <= j < |over| && over[j] == MergeItem(ps[h], c);
      assert rs[j] == over[j];
    }
  }

  lemma MergeEntryIs(p: Entry, c: Entry)
    requires ItemsDistinct(c)
    ensures EntryOver(p, c, MergeEntry(p, c))
  {
    hide MergeItems, ItemsOver, DistinctKeys;
    EmptyDistinct();
    forall n: string
      ensures ItemsOver(n, Items(p, n), Items(c, n), Items(MergeEntry(p, c), n))
    {
      MergeListItems(p, c, n);
      MergeItemsAre(n, Items(p, n), Items(c, n));
    }
  }

  // ---------- what is left of an entry

  /** The elements that are not listed, in their order. */
  ghost predicate Filtered(s: seq<Item>, listed: seq<string>, r: seq<Item>) {
    exists at: seq<nat> :: PickedAt(s, listed, r, at)
  }

  ghost predicate PickedAt(s: seq<Item>, listed: seq<string>, r: seq<Item>, at: seq<nat>) {
    && |at| == |r|
    && (forall i | 0 <= i < |at| :: at[i] < |s| && r[i] == s[at[i]])
    && (forall i, j | 0 <= i < j < |at| :: at[i] < at[j])
    && (forall i: nat | i < |s| :: i in at <==> s[i].key !in listed)
  }

  /** An entry with all it has, but for the dropins listed. */
  ghost predicate Kept(p: Entry, listed: seq<string>, r: Entry) {
    && r.key == p.key && r.fields == p.fields
    && (forall n: string | n != "dropins" :: Items(r, n) == Items(p, n))
    && Filtered(Items(p, "dropins"), listed, Items(r, "dropins"))
  }

  function Listed(drops: map<string, seq<string>>, k: string): seq<string> { if k in drops then drops[k] else [] }

  lemma StripEntryIs(p: Entry, drops: map<string, seq<string>>)
    ensures Kept(p, Listed(drops, p.key), StripEntry(p, drops))
  {
    hide Without;
    var listed, r := Listed(drops, p.key), StripEntry(p, drops);
    var at := WithoutPositions(Items(p, "dropins"), ItemKey, ToSet(listed));
    assert DROPINS == "dropins";
    if p.key in drops {
      forall n: string
        ensures Items(r, n) == Without(Items(p, n), ItemKey, DropOf(n, ToSet(listed)))
      {
        StripItems(p, ToSet(listed), n);
      }
      forall n: string | n != "dropins"
        ensures Items(r, n) == Items(p, n)
      {
        WithoutNone(Items(p, n), ItemKey, {});
      }
    } else {
      assert ToSet(listed) == {};
      WithoutNone(Items(p, "dropins"), ItemKey, {});
    }
    assert Items(r, "dropins") == Without(Items(p, "dropins"), ItemKey, ToSet(listed));
    assert PickedAt(Items(p, "dropins"), listed, Items(r, "dropins"), at);
  }

  // ---------- one list

  ghost predicate HasEntry(s: seq<Entry>, k: string) { exists i | 0 <= i < |s| :: s[i].key == k }

  /** An entry of the child is in the result, over what is left of the parent's entry
      if that is not removed; unless the child's entry is found in another list. */
  ghost predicate ChildArrives(ps: seq<Entry>, removed: set<string>, drops: map<string, seq<string>>, c: Entry, elsewhere: set<string>, rs: seq<Entry>) {
    if !HasEntry(ps, c.key) || c.key in removed then c in rs
    else if c.key in elsewhere then !HasEntry(rs, c.key)
    else exists h, j | 0 <= h < |ps| && 0 <= j < |rs| :: OverKept(ps[h], Listed(drops, c.key), c, rs[j])
  }

  ghost predicate OverKept(p: Entry, listed: seq<string>, c: Entry, r: Entry) {
    p.key == c.key && exists q: Entry :: Kept(p, listed, q) && EntryOver(q, c, r)
  }

  /** An entry that the child does not name stays, but for the dropins listed. */
  ghost predicate SurvivorSays(p: Entry, drops: map<string, seq<string>>, cs: seq<Entry>, elsewhere: set<string>, rs: seq<Entry>) {
    && (p.key in elsewhere ==> !HasEntry(rs, p.key))
    && (p.key !in elsewhere && !HasEntry(cs, p.key) ==> exists j | 0 <= j < |rs| :: Kept(p, Listed(drops, p.key), rs[j]))
  }

  ghost predicate ListSays(ps: seq<Entry>, removed: set<string>, drops: map<string, seq<string>>, cs: seq<Entry>, elsewhere: set<string>, rs: seq<Entry>) {
    && (forall i, j | 0 <= i < j < |rs| :: rs[i].key != rs[j].key)
    && (forall i | 0 <= i < |cs| :: ChildArrives(ps, removed, drops, cs[i], elsewhere, rs))
    && (forall h | 0 <= h < |ps| && ps[h].key !in removed :: SurvivorSays(ps[h], drops, cs, elsewhere, rs))
    && (forall j | 0 <= j < |rs| :: HasEntry(cs, rs[j].key) || (HasEntry(ps, rs[j].key) && rs[j].key !in removed))
  }

  lemma HasEntryIs(s: seq<Entry>, k: string)
    ensures HasEntry(s, k) <==> Find(s, EntryKey, k).Some?
    ensures Find(s, EntryKey, k).Some? ==> Find(s, EntryKey, k).value in s && Find(s, EntryKey, k).value.key == k
  {
    hide Find;
    FindIs(s, EntryKey, k);
    if HasEntry(s, k) {
      var i :| 0 <= i < |s| && s[i].key == k;
      assert EntryKey(s[i]) in Keys(s, EntryKey);
    }
  }

  lemma StepSays(ps: seq<Entry>, cs: seq<Entry>, removed: set<string>, drops: map<string, seq<string>>, elsewhere: set<string>)
    requires ListOk(ps) && ListOk(cs)
    ensures ListSays(ps, removed, drops, cs, elsewhere, Step(ps, cs, removed, drops, elsewhere))
  {
    hide Step, Find, MergeEntry, StripEntry, Kept, EntryOver, HasEntry, ItemsDistinct;
    var rs := Step(ps, cs, removed, drops, elsewhere);
    StepEffect(ps, cs, removed, drops, elsewhere);
    forall i, j | 0 <= i < j < |rs|
      ensures rs[i].key != rs[j].key
    {
      assert EntryKey(rs[i]) != EntryKey(rs[j]);
    }
    forall i | 0 <= i < |cs|
      ensures ChildArrives(ps, removed, drops, cs[i], elsewhere, rs)
    {
      ChildOfStep(ps, cs, removed, drops, elsewhere, i);
    }
    forall h | 0 <= h < |ps| && ps[h].key !in removed
      ensures SurvivorSays(ps[h], drops, cs, elsewhere, rs)
    {
      FindAt(ps, EntryKey, h);
      HasEntryIs(rs, ps[h].key);
      HasEntryIs(cs, ps[h].key);
      StripEntryIs(ps[h], drops);
    }
    forall j | 0 <= j < |rs|
      ensures HasEntry(cs, rs[j].key) || (HasEntry(ps, rs[j].key) && rs[j].key !in removed)
    {
      FindAt(rs, EntryKey, j);
      HasEntryIs(cs, rs[j].key);
      HasEntryIs(ps, rs[j].key);
    }
  }

  lemma ChildOfStep(ps: seq<Entry>, cs: seq<Entry>, removed: set<string>, drops: map<string, seq<string>>, elsewhere: set<string>, i: nat)
    requires ListOk(ps) && ListOk(cs) && i < |cs|
    ensures ChildArrives(ps, removed, drops, cs[i], elsewhere, Step(ps, cs, removed, drops, elsewhere))
  {
    hide Step, Find, MergeEntry, StripEntry, Kept, EntryOver, HasEntry, ItemsDistinct, DistinctKeys;
    var rs, c := Step(ps, cs, removed, drops, elsewhere), cs[i];
    StepEffect(ps, cs, removed, drops, elsewhere);
    FindAt(cs, EntryKey, i);
    HasEntryIs(ps, c.key);
    HasEntryIs(rs, c.key);
    if HasEntry(ps, c.key) && c.key !in removed && c.key !in elsewhere {
      var p := Find(ps, EntryKey, c.key).value;
      var h :| 0 <= h < |ps| && ps[h] == p;
      var q, r := StripEntry(p, drops), Find(rs, EntryKey, c.key).value;
      StripEntryIs(p, drops);
      MergeEntryIs(q, c);
      assert OverKept(ps[h], Listed(drops, c.key), c, r);
    }
  }

  // ---------- the whole configuration

  /** What the result of an update holds.  A path that the child names as two kinds of
      node counts as the last of directory, file and link; a kernel argument as one not
      to have. */
  ghost predicate UpdateSays(x: Config, u: Updates, y: Config) {
    var c := u.config;
    var d, f, l := (set e | e in c.directories :: e.key), (set e | e in c.files :: e.key), (set e | e in c.links :: e.key);
    var want, reject := (set e | e in c.shouldExist :: e.key), (set e | e in c.shouldNotExist :: e.key);
    && (c.version != "" ==> y.version == c.version)
    && (c.version == "" && c.settings == Entry(c.settings.key, map[], map[]) && c.authorities == [] && c.mergeRefs == [] ==> y.version == x.version)
    && EntryOver(x.settings, c.settings, y.settings)
    && ListSays(x.authorities, {}, map[], c.authorities, {}, y.authorities)
    && ListSays(x.mergeRefs, {}, map[], c.mergeRefs, {}, y.mergeRefs)
    && ListSays(x.directories, (set k | k in u.directories), map[], c.directories, f + l, y.directories)
    && ListSays(x.files, (set k | k in u.files), map[], c.files, l + (d - f), y.files)
    && ListSays(x.links, {}, map[], c.links, d + f - l, y.links)
    && ListSays(x.disks, {}, map[], c.disks, {}, y.disks)
    && ListSays(x.raid, {}, map[], c.raid, {}, y.raid)
    && ListSays(x.filesystems, {}, map[], c.filesystems, {}, y.filesystems)
    && ListSays(x.luks, {}, map[], c.luks, {}, y.luks)
    && ListSays(x.units, (set n | n in u.units && u.units[n] == []), u.units, c.units, {}, y.units)
    && ListSays(x.users, (set k | k in u.users), map[], c.users, {}, y.users)
    && ListSays(x.groups, {}, map[], c.groups, {}, y.groups)
    && ListSays(x.shouldExist, {}, map[], c.shouldExist, reject, y.shouldExist)
    && ListSays(x.shouldNotExist, {}, map[], c.shouldNotExist, want - reject, y.shouldNotExist)
  }

  lemma KeysAre(s: seq<Entry>)
    ensures KeysOfEntries(s) == set e | e in s :: e.key
  {
    forall k | k in KeysOfEntries(s)
      ensures k in set e | e in s :: e.key
    {
      var i :| 0 <= i < |s| && EntryKey(s[i]) == k;
      assert s[i] in s;
    }
    forall e | e in s
      ensures e.key in KeysOfEntries(s)
    {
      var i :| 0 <= i < |s| && s[i] == e;
      assert EntryKey(s[i]) in Keys(s, EntryKey);
    }
  }

  lemma UpdateDoes(x: Config, u: Updates)
    requires ListsOk(x) && ListsOk(u.config)
    ensures UpdateSays(x, u, UpdatedConfig(x, u))
  {
    hide UpdatedConfig, Step, MergeEntry, ItemsDistinct, ListOk, ListSays, EntryOver, Keys;
    var c := u.config;
    UpdatedIs(x, u);
    KeysAre(c.directories);
    KeysAre(c.files);
    KeysAre(c.links);
    KeysAre(c.shouldExist);
    KeysAre(c.shouldNotExist);
    OthersAre(c);
    NoKeysOf();
    assert ToSet(u.directories) == (set k | k in u.directories) && ToSet(u.files) == (set k | k in u.files)
      && ToSet(u.users) == (set k | k in u.users);
    assert Elsewhere(c.shouldExist, [], c.shouldNotExist) == KeysOfEntries(c.shouldNotExist);
    assert Elsewhere(c.shouldNotExist, c.shouldExist, []) == KeysOfEntries(c.shouldExist) - KeysOfEntries(c.shouldNotExist);
    MergeEntryIs(x.settings, c.settings);
    StepSays(x.authorities, c.authorities, {}, map[], {});
    StepSays(x.mergeRefs, c.mergeRefs, {}, map[], {});
    StepSays(x.directories, c.directories, ToSet(u.directories), map[], OtherThanDirectories(c));
    StepSays(x.files, c.files, ToSet(u.files), map[], OtherThanFiles(c));
    StepSays(x.links, c.links, {}, map[], OtherThanLinks(c));
    StepSays(x.disks, c.disks, {}, map[], {});
    StepSays(x.raid, c.raid, {}, map[], {});
    StepSays(x.filesystems, c.filesystems, {}, map[], {});
    StepSays(x.luks, c.luks, {}, map[], {});
    StepSays(x.units, c.units, WholeUnits(u), u.units, {});
    StepSays(x.users, c.users, ToSet(u.users), map[], {});
    StepSays(x.groups, c.groups, {}, map[], {});
    StepSays(x.shouldExist, c.shouldExist, {}, map[], Elsewhere(c.shouldExist, [], c.shouldNotExist));
    StepSays(x.shouldNotExist, c.shouldNotExist, {}, map[], Elsewhere(c.shouldNotExist, c.shouldExist, []));
  }

  // ---------- no patch

  /** Every entry of the child was there already, with every field of the child. */
  ghost predicate HadFields(xs: seq<Entry>, cs: seq<Entry>) {
    forall i | 0 <= i < |cs| :: HadEntry(xs, cs[i])
  }

  ghost predicate HadEntry(xs: seq<Entry>, c: Entry) { exists h | 0 <= h < |xs| :: HasFields(xs[h], c) }

  ghost predicate HasFields(x: Entry, c: Entry) {
    x.key == c.key && forall f | f in c.fields :: f in x.fields && x.fields[f] == c.fields[f]
  }

  lemma SameHadFields(ps: seq<Entry>, removed: set<string>, drops: map<string, seq<string>>, cs: seq<Entry>, elsewhere: set<string>, rs: seq<Entry>)
    requires ListSays(ps, removed, drops, cs, elsewhere, rs) && SameContent(rs, ps) && DistinctKeys(rs, EntryKey)
    requires forall i | 0 <= i < |cs| :: cs[i].key !in elsewhere
    ensures HadFields(ps, cs)
  {
    hide Find, Kept, HasEntry, DistinctKeys;
    forall i | 0 <= i < |cs|
      ensures HadEntry(ps, cs[i])
    {
      var c := cs[i];
      assert ChildArrives(ps, removed, drops, c, elsewhere, rs);
      var j := Arrived(ps, removed, drops, c, elsewhere, rs);
      FindAt(rs, EntryKey, j);
      HasEntryIs(ps, c.key);
      assert Find(ps, EntryKey, c.key) == Find(rs, EntryKey, c.key);
      var h :| 0 <= h < |ps| && ps[h] == rs[j];
    }
  }

  lemma Arrived(ps: seq<Entry>, removed: set<string>, drops: map<string, seq<string>>, c: Entry, elsewhere: set<string>, rs: seq<Entry>) returns (j: nat)
    requires ChildArrives(ps, removed, drops, c, elsewhere, rs) && c.key !in elsewhere
    ensures j < |rs| && HasFields(rs[j], c)
  {
    hide Kept, HasEntry;
    if c in rs {
      j :| 0 <= j < |rs| && rs[j] == c;
    } else {
      var h, i :| 0 <= h < |ps| && 0 <= i < |rs| && OverKept(ps[h], Listed(drops, c.key), c, rs[i]);
      j := i;
    }
  }

  /** If a call finds nothing to do, the configuration had every field of every entry
      of the child that is compared. */
  lemma NoPatchHadFields(s: string, parse: Parser, u: Updates)
    requires parse(s).Some? && NoDuplicates(parse(s).value) && ChildListsOk(u.config)
    requires UpdateOf(Some(s), parse, u) == NoPatch
    ensures var x, c := parse(s).value, u.config;
      && (c.version != "" ==> x.version == c.version)
      && (forall f | f in c.settings.fields :: f in x.settings.fields && x.settings.fields[f] == c.settings.fields[f])
      && HadFields(x.directories, c.directories) && HadFields(x.files, c.files) && HadFields(x.links, c.links)
      && HadFields(x.disks, c.disks) && HadFields(x.raid, c.raid) && HadFields(x.filesystems, c.filesystems)
      && HadFields(x.units, c.units) && HadFields(x.users, c.users) && HadFields(x.groups, c.groups)
  {
    hide UpdatedConfig, ListSays, ListsOk, SameContent, HadFields, ChildConfigOk, KernelApart, SameConfig, DistinctConfig, EntryOver;
    var x, c := parse(s).value, u.config;
    var y := UpdatedConfig(x, u);
    if !OneKind(c) {
      TwoKindsPatch(x, u);
      assert false;
    }
    ListsAreDistinct(x);
    NoPatchIsSameContent(x, u);
    UpdateDoes(x, u);
    HadAll(x, u, y);
  }

  lemma HadAll(x: Config, u: Updates, y: Config)
    requires UpdateSays(x, u, y) && OneKind(u.config)
    requires y.version == x.version && y.settings == x.settings
    requires SameContent(y.files, x.files) && SameContent(y.directories, x.directories) && SameContent(y.links, x.links)
    requires SameContent(y.disks, x.disks) && SameContent(y.raid, x.raid) && SameContent(y.filesystems, x.filesystems)
    requires SameContent(y.units, x.units) && SameContent(y.users, x.users) && SameContent(y.groups, x.groups)
    ensures var c := u.config;
      && (c.version != "" ==> x.version == c.version)
      && (forall f | f in c.settings.fields :: f in x.settings.fields && x.settings.fields[f] == c.settings.fields[f])
      && HadFields(x.directories, c.directories) && HadFields(x.files, c.files) && HadFields(x.links, c.links)
      && HadFields(x.disks, c.disks) && HadFields(x.raid, c.raid) && HadFields(x.filesystems, c.filesystems)
      && HadFields(x.units, c.units) && HadFields(x.users, c.users) && HadFields(x.groups, c.groups)
  {
    hide SameContent, HadFields, ChildArrives, SurvivorSays, HasEntry, ItemsOver, Keys;
    var c := u.config;
    KeysAre(c.directories);
    KeysAre(c.files);
    KeysAre(c.links);
    hide ListSays, DistinctKeys;
    ListHad(x.directories, (set k | k in u.directories), map[], c.directories, KeysOfEntries(c.files) + KeysOfEntries(c.links), y.directories);
    ListHad(x.files, (set k | k in u.files), map[], c.files, KeysOfEntries(c.links) + (KeysOfEntries(c.directories) - KeysOfEntries(c.files)), y.files);
    ListHad(x.links, {}, map[], c.links, KeysOfEntries(c.directories) + KeysOfEntries(c.files) - KeysOfEntries(c.links), y.links);
    ListHad(x.disks, {}, map[], c.disks, {}, y.disks);
    ListHad(x.raid, {}, map[], c.raid, {}, y.raid);
    ListHad(x.filesystems, {}, map[], c.filesystems, {}, y.filesystems);
    ListHad(x.units, (set n | n in u.units && u.units[n] == []), u.units, c.units, {}, y.units);
    ListHad(x.users, (set k | k in u.users), map[], c.users, {}, y.users);
    ListHad(x.groups, {}, map[], c.groups, {}, y.groups);
  }

  lemma ListHad(ps: seq<Entry>, removed: set<string>, drops: map<string, seq<string>>, cs: seq<Entry>, elsewhere: set<string>, rs: seq<Entry>)
    requires ListSays(ps, removed, drops, cs, elsewhere, rs) && SameContent(rs, ps) && KeysOfEntries(cs) !! elsewhere
    ensures HadFields(ps, cs)
  {
    hide ChildArrives, SurvivorSays, HasEntry, SameContent, HadFields;
    forall i, j | 0 <= i < |rs| && 0 <= j < |rs| && i != j
      ensures EntryKey(rs[i]) != EntryKey(rs[j])
    {
      assert if i < j then rs[i].key != rs[j].key else rs[j].key != rs[i].key;
    }
    forall i | 0 <= i < |cs|
      ensures cs[i].key !in elsewhere
    {
      assert EntryKey(cs[i]) in Keys(cs, EntryKey);
    }
    hide ListSays;
    SameHadFields(ps, removed, drops, cs, elsewhere, rs);
  }
}
