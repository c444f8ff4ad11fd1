/** UpdateIgnition (pkg/cluster/driver/capi/capi.go): remove, merge, and patch
    only if that made a difference. */
module IgnitionUpdate {
  import opened Text
  import opened IgnitionTypes
  import opened IgnitionCompare
  import opened IgnitionMerge
  import opened IgnitionSettle

  // ---------- one list

  function ToSet(s: seq<string>): set<string> { set x | x in s }

  /** The dropins to remove from the unit of a name. */
  function Dropped(drops: map<string, seq<string>>, k: string): set<string> {
    if k in drops then ToSet(drops[k]) else {}
  }

  function StripEntry(e: Entry, drops: map<string, seq<string>>): Entry {
    if e.key in drops then StripDropins(e, ToSet(drops[e.key])) else e
  }

  function StripAll(s: seq<Entry>, drops: map<string, seq<string>>): seq<Entry> {
    if s == [] then [] else [StripEntry(s[0], drops)] + StripAll(s[1..], drops)
  }

  /** Entries with the keys in `removed` go, dropins go, then the child is merged. */
  function Step(ps: seq<Entry>, cs: seq<Entry>, removed: set<string>, drops: map<string, seq<string>>, elsewhere: set<string>): seq<Entry> {
    MergeEntries(StripAll(Without(ps, EntryKey, removed), drops), cs, elsewhere)
  }

  function StripFound(e: Option<Entry>, drops: map<string, seq<string>>): Option<Entry> {
    match e case None => None case Some(e) => Some(StripEntry(e, drops))
  }

  /** The effect on what a key stands for. */
  function Updated(p: Option<Entry>, c: Option<Entry>, removed: bool, drops: map<string, seq<string>>, elsewhere: bool): Option<Entry> {
    Merged(if removed then None else StripFound(p, drops), c, elsewhere)
  }

  lemma {:induction false} StripAllByKey(s: seq<Entry>, drops: map<string, seq<string>>)
    ensures |StripAll(s, drops)| == |s|
    ensures forall i | 0 <= i < |s| :: StripAll(s, drops)[i] == StripEntry(s[i], drops)
    ensures forall k :: Find(StripAll(s, drops), EntryKey, k) == StripFound(Find(s, EntryKey, k), drops)
  {
    if s != [] {
      StripAllByKey(s[1..], drops);
      var rest := StripAll(s[1..], drops);
      assert StripAll(s, drops)[1..] == rest;
    }
  }

  ghost predicate ListEffect(ps: seq<Entry>, cs: seq<Entry>, removed: set<string>, drops: map<string, seq<string>>, elsewhere: set<string>, r: seq<Entry>) {
    && DistinctKeys(r, EntryKey)
    && forall k :: Find(r, EntryKey, k)
                == Updated(Find(ps, EntryKey, k), Find(cs, EntryKey, k), k in removed, drops, k in elsewhere)
  }

  lemma StepEffect(ps: seq<Entry>, cs: seq<Entry>, removed: set<string>, drops: map<string, seq<string>>, elsewhere: set<string>)
    requires DistinctKeys(ps, EntryKey) && DistinctKeys(cs, EntryKey)
    ensures ListEffect(ps, cs, removed, drops, elsewhere, Step(ps, cs, removed, drops, elsewhere))
  {
    hide Find, Without, MergeEntries, StripAll, MergeEntry;
    var left := Without(ps, EntryKey, removed);
    DistinctWithout(ps, EntryKey, removed);
    StripAllByKey(left, drops);
    var stripped := StripAll(left, drops);
    assert DistinctKeys(stripped, EntryKey) by {
      forall i, j | 0 <= i < |stripped| && 0 <= j < |stripped| && i != j
        ensures EntryKey(stripped[i]) != EntryKey(stripped[j])
      {
        assert stripped[i].key == left[i].key && stripped[j].key == left[j].key;
        assert EntryKey(left[i]) != EntryKey(left[j]);
      }
    }
    MergeByKey(stripped, cs, elsewhere);
    forall k
      ensures Find(stripped, EntryKey, k) == if k in removed then None else StripFound(Find(ps, EntryKey, k), drops)
    {
      FindWithout(ps, EntryKey, removed, k);
    }
  }

  ghost predicate ChildOk(cs: seq<Entry>) {
    DistinctKeys(cs, EntryKey) && forall i | 0 <= i < |cs| :: Proper(cs[i]) && ItemsDistinct(cs[i])
  }

  /** No child entry that is merged anew each time keeps growing or moving, or takes
      turns with an entry of another list. */
  ghost predicate SettledList(ps: seq<Entry>, cs: seq<Entry>, removed: set<string>, drops: map<string, seq<string>>, elsewhere: set<string>) {
    forall k | Find(cs, EntryKey, k).Some? && k !in removed ::
      k !in elsewhere && SettledEntry(StripFound(Find(ps, EntryKey, k), drops), Find(cs, EntryKey, k).value, Dropped(drops, k))
  }

  lemma StripNothing(e: Entry)
    requires Proper(e)
    ensures StripDropins(e, {}) == e
  {
    WithoutNone(Items(e, DROPINS), ItemKey, {});
  }

  lemma StripTwice(e: Entry, drops: map<string, seq<string>>)
    ensures StripEntry(StripEntry(e, drops), drops) == StripEntry(e, drops)
  {
    if e.key in drops {
      var d := ToSet(drops[e.key]);
      StripItems(e, d, DROPINS);
      var left := Without(Items(e, DROPINS), ItemKey, d);
      KeysWithout(Items(e, DROPINS), ItemKey, d);
      WithoutNone(left, ItemKey, d);
    }
  }

  lemma StrippedDropins(e: Entry, drops: map<string, seq<string>>)
    ensures Keys(Items(StripEntry(e, drops), DROPINS), ItemKey) !! Dropped(drops, e.key)
  {
    if e.key in drops {
      StripItems(e, ToSet(drops[e.key]), DROPINS);
      KeysWithout(Items(e, DROPINS), ItemKey, ToSet(drops[e.key]));
    }
  }

  /** One key, twice. */
  lemma KeySettles(p: Option<Entry>, c: Option<Entry>, k: string, removed: bool, drops: map<string, seq<string>>, elsewhere: bool)
    requires p.Some? ==> p.value.key == k
    requires c.Some? ==> c.value.key == k && Proper(c.value) && ItemsDistinct(c.value)
    ensures var r := Updated(p, c, removed, drops, elsewhere);
      Updated(r, c, removed, drops, elsewhere) == r
      <==> (c.Some? && !removed ==> !elsewhere && SettledEntry(StripFound(p, drops), c.value, Dropped(drops, k)))
  {
    hide MergeEntry, SettledEntry, StripDropins, Items, ItemsDistinct, Proper;
    match c {
      case None =>
        if p.Some? { StripTwice(p.value, drops); }
      case Some(child) =>
        if !removed && !elsewhere {
          var q := StripFound(p, drops);
          if p.Some? { StrippedDropins(p.value, drops); } else { NoKeys(Dropped(drops, k)); }
          var r := FirstRound(q, child);
          FirstRoundProper(q, child);
          if k !in drops {
            StripNothing(r);
          }
          EntrySettles(q, child, Dropped(drops, k));
          assert StripEntry(r, drops) == StripDropins(r, Dropped(drops, k));
        }
    }
  }

  lemma NoKeys(d: set<string>)
    ensures Keys(ItemsIn(None, DROPINS), ItemKey) !! d
  {
  }

  lemma FirstRoundProper(p: Option<Entry>, c: Entry)
    requires Proper(c)
    ensures Proper(FirstRound(p, c)) && FirstRound(p, c).key == c.key
  {
  }

  lemma StepSettlesAt(ps: seq<Entry>, cs: seq<Entry>, removed: set<string>, drops: map<string, seq<string>>, elsewhere: set<string>, k: string)
    requires DistinctKeys(ps, EntryKey) && ChildOk(cs)
    ensures var one := Step(ps, cs, removed, drops, elsewhere);
      Find(Step(one, cs, removed, drops, elsewhere), EntryKey, k) == Find(one, EntryKey, k)
      <==> (Find(cs, EntryKey, k).Some? && k !in removed ==>
             k !in elsewhere && SettledEntry(StripFound(Find(ps, EntryKey, k), drops), Find(cs, EntryKey, k).value, Dropped(drops, k)))
  {
    hide Find, Step, SettledEntry, Proper, ItemsDistinct, Updated, DistinctKeys;
    var one := Step(ps, cs, removed, drops, elsewhere);
    StepEffect(ps, cs, removed, drops, elsewhere);
    StepEffect(one, cs, removed, drops, elsewhere);
    FindIs(ps, EntryKey, k);
    FindIs(cs, EntryKey, k);
    KeySettles(Find(ps, EntryKey, k), Find(cs, EntryKey, k), k, k in removed, drops, k in elsewhere);
  }

  lemma StepSettles(ps: seq<Entry>, cs: seq<Entry>, removed: set<string>, drops: map<string, seq<string>>, elsewhere: set<string>)
    requires DistinctKeys(ps, EntryKey) && ChildOk(cs)
    ensures var one := Step(ps, cs, removed, drops, elsewhere);
      && (SameEntries(Step(one, cs, removed, drops, elsewhere), one) <==> SettledList(ps, cs, removed, drops, elsewhere))
      && (SameContent(Step(one, cs, removed, drops, elsewhere), one) <==> SettledList(ps, cs, removed, drops, elsewhere))
      && DistinctKeys(one, EntryKey) && DistinctKeys(Step(one, cs, removed, drops, elsewhere), EntryKey)
  {
    hide Find, Step, SettledEntry, Updated, SameEntries, Proper, ItemsDistinct, DistinctKeys;
    var one := Step(ps, cs, removed, drops, elsewhere);
    StepEffect(ps, cs, removed, drops, elsewhere);
    StepEffect(one, cs, removed, drops, elsewhere);
    SameEntriesIsSameContent(Step(one, cs, removed, drops, elsewhere), one);
    forall k
      ensures Find(Step(one, cs, removed, drops, elsewhere), EntryKey, k) == Find(one, EntryKey, k)
        <==> (Find(cs, EntryKey, k).Some? && k !in removed ==>
               k !in elsewhere && SettledEntry(StripFound(Find(ps, EntryKey, k), drops), Find(cs, EntryKey, k).value, Dropped(drops, k)))
    {
      StepSettlesAt(ps, cs, removed, drops, elsewhere, k);
    }
  }

  // ---------- lists compared with their order

  lemma {:induction false} StripAllNothing(s: seq<Entry>)
    ensures StripAll(s, map[]) == s
  {
    if s != [] {
      StripAllNothing(s[1..]);
    }
  }

  lemma {:induction false} OverKeepsOrder(ps: seq<Entry>, cs: seq<Entry>)
    ensures |OverEntries(ps, cs, {})| == |ps|
    ensures forall i | 0 <= i < |ps| :: OverEntries(ps, cs, {})[i].key == ps[i].key
  {
    if ps != [] {
      OverKeepsOrder(ps[1..], cs);
      FindIs(cs, EntryKey, ps[0].key);
    }
  }

  function Laid(ps: seq<Entry>, cs: seq<Entry>): seq<Entry> { Step(ps, cs, {}, map[], {}) }

  lemma LaidIs(ps: seq<Entry>, cs: seq<Entry>)
    ensures Laid(ps, cs) == OverEntries(ps, cs, {}) + Without(cs, EntryKey, Keys(ps, EntryKey))
  {
    hide Without, StripAll, Keys, OverEntries;
    WithoutNone(ps, EntryKey, {});
    StripAllNothing(ps);
  }

  lemma SameContentSameOrder(one: seq<Entry>, cs: seq<Entry>)
    requires DistinctKeys(one, EntryKey) && DistinctKeys(Laid(one, cs), EntryKey) && SameContent(Laid(one, cs), one)
    ensures Laid(one, cs) == one
  {
    hide Find, OverEntries, Without, Laid, Keys;
    var over, added := OverEntries(one, cs, {}), Without(cs, EntryKey, Keys(one, EntryKey));
    var two := Laid(one, cs);
    LaidIs(one, cs);
    OverKeepsOrder(one, cs);
    SameEntriesIsSameContent(two, one);
    assert |two| == |one| by { SameLength(two, one); }
    assert two == over;
    forall i | 0 <= i < |one|
      ensures two[i] == one[i]
    {
      FindAt(two, EntryKey, i);
      FindAt(one, EntryKey, i);
      assert EntryKey(two[i]) == EntryKey(one[i]);
    }
  }

  lemma LaidSettles(ps: seq<Entry>, cs: seq<Entry>)
    requires DistinctKeys(ps, EntryKey) && ChildOk(cs)
    ensures var one := Laid(ps, cs);
      && (Laid(one, cs) == one <==> SettledList(ps, cs, {}, map[], {}))
      && (multiset(Laid(one, cs)) == multiset(one) <==> SettledList(ps, cs, {}, map[], {}))
  {
    hide Find, Step, SettledList, DistinctKeys, Proper, ItemsDistinct;
    var one := Laid(ps, cs);
    StepSettles(ps, cs, {}, map[], {});
    if SettledList(ps, cs, {}, map[], {}) {
      SameContentSameOrder(one, cs);
    } else if multiset(Laid(one, cs)) == multiset(one) {
      SameMultisetSameContent(Laid(one, cs), one);
      assert false;
    }
  }

  // ---------- the whole configuration

  datatype Updates = Updates(
    config: Config,
    files: seq<string>,
    directories: seq<string>,
    users: seq<string>,
    units: map<string, seq<string>>)

  /** Units listed without dropins are removed whole. */
  function WholeUnits(u: Updates): set<string> { set n | n in u.units && u.units[n] == [] }

  function KeysOfEntries(s: seq<Entry>): set<string> { Keys(s, EntryKey) }

  predicate NoIgnitionSection(c: Config) {
    c.version == "" && c.settings.fields == map[] && c.settings.lists == map[] && c.authorities == [] && c.mergeRefs == []
  }

  /** The keys whose entry in the child is found in another list than `cs`: that in
      the last list counts. */
  function Elsewhere(cs: seq<Entry>, earlier: seq<Entry>, later: seq<Entry>): set<string> {
    KeysOfEntries(later) + (KeysOfEntries(earlier) - KeysOfEntries(cs))
  }

  function OtherThanDirectories(c: Config): set<string> { Elsewhere(c.directories, [], c.files + c.links) }
  function OtherThanFiles(c: Config): set<string> { Elsewhere(c.files, c.directories, c.links) }
  function OtherThanLinks(c: Config): set<string> { Elsewhere(c.links, c.directories + c.files, []) }

  /** Merge (pkg/cluster/ignition/ignition.go): every list of the child over the
      parent's, nodes and kernel arguments across their lists. */
  function Merge(x: Config, c: Config): Config {
    Config(
      if NoIgnitionSection(c) then x.version else c.version,
      MergeEntry(x.settings, c.settings),
      MergeEntries(x.authorities, c.authorities, {}),
      MergeEntries(x.mergeRefs, c.mergeRefs, {}),
      MergeEntries(x.directories, c.directories, OtherThanDirectories(c)),
      MergeEntries(x.files, c.files, OtherThanFiles(c)),
      MergeEntries(x.links, c.links, OtherThanLinks(c)),
      MergeEntries(x.disks, c.disks, {}),
      MergeEntries(x.raid, c.raid, {}),
      MergeEntries(x.filesystems, c.filesystems, {}),
      MergeEntries(x.luks, c.luks, {}),
      MergeEntries(x.units, c.units, {}),
      MergeEntries(x.users, c.users, {}),
      MergeEntries(x.groups, c.groups, {}),
      MergeEntries(x.shouldExist, c.shouldExist, Elsewhere(c.shouldExist, [], c.shouldNotExist)),
      MergeEntries(x.shouldNotExist, c.shouldNotExist, Elsewhere(c.shouldNotExist, c.shouldExist, [])))
  }

  /** What the filters leave. */
  function Stripped(x: Config, u: Updates): Config {
    x.(files := Without(x.files, EntryKey, ToSet(u.files)),
       directories := Without(x.directories, EntryKey, ToSet(u.directories)),
       users := Without(x.users, EntryKey, ToSet(u.users)),
       units := StripAll(Without(x.units, EntryKey, WholeUnits(u)), u.units))
  }

  /** What the configuration is after removing and merging. */
  function UpdatedConfig(x: Config, u: Updates): Config { Merge(Stripped(x, u), u.config) }

  /** The same, each list by itself. */
  function ListByList(x: Config, u: Updates): Config {
    var c := u.config;
    Config(
      if NoIgnitionSection(c) then x.version else c.version,
      MergeEntry(x.settings, c.settings),
      Laid(x.authorities, c.authorities),
      Laid(x.mergeRefs, c.mergeRefs),
      Step(x.directories, c.directories, ToSet(u.directories), map[], OtherThanDirectories(c)),
      Step(x.files, c.files, ToSet(u.files), map[], OtherThanFiles(c)),
      Step(x.links, c.links, {}, map[], OtherThanLinks(c)),
      Laid(x.disks, c.disks),
      Laid(x.raid, c.raid),
      Laid(x.filesystems, c.filesystems),
      Laid(x.luks, c.luks),
      Step(x.units, c.units, WholeUnits(u), u.units, {}),
      Step(x.users, c.users, ToSet(u.users), map[], {}),
      Laid(x.groups, c.groups),
      Step(x.shouldExist, c.shouldExist, {}, map[], Elsewhere(c.shouldExist, [], c.shouldNotExist)),
      Step(x.shouldNotExist, c.shouldNotExist, {}, map[], Elsewhere(c.shouldNotExist, c.shouldExist, [])))
  }

  lemma UpdatedIs(x: Config, u: Updates)
    ensures UpdatedConfig(x, u) == ListByList(x, u)
  {
    hide Without, StripAll, MergeEntry, MergeEntries, Elsewhere, NoIgnitionSection;
    OnlyMerged(x.authorities);
    OnlyMerged(x.mergeRefs);
    OnlyMerged(x.links);
    OnlyMerged(x.disks);
    OnlyMerged(x.raid);
    OnlyMerged(x.filesystems);
    OnlyMerged(x.luks);
    OnlyMerged(x.groups);
    OnlyMerged(x.shouldExist);
    OnlyMerged(x.shouldNotExist);
    StripAllNothing(Without(x.files, EntryKey, ToSet(u.files)));
    StripAllNothing(Without(x.directories, EntryKey, ToSet(u.directories)));
    StripAllNothing(Without(x.users, EntryKey, ToSet(u.users)));
  }

  lemma OnlyMerged(s: seq<Entry>)
    ensures StripAll(Without(s, EntryKey, {}), map[]) == s
  {
    WithoutNone(s, EntryKey, {});
    StripAllNothing(s);
  }

  /** Distinct keys in each list. */
  ghost predicate DistinctConfig(x: Config) {
    && DistinctKeys(x.authorities, EntryKey) && DistinctKeys(x.mergeRefs, EntryKey)
    && DistinctKeys(x.directories, EntryKey) && DistinctKeys(x.files, EntryKey) && DistinctKeys(x.links, EntryKey)
    && DistinctKeys(x.disks, EntryKey) && DistinctKeys(x.raid, EntryKey) && DistinctKeys(x.filesystems, EntryKey)
    && DistinctKeys(x.units, EntryKey) && DistinctKeys(x.users, EntryKey) && DistinctKeys(x.groups, EntryKey)
  }

  ghost predicate ChildConfigOk(c: Config) {
    && Proper(c.settings) && ItemsDistinct(c.settings)
    && ChildOk(c.authorities) && ChildOk(c.mergeRefs)
    && ChildOk(c.directories) && ChildOk(c.files) && ChildOk(c.links)
    && ChildOk(c.disks) && ChildOk(c.raid) && ChildOk(c.filesystems)
    && ChildOk(c.units) && ChildOk(c.users) && ChildOk(c.groups)
  }

  /** The exact condition for a second update to find nothing to do: what the
      update merges each time anew neither grows, flips nor moves. */
  ghost predicate SettledUpdate(x: Config, u: Updates) {
    var c := u.config;
    && SettledEntry(Some(x.settings), c.settings, {})
    && SettledList(x.authorities, c.authorities, {}, map[], {})
    && SettledList(x.mergeRefs, c.mergeRefs, {}, map[], {})
    && SettledList(x.directories, c.directories, ToSet(u.directories), map[], OtherThanDirectories(c))
    && SettledList(x.files, c.files, ToSet(u.files), map[], OtherThanFiles(c))
    && SettledList(x.links, c.links, {}, map[], OtherThanLinks(c))
    && SettledList(x.disks, c.disks, {}, map[], {})
    && SettledList(x.raid, c.raid, {}, map[], {})
    && SettledList(x.filesystems, c.filesystems, {}, map[], {})
    && SettledList(x.units, c.units, WholeUnits(u), u.units, {})
    && SettledList(x.users, c.users, ToSet(u.users), map[], {})
    && SettledList(x.groups, c.groups, {}, map[], {})
  }

  lemma SettingsSettle(p: Entry, c: Entry)
    requires Proper(c) && ItemsDistinct(c)
    ensures var r := MergeEntry(p, c); MergeEntry(r, c) == r <==> SettledEntry(Some(p), c, {})
  {
    hide MergeEntry, SettledEntry, StripDropins, ItemsDistinct;
    var r := MergeEntry(p, c);
    MergeListItems(p, c, "");
    KeysDisjointEmpty(ItemsIn(Some(p), DROPINS));
    EntrySettles(Some(p), c, {});
    StripNothing(r);
  }

  lemma StoreSettles(x: Config, u: Updates)
    requires DistinctConfig(x) && ChildConfigOk(u.config)
    ensures var y := UpdatedConfig(x, u); var z := UpdatedConfig(y, u); var c := u.config;
      && (SameEntries(z.directories, y.directories) <==> SettledList(x.directories, c.directories, ToSet(u.directories), map[], OtherThanDirectories(c)))
      && (SameEntries(z.files, y.files) <==> SettledList(x.files, c.files, ToSet(u.files), map[], OtherThanFiles(c)))
      && (SameEntries(z.links, y.links) <==> SettledList(x.links, c.links, {}, map[], OtherThanLinks(c)))
      && (SameEntries(z.disks, y.disks) <==> SettledList(x.disks, c.disks, {}, map[], {}))
      && (SameEntries(z.raid, y.raid) <==> SettledList(x.raid, c.raid, {}, map[], {}))
      && (SameEntries(z.filesystems, y.filesystems) <==> SettledList(x.filesystems, c.filesystems, {}, map[], {}))
      && (SameEntries(z.groups, y.groups) <==> SettledList(x.groups, c.groups, {}, map[], {}))
      && (SameEntries(z.users, y.users) <==> SettledList(x.users, c.users, ToSet(u.users), map[], {}))
  {
    hide UpdatedConfig, Step, MergeEntry, SettledList, SettledEntry, SameEntries, DistinctKeys, ChildOk, NoIgnitionSection, ToSet, Elsewhere;
    var c := u.config;
    UpdatedIs(x, u);
    UpdatedIs(UpdatedConfig(x, u), u);
    StepSettles(x.directories, c.directories, ToSet(u.directories), map[], OtherThanDirectories(c));
    StepSettles(x.files, c.files, ToSet(u.files), map[], OtherThanFiles(c));
    StepSettles(x.links, c.links, {}, map[], OtherThanLinks(c));
    StepSettles(x.disks, c.disks, {}, map[], {});
    StepSettles(x.raid, c.raid, {}, map[], {});
    StepSettles(x.filesystems, c.filesystems, {}, map[], {});
    StepSettles(x.groups, c.groups, {}, map[], {});
    StepSettles(x.users, c.users, ToSet(u.users), map[], {});
  }

  /** Applying the same update to its own result yields no patch exactly when the
      update is settled for the configuration. */
  lemma SecondUpdate(x: Config, u: Updates)
    requires DistinctConfig(x) && ChildConfigOk(u.config)
    ensures var y := UpdatedConfig(x, u); SameConfig(UpdatedConfig(y, u), y) <==> SettledUpdate(x, u)
  {
    hide UpdatedConfig, Step, MergeEntry, SettledList, SettledEntry, SameEntries, DistinctKeys, ChildOk, DropinsAgree, ToSet, WholeUnits, Elsewhere;
    var y, c := UpdatedConfig(x, u), u.config;
    var z := UpdatedConfig(y, u);
    UpdatedIs(x, u);
    UpdatedIs(y, u);
    SettingsSettle(x.settings, c.settings);
    LaidSettles(x.authorities, c.authorities);
    LaidSettles(x.mergeRefs, c.mergeRefs);
    StoreSettles(x, u);
    StepSettles(x.units, c.units, WholeUnits(u), u.units, {});
    if SameEntries(z.units, y.units) {
      UnitsImplyDropins(z.units, y.units);
    }
  }

  // ---------- a condition on the update alone

  /** No list that grows or flips, and removed dropins after the others. */
  ghost predicate PlainEntry(c: Entry, removed: set<string>) {
    forall n | n in c.lists ::
      && PolicyOf(n) != Appended
      && AllValued(PolicyOf(n), c.lists[n])
      && (n == DROPINS ==> RemovedLast(c.lists[n], removed))
  }

  ghost predicate PlainList(cs: seq<Entry>, removed: set<string>, drops: map<string, seq<string>>) {
    forall i | 0 <= i < |cs| && cs[i].key !in removed :: PlainEntry(cs[i], Dropped(drops, cs[i].key))
  }

  /** No path is named as two kinds of node. */
  ghost predicate OneKind(x: Config) {
    KeysOfEntries(x.directories) !! KeysOfEntries(x.files) !! KeysOfEntries(x.links)
  }

  ghost predicate PlainUpdate(u: Updates) {
    var c := u.config;
    && OneKind(c)
    && PlainEntry(c.settings, {}) && PlainList(c.authorities, {}, map[]) && PlainList(c.mergeRefs, {}, map[])
    && PlainList(c.directories, ToSet(u.directories), map[]) && PlainList(c.files, ToSet(u.files), map[])
    && PlainList(c.links, {}, map[]) && PlainList(c.disks, {}, map[]) && PlainList(c.raid, {}, map[])
    && PlainList(c.filesystems, {}, map[]) && PlainList(c.units, WholeUnits(u), u.units)
    && PlainList(c.users, ToSet(u.users), map[]) && PlainList(c.groups, {}, map[])
  }

  lemma PlainEntrySettles(p: Option<Entry>, c: Entry, removed: set<string>)
    requires PlainEntry(c, removed)
    ensures SettledEntry(p, c, removed)
  {
    forall n | n in c.lists
      ensures SettledItems(PolicyOf(n), ItemsIn(p, n), c.lists[n], DropOf(n, removed))
    {
      var cs, gone := c.lists[n], Keys(ItemsIn(p, n), ItemKey);
      var at := WithoutPositions(cs, ItemKey, gone);
      var left := Without(cs, ItemKey, gone);
      if PolicyOf(n) == Keyed && n == DROPINS {
        forall i, j | 0 <= i < j < |left|
          ensures left[i].key in removed ==> left[j].key in removed
        {
          assert left[i] == cs[at[i]] && left[j] == cs[at[j]] && at[i] < at[j];
        }
      }
    }
  }

  lemma PlainListSettles(ps: seq<Entry>, cs: seq<Entry>, removed: set<string>, drops: map<string, seq<string>>, elsewhere: set<string>)
    requires PlainList(cs, removed, drops) && KeysOfEntries(cs) !! elsewhere
    ensures SettledList(ps, cs, removed, drops, elsewhere)
  {
    hide Find, PlainEntry, SettledEntry;
    forall k | Find(cs, EntryKey, k).Some? && k !in removed
      ensures k !in elsewhere && SettledEntry(StripFound(Find(ps, EntryKey, k), drops), Find(cs, EntryKey, k).value, Dropped(drops, k))
    {
      FindIs(cs, EntryKey, k);
      var i :| 0 <= i < |cs| && cs[i] == Find(cs, EntryKey, k).value;
      PlainEntrySettles(StripFound(Find(ps, EntryKey, k), drops), cs[i], Dropped(drops, k));
    }
  }

  /** An update that is plain, apart from entries it removes and adds anew, is
      settled for every configuration, whatever it removes and adds again. */
  lemma PlainUpdateSettles(x: Config, u: Updates)
    requires PlainUpdate(u)
    ensures SettledUpdate(x, u)
  {
    hide PlainList, PlainEntry, SettledList, SettledEntry, ToSet, WholeUnits, Keys;
    var c := u.config;
    OthersAre(c);
    PlainEntrySettles(Some(x.settings), c.settings, {});
    PlainListSettles(x.authorities, c.authorities, {}, map[], {});
    PlainListSettles(x.mergeRefs, c.mergeRefs, {}, map[], {});
    PlainListSettles(x.directories, c.directories, ToSet(u.directories), map[], OtherThanDirectories(c));
    PlainListSettles(x.files, c.files, ToSet(u.files), map[], OtherThanFiles(c));
    PlainListSettles(x.links, c.links, {}, map[], OtherThanLinks(c));
    PlainListSettles(x.disks, c.disks, {}, map[], {});
    PlainListSettles(x.raid, c.raid, {}, map[], {});
    PlainListSettles(x.filesystems, c.filesystems, {}, map[], {});
    PlainListSettles(x.units, c.units, WholeUnits(u), u.units, {});
    PlainListSettles(x.users, c.users, ToSet(u.users), map[], {});
    PlainListSettles(x.groups, c.groups, {}, map[], {});
  }

  lemma OthersAre(c: Config)
    ensures var d, f, l := KeysOfEntries(c.directories), KeysOfEntries(c.files), KeysOfEntries(c.links);
      OtherThanDirectories(c) == f + l && OtherThanFiles(c) == l + (d - f) && OtherThanLinks(c) == d + f - l
  {
    KeysAppend(c.files, c.links, EntryKey);
    KeysAppend(c.directories, c.files, EntryKey);
  }

  const NO_ENTRY := Entry("", map[], map[])
  const NO_CONFIG := Config("3.4.0", NO_ENTRY, [], [], [], [], [], [], [], [], [], [], [], [], [], [])

  const MOVED_UNIT := Entry("u.service", map[], map[DROPINS := [Item("d.conf", map[]), Item("e.conf", map[])]])
  const MOVING_UPDATE := Updates(NO_CONFIG.(units := [MOVED_UNIT]), [], [], [], map["u.service" := ["d.conf"]])

  /** Not every update is settled: one that adds the dropins d.conf and e.conf to a unit
      and lists d.conf for removal moves it behind e.conf in the second round. */
  lemma ReaddedDropinMoves()
    ensures ChildConfigOk(MOVING_UPDATE.config) && !SettledUpdate(NO_CONFIG, MOVING_UPDATE)
  {
    var u := MOVING_UPDATE;
    assert ItemKey(Item("d.conf", map[])) == "d.conf" && ItemKey(Item("e.conf", map[])) == "e.conf" && "d.conf"[0] != "e.conf"[0];
    assert ChildConfigOk(u.config) && DistinctConfig(NO_CONFIG);
    NotSettled();
    assert Find([MOVED_UNIT], EntryKey, "u.service") == Some(MOVED_UNIT);
    assert "u.service" !in WholeUnits(u) && Dropped(u.units, "u.service") == {"d.conf"};
    assert !SettledList(NO_CONFIG.units, u.config.units, WholeUnits(u), u.units, {});
  }

  lemma NotSettled()
    ensures !SettledEntry(None, MOVED_UNIT, {"d.conf"})
  {
    var cs := MOVED_UNIT.lists[DROPINS];
    assert Keys(ItemsIn(None, DROPINS), ItemKey) == {};
    WithoutNone(cs, ItemKey, {});
    assert cs[0].key == "d.conf" && cs[1].key == "e.conf" && "d.conf"[0] != "e.conf"[0];
    assert !RemovedLast(cs, {"d.conf"});
    assert PolicyOf(DROPINS) == Keyed;
  }

  // ---------- the effect

  /** Key by key, the update does to each list what Updated says. */
  lemma UpdateEffect(x: Config, u: Updates)
    requires DistinctConfig(x) && ChildConfigOk(u.config)
    ensures var r := UpdatedConfig(x, u); var c := u.config;
      && ListEffect(x.files, c.files, ToSet(u.files), map[], OtherThanFiles(c), r.files)
      && ListEffect(x.directories, c.directories, ToSet(u.directories), map[], OtherThanDirectories(c), r.directories)
      && ListEffect(x.links, c.links, {}, map[], OtherThanLinks(c), r.links)
      && ListEffect(x.disks, c.disks, {}, map[], {}, r.disks)
      && ListEffect(x.raid, c.raid, {}, map[], {}, r.raid)
      && ListEffect(x.filesystems, c.filesystems, {}, map[], {}, r.filesystems)
      && ListEffect(x.units, c.units, WholeUnits(u), u.units, {}, r.units)
      && ListEffect(x.users, c.users, ToSet(u.users), map[], {}, r.users)
      && ListEffect(x.groups, c.groups, {}, map[], {}, r.groups)
  {
    hide UpdatedConfig, Step, ListEffect, MergeEntry, ToSet, WholeUnits, DistinctKeys, Elsewhere;
    var c := u.config;
    UpdatedIs(x, u);
    StepEffect(x.files, c.files, ToSet(u.files), map[], OtherThanFiles(c));
    StepEffect(x.directories, c.directories, ToSet(u.directories), map[], OtherThanDirectories(c));
    StepEffect(x.links, c.links, {}, map[], OtherThanLinks(c));
    StepEffect(x.disks, c.disks, {}, map[], {});
    StepEffect(x.raid, c.raid, {}, map[], {});
    StepEffect(x.filesystems, c.filesystems, {}, map[], {});
    StepEffect(x.units, c.units, WholeUnits(u), u.units, {});
    StepEffect(x.users, c.users, ToSet(u.users), map[], {});
    StepEffect(x.groups, c.groups, {}, map[], {});
  }

  /** The entries that are left, apart from their dropins, with their old positions. */
  ghost predicate LeftInOrder(s: seq<Entry>, removed: set<string>, drops: map<string, seq<string>>, r: seq<Entry>, at: seq<nat>) {
    && |at| == |r|
    && (forall i | 0 <= i < |at| :: at[i] < |s| && r[i] == StripEntry(s[at[i]], drops))
    && (forall i, j | 0 <= i < j < |at| :: at[i] < at[j])
    && (forall i: nat | i < |s| :: i in at <==> s[i].key !in removed)
  }

  /** Before the merge exactly the entries not listed are left, in their order and
      with their content, but for the dropins listed of a unit that stays. */
  lemma SurvivorsKeepOrder(x: Config, u: Updates)
    returns (files: seq<nat>, directories: seq<nat>, users: seq<nat>, units: seq<nat>)
    ensures LeftInOrder(x.files, ToSet(u.files), map[], Stripped(x, u).files, files)
    ensures LeftInOrder(x.directories, ToSet(u.directories), map[], Stripped(x, u).directories, directories)
    ensures LeftInOrder(x.users, ToSet(u.users), map[], Stripped(x, u).users, users)
    ensures LeftInOrder(x.units, WholeUnits(u), u.units, Stripped(x, u).units, units)
    ensures Stripped(x, u) == x.(files := Stripped(x, u).files, directories := Stripped(x, u).directories,
                                 users := Stripped(x, u).users, units := Stripped(x, u).units)
  {
    hide Without, StripAll, ToSet, WholeUnits;
    files := WithoutPositions(x.files, EntryKey, ToSet(u.files));
    directories := WithoutPositions(x.directories, EntryKey, ToSet(u.directories));
    users := WithoutPositions(x.users, EntryKey, ToSet(u.users));
    units := WithoutPositions(x.units, EntryKey, WholeUnits(u));
    StripAllByKey(Without(x.units, EntryKey, WholeUnits(u)), u.units);
  }

  /** With distinct keys, no patch means that the version and settings are as they
      were and every key of every compared list has the content it had. */
  lemma NoPatchIsSameContent(x: Config, u: Updates)
    requires DistinctConfig(x) && ChildConfigOk(u.config)
    ensures var r := UpdatedConfig(x, u);
      SameConfig(r, x) <==>
        && r.version == x.version && r.settings == x.settings
        && r.authorities == x.authorities && multiset(r.mergeRefs) == multiset(x.mergeRefs)
        && SameContent(r.files, x.files) && SameContent(r.directories, x.directories) && SameContent(r.links, x.links)
        && SameContent(r.disks, x.disks) && SameContent(r.raid, x.raid) && SameContent(r.filesystems, x.filesystems)
        && SameContent(r.units, x.units) && SameContent(r.users, x.users) && SameContent(r.groups, x.groups)
  {
    hide Find, UpdatedConfig, SameContent, SameEntries, Updated, DistinctKeys, DropinsAgree;
    var r := UpdatedConfig(x, u);
    UpdatedIs(x, u);
    UpdateEffect(x, u);
    SameEntriesIsSameContent(r.files, x.files);
    SameEntriesIsSameContent(r.directories, x.directories);
    SameEntriesIsSameContent(r.links, x.links);
    SameEntriesIsSameContent(r.disks, x.disks);
    SameEntriesIsSameContent(r.raid, x.raid);
    SameEntriesIsSameContent(r.filesystems, x.filesystems);
    SameEntriesIsSameContent(r.units, x.units);
    SameEntriesIsSameContent(r.users, x.users);
    SameEntriesIsSameContent(r.groups, x.groups);
    if SameEntries(r.units, x.units) {
      UnitsImplyDropins(r.units, x.units);
    }
  }

  /** Kernel arguments and LUKS volumes are merged but not compared: an update of
      nothing else is never patched in. */
  lemma UncomparedUpdatesAreLost(x: Config, u: Updates)
    requires DistinctConfig(x) && Proper(x.settings) && x.settings.key == ""
    requires u == Updates(NO_CONFIG.(version := x.version, luks := u.config.luks,
      shouldExist := u.config.shouldExist, shouldNotExist := u.config.shouldNotExist), [], [], [], map[])
    ensures SameConfig(UpdatedConfig(x, u), x)
  {
    hide UpdatedConfig, Find, DistinctKeys, MergeLists;
    var r := UpdatedConfig(x, u);
    UpdatedIs(x, u);
    assert ToSet([]) == {} && WholeUnits(u) == {};
    NothingElsewhere();
    NothingLaid(x.authorities);
    NothingLaid(x.mergeRefs);
    NothingLaid(x.directories);
    NothingLaid(x.files);
    NothingLaid(x.links);
    NothingLaid(x.disks);
    NothingLaid(x.raid);
    NothingLaid(x.filesystems);
    NothingLaid(x.units);
    NothingLaid(x.users);
    NothingLaid(x.groups);
    MergeNothing(x.settings);
    assert r.version == x.version && r.settings == x.settings;
    assert r.directories == x.directories && r.files == x.files && r.links == x.links;
    assert r.units == x.units && r.users == x.users;
    assert r == x.(luks := r.luks, shouldExist := r.shouldExist, shouldNotExist := r.shouldNotExist);
    CompareReflexive(x);
  }

  lemma NothingElsewhere()
    ensures Elsewhere([], [], []) == Elsewhere([], [] + [], []) == Elsewhere([], [], [] + []) == {}
  {
    var none: seq<Entry> := [];
    assert none + none == none;
  }

  lemma NothingLaid(s: seq<Entry>)
    ensures Laid(s, []) == s
  {
    LaidIs(s, []);
    NothingOver(s);
  }

  lemma {:induction false} NothingOver(s: seq<Entry>)
    ensures OverEntries(s, [], {}) == s
  {
    if s != [] {
      NothingOver(s[1..]);
    }
  }

  lemma MergeNothing(e: Entry)
    requires Proper(e) && e.key == ""
    ensures MergeEntry(e, NO_ENTRY) == e
  {
    forall n
      ensures Items(MergeEntry(e, NO_ENTRY), n) == Items(e, n)
    {
      MergeListItems(e, NO_ENTRY, n);
      NothingOverItems(PolicyOf(n), Items(e, n));
    }
    MergeListItems(e, NO_ENTRY, "");
    SameItemsSameEntry(MergeEntry(e, NO_ENTRY), e);
  }

  lemma {:induction false} NothingOverItems(policy: Policy, s: seq<Item>)
    ensures OverItems(policy, s, []) == s
  {
    if s != [] {
      NothingOverItems(policy, s[1..]);
    }
  }

  // ---------- UpdateIgnition

  datatype Outcome = Failed | NoPatch | Patch(config: Config)

  /** What a call is to return.  `found` is what stands at the path, None if nothing
      does; `parse` is the ignition parser. */
  ghost function UpdateOf(found: Option<string>, parse: string -> Option<Config>, u: Updates): Outcome {
    if found.None? || parse(found.value).None? then Failed
    else
      var x := parse(found.value).value;
      if SameConfig(UpdatedConfig(x, u), x) then NoPatch else Patch(UpdatedConfig(x, u))
  }

  method UpdateIgnition(found: Option<string>, parse: string -> Option<Config>, u: Updates) returns (r: Outcome)
    ensures r == UpdateOf(found, parse, u)
  {
    hide SameConfig, MergeEntry, MergeEntries, Without;
    if found.None? || parse(found.value).None? {
      return Failed;
    }
    var ign := parse(found.value).value;
    var files := Without(ign.files, EntryKey, ToSet(u.files));
    var directories := Without(ign.directories, EntryKey, ToSet(u.directories));
    var users := Without(ign.users, EntryKey, ToSet(u.users));

    var unitsToRemove := {};
    var names := u.units.Keys;
    while names != {}
      invariant names <= u.units.Keys
      invariant unitsToRemove == set n | n in u.units.Keys - names && u.units[n] == []
      decreases names
    {
      var n :| n in names;
      if |u.units[n]| == 0 {
        unitsToRemove := unitsToRemove + {n};
      }
      names := names - {n};
    }
    assert unitsToRemove == WholeUnits(u);
    var units := Without(ign.units, EntryKey, unitsToRemove);
    ghost var before := units;
    for i := 0 to |units|
      invariant |units| == |before|
      invariant forall j | 0 <= j < i :: units[j] == StripEntry(before[j], u.units)
      invariant forall j | i <= j < |units| :: units[j] == before[j]
    {
      if units[i].key !in u.units {
        continue;
      }
      units := units[i := StripDropins(units[i], ToSet(u.units[units[i].key]))];
    }
    StripAllByKey(before, u.units);
    assert units == StripAll(before, u.units);

    var stripped := ign.(files := files, directories := directories, users := users, units := units);
    var merged := Merge(stripped, u.config);
    var same := Compare(Some(merged), parse(found.value));
    if same {
      return NoPatch;
    }
    return Patch(merged);
  }
}
