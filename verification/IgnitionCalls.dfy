/** One call of UpdateIgnition after another.  The parser that each call reads its
    input with refuses duplicates (ValidateDups in
    vendor/github.com/coreos/ignition/v2/config/validate/validate.go), and the
    merge can bring some in. */
module IgnitionCalls {
  import opened Text
  import opened IgnitionTypes
  import opened IgnitionCompare
  import opened IgnitionMerge
  import opened IgnitionSettle
  import opened IgnitionUpdate

  // ---------- duplicates

  ghost predicate AllItemsDistinct(s: seq<Entry>) { forall i | 0 <= i < |s| :: ItemsDistinct(s[i]) }

  ghost predicate ListOk(s: seq<Entry>) { DistinctKeys(s, EntryKey) && AllItemsDistinct(s) }

  /** No list has a key twice, lists inside entries included. */
  ghost predicate ListsOk(x: Config) {
    && ItemsDistinct(x.settings)
    && ListOk(x.authorities) && ListOk(x.mergeRefs)
    && ListOk(x.directories) && ListOk(x.files) && ListOk(x.links)
    && ListOk(x.disks) && ListOk(x.raid) && ListOk(x.filesystems) && ListOk(x.luks)
    && ListOk(x.units) && ListOk(x.users) && ListOk(x.groups)
    && ListOk(x.shouldExist) && ListOk(x.shouldNotExist)
  }

  ghost predicate KernelApart(x: Config) { KeysOfEntries(x.shouldExist) !! KeysOfEntries(x.shouldNotExist) }

  /** What ValidateDups asks, across the lists of nodes and of kernel arguments too. */
  ghost predicate NoDuplicates(x: Config) { ListsOk(x) && OneKind(x) && KernelApart(x) }

  ghost predicate ChildListsOk(c: Config) { ChildConfigOk(c) && ListsOk(c) }

  // ---------- what an update keeps

  lemma {:induction false} OverItemsDistinct(policy: Policy, ps: seq<Item>, cs: seq<Item>)
    requires DistinctKeys(ps, ItemKey)
    ensures DistinctKeys(OverItems(policy, ps, cs), ItemKey)
    ensures Keys(OverItems(policy, ps, cs), ItemKey) <= Keys(ps, ItemKey)
  {
    if ps != [] {
      var rest := OverItems(policy, ps[1..], cs);
      var head := match Find(cs, ItemKey, ps[0].key)
        case None => [ps[0]]
        case Some(c) => if policy == Headers && VALUE !in c.fields then [] else [MergeItem(ps[0], c)];
      assert DistinctKeys(ps[1..], ItemKey);
      OverItemsDistinct(policy, ps[1..], cs);
      FindIs(cs, ItemKey, ps[0].key);
      DistinctHead(ps, ItemKey);
      assert ps == [ps[0]] + ps[1..];
      KeysCons(ps[0], ps[1..], ItemKey);
      assert Keys(head, ItemKey) <= {ps[0].key};
      DistinctTail(head, rest, ItemKey);
      KeysAppend(head, rest, ItemKey);
    }
  }

  lemma MergeItemsDistinct(policy: Policy, ps: seq<Item>, cs: seq<Item>)
    requires policy != Appended && DistinctKeys(ps, ItemKey) && DistinctKeys(cs, ItemKey)
    ensures DistinctKeys(MergeItems(policy, ps, cs), ItemKey)
  {
    OverItemsDistinct(policy, ps, cs);
    DistinctWithout(cs, ItemKey, Keys(ps, ItemKey));
    KeysWithout(cs, ItemKey, Keys(ps, ItemKey));
    DistinctTail(OverItems(policy, ps, cs), Without(cs, ItemKey, Keys(ps, ItemKey)), ItemKey);
  }

  lemma MergeEntryDistinct(p: Entry, c: Entry)
    requires ItemsDistinct(p) && ItemsDistinct(c)
    ensures ItemsDistinct(MergeEntry(p, c))
  {
    hide MergeItems, DistinctKeys;
    EmptyDistinct();
    forall n | n in MergeEntry(p, c).lists && PolicyOf(n) != Appended
      ensures DistinctKeys(MergeEntry(p, c).lists[n], ItemKey)
    {
      MergeItemsDistinct(PolicyOf(n), Items(p, n), Items(c, n));
    }
  }

  lemma StripEntryDistinct(e: Entry, drops: map<string, seq<string>>)
    requires ItemsDistinct(e)
    ensures ItemsDistinct(StripEntry(e, drops))
  {
    hide DistinctKeys, Without, ToSet;
    if e.key in drops {
      EmptyDistinct();
      DistinctWithout(Items(e, DROPINS), ItemKey, ToSet(drops[e.key]));
    }
  }

  lemma {:induction false} OverEntriesDistinct(ps: seq<Entry>, cs: seq<Entry>, gone: set<string>)
    requires AllItemsDistinct(ps) && AllItemsDistinct(cs)
    ensures AllItemsDistinct(OverEntries(ps, cs, gone))
  {
    hide ItemsDistinct, MergeEntry;
    if ps != [] {
      OverEntriesDistinct(ps[1..], cs, gone);
      FindIs(cs, EntryKey, ps[0].key);
      if Find(cs, EntryKey, ps[0].key).Some? {
        MergeEntryDistinct(ps[0], Find(cs, EntryKey, ps[0].key).value);
      }
    }
  }

  lemma WithoutDistinct(s: seq<Entry>, gone: set<string>)
    requires AllItemsDistinct(s)
    ensures AllItemsDistinct(Without(s, EntryKey, gone))
  {
    hide ItemsDistinct, Without;
    var at := WithoutPositions(s, EntryKey, gone);
  }

  lemma StepListOk(ps: seq<Entry>, cs: seq<Entry>, removed: set<string>, drops: map<string, seq<string>>, elsewhere: set<string>)
    requires ListOk(ps) && ListOk(cs)
    ensures ListOk(Step(ps, cs, removed, drops, elsewhere))
  {
    hide ItemsDistinct, Without, OverEntries, StripAll, DistinctKeys, Find, StripEntry;
    StepEffect(ps, cs, removed, drops, elsewhere);
    var left := Without(ps, EntryKey, removed);
    var stripped := StripAll(left, drops);
    WithoutDistinct(ps, removed);
    StripAllByKey(left, drops);
    forall i | 0 <= i < |stripped|
      ensures ItemsDistinct(stripped[i])
    {
      StripEntryDistinct(left[i], drops);
    }
    OverEntriesDistinct(stripped, cs, elsewhere);
    WithoutDistinct(cs, Keys(stripped, EntryKey));
  }

  lemma UpdateListsOk(x: Config, u: Updates)
    requires ListsOk(x) && ListsOk(u.config)
    ensures ListsOk(UpdatedConfig(x, u))
  {
    hide UpdatedConfig, Step, MergeEntry, ItemsDistinct, ListOk, ToSet, WholeUnits, Elsewhere;
    var c := u.config;
    UpdatedIs(x, u);
    MergeEntryDistinct(x.settings, c.settings);
    StepListOk(x.authorities, c.authorities, {}, map[], {});
    StepListOk(x.mergeRefs, c.mergeRefs, {}, map[], {});
    StepListOk(x.directories, c.directories, ToSet(u.directories), map[], OtherThanDirectories(c));
    StepListOk(x.files, c.files, ToSet(u.files), map[], OtherThanFiles(c));
    StepListOk(x.links, c.links, {}, map[], OtherThanLinks(c));
    StepListOk(x.disks, c.disks, {}, map[], {});
    StepListOk(x.raid, c.raid, {}, map[], {});
    StepListOk(x.filesystems, c.filesystems, {}, map[], {});
    StepListOk(x.luks, c.luks, {}, map[], {});
    StepListOk(x.units, c.units, WholeUnits(u), u.units, {});
    StepListOk(x.users, c.users, ToSet(u.users), map[], {});
    StepListOk(x.groups, c.groups, {}, map[], {});
    StepListOk(x.shouldExist, c.shouldExist, {}, map[], Elsewhere(c.shouldExist, [], c.shouldNotExist));
    StepListOk(x.shouldNotExist, c.shouldNotExist, {}, map[], Elsewhere(c.shouldNotExist, c.shouldExist, []));
  }

  // ---------- which keys are in two lists

  lemma StepKeys(ps: seq<Entry>, cs: seq<Entry>, removed: set<string>, drops: map<string, seq<string>>, elsewhere: set<string>)
    requires DistinctKeys(ps, EntryKey) && DistinctKeys(cs, EntryKey)
    ensures var left := KeysOfEntries(ps) - removed;
      KeysOfEntries(Step(ps, cs, removed, drops, elsewhere)) == (left - elsewhere) + (KeysOfEntries(cs) - left)
  {
    hide Step, Find, StripEntry, MergeEntry, Keys, DistinctKeys;
    var r := Step(ps, cs, removed, drops, elsewhere);
    StepEffect(ps, cs, removed, drops, elsewhere);
    forall k
      ensures k in KeysOfEntries(r) <==>
        k in (KeysOfEntries(ps) - removed - elsewhere) + (KeysOfEntries(cs) - (KeysOfEntries(ps) - removed))
    {
      FindIs(r, EntryKey, k);
      FindIs(ps, EntryKey, k);
      FindIs(cs, EntryKey, k);
    }
  }

  /** The directories and the files that the update does not list for removal. */
  function DirectoriesLeft(x: Config, u: Updates): set<string> { KeysOfEntries(x.directories) - ToSet(u.directories) }
  function FilesLeft(x: Config, u: Updates): set<string> { KeysOfEntries(x.files) - ToSet(u.files) }

  /** Of the paths the update names as two kinds of node, the directory has to be
      there to be taken away, or the file if it is no directory. */
  ghost predicate PathsFit(x: Config, u: Updates) {
    var d, f, l := KeysOfEntries(u.config.directories), KeysOfEntries(u.config.files), KeysOfEntries(u.config.links);
    d * (f + l) <= DirectoriesLeft(x, u) && f * l <= FilesLeft(x, u)
  }

  ghost predicate KernelFits(x: Config, u: Updates) {
    KeysOfEntries(u.config.shouldExist) * KeysOfEntries(u.config.shouldNotExist) <= KeysOfEntries(x.shouldExist)
  }

  lemma UpdateOneKind(x: Config, u: Updates)
    requires NoDuplicates(x) && ListsOk(u.config)
    ensures OneKind(UpdatedConfig(x, u)) <==> PathsFit(x, u)
  {
    hide UpdatedConfig, Step, MergeEntry, ItemsDistinct, DistinctKeys, ToSet, WholeUnits, Elsewhere, Keys;
    var c, y := u.config, UpdatedConfig(x, u);
    UpdatedIs(x, u);
    OthersAre(c);
    StepKeys(x.directories, c.directories, ToSet(u.directories), map[], OtherThanDirectories(c));
    StepKeys(x.files, c.files, ToSet(u.files), map[], OtherThanFiles(c));
    StepKeys(x.links, c.links, {}, map[], OtherThanLinks(c));
    SetsOneKind(KeysOfEntries(c.directories), KeysOfEntries(c.files), KeysOfEntries(c.links),
      DirectoriesLeft(x, u), FilesLeft(x, u), KeysOfEntries(x.links));
  }

  lemma SetsOneKind(d: set<string>, f: set<string>, l: set<string>, xd: set<string>, xf: set<string>, xl: set<string>)
    requires xd !! xf !! xl
    ensures var yd, yf, yl := (xd - (f + l)) + (d - xd), (xf - (l + (d - f))) + (f - xf), (xl - (d + f - l)) + (l - xl);
      (yd !! yf !! yl) <==> d * (f + l) <= xd && f * l <= xf
  {
    var yd, yf, yl := (xd - (f + l)) + (d - xd), (xf - (l + (d - f))) + (f - xf), (xl - (d + f - l)) + (l - xl);
    forall k
      ensures (k in yd && k in yf) || (k in yd + yf && k in yl) <==> (k in d * (f + l) && k !in xd) || (k in f * l && k !in xf)
    {
    }
  }

  lemma UpdateKernelApart(x: Config, u: Updates)
    requires NoDuplicates(x) && ListsOk(u.config)
    ensures KernelApart(UpdatedConfig(x, u)) <==> KernelFits(x, u)
  {
    hide UpdatedConfig, Step, MergeEntry, ItemsDistinct, DistinctKeys, ToSet, WholeUnits, Keys;
    var c, y := u.config, UpdatedConfig(x, u);
    var e, n, xe, xn := KeysOfEntries(c.shouldExist), KeysOfEntries(c.shouldNotExist), KeysOfEntries(x.shouldExist), KeysOfEntries(x.shouldNotExist);
    UpdatedIs(x, u);
    NoKeysOf();
    StepKeys(x.shouldExist, c.shouldExist, {}, map[], Elsewhere(c.shouldExist, [], c.shouldNotExist));
    StepKeys(x.shouldNotExist, c.shouldNotExist, {}, map[], Elsewhere(c.shouldNotExist, c.shouldExist, []));
    var ye, yn := (xe - n) + (e - xe), (xn - (e - n)) + (n - xn);
    forall k
      ensures k in ye && k in yn <==> k in e && k in n && k !in xe
    {
    }
  }

  lemma NoKeysOf()
    ensures KeysOfEntries([]) == {}
  {
  }

  /** The result of an update has no duplicates exactly when it brings none in. */
  lemma ResultHasNoDuplicates(x: Config, u: Updates)
    requires NoDuplicates(x) && ListsOk(u.config)
    ensures NoDuplicates(UpdatedConfig(x, u)) <==> PathsFit(x, u) && KernelFits(x, u)
  {
    hide UpdatedConfig, ListsOk, OneKind, KernelApart, PathsFit, KernelFits;
    UpdateListsOk(x, u);
    UpdateOneKind(x, u);
    UpdateKernelApart(x, u);
  }

  // ---------- a second call

  type Parser = string -> Option<Config>

  /** The parser reads what was written, if it has no duplicates and passes the
      parser's other checks, which `valid` stands for. */
  ghost predicate Reads(parse: Parser, write: Config -> string, valid: Config -> bool) {
    && (forall s: string :: parse(s).Some? ==> NoDuplicates(parse(s).value))
    && (forall y: Config :: parse(write(y)) == if NoDuplicates(y) && valid(y) then Some(y) else None)
  }

  /** The same update on what a first one has written: it fails exactly when the
      first has brought in duplicates, or something else the parser refuses, and
      otherwise yields no patch exactly when the update is settled. */
  lemma SecondCall(s: string, parse: Parser, write: Config -> string, valid: Config -> bool, u: Updates)
    requires Reads(parse, write, valid) && parse(s).Some? && ChildListsOk(u.config)
    ensures var x := parse(s).value; var y := UpdatedConfig(x, u);
      UpdateOf(Some(write(y)), parse, u) ==
        if !(PathsFit(x, u) && KernelFits(x, u) && valid(y)) then Failed
        else if SettledUpdate(x, u) then NoPatch
        else Patch(UpdatedConfig(y, u))
  {
    hide UpdatedConfig, SameConfig, NoDuplicates, ChildConfigOk, ListsOk, PathsFit, KernelFits, SettledUpdate, DistinctConfig;
    var x := parse(s).value;
    ListsAreDistinct(x);
    ResultHasNoDuplicates(x, u);
    SecondUpdate(x, u);
  }

  lemma ListsAreDistinct(x: Config)
    requires NoDuplicates(x)
    ensures ListsOk(x) && OneKind(x) && DistinctConfig(x)
  {
  }

  /** A fixpoint names no path as two kinds of node. */
  lemma FitsAndSettled(x: Config, u: Updates)
    ensures PathsFit(x, u) && SettledUpdate(x, u) <==> OneKind(u.config) && SettledUpdate(x, u)
  {
    hide SettledEntry, Keys, ToSet, WholeUnits, Find, Elsewhere;
    var c := u.config;
    OthersAre(c);
    var d, f, l := KeysOfEntries(c.directories), KeysOfEntries(c.files), KeysOfEntries(c.links);
    if PathsFit(x, u) && SettledUpdate(x, u) {
      forall k | k in d * (f + l)
        ensures k !in DirectoriesLeft(x, u)
      {
        FindIs(c.directories, EntryKey, k);
      }
      forall k | k in f * l
        ensures k !in FilesLeft(x, u)
      {
        FindIs(c.files, EntryKey, k);
      }
    }
  }

  /** So a second call finds nothing to do exactly when the update is settled, names
      each path as one kind of node, and can be read again. */
  lemma SecondCallFindsNothing(s: string, parse: Parser, write: Config -> string, valid: Config -> bool, u: Updates)
    requires Reads(parse, write, valid) && parse(s).Some? && ChildListsOk(u.config)
    ensures var x := parse(s).value; var y := UpdatedConfig(x, u);
      UpdateOf(Some(write(y)), parse, u) == NoPatch
      <==> OneKind(u.config) && SettledUpdate(x, u) && KernelFits(x, u) && valid(y)
  {
    hide UpdatedConfig, SameConfig, Reads, NoDuplicates, ChildListsOk, PathsFit, KernelFits, SettledUpdate, OneKind, UpdateOf;
    SecondCall(s, parse, write, valid, u);
    FitsAndSettled(parse(s).value, u);
  }

  /** A plain update is a fixpoint, whatever it removes and adds again. */
  lemma PlainUpdateIsFixpoint(s: string, parse: Parser, write: Config -> string, valid: Config -> bool, u: Updates)
    requires Reads(parse, write, valid) && parse(s).Some? && ChildListsOk(u.config) && PlainUpdate(u)
    ensures var x := parse(s).value; var y := UpdatedConfig(x, u);
      UpdateOf(Some(write(y)), parse, u) == if KernelFits(x, u) && valid(y) then NoPatch else Failed
  {
    hide UpdatedConfig, SameConfig, Reads, NoDuplicates, ChildListsOk, PathsFit, KernelFits, SettledUpdate, UpdateOf;
    PlainUpdateSettles(parse(s).value, u);
    SecondCall(s, parse, write, valid, u);
    FitsAndSettled(parse(s).value, u);
  }

  /** Not every update is: the dropin that is removed and added again patches a
      second time. */
  lemma MovingUpdatePatchesAgain(parse: Parser, write: Config -> string, valid: Config -> bool)
    requires Reads(parse, write, valid) && valid(NO_CONFIG) && valid(UpdatedConfig(NO_CONFIG, MOVING_UPDATE))
    ensures UpdateOf(Some(write(UpdatedConfig(NO_CONFIG, MOVING_UPDATE))), parse, MOVING_UPDATE).Patch?
  {
    hide UpdatedConfig, SameConfig, SettledUpdate, UpdateOf;
    ReaddedDropinMoves();
    assert ListsOk(NO_CONFIG) && NoDuplicates(NO_CONFIG);
    assert ListsOk(MOVING_UPDATE.config);
    SecondCall(write(NO_CONFIG), parse, write, valid, MOVING_UPDATE);
  }

  // ---------- two kinds of node for a path

  /** The update changes something: some path comes to or leaves one of the lists. */
  lemma TwoKindsPatch(x: Config, u: Updates)
    requires NoDuplicates(x) && ChildListsOk(u.config) && !OneKind(u.config)
    ensures !SameConfig(UpdatedConfig(x, u), x)
  {
    hide UpdatedConfig, SameConfig, ListsOk, ChildConfigOk, KernelApart, Elsewhere, Keys, ToSet, DistinctConfig;
    var y, c := UpdatedConfig(x, u), u.config;
    ListsAreDistinct(x);
    UpdateOneKind(x, u);
    UpdatedIs(x, u);
    if SameConfig(y, x) {
      NoPatchIsSameContent(x, u);
      SameKeySets(y.directories, x.directories);
      SameKeySets(y.files, x.files);
      SameKeySets(y.links, x.links);
      OthersAre(c);
      UpdateKeys(x, u);
      assert false;
    }
  }

  lemma SameKeySets(a: seq<Entry>, b: seq<Entry>)
    requires SameContent(a, b)
    ensures KeysOfEntries(a) == KeysOfEntries(b)
  {
    hide Keys, Find;
    forall k
      ensures k in KeysOfEntries(a) <==> k in KeysOfEntries(b)
    {
      FindIs(a, EntryKey, k);
      FindIs(b, EntryKey, k);
    }
  }

  lemma UpdateKeys(x: Config, u: Updates)
    requires ListsOk(x) && ListsOk(u.config)
    ensures var c, y := u.config, UpdatedConfig(x, u);
      var xd, xf := DirectoriesLeft(x, u), FilesLeft(x, u);
      && KeysOfEntries(y.directories) == (xd - OtherThanDirectories(c)) + (KeysOfEntries(c.directories) - xd)
      && KeysOfEntries(y.files) == (xf - OtherThanFiles(c)) + (KeysOfEntries(c.files) - xf)
      && KeysOfEntries(y.links) == (KeysOfEntries(x.links) - OtherThanLinks(c)) + (KeysOfEntries(c.links) - KeysOfEntries(x.links))
  {
    hide UpdatedConfig, Step, MergeEntry, ItemsDistinct, DistinctKeys, ToSet, WholeUnits, Elsewhere, Keys;
    var c := u.config;
    UpdatedIs(x, u);
    StepKeys(x.directories, c.directories, ToSet(u.directories), map[], OtherThanDirectories(c));
    StepKeys(x.files, c.files, ToSet(u.files), map[], OtherThanFiles(c));
    StepKeys(x.links, c.links, {}, map[], OtherThanLinks(c));
  }

  /** An update that names a path as two kinds of node always patches, and after one
      or two patches stands a configuration that no call can read. */
  lemma TwoKindsEndInRefusal(s: string, parse: Parser, write: Config -> string, valid: Config -> bool, u: Updates)
    requires Reads(parse, write, valid) && parse(s).Some? && ChildListsOk(u.config) && !OneKind(u.config)
    ensures var y := UpdatedConfig(parse(s).value, u); var z := UpdatedConfig(y, u);
      && UpdateOf(Some(s), parse, u) == Patch(y)
      && (parse(write(y)).None? || (UpdateOf(Some(write(y)), parse, u) == Patch(z) && parse(write(z)).None?))
  {
    hide UpdatedConfig, SameConfig, ListsOk, ChildConfigOk, KernelFits, OneKind;
    var x := parse(s).value;
    var y := UpdatedConfig(x, u);
    TwoKindsPatch(x, u);
    if parse(write(y)).Some? {
      TwoKindsPatch(y, u);
      ResultHasNoDuplicates(x, u);
      ResultHasNoDuplicates(y, u);
      TakenAway(x, u);
    }
  }

  /** What had to be there to be taken away is not there for the next update. */
  lemma TakenAway(x: Config, u: Updates)
    requires ListsOk(x) && ListsOk(u.config) && !OneKind(u.config) && PathsFit(x, u)
    ensures !PathsFit(UpdatedConfig(x, u), u)
  {
    hide UpdatedConfig, ListsOk, Keys, ToSet, Elsewhere;
    OthersAre(u.config);
    UpdateKeys(x, u);
    var c := u.config;
    var d, f, l := KeysOfEntries(c.directories), KeysOfEntries(c.files), KeysOfEntries(c.links);
    var k := SharedPath(d, f, l);
    if k in d {
      assert k in DirectoriesLeft(x, u) && k !in KeysOfEntries(UpdatedConfig(x, u).directories);
    } else {
      assert k in FilesLeft(x, u) && k !in KeysOfEntries(UpdatedConfig(x, u).files);
    }
  }

  lemma SharedPath(d: set<string>, f: set<string>, l: set<string>) returns (k: string)
    requires !(d !! f !! l)
    ensures k in d * (f + l) || (k !in d && k in f * l)
  {
    if j :| j in d && j in f {
      k := j;
    } else {
      assert d !! f;
      k :| k in d + f && k in l;
    }
  }
}
