/** Building a configuration up (pkg/cluster/ignition/ignition.go): additions in
    place that refuse a key they find, and units added by merging. */
module IgnitionBuilder {
  import opened Text
  import opened IgnitionTypes
  import opened IgnitionCompare
  import opened IgnitionMerge
  import opened IgnitionSettle
  import opened IgnitionUpdate
  import opened IgnitionCalls

  datatype User = User(name: string, sshKey: string, password: string, groups: seq<string>,
    shell: string, system: bool, noCreateHome: bool, primaryGroup: string)

  function Flag(b: bool): string { if b then "true" else "false" }

  /** The fields that are set only if there is something to set. */
  function Unless(value: string, nothing: string, path: string): map<string, string> {
    if value == nothing then map[] else map[path := value]
  }

  function ItemsOf(names: seq<string>): seq<Item> { seq(|names|, i requires 0 <= i < |names| => Item(names[i], map[])) }

  function ListOf(list: string, names: seq<string>): map<string, seq<Item>> {
    if names == [] then map[] else map[list := ItemsOf(names)]
  }

  function UserEntry(u: User): Entry {
    Entry(u.name,
      Unless(u.password, "", "passwordHash") + map["shell" := u.shell, "system" := Flag(u.system),
        "noCreateHome" := Flag(u.noCreateHome), "primaryGroup" := u.primaryGroup],
      ListOf("sshAuthorizedKeys", if u.sshKey == "" then [] else [u.sshKey]) + ListOf("groups", u.groups))
  }

  datatype File = File(path: string, mode: string, userId: string, user: string, groupId: string, group: string, contents: string)

  /** A data URL for the contents, and how it is compressed. */
  datatype DataUrl = DataUrl(url: string, compression: string)

  function OwnerFields(f: File): map<string, string> {
    Unless(f.userId, "0", "user.id") + Unless(f.user, "", "user.name")
    + Unless(f.groupId, "0", "group.id") + Unless(f.group, "", "group.name")
  }

  function FileEntry(f: File, data: DataUrl): Entry {
    Entry(f.path,
      OwnerFields(f)
      + map["overwrite" := "true", "mode" := f.mode, "contents.source" := data.url, "contents.compression" := data.compression],
      map[])
  }

  // ---------- what an entry says

  function FieldOf(e: Entry, field: string, nothing: string): string {
    if field in e.fields then e.fields[field] else nothing
  }

  function NamesIn(e: Entry, list: string): seq<string> {
    var items := Items(e, list);
    seq(|items|, i requires 0 <= i < |items| => items[i].key)
  }

  /** The user that an entry describes to the machine that reads it. */
  function UserOf(e: Entry): User {
    var keys := NamesIn(e, "sshAuthorizedKeys");
    User(e.key, if keys == [] then "" else keys[0], FieldOf(e, "passwordHash", ""), NamesIn(e, "groups"),
         FieldOf(e, "shell", ""), FieldOf(e, "system", "false") == "true", FieldOf(e, "noCreateHome", "false") == "true",
         FieldOf(e, "primaryGroup", ""))
  }

  /** The file that an entry describes; without an owner it is root's. */
  function FileOf(e: Entry, decode: DataUrl -> string): File {
    File(e.key, FieldOf(e, "mode", ""), FieldOf(e, "user.id", "0"), FieldOf(e, "user.name", ""),
         FieldOf(e, "group.id", "0"), FieldOf(e, "group.name", ""),
         decode(DataUrl(FieldOf(e, "contents.source", ""), FieldOf(e, "contents.compression", ""))))
  }

  /** Nothing that is said of a user is lost, and nothing is added. */
  lemma UserRoundTrip(u: User)
    ensures UserOf(UserEntry(u)) == u
    ensures UserEntry(u).lists.Keys <= {"sshAuthorizedKeys", "groups"}
    ensures |NamesIn(UserEntry(u), "sshAuthorizedKeys")| <= 1
  {
    var e := UserEntry(u);
    assert "sshAuthorizedKeys" in e.lists <==> u.sshKey != "";
    assert "groups" in e.lists <==> u.groups != [];
    assert NamesIn(e, "groups") == u.groups;
    assert NamesIn(e, "sshAuthorizedKeys") == if u.sshKey == "" then [] else [u.sshKey];
  }

  /** Neither of a file, if the data URL says what the contents are; and it is to
      replace what is there. */
  lemma FileRoundTrip(f: File, data: DataUrl, decode: DataUrl -> string)
    requires decode(data) == f.contents
    ensures FileOf(FileEntry(f, data), decode) == f
    ensures FieldOf(FileEntry(f, data), "overwrite", "false") == "true"
  {
    hide OwnerFields;
    OwnerSays(f);
  }

  lemma OwnerSays(f: File)
    ensures var o := Entry(f.path, OwnerFields(f), map[]);
      && FieldOf(o, "user.id", "0") == f.userId && FieldOf(o, "user.name", "") == f.user
      && FieldOf(o, "group.id", "0") == f.groupId && FieldOf(o, "group.name", "") == f.group
  {
  }

  /** The list with the entry, unless its key is there. */
  function Added(s: seq<Entry>, e: Entry): seq<Entry> { if e.key in Keys(s, EntryKey) then s else s + [e] }

  method Defined(s: seq<Entry>, key: string) returns (found: bool)
    ensures found <==> key in Keys(s, EntryKey)
  {
    for i := 0 to |s|
      invariant forall j | 0 <= j < i :: s[j].key != key
    {
      if s[i].key == key {
        assert EntryKey(s[i]) in Keys(s, EntryKey);
        return true;
      }
    }
    return false;
  }

  class Ignition {
    var config: Config

    /** NewIgnition. */
    constructor ()
      ensures config == NO_CONFIG && DistinctConfig(config)
    {
      config := NO_CONFIG;
    }

    method AddUser(u: User) returns (ok: bool)
      modifies this
      ensures ok <==> u.name !in Keys(old(config).users, EntryKey)
      ensures config == old(config).(users := Added(old(config).users, UserEntry(u)))
    {
      var found := Defined(config.users, u.name);
      if found {
        return false;
      }
      config := config.(users := config.users + [UserEntry(u)]);
      return true;
    }

    method AddGroup(name: string, system: bool) returns (ok: bool)
      modifies this
      ensures ok <==> name !in Keys(old(config).groups, EntryKey)
      ensures config == old(config).(groups := Added(old(config).groups, Entry(name, map["system" := Flag(system)], map[])))
    {
      var found := Defined(config.groups, name);
      if found {
        return false;
      }
      config := config.(groups := config.groups + [Entry(name, map["system" := Flag(system)], map[])]);
      return true;
    }

    /** `encode` makes the data URL, and may fail. */
    method AddFile(f: File, encode: string -> Option<DataUrl>) returns (ok: bool)
      modifies this
      ensures ok <==> f.path !in Keys(old(config).files, EntryKey) && encode(f.contents).Some?
      ensures config == if encode(f.contents).None? then old(config)
        else old(config).(files := Added(old(config).files, FileEntry(f, encode(f.contents).value)))
    {
      var found := Defined(config.files, f.path);
      if found {
        return false;
      }
      var data := encode(f.contents);
      if data.None? {
        return false;
      }
      config := config.(files := config.files + [FileEntry(f, data.value)]);
      return true;
    }

    method AddLink(l: Entry) returns (ok: bool)
      modifies this
      ensures ok <==> l.key !in Keys(old(config).links, EntryKey)
      ensures config == old(config).(links := Added(old(config).links, l))
    {
      var found := Defined(config.links, l.key);
      if found {
        return false;
      }
      config := config.(links := config.links + [l]);
      return true;
    }

    method AddDir(d: Entry) returns (ok: bool)
      modifies this
      ensures ok <==> d.key !in Keys(old(config).directories, EntryKey)
      ensures config == old(config).(directories := Added(old(config).directories, d))
    {
      var found := Defined(config.directories, d.key);
      if found {
        return false;
      }
      config := config.(directories := config.directories + [d]);
      return true;
    }
  }

  /** AddUnit returns a new configuration. */
  function AddUnit(x: Config, unit: Entry): Config { Merge(x, NO_CONFIG.(units := [unit])) }

  // ---------- what building keeps

  lemma AddedEffect(s: seq<Entry>, e: Entry, k: string)
    requires DistinctKeys(s, EntryKey)
    ensures DistinctKeys(Added(s, e), EntryKey)
    ensures Keys(Added(s, e), EntryKey) == Keys(s, EntryKey) + {e.key}
    ensures Find(Added(s, e), EntryKey, k) ==
      if Find(s, EntryKey, k).None? && k == e.key then Some(e) else Find(s, EntryKey, k)
  {
    FindIs(s, EntryKey, k);
    FindIs(s, EntryKey, e.key);
    if e.key !in Keys(s, EntryKey) {
      assert EntryKey([e][0]) in Keys([e], EntryKey);
      assert Keys([e], EntryKey) == {e.key};
      DistinctTail(s, [e], EntryKey);
      KeysAppend(s, [e], EntryKey);
      FindAppend(s, [e], EntryKey, k);
    }
  }

  /** A unit is merged into the one of its name, or appended; nothing else changes. */
  lemma AddUnitEffect(x: Config, unit: Entry)
    requires DistinctConfig(x) && Proper(x.settings) && x.settings.key == ""
    requires Proper(unit) && ItemsDistinct(unit)
    ensures var r := AddUnit(x, unit);
      && DistinctConfig(r)
      && r == x.(version := NO_CONFIG.version, units := r.units)
      && forall k :: Find(r.units, EntryKey, k)
                  == if k != unit.key then Find(x.units, EntryKey, k)
                     else Merged(Find(x.units, EntryKey, k), Some(unit), false)
  {
    hide Find, DistinctKeys, MergeLists, MergeEntry, MergeEntries;
    var r := AddUnit(x, unit);
    NothingElsewhere();
    NothingMerged(x.authorities);
    NothingMerged(x.mergeRefs);
    NothingMerged(x.directories);
    NothingMerged(x.files);
    NothingMerged(x.links);
    NothingMerged(x.disks);
    NothingMerged(x.raid);
    NothingMerged(x.filesystems);
    NothingMerged(x.luks);
    NothingMerged(x.users);
    NothingMerged(x.groups);
    NothingMerged(x.shouldExist);
    NothingMerged(x.shouldNotExist);
    MergeNothing(x.settings);
    OneUnit(x.units, unit);
  }

  lemma NothingMerged(s: seq<Entry>)
    ensures MergeEntries(s, [], {}) == s
  {
    NothingOver(s);
  }

  lemma OneUnit(units: seq<Entry>, unit: Entry)
    requires DistinctKeys(units, EntryKey)
    ensures var r := MergeEntries(units, [unit], {});
      && DistinctKeys(r, EntryKey)
      && forall k :: Find(r, EntryKey, k)
                  == if k != unit.key then Find(units, EntryKey, k) else Merged(Find(units, EntryKey, k), Some(unit), false)
  {
    hide MergeEntries, MergeEntry, Find;
    MergeByKey(units, [unit], {});
    forall k
      ensures Find([unit], EntryKey, k) == if k == unit.key then Some(unit) else None
    {
      FindIs([unit], EntryKey, k);
      assert EntryKey([unit][0]) in Keys([unit], EntryKey);
    }
  }

  // ---------- runs

  datatype Addition =
    | AUser(entry: Entry) | AGroup(entry: Entry) | AFile(entry: Entry) | ALink(entry: Entry) | ADir(entry: Entry) | AUnit(entry: Entry)

  /** What the methods do to the configuration, by their contracts. */
  function Apply(x: Config, a: Addition): Config {
    match a
    case AUser(e) => x.(users := Added(x.users, e))
    case AGroup(e) => x.(groups := Added(x.groups, e))
    case AFile(e) => x.(files := Added(x.files, e))
    case ALink(e) => x.(links := Added(x.links, e))
    case ADir(e) => x.(directories := Added(x.directories, e))
    case AUnit(e) => AddUnit(x, e)
  }

  function Build(additions: seq<Addition>): Config {
    if additions == [] then NO_CONFIG
    else Apply(Build(additions[..|additions| - 1]), additions[|additions| - 1])
  }

  ghost predicate UnitsOk(additions: seq<Addition>) {
    forall i | 0 <= i < |additions| && additions[i].AUnit? :: Proper(additions[i].entry) && ItemsDistinct(additions[i].entry)
  }

  ghost predicate Built(x: Config) { DistinctConfig(x) && x.settings == NO_ENTRY }

  lemma ApplyKeepsBuilt(x: Config, a: Addition, k: string)
    requires Built(x) && (a.AUnit? ==> Proper(a.entry) && ItemsDistinct(a.entry))
    ensures Built(Apply(x, a))
    ensures Find(Apply(x, a).users, EntryKey, k) == OrElse(Find(x.users, EntryKey, k), a, IsUser, k)
    ensures Find(Apply(x, a).groups, EntryKey, k) == OrElse(Find(x.groups, EntryKey, k), a, IsGroup, k)
    ensures Find(Apply(x, a).files, EntryKey, k) == OrElse(Find(x.files, EntryKey, k), a, IsFile, k)
    ensures Find(Apply(x, a).links, EntryKey, k) == OrElse(Find(x.links, EntryKey, k), a, IsLink, k)
    ensures Find(Apply(x, a).directories, EntryKey, k) == OrElse(Find(x.directories, EntryKey, k), a, IsDir, k)
  {
    hide Added, AddUnit, DistinctKeys, Keys, Find;
    match a
    case AUser(e) => AddedEffect(x.users, e, k);
    case AGroup(e) => AddedEffect(x.groups, e, k);
    case AFile(e) => AddedEffect(x.files, e, k);
    case ALink(e) => AddedEffect(x.links, e, k);
    case ADir(e) => AddedEffect(x.directories, e, k);
    case AUnit(e) => AddUnitEffect(x, e);
  }

  function IsUser(a: Addition): bool { a.AUser? }
  function IsGroup(a: Addition): bool { a.AGroup? }
  function IsFile(a: Addition): bool { a.AFile? }
  function IsLink(a: Addition): bool { a.ALink? }
  function IsDir(a: Addition): bool { a.ADir? }

  function OrElse(found: Option<Entry>, a: Addition, kind: Addition -> bool, k: string): Option<Entry> {
    if found.None? && kind(a) && a.entry.key == k then Some(a.entry) else found
  }

  /** The first addition of a kind that names a key. */
  function First(additions: seq<Addition>, kind: Addition -> bool, k: string): Option<Entry> {
    if additions == [] then None
    else if kind(additions[0]) && additions[0].entry.key == k then Some(additions[0].entry)
    else First(additions[1..], kind, k)
  }

  lemma {:induction false} FirstNext(additions: seq<Addition>, a: Addition, kind: Addition -> bool, k: string)
    ensures First(additions + [a], kind, k) == OrElse(First(additions, kind, k), a, kind, k)
  {
    if additions == [] {
      assert [] + [a] == [a] && [a][1..] == [];
    } else {
      assert (additions + [a])[1..] == additions[1..] + [a];
      FirstNext(additions[1..], a, kind, k);
    }
  }

  /** However a configuration is built up, keys are distinct in each list, and the
      first addition of a key is the one that stays. */
  lemma {:induction false} BuildKeepsFirst(additions: seq<Addition>, k: string)
    requires UnitsOk(additions)
    ensures Built(Build(additions))
    ensures Find(Build(additions).users, EntryKey, k) == First(additions, IsUser, k)
    ensures Find(Build(additions).groups, EntryKey, k) == First(additions, IsGroup, k)
    ensures Find(Build(additions).files, EntryKey, k) == First(additions, IsFile, k)
    ensures Find(Build(additions).links, EntryKey, k) == First(additions, IsLink, k)
    ensures Find(Build(additions).directories, EntryKey, k) == First(additions, IsDir, k)
  {
    hide Apply, Find, First, OrElse;
    if additions == [] {
      NothingBuilt(k);
    } else {
      var front, last := additions[..|additions| - 1], additions[|additions| - 1];
      assert additions == front + [last];
      BuildKeepsFirst(front, k);
      ApplyKeepsBuilt(Build(front), last, k);
      FirstNext(front, last, IsUser, k);
      FirstNext(front, last, IsGroup, k);
      FirstNext(front, last, IsFile, k);
      FirstNext(front, last, IsLink, k);
      FirstNext(front, last, IsDir, k);
    }
  }

  lemma NothingBuilt(k: string)
    ensures Built(NO_CONFIG) && Find([], EntryKey, k) == None
    ensures First([], IsUser, k) == First([], IsGroup, k) == First([], IsFile, k) == First([], IsLink, k) == First([], IsDir, k) == None
  {
  }

  /** But a path is looked for among nodes of its own kind only: it can come to stand
      for a file and for a directory. */
  lemma FileAndDirectory(e: Entry)
    ensures var x := Build([AFile(e), ADir(e)]);
      Find(x.files, EntryKey, e.key) == Some(e) && Find(x.directories, EntryKey, e.key) == Some(e)
  {
    BuildKeepsFirst([AFile(e), ADir(e)], e.key);
  }

  /** And such a configuration, used as an update where the directory is not there,
      is patched in once and then refused by every call. */
  lemma BuiltUpdateIsRefused(s: string, parse: Parser, write: Config -> string, valid: Config -> bool, e: Entry)
    requires Reads(parse, write, valid) && parse(s).Some? && e.key !in KeysOfEntries(parse(s).value.directories)
    requires Proper(e) && ItemsDistinct(e)
    ensures var u := Updates(Build([AFile(e), ADir(e)]), [], [], [], map[]);
      var y := UpdatedConfig(parse(s).value, u);
      && UpdateOf(Some(s), parse, u) == Patch(y)
      && forall v: Updates :: UpdateOf(Some(write(y)), parse, v) == Failed
  {
    hide UpdatedConfig, SameConfig, Proper, ItemsDistinct, NoDuplicates, Keys;
    var u := Updates(Build([AFile(e), ADir(e)]), [], [], [], map[]);
    BothLists(e);
    assert Proper(NO_ENTRY) && ItemsDistinct(NO_ENTRY) by { NothingProper(); }
    OnlyKey(e);
    assert e.key in KeysOfEntries(u.config.directories) * KeysOfEntries(u.config.files);
    assert !OneKind(u.config) && ChildListsOk(u.config);
    ResultHasNoDuplicates(parse(s).value, u);
    assert e.key !in DirectoriesLeft(parse(s).value, u);
    assert !PathsFit(parse(s).value, u);
    assert parse(write(UpdatedConfig(parse(s).value, u))).None?;
    TwoKindsEndInRefusal(s, parse, write, valid, u);
  }

  lemma OnlyKey(e: Entry)
    ensures KeysOfEntries([e]) == {e.key}
  {
    assert EntryKey([e][0]) in Keys([e], EntryKey);
  }

  lemma BothLists(e: Entry)
    ensures Build([AFile(e), ADir(e)]) == NO_CONFIG.(files := [e], directories := [e])
  {
    var both := [AFile(e), ADir(e)];
    assert both[..1] == [AFile(e)] && [AFile(e)][..0] == [];
    assert Build([AFile(e)]) == NO_CONFIG.(files := [e]) by { assert Keys([], EntryKey) == {}; assert [] + [e] == [e]; }
    assert Keys([], EntryKey) == {} && [] + [e] == [e];
  }

  lemma NothingProper()
    ensures Proper(NO_ENTRY) && ItemsDistinct(NO_ENTRY)
  {
  }
}
