/** Ignition configurations (version 3.4 of the format), as far as merging and
    comparing look into them.  Optional scalars, nested ones included, are the
    entries of a map from the field's path to its value. */
module IgnitionTypes {
  /** An element of a list inside an entry: a dropin, a header, a group name. */
  datatype Item = Item(key: string, fields: map<string, string>)

  /** An element of a list of the configuration.  A list that is empty is absent. */
  datatype Entry = Entry(key: string, fields: map<string, string>, lists: map<string, seq<Item>>)

  function Items(e: Entry, list: string): seq<Item> {
    if list in e.lists then e.lists[list] else []
  }

  datatype Config = Config(
    version: string,
    settings: Entry,              // security, timeouts, proxy and config.replace
    authorities: seq<Entry>,      // security.tls.certificateAuthorities
    mergeRefs: seq<Entry>,        // ignition.config.merge
    directories: seq<Entry>,
    files: seq<Entry>,
    links: seq<Entry>,
    disks: seq<Entry>,
    raid: seq<Entry>,
    filesystems: seq<Entry>,
    luks: seq<Entry>,
    units: seq<Entry>,
    users: seq<Entry>,
    groups: seq<Entry>,
    shouldExist: seq<Entry>,      // kernel arguments to have
    shouldNotExist: seq<Entry>)   // kernel arguments not to have

  const DROPINS := "dropins"

  function EntryKey(e: Entry): string { e.key }
  function ItemKey(i: Item): string { i.key }
}
