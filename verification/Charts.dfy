/** Sorting, filtering and looking up the charts of a catalog
    (pkg/catalog/helmconnection.go and pkg/catalog/connection.go). */
module Charts {
  import opened Text
  import opened Versions

  datatype Chart = Chart(name: string, version: string, appVersion: string, kubeVersion: string, urls: seq<string>)

  // ---------- the comparator

  /** Negative when `a` goes first, which is where the newer versions go. */
  function CompareApps(a: string, b: string): (d: int)
    ensures -1 <= d <= 1
  {
    if a == b then 0
    else if a == "" then 1
    else if b == "" then -1
    else
      match (Parse(a), Parse(b))
      case (None, None) => CompareStrings(b, a)
      case (None, Some(_)) => 1
      case (Some(_), None) => -1
      case (Some(v), Some(o)) => Compare(o, v)
  }

  lemma AppsAntisymmetric(a: string, b: string)
    ensures CompareApps(b, a) == -CompareApps(a, b)
  {
    hide Parse, Compare, CompareStrings, Valid;
    StringsAntisymmetric(a, b);
    ParsedIsValid(a);
    ParsedIsValid(b);
    if Parse(a).Some? && Parse(b).Some? {
      CompareIsOrder(Parse(a).value, Parse(b).value, Parse(b).value);
    }
  }

  lemma AppsTransitive(a: string, b: string, c: string)
    requires CompareApps(a, b) <= 0 && CompareApps(b, c) <= 0
    ensures CompareApps(a, c) <= 0
  {
    hide Parse, Compare, CompareStrings, Valid;
    ParsedIsValid(a);
    ParsedIsValid(b);
    ParsedIsValid(c);
    if a != "" && b != "" && c != "" && Parse(a).Some? && Parse(b).Some? && Parse(c).Some? {
      CompareIsOrder(Parse(c).value, Parse(b).value, Parse(a).value);
      CompareIsOrder(Parse(c).value, Parse(a).value, Parse(a).value);
    } else if a != "" && b != "" && c != "" && Parse(a).None? && Parse(b).None? && Parse(c).None? {
      StringsTransitive(c, b, a);
    }
  }

  /** What the comparator draws: the same text, or two texts for one version. */
  lemma AppsDraw(a: string, b: string)
    ensures CompareApps(a, b) == 0 <==> a == b || (a != "" && b != "" && Parse(a).Some? && Parse(a) == Parse(b))
  {
    hide Parse, Compare, CompareStrings, Valid;
    ParsedIsValid(a);
    ParsedIsValid(b);
    if Parse(a).Some? && Parse(b).Some? {
      CompareIsOrder(Parse(b).value, Parse(a).value, Parse(a).value);
    }
  }

  /** Which versions are older: none at all, then the unreadable in dictionary
      order, then the semantic versions by precedence. */
  ghost predicate Older(a: string, b: string) {
    if a == "" || b == "" then b != ""
    else
      match (Parse(a), Parse(b))
      case (None, None) => Before(a, b)
      case (None, Some(_)) => true
      case (Some(_), None) => false
      case (Some(v), Some(o)) => Precedes(v, o)
  }

  /** The version can be compared as section 11 asks. */
  predicate Comparable(a: string) { Parse(a).Some? ==> Fits(Ids(Parse(a).value)) }

  lemma AppsFollowSpec(a: string, b: string)
    requires Comparable(a) && Comparable(b)
    ensures CompareApps(a, b) > 0 <==> a != b && Older(a, b)
  {
    hide Parse, Compare, CompareStrings, Valid, Precedes, Before, Fits;
    StringsOrder(a, b);
    StringsAntisymmetric(a, b);
    ParsedIsValid(a);
    ParsedIsValid(b);
    if Parse(a).Some? && Parse(b).Some? {
      CompareFollowsSpec(Parse(a).value, Parse(b).value);
      CompareIsOrder(Parse(a).value, Parse(b).value, Parse(b).value);
    }
  }

  /** For texts as for versions: a text is put as section 11 asks against all others
      exactly when its numeric identifiers fit in 64 bits. */
  lemma AppsFollowSpecExactly(a: string)
    ensures Comparable(a) <==> forall b: string | Comparable(b) :: CompareApps(a, b) > 0 <==> a != b && Older(a, b)
  {
    hide Parse, Compare, Valid, Precedes, Fits, CompareApps, Older;
    if Comparable(a) {
      forall b: string | Comparable(b)
        ensures CompareApps(a, b) > 0 <==> a != b && Older(a, b)
      {
        AppsFollowSpec(a, b);
      }
    } else {
      var b := MisplacedText(a);
    }
  }

  lemma MisplacedText(a: string) returns (b: string)
    requires !Comparable(a)
    ensures Comparable(b) && CompareApps(a, b) < 0 && a != b && Older(a, b)
  {
    hide Parse, Compare, Valid, Precedes, Fits;
    var v := Parse(a).value;
    ParsedIsValid(a);
    ParsedFits(a);
    var o := OverflowBreaksOrder(v);
    CompareIsOrder(v, o, o);
    ParseText(o);
    b := TextOf(o);
    EmptyUnreadable();
    assert b != "";
  }

  lemma EmptyUnreadable()
    ensures Parse("").None?
  {
    SplitFree("", '.');
  }

  // ---------- sorting and filtering

  ghost predicate Sorted(metas: seq<Chart>) {
    forall i, j | 0 <= i < j < |metas| :: CompareApps(metas[i].appVersion, metas[j].appVersion) <= 0
  }

  /** slices.SortFunc: insertion, which is what it does to a short list. */
  method SortFunc(metas: seq<Chart>) returns (sorted: seq<Chart>)
    ensures Sorted(sorted) && multiset(sorted) == multiset(metas)
  {
    hide CompareApps;
    sorted := [];
    for i := 0 to |metas|
      invariant Sorted(sorted) && multiset(sorted) == multiset(metas[..i])
    {
      assert metas[..i + 1] == metas[..i] + [metas[i]];
      sorted := Insert(sorted, metas[i]);
    }
    assert metas[..|metas|] == metas;
  }

  method Insert(sorted: seq<Chart>, c: Chart) returns (r: seq<Chart>)
    requires Sorted(sorted)
    ensures Sorted(r) && multiset(r) == multiset(sorted) + multiset{c}
  {
    hide CompareApps, Sorted;
    var j := |sorted|;
    while j > 0 && CompareApps(c.appVersion, sorted[j - 1].appVersion) < 0
      invariant 0 <= j <= |sorted|
      invariant j < |sorted| ==> CompareApps(c.appVersion, sorted[j].appVersion) < 0
    {
      j := j - 1;
    }
    InsertSorted(sorted, c, j);
    assert sorted == sorted[..j] + sorted[j..];
    r := sorted[..j] + [c] + sorted[j..];
  }

  lemma InsertSorted(s: seq<Chart>, c: Chart, j: nat)
    requires Sorted(s) && j <= |s|
    requires j > 0 ==> CompareApps(c.appVersion, s[j - 1].appVersion) >= 0
    requires j < |s| ==> CompareApps(c.appVersion, s[j].appVersion) <= 0
    ensures Sorted(s[..j] + [c] + s[j..])
  {
    hide CompareApps;
    forall i | 0 <= i < j
      ensures CompareApps(s[i].appVersion, c.appVersion) <= 0
    {
      AppsAntisymmetric(c.appVersion, s[j - 1].appVersion);
      if i < j - 1 {
        AppsTransitive(s[i].appVersion, s[j - 1].appVersion, c.appVersion);
      }
    }
    forall i | j <= i < |s|
      ensures CompareApps(c.appVersion, s[i].appVersion) <= 0
    {
      if i > j {
        AppsTransitive(c.appVersion, s[j].appVersion, s[i].appVersion);
      }
    }
  }

  /** Whether a constraint can be read, and if so whether the version meets it. */
  type Constraints = (string, Version) -> Option<bool>

  /** Charts without a constraint run everywhere; a constraint that cannot be read
      takes the chart out of the catalog. */
  predicate Runs(c: Chart, kv: Version, check: Constraints) {
    c.kubeVersion == "" || check(c.kubeVersion, kv) == Some(true)
  }

  /** Each chart is kept as often as it is listed if it runs, else not at all. */
  ghost predicate KeepsThose(metas: seq<Chart>, kept: seq<Chart>, kv: Version, check: Constraints) {
    forall c: Chart :: multiset(kept)[c] == if Runs(c, kv, check) then multiset(metas)[c] else 0
  }

  /** The charts kept are picked from the list in order, at these positions. */
  ghost predicate Picked(metas: seq<Chart>, kept: seq<Chart>, at: seq<nat>, n: nat) {
    && |at| == |kept| && n <= |metas|
    && (forall k | 0 <= k < |at| :: at[k] < n && kept[k] == metas[at[k]])
    && (forall j, k | 0 <= j < k < |at| :: at[j] < at[k])
  }

  /** slices.DeleteFunc with the version filter. */
  method DeleteUnsupported(metas: seq<Chart>, kv: Version, check: Constraints) returns (kept: seq<Chart>)
    ensures KeepsThose(metas, kept, kv, check)
    ensures Sorted(metas) ==> Sorted(kept)
  {
    hide CompareApps, Runs, KeepsThose, Picked;
    kept := [];
    ghost var at: seq<nat> := [];
    NothingKept(metas, kv, check);
    for i := 0 to |metas|
      invariant KeepsThose(metas[..i], kept, kv, check) && Picked(metas, kept, at, i)
    {
      assert metas[..i + 1] == metas[..i] + [metas[i]];
      KeepsNext(metas[..i], metas[i], kept, kv, check);
      PickedNext(metas, kept, at, i);
      if Runs(metas[i], kv, check) {
        kept := kept + [metas[i]];
        at := at + [i];
      }
    }
    assert metas[..|metas|] == metas;
    PickedSorted(metas, kept, at);
  }

  lemma NothingKept(metas: seq<Chart>, kv: Version, check: Constraints)
    ensures KeepsThose(metas[..0], [], kv, check) && Picked(metas, [], [], 0)
  {
  }

  lemma KeepsNext(metas: seq<Chart>, c: Chart, kept: seq<Chart>, kv: Version, check: Constraints)
    requires KeepsThose(metas, kept, kv, check)
    ensures KeepsThose(metas + [c], if Runs(c, kv, check) then kept + [c] else kept, kv, check)
  {
    hide Runs;
  }

  lemma PickedNext(metas: seq<Chart>, kept: seq<Chart>, at: seq<nat>, i: nat)
    requires Picked(metas, kept, at, i) && i < |metas|
    ensures Picked(metas, kept, at, i + 1) && Picked(metas, kept + [metas[i]], at + [i], i + 1)
  {
  }

  lemma PickedSorted(metas: seq<Chart>, kept: seq<Chart>, at: seq<nat>)
    requires Picked(metas, kept, at, |metas|)
    ensures Sorted(metas) ==> Sorted(kept)
  {
    hide CompareApps;
  }

  /** What the catalog lists under a name: the charts that run, newest first. */
  ghost predicate Lists(metas: seq<Chart>, listed: seq<Chart>, kv: Option<Version>, check: Constraints) {
    && Sorted(listed)
    && forall c: Chart :: multiset(listed)[c] == if kv.None? || Runs(c, kv.value, check) then multiset(metas)[c] else 0
  }

  /** The end of fromHelmYAML.  It fails only on a cluster version it cannot read. */
  method FromHelm(entries: map<string, seq<Chart>>, kubeVersion: string, check: Constraints)
    returns (r: Option<map<string, seq<Chart>>>)
    ensures r.None? <==> kubeVersion != "" && Parse(kubeVersion).None?
    ensures r.Some? ==> r.value.Keys == entries.Keys
    ensures r.Some? ==> forall name | name in entries ::
      Lists(entries[name], r.value[name], if kubeVersion == "" then None else Parse(kubeVersion), check)
  {
    hide Parse, Runs, Sorted;
    var cat := entries;
    var left := entries.Keys;
    while left != {}
      invariant left <= entries.Keys == cat.Keys
      invariant forall name | name in entries && name !in left :: Lists(entries[name], cat[name], None, check)
      decreases left
    {
      var name :| name in left;
      var sorted := SortFunc(entries[name]);
      cat, left := cat[name := sorted], left - {name};
    }
    if kubeVersion == "" {
      return Some(cat);
    }
    var kv := Parse(kubeVersion);
    if kv.None? {
      return None;
    }
    var filtered: map<string, seq<Chart>> := map[];
    left := entries.Keys;
    while left != {}
      invariant left <= entries.Keys && filtered.Keys == entries.Keys - left
      invariant forall name | name in filtered :: Lists(entries[name], filtered[name], kv, check)
      decreases left
    {
      var name :| name in left;
      var kept := DeleteUnsupported(cat[name], kv.value, check);
      assert Lists(entries[name], kept, kv, check);
      filtered, left := filtered[name := kept], left - {name};
    }
    return Some(filtered);
  }

  // ---------- looking up

  /** An index out of range ends the program. */
  datatype Outcome = Found(chart: Chart) | NotFound | Panics

  method FindChartAtVersion(cat: map<string, seq<Chart>>, chart: string, version: string) returns (o: Outcome)
    ensures o.Panics? <==> chart in cat && version == "" && cat[chart] == []
    ensures o.NotFound? <==> chart !in cat || (version != "" && forall c | c in cat[chart] :: c.version != version)
    ensures o.Found? && version == "" ==> o.chart == cat[chart][0]
    ensures o.Found? && version != "" ==> IsFirst(cat[chart], version, o.chart)
  {
    if chart !in cat {
      return NotFound;
    }
    var cms := cat[chart];
    if version != "" {
      for i := 0 to |cms|
        invariant forall j | 0 <= j < i :: cms[j].version != version
      {
        if cms[i].version == version {
          return Found(cms[i]);
        }
      }
      return NotFound;
    }
    if cms == [] {
      return Panics;
    }
    return Found(cms[0]);
  }

  /** The first chart of a list with the version asked for. */
  ghost predicate IsFirst(cms: seq<Chart>, version: string, c: Chart) {
    exists i | 0 <= i < |cms| :: cms[i] == c && c.version == version && forall j | 0 <= j < i :: cms[j].version != version
  }

  /** The chart that the lookup without a version finds is supported and no older
      than any that is; there is none, and the lookup panics, exactly when no chart
      is supported. */
  lemma LatestIsNewest(metas: seq<Chart>, listed: seq<Chart>, kv: Option<Version>, check: Constraints)
    requires Lists(metas, listed, kv, check)
    ensures listed == [] <==> forall c | c in metas :: kv.Some? && !Runs(c, kv.value, check)
    ensures listed != [] ==> listed[0] in metas && (kv.Some? ==> Runs(listed[0], kv.value, check))
    ensures listed != [] ==> forall c | c in metas && (kv.None? || Runs(c, kv.value, check)) ::
      CompareApps(listed[0].appVersion, c.appVersion) <= 0
    ensures listed != [] && Comparable(listed[0].appVersion) ==>
      forall c | c in metas && (kv.None? || Runs(c, kv.value, check)) && Comparable(c.appVersion) ::
        c.appVersion == listed[0].appVersion || !Older(listed[0].appVersion, c.appVersion)
  {
    hide Runs, CompareApps, Comparable, Older;
    forall c | c in metas && (kv.None? || Runs(c, kv.value, check))
      ensures c in listed && CompareApps(listed[0].appVersion, c.appVersion) <= 0
      ensures Comparable(listed[0].appVersion) && Comparable(c.appVersion) ==>
        c.appVersion == listed[0].appVersion || !Older(listed[0].appVersion, c.appVersion)
    {
      assert c in multiset(metas);
      assert c in multiset(listed);
      var i :| 0 <= i < |listed| && listed[i] == c;
      AppsDraw(c.appVersion, c.appVersion);
      if Comparable(listed[0].appVersion) && Comparable(c.appVersion) {
        AppsFollowSpec(listed[0].appVersion, c.appVersion);
      }
    }
    if listed != [] {
      assert listed[0] in multiset(listed);
      assert listed[0] in multiset(metas);
    }
  }

  /** Among the charts of the version asked for, the lookup finds one with the
      newest application. */
  lemma FirstIsNewest(listed: seq<Chart>, version: string, c: Chart, other: Chart)
    requires Sorted(listed) && IsFirst(listed, version, c) && other in listed && other.version == version
    ensures CompareApps(c.appVersion, other.appVersion) <= 0
  {
    hide CompareApps;
    var k :| 0 <= k < |listed| && listed[k] == other;
    AppsDraw(c.appVersion, c.appVersion);
  }

  // ---------- fetching

  /** Charts without a constraint are for every cluster, and where the version of the
      cluster is not known every chart is. */
  ghost predicate Supported(c: Chart, kubeVersion: string, check: Constraints) {
    kubeVersion == "" || c.kubeVersion == ""
    || (Parse(kubeVersion).Some? && check(c.kubeVersion, Parse(kubeVersion).value) == Some(true))
  }

  /** The charts a request may be answered with; without a version, any will do. */
  ghost predicate Eligible(c: Chart, metas: seq<Chart>, kubeVersion: string, check: Constraints, version: string) {
    c in metas && Supported(c, kubeVersion, check) && (version == "" || c.version == version)
  }

  /** No eligible chart has a newer application. */
  ghost predicate Newest(c: Chart, metas: seq<Chart>, kubeVersion: string, check: Constraints, version: string) {
    Comparable(c.appVersion) ==>
      forall o | Eligible(o, metas, kubeVersion, check, version) && Comparable(o.appVersion) ::
        o.appVersion == c.appVersion || !Older(c.appVersion, o.appVersion)
  }

  /** What a request ends with: the version of the cluster cannot be read, there is no
      such chart, the program ends, the chart has no archive, or the archive to fetch. */
  datatype Download = Unreadable | Missing | Crash | NoArchive(chart: Chart) | Archive(chart: Chart, url: string)

  /** GetChart, with the entries that the repository has answered with. */
  method GetChart(entries: map<string, seq<Chart>>, kubeVersion: string, check: Constraints, chart: string, version: string)
    returns (d: Download)
    ensures d.Unreadable? <==> kubeVersion != "" && Parse(kubeVersion).None?
    ensures !d.Unreadable? ==> (d.NoArchive? || d.Archive? <==>
      chart in entries && exists c :: Eligible(c, entries[chart], kubeVersion, check, version))
    ensures !d.Unreadable? ==> (d.Crash? <==>
      chart in entries && version == "" && !exists c :: Eligible(c, entries[chart], kubeVersion, check, version))
    ensures d.NoArchive? || d.Archive? ==>
      && Eligible(d.chart, entries[chart], kubeVersion, check, version)
      && Newest(d.chart, entries[chart], kubeVersion, check, version)
    ensures d.NoArchive? ==> d.chart.urls == []
    ensures d.Archive? ==> d.chart.urls != [] && d.url == d.chart.urls[0]
  {
    hide Parse, Runs, Sorted, Comparable, Older, Supported, Newest, Eligible, Lists, IsFirst;
    var cat := FromHelm(entries, kubeVersion, check);
    if cat.None? {
      return Unreadable;
    }
    ghost var kv := if kubeVersion == "" then None else Parse(kubeVersion);
    if chart in entries {
      ListedAreEligible(entries[chart], cat.value[chart], kubeVersion, kv, check, version);
    }
    var o := FindChartAtVersion(cat.value, chart, version);
    match o
    case NotFound => return Missing;
    case Panics => return Crash;
    case Found(c) =>
      FoundIsNewest(entries[chart], cat.value[chart], kubeVersion, kv, check, version, c);
      d := if c.urls == [] then NoArchive(c) else Archive(c, c.urls[0]);
  }

  lemma ListedAreEligible(metas: seq<Chart>, listed: seq<Chart>, kubeVersion: string, kv: Option<Version>, check: Constraints,
                          version: string)
    requires kv == (if kubeVersion == "" then None else Parse(kubeVersion)) && (kubeVersion == "" || kv.Some?)
    requires Lists(metas, listed, kv, check)
    ensures forall c :: Eligible(c, metas, kubeVersion, check, version) <==> c in listed && (version == "" || c.version == version)
    ensures listed != [] ==> listed[0] in listed
  {
    hide Parse, Sorted;
    forall c: Chart
      ensures Eligible(c, metas, kubeVersion, check, version) <==> c in listed && (version == "" || c.version == version)
    {
      assert c in listed <==> c in multiset(listed);
      assert c in metas <==> c in multiset(metas);
    }
  }

  lemma FoundIsNewest(metas: seq<Chart>, listed: seq<Chart>, kubeVersion: string, kv: Option<Version>, check: Constraints,
                      version: string, c: Chart)
    requires kv == (if kubeVersion == "" then None else Parse(kubeVersion)) && (kubeVersion == "" || kv.Some?)
    requires Lists(metas, listed, kv, check)
    requires if version == "" then listed != [] && c == listed[0] else IsFirst(listed, version, c)
    ensures Eligible(c, metas, kubeVersion, check, version) && Newest(c, metas, kubeVersion, check, version)
  {
    hide Parse, Runs, Comparable, Older, CompareApps, Supported;
    ListedAreEligible(metas, listed, kubeVersion, kv, check, version);
    hide Eligible;
    forall o | Eligible(o, metas, kubeVersion, check, version) && Comparable(o.appVersion) && Comparable(c.appVersion)
      ensures o.appVersion == c.appVersion || !Older(c.appVersion, o.appVersion)
    {
      if version == "" {
        var k :| 0 <= k < |listed| && listed[k] == o;
        AppsDraw(c.appVersion, c.appVersion);
      } else {
        FirstIsNewest(listed, version, c, o);
      }
      AppsFollowSpec(c.appVersion, o.appVersion);
    }
  }
}
