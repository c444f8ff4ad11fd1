/** Semantic versions as the vendored Masterminds library reads and orders them,
    against section 11 of Semantic Versioning 2.0.0. */
module Versions {
  import opened Text

  // ---------- strings.Compare

  function CompareStrings(a: string, b: string): (d: int)
    ensures -1 <= d <= 1 && (d == 0 <==> a == b)
  {
    if a == "" then (if b == "" then 0 else -1)
    else if b == "" then 1
    else if a[0] != b[0] then (if a[0] < b[0] then -1 else 1)
    else
      assert a == [a[0]] + a[1..] && b == [b[0]] + b[1..];
      CompareStrings(a[1..], b[1..])
  }

  lemma {:induction false} StringsAntisymmetric(a: string, b: string)
    ensures CompareStrings(b, a) == -CompareStrings(a, b)
  {
    if a != "" && b != "" && a[0] == b[0] {
      StringsAntisymmetric(a[1..], b[1..]);
    }
  }

  lemma {:induction false} StringsTransitive(a: string, b: string, c: string)
    requires CompareStrings(a, b) <= 0 && CompareStrings(b, c) <= 0
    ensures CompareStrings(a, c) <= 0
  {
    if a != "" && b != "" && c != "" && a[0] == b[0] == c[0] {
      StringsTransitive(a[1..], b[1..], c[1..]);
    }
  }

  /** Dictionary order: a proper beginning, or lower at the first difference. */
  ghost predicate Before(a: string, b: string) {
    exists i | 0 <= i <= |a| && i < |b| :: LowerAt(a, b, i)
  }

  ghost predicate LowerAt(a: string, b: string, i: nat)
    requires i <= |a| && i < |b|
  {
    a[..i] == b[..i] && (i == |a| || a[i] < b[i])
  }

  lemma {:induction false} StringsOrder(a: string, b: string)
    ensures CompareStrings(a, b) < 0 <==> Before(a, b)
  {
    if b == "" {
    } else if a == "" || a[0] < b[0] {
      assert LowerAt(a, b, 0);
    } else if a[0] > b[0] {
      forall i | 0 <= i <= |a| && i < |b|
        ensures !LowerAt(a, b, i)
      {
        if i > 0 {
          assert a[..i][0] != b[..i][0];
        }
      }
    } else {
      StringsOrder(a[1..], b[1..]);
      if Before(a[1..], b[1..]) {
        var i :| 0 <= i <= |a| - 1 && i < |b| - 1 && LowerAt(a[1..], b[1..], i);
        assert a[..i + 1] == [a[0]] + a[1..][..i] && b[..i + 1] == [b[0]] + b[1..][..i];
        assert LowerAt(a, b, i + 1);
      }
      if Before(a, b) {
        var i :| 0 <= i <= |a| && i < |b| && LowerAt(a, b, i);
        assert a[1..][..i - 1] == a[..i][1..] && b[1..][..i - 1] == b[..i][1..];
        assert LowerAt(a[1..], b[1..], i - 1);
      }
    }
  }

  // ---------- pre-release identifiers

  predicate AllowedChar(c: char) { IsDigit(c) || 'a' <= c <= 'z' || 'A' <= c <= 'Z' || c == '-' }

  /** Not empty, of allowed characters, and without a leading zero if numeric. */
  predicate ValidId(s: string) {
    && s != "" && (forall i | 0 <= i < |s| :: AllowedChar(s[i]))
    && (AllDigits(s) ==> Canonical(s))
  }

  predicate ValidIds(ids: seq<string>) { forall i | 0 <= i < |ids| :: ValidId(ids[i]) }

  /** comparePrePart.  The empty string stands for an identifier that is not there. */
  function ComparePart(s: string, o: string): (d: int)
    ensures -1 <= d <= 1
    ensures d == 0 <==> s == o
  {
    if s == o then 0
    else if s == "" then -1
    else if o == "" then 1
    else
      match (ParseUint(s), ParseUint(o))
      case (None, None) => CompareStrings(s, o)
      case (Some(_), None) => -1
      case (None, Some(_)) => 1
      case (Some(m), Some(n)) => if m > n then 1 else -1
  }

  lemma SameNumber(s: string, o: string)
    requires ValidId(s) && ValidId(o) && ParseUint(s).Some? && ParseUint(s) == ParseUint(o)
    ensures s == o
  {
    CanonicalDigits(s);
    CanonicalDigits(o);
  }

  lemma PartAntisymmetric(s: string, o: string)
    requires s == "" || ValidId(s)
    requires o == "" || ValidId(o)
    ensures ComparePart(o, s) == -ComparePart(s, o)
  {
    hide ValidId, ParseUint;
    StringsAntisymmetric(s, o);
    if s != "" && o != "" && ParseUint(s).Some? && ParseUint(s) == ParseUint(o) {
      SameNumber(s, o);
    }
  }

  lemma PartTransitive(a: string, b: string, c: string)
    requires a == "" || ValidId(a)
    requires b == "" || ValidId(b)
    requires c == "" || ValidId(c)
    requires ComparePart(a, b) <= 0 && ComparePart(b, c) <= 0
    ensures ComparePart(a, c) <= 0
  {
    hide ValidId, ParseUint, CompareStrings;
    if a != "" && c != "" && ParseUint(a).None? && ParseUint(b).None? && ParseUint(c).None? {
      StringsTransitive(a, b, c);
    }
    if a != "" && b != "" && ParseUint(a).Some? && ParseUint(a) == ParseUint(b) {
      SameNumber(a, b);
    }
  }

  // ---------- lists of identifiers

  function First(ids: seq<string>): string { if ids == [] then "" else ids[0] }
  function Rest(ids: seq<string>): seq<string> { if ids == [] then [] else ids[1..] }

  /** What the loop of comparePrerelease decides. */
  function CompareIds(a: seq<string>, b: seq<string>): (d: int)
    ensures -1 <= d <= 1
    decreases |a| + |b|
  {
    if a == [] && b == [] then 0
    else if ComparePart(First(a), First(b)) != 0 then ComparePart(First(a), First(b))
    else CompareIds(Rest(a), Rest(b))
  }

  method ComparePrerelease(v: string, o: string) returns (d: int)
    ensures d == CompareIds(Split(v, '.'), Split(o, '.'))
  {
    hide ComparePart;
    var sparts, oparts := Split(v, '.'), Split(o, '.');
    var l := if |oparts| > |sparts| then |oparts| else |sparts|;
    for i := 0 to l
      invariant CompareIds(sparts, oparts) == CompareIds(From(sparts, i), From(oparts, i))
    {
      assert Rest(From(sparts, i)) == From(sparts, i + 1) && Rest(From(oparts, i)) == From(oparts, i + 1);
      d := ComparePart(if i < |sparts| then sparts[i] else "", if i < |oparts| then oparts[i] else "");
      if d != 0 {
        return;
      }
    }
    d := 0;
  }

  ghost function From(ids: seq<string>, i: nat): seq<string> { if i <= |ids| then ids[i..] else [] }

  lemma {:induction false} SameIds(a: seq<string>, b: seq<string>)
    requires ValidIds(a) && ValidIds(b)
    ensures CompareIds(a, b) == 0 <==> a == b
    decreases |a| + |b|
  {
    hide ComparePart;
    if a != [] && b != [] && a[0] == b[0] {
      SameIds(a[1..], b[1..]);
      assert a == [a[0]] + a[1..] && b == [b[0]] + b[1..];
    } else if a != [] {
      assert ValidId(a[0]);
    } else if b != [] {
      assert ValidId(b[0]);
    }
  }

  lemma {:induction false} IdsAntisymmetric(a: seq<string>, b: seq<string>)
    requires ValidIds(a) && ValidIds(b)
    ensures CompareIds(b, a) == -CompareIds(a, b)
    decreases |a| + |b|
  {
    hide ComparePart, ValidId;
    PartAntisymmetric(First(a), First(b));
    if a != [] || b != [] {
      IdsAntisymmetric(Rest(a), Rest(b));
    }
  }

  lemma {:induction false} IdsTransitive(a: seq<string>, b: seq<string>, c: seq<string>)
    requires ValidIds(a) && ValidIds(b) && ValidIds(c)
    requires CompareIds(a, b) <= 0 && CompareIds(b, c) <= 0
    ensures CompareIds(a, c) <= 0
    decreases |a| + |b| + |c|
  {
    hide ComparePart, ValidId;
    PartTransitive(First(a), First(b), First(c));
    PartAntisymmetric(First(a), First(b));
    PartAntisymmetric(First(b), First(c));
    if ComparePart(First(a), First(c)) == 0 {
      if ComparePart(First(a), First(b)) < 0 {
        PartAntisymmetric(First(b), First(a));
      }
      if a != [] || b != [] || c != [] {
        IdsTransitive(Rest(a), Rest(b), Rest(c));
      }
    }
  }

  // ---------- versions

  /** Build metadata is checked and then plays no part. */
  datatype Version = Version(major: nat, minor: nat, patch: nat, pre: string)

  function Ids(v: Version): seq<string> { if v.pre == "" then [] else Split(v.pre, '.') }

  /** What is before the first delimiter, and what is after it if there is one. */
  function Cut(s: string, d: char): (string, Option<string>) {
    var i := IndexOf(s, d);
    if i == |s| then (s, None) else (s[..i], Some(s[i + 1..]))
  }

  predicate ValidMetadata(m: string) {
    forall id | id in Split(m, '.') :: id != "" && forall i | 0 <= i < |id| :: AllowedChar(id[i])
  }

  /** A segment that is not there counts as zero. */
  function Segment(parts: seq<string>, i: nat): Option<nat> {
    if i < |parts| then ParseUint(parts[i]) else Some(0)
  }

  /** semver.NewVersion, which accepts one to three segments and a leading v. */
  function Parse(s: string): Option<Version> {
    var (rest, metadata) := Cut(if s != "" && s[0] == 'v' then s[1..] else s, '+');
    var (core, pre) := Cut(rest, '-');
    var parts := Split(core, '.');
    if |parts| > 3 || (pre.Some? && !ValidIds(Split(pre.value, '.'))) || (metadata.Some? && !ValidMetadata(metadata.value)) then None
    else
      match (Segment(parts, 0), Segment(parts, 1), Segment(parts, 2))
      case (Some(major), Some(minor), Some(patch)) => Some(Version(major, minor, patch, pre.GetOr("")))
      case _ => None
  }

  predicate Valid(v: Version) { ValidIds(Ids(v)) }

  lemma ParsedIsValid(s: string)
    ensures Parse(s).Some? ==> Valid(Parse(s).value)
  {
  }

  lemma ParsedFits(s: string)
    ensures Parse(s).Some? ==> Parse(s).value.major < UINT64_LIMIT && Parse(s).value.minor < UINT64_LIMIT && Parse(s).value.patch < UINT64_LIMIT
  {
  }

  function CoreOf(v: Version): string { Digits(v.major) + "." + Digits(v.minor) + "." + Digits(v.patch) }

  function TextOf(v: Version): string { CoreOf(v) + if v.pre == "" then "" else "-" + v.pre }

  lemma {:induction false} PreChars(s: string, i: nat)
    requires ValidIds(Split(s, '.')) && i < |s|
    ensures AllowedChar(s[i]) || s[i] == '.'
    decreases |s|
  {
    hide AllowedChar;
    var k := IndexOf(s, '.');
    assert s[..|s|] == s;
    assert ValidId(Split(s, '.')[0]) && Split(s, '.')[0] == s[..k];
    if i < k {
      assert s[i] == s[..k][i];
    } else if i > k {
      assert Split(s, '.')[1..] == Split(s[k + 1..], '.');
      PreChars(s[k + 1..], i - k - 1);
    }
  }

  lemma SplitCore(v: Version)
    ensures Split(CoreOf(v), '.') == [Digits(v.major), Digits(v.minor), Digits(v.patch)]
  {
    hide Digits, Split;
    var rest := Digits(v.minor) + "." + Digits(v.patch);
    assert CoreOf(v) == Digits(v.major) + ['.'] + rest && rest == Digits(v.minor) + ['.'] + Digits(v.patch);
    SplitFirst(Digits(v.major), rest, '.');
    SplitFirst(Digits(v.minor), Digits(v.patch), '.');
    SplitFree(Digits(v.patch), '.');
  }

  /** Every valid version whose segments fit in 64 bits has a text it is parsed from. */
  lemma ParseText(v: Version)
    requires Valid(v) && v.major < UINT64_LIMIT && v.minor < UINT64_LIMIT && v.patch < UINT64_LIMIT
    ensures Parse(TextOf(v)) == Some(v)
  {
    hide Digits, Split, ParseUint, IndexOf, ValidId;
    var s, core := TextOf(v), CoreOf(v);
    assert forall i | 0 <= i < |core| :: IsDigit(core[i]) || core[i] == '.';
    assert core[0] == Digits(v.major)[0];
    forall i | 0 <= i < |v.pre|
      ensures v.pre[i] != '+'
    {
      PreChars(v.pre, i);
    }
    assert s[..|s|] == s && s[..|core|] == core;
    FirstIndex(s, |s|, '+');
    FirstIndex(s, |core|, '-');
    assert v.pre != "" ==> s[|core| + 1..] == v.pre;
    SplitCore(v);
    ParseDigits(v.major);
    ParseDigits(v.minor);
    ParseDigits(v.patch);
  }

  function CompareSegment(v: nat, o: nat): int { if v < o then -1 else if v > o then 1 else 0 }

  function Compare(v: Version, o: Version): (d: int)
    ensures -1 <= d <= 1
  {
    if v.major != o.major then CompareSegment(v.major, o.major)
    else if v.minor != o.minor then CompareSegment(v.minor, o.minor)
    else if v.patch != o.patch then CompareSegment(v.patch, o.patch)
    else if v.pre == "" && o.pre == "" then 0
    else if v.pre == "" then 1
    else if o.pre == "" then -1
    else CompareIds(Split(v.pre, '.'), Split(o.pre, '.'))
  }

  /** The comparison is a total order on versions: a draw is between equals only. */
  lemma CompareIsOrder(a: Version, b: Version, c: Version)
    requires Valid(a) && Valid(b) && Valid(c)
    ensures Compare(b, a) == -Compare(a, b)
    ensures Compare(a, b) == 0 <==> a == b
    ensures Compare(a, b) <= 0 && Compare(b, c) <= 0 ==> Compare(a, c) <= 0
  {
    hide CompareIds, ValidIds, Split;
    IdsAntisymmetric(Ids(a), Ids(b));
    SameIds(Ids(a), Ids(b));
    if Split(a.pre, '.') == Split(b.pre, '.') {
      JoinSplit(a.pre, '.');
      JoinSplit(b.pre, '.');
    }
    if CompareIds(Ids(a), Ids(b)) <= 0 && CompareIds(Ids(b), Ids(c)) <= 0 {
      IdsTransitive(Ids(a), Ids(b), Ids(c));
    }
  }

  // ---------- section 11 of Semantic Versioning 2.0.0

  /** Numeric identifiers are compared numerically and are lower than the others,
      which are compared in ASCII order (11.4.1 to 11.4.3). */
  ghost predicate IdPrecedes(s: string, o: string) {
    if AllDigits(s) && AllDigits(o) then NumeralValue(s) < NumeralValue(o)
    else if AllDigits(s) || AllDigits(o) then AllDigits(s)
    else Before(s, o)
  }

  /** The first difference decides; if there is none, the shorter list is lower (11.4.4). */
  ghost predicate IdsPrecede(a: seq<string>, b: seq<string>) {
    exists i | 0 <= i <= |a| && i < |b| :: FirstDifference(a, b, i)
  }

  ghost predicate FirstDifference(a: seq<string>, b: seq<string>, i: nat)
    requires i <= |a| && i < |b|
  {
    a[..i] == b[..i] && (i == |a| || (a[i] != b[i] && IdPrecedes(a[i], b[i])))
  }

  ghost predicate Precedes(v: Version, o: Version) {
    || v.major < o.major
    || (v.major == o.major && v.minor < o.minor)
    || (v.major == o.major && v.minor == o.minor && v.patch < o.patch)
    || (v.major == o.major && v.minor == o.minor && v.patch == o.patch && v.pre != ""
        && (o.pre == "" || IdsPrecede(Ids(v), Ids(o))))
  }

  /** A numeric identifier that does not fit in 64 bits, which the comparison takes
      for a text. */
  predicate Overflows(id: string) { AllDigits(id) && NumeralValue(id) >= UINT64_LIMIT }

  predicate Fits(ids: seq<string>) { forall i | 0 <= i < |ids| :: !Overflows(ids[i]) }

  lemma PartFollowsSpec(s: string, o: string)
    requires ValidId(s) && ValidId(o) && !Overflows(s) && !Overflows(o)
    ensures ComparePart(s, o) < 0 <==> s != o && IdPrecedes(s, o)
  {
    hide NumeralValue, Before, CompareStrings;
    StringsOrder(s, o);
    if ParseUint(s).Some? && ParseUint(s) == ParseUint(o) {
      SameNumber(s, o);
    }
  }

  lemma {:induction false} IdsFollowSpec(a: seq<string>, b: seq<string>)
    requires ValidIds(a) && ValidIds(b) && Fits(a) && Fits(b)
    ensures CompareIds(a, b) < 0 <==> IdsPrecede(a, b)
    decreases |a| + |b|
  {
    hide ComparePart, IdPrecedes, ValidId, Overflows;
    if b == [] {
      if a != [] {
        NotEmptyId(a[0]);
      }
    } else if a == [] {
      NotEmptyId(b[0]);
      assert FirstDifference(a, b, 0);
    } else {
      PrecedeStep(a, b);
      if a[0] != b[0] {
        PartFollowsSpec(a[0], b[0]);
      } else {
        IdsFollowSpec(a[1..], b[1..]);
      }
    }
  }

  lemma PrecedeStep(a: seq<string>, b: seq<string>)
    requires a != [] && b != []
    ensures IdsPrecede(a, b) <==> if a[0] != b[0] then IdPrecedes(a[0], b[0]) else IdsPrecede(a[1..], b[1..])
  {
    hide IdPrecedes;
    if a[0] != b[0] {
      if IdPrecedes(a[0], b[0]) {
        assert FirstDifference(a, b, 0);
      }
      forall i | 0 < i <= |a| && i < |b|
        ensures !FirstDifference(a, b, i)
      {
        assert a[..i][0] != b[..i][0];
      }
    } else {
      if IdsPrecede(a[1..], b[1..]) {
        var i :| 0 <= i <= |a| - 1 && i < |b| - 1 && FirstDifference(a[1..], b[1..], i);
        assert a[..i + 1] == [a[0]] + a[1..][..i] && b[..i + 1] == [b[0]] + b[1..][..i];
        assert FirstDifference(a, b, i + 1);
      }
      if IdsPrecede(a, b) {
        var i :| 0 <= i <= |a| && i < |b| && FirstDifference(a, b, i);
        assert a[1..][..i - 1] == a[..i][1..] && b[1..][..i - 1] == b[..i][1..];
        assert FirstDifference(a[1..], b[1..], i - 1);
      }
    }
  }

  lemma NotEmptyId(id: string)
    requires ValidId(id)
    ensures ComparePart("", id) == -1 && ComparePart(id, "") == 1
  {
  }

  lemma CompareFollowsSpec(v: Version, o: Version)
    requires Valid(v) && Valid(o) && Fits(Ids(v)) && Fits(Ids(o))
    ensures Compare(v, o) < 0 <==> Precedes(v, o)
  {
    hide CompareIds, ValidIds, Fits, Split, IdsPrecede;
    IdsFollowSpec(Ids(v), Ids(o));
  }

  lemma {:induction false} CompareAt(a: seq<string>, b: seq<string>, k: nat)
    requires k < |a| && k < |b| && a[..k] == b[..k] && a[k] != b[k]
    ensures CompareIds(a, b) == ComparePart(a[k], b[k])
  {
    hide ComparePart;
    if k > 0 {
      assert a[..k][0] == b[..k][0] && a[1..][..k - 1] == a[..k][1..] && b[1..][..k - 1] == b[..k][1..];
      CompareAt(a[1..], b[1..], k - 1);
    }
  }

  lemma {:induction false} FirstOverflow(ids: seq<string>) returns (k: nat)
    requires !Fits(ids)
    ensures k < |ids| && Overflows(ids[k]) && Fits(ids[..k])
  {
    hide Overflows;
    if Overflows(ids[0]) {
      k := 0;
    } else {
      k := FirstOverflow(ids[1..]);
      assert ids[..k + 1] == [ids[0]] + ids[1..][..k];
      k := k + 1;
    }
  }

  /** A text that a numeric identifier too large for 64 bits is put above. */
  lemma OverflowAboveHyphen(id: string)
    requires ValidId(id) && Overflows(id)
    ensures ComparePart(id, "-") == 1 && IdPrecedes(id, "-") && id != "-"
  {
    assert !AllDigits("-") by { assert !IsDigit("-"[0]); }
    assert IsDigit(id[0]);
  }

  lemma OverflowBreaksOrder(v: Version) returns (o: Version)
    requires Valid(v) && !Fits(Ids(v))
    ensures Valid(o) && Fits(Ids(o)) && Precedes(v, o) && Compare(v, o) > 0
    ensures o == v.(pre := o.pre)
  {
    hide ComparePart, IdPrecedes, CompareIds;
    var k := FirstOverflow(Ids(v));
    var ids := Ids(v)[..k] + ["-"];
    o := v.(pre := Join(ids, '.'));
    assert !AllDigits("-") by { assert !IsDigit("-"[0]); }
    assert ValidId("-");
    assert forall i | 0 <= i < |ids| :: ValidId(ids[i]) && !Overflows(ids[i]);
    SplitJoinIds(ids);
    OverflowAboveHyphen(Ids(v)[k]);
    assert Ids(v)[..k] == ids[..k];
    CompareAt(Ids(v), ids, k);
    assert FirstDifference(Ids(v), ids, k);
  }

  lemma SplitJoinIds(ids: seq<string>)
    requires |ids| >= 1 && ValidIds(ids)
    ensures Join(ids, '.') != "" && Split(Join(ids, '.'), '.') == ids
  {
    assert forall i | 0 <= i < |ids| :: Free(ids[i], '.') && ValidId(ids[i]);
    SplitJoin(ids, '.');
    assert ids[0] != "";
  }

  /** The comparison of a version with the others is that of section 11 exactly when
      its numeric identifiers all fit in 64 bits. */
  lemma FollowsSpecExactly(v: Version)
    requires Valid(v)
    ensures Fits(Ids(v)) <==>
      forall o: Version | Valid(o) && Fits(Ids(o)) :: Compare(v, o) < 0 <==> Precedes(v, o)
  {
    hide Compare, Precedes, Valid, Fits;
    if Fits(Ids(v)) {
      forall o: Version | Valid(o) && Fits(Ids(o))
        ensures Compare(v, o) < 0 <==> Precedes(v, o)
      {
        CompareFollowsSpec(v, o);
      }
    } else {
      var o := OverflowBreaksOrder(v);
    }
  }

  /** Such versions can be written down. */
  lemma OverflowingText()
    ensures var s := "1.0.0-" + Digits(UINT64_LIMIT);
      Parse(s).Some? && !Fits(Ids(Parse(s).value))
  {
    hide Digits, Parse, ParseUint, NumeralValue;
    var pre := Digits(UINT64_LIMIT);
    var v := Version(1, 0, 0, pre);
    SplitFree(pre, '.');
    DigitsCanonical(UINT64_LIMIT);
    DigitsValue(UINT64_LIMIT);
    assert Ids(v) == [pre] && Overflows(Ids(v)[0]);
    ParseText(v);
    SmallDigits();
    assert TextOf(v) == "1.0.0-" + pre;
  }

  lemma SmallDigits()
    ensures Digits(0) == "0" && Digits(1) == "1"
  {
  }
}
