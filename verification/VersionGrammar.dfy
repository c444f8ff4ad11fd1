/** The texts that semver.NewVersion accepts, as its grammar gives them, and what each
    of them means. */
module VersionGrammar {
  import opened Text
  import opened Versions

  /** The parts of a version's text: a leading v, one to three numbers, the identifiers
      behind a hyphen, and those behind a plus sign. */
  datatype Layout = Layout(v: bool, numbers: seq<string>, pre: Option<seq<string>>, metadata: Option<seq<string>>)

  function Tail(mark: string, ids: Option<seq<string>>): string
    requires ids.Some? ==> ids.value != []
  {
    if ids.Some? then mark + Join(ids.value, '.') else ""
  }

  predicate AllowedId(id: string) { id != "" && forall i | 0 <= i < |id| :: AllowedChar(id[i]) }

  /** Numbers within 64 bits, leading zeros or not; identifiers of letters, digits and
      hyphens, and no numeric one before the plus sign with a leading zero. */
  ghost predicate Sound(l: Layout) {
    && 1 <= |l.numbers| <= 3
    && (forall i | 0 <= i < |l.numbers| ::
          l.numbers[i] != "" && AllDigits(l.numbers[i]) && NumeralValue(l.numbers[i]) < UINT64_LIMIT)
    && (l.pre.Some? ==> l.pre.value != [] && ValidIds(l.pre.value))
    && (l.metadata.Some? ==> l.metadata.value != [] && forall i | 0 <= i < |l.metadata.value| :: AllowedId(l.metadata.value[i]))
  }

  ghost function Body(l: Layout): string
    requires Sound(l)
  {
    Join(l.numbers, '.') + Tail("-", l.pre) + Tail("+", l.metadata)
  }

  ghost function Written(l: Layout): string
    requires Sound(l)
  {
    (if l.v then "v" else "") + Body(l)
  }

  function Number(l: Layout, i: nat): nat { if i < |l.numbers| then NumeralValue(l.numbers[i]) else 0 }

  /** Missing numbers are zero; the leading v and the metadata make no difference. */
  ghost function Means(l: Layout): Version
    requires Sound(l)
  {
    Version(Number(l, 0), Number(l, 1), Number(l, 2), if l.pre.Some? then Join(l.pre.value, '.') else "")
  }

  ghost predicate Writes(l: Layout, s: string) { Sound(l) && Written(l) == s }

  /** A text is accepted exactly when it has such parts, and then it is read as what
      they mean. */
  lemma ParseIs(s: string)
    ensures Parse(s).Some? <==> exists l :: Writes(l, s)
    ensures forall l | Writes(l, s) :: Parse(s) == Some(Means(l))
  {
    hide Parse, Sound, Written, Means;
    forall l | Writes(l, s)
      ensures Parse(s) == Some(Means(l))
    {
      WrittenIsRead(l);
    }
    if Parse(s).Some? {
      var l := LayoutOf(s);
      assert Writes(l, s);
    }
  }

  // ---------- what is written is read

  lemma CutIs(a: string, d: char, tail: Option<string>)
    requires Free(a, d)
    ensures Cut(a + (if tail.Some? then [d] + tail.value else ""), d) == (a, tail)
  {
    var s := a + (if tail.Some? then [d] + tail.value else "");
    assert s[..|a|] == a && (tail.Some? ==> s[|a| + 1..] == tail.value);
    assert tail.None? ==> s == a;
    FirstIndex(s, |a|, d);
  }

  ghost predicate Plain(s: string) { forall i | 0 <= i < |s| :: AllowedChar(s[i]) || s[i] == '.' }

  lemma {:induction false} JoinedPlain(ids: seq<string>)
    requires ids != [] && forall i | 0 <= i < |ids| :: AllowedId(ids[i])
    ensures Plain(Join(ids, '.')) && Free(Join(ids, '.'), '+')
    ensures forall i | 0 <= i < |ids| :: Free(ids[i], '.')
  {
    if |ids| > 1 {
      JoinedPlain(ids[1..]);
      assert forall i | 0 <= i < |ids| :: i > 0 ==> ids[i] == ids[1..][i - 1];
    }
  }

  lemma {:induction false} JoinedNumbers(numbers: seq<string>)
    requires numbers != [] && forall i | 0 <= i < |numbers| :: numbers[i] != "" && AllDigits(numbers[i])
    ensures var core := Join(numbers, '.');
      core != "" && core[0] != 'v' && Free(core, '-') && Free(core, '+') && Split(core, '.') == numbers
  {
    hide Split;
    SplitJoin(numbers, '.');
    assert numbers[0][0] == Join(numbers, '.')[0];
    DigitsOnly(numbers);
  }

  lemma {:induction false} DigitsOnly(numbers: seq<string>)
    requires numbers != [] && forall i | 0 <= i < |numbers| :: AllDigits(numbers[i])
    ensures var core := Join(numbers, '.'); forall i | 0 <= i < |core| :: IsDigit(core[i]) || core[i] == '.'
  {
    if |numbers| > 1 {
      DigitsOnly(numbers[1..]);
      assert Join(numbers, '.') == numbers[0] + ['.'] + Join(numbers[1..], '.');
    }
  }

  lemma IdsAreRead(ids: seq<string>)
    requires ids != [] && forall i | 0 <= i < |ids| :: AllowedId(ids[i])
    ensures Split(Join(ids, '.'), '.') == ids && Free(Join(ids, '.'), '+')
  {
    hide AllowedId, Split, Join, Free;
    JoinedPlain(ids);
    SplitJoin(ids, '.');
  }

  function Joined(ids: Option<seq<string>>): Option<string>
    requires ids.Some? ==> ids.value != []
  {
    if ids.Some? then Some(Join(ids.value, '.')) else None
  }

  lemma WrittenIsRead(l: Layout)
    requires Sound(l)
    ensures Parse(Written(l)) == Some(Means(l))
  {
    hide Split, Join, Free, IndexOf, Cut, ValidId, AllowedId, NumeralValue, AllDigits;
    var core := Join(l.numbers, '.');
    JoinedNumbers(l.numbers);
    if l.pre.Some? {
      assert forall i | 0 <= i < |l.pre.value| :: AllowedId(l.pre.value[i]) by { ValidAllowed(l.pre.value); }
      IdsAreRead(l.pre.value);
    }
    if l.metadata.Some? {
      IdsAreRead(l.metadata.value);
    }
    var rest := core + Tail("-", l.pre);
    assert Free(rest, '+') by { StaysFree(core, l.pre); }
    CutIs(core, '-', Joined(l.pre));
    CutIs(rest, '+', Joined(l.metadata));
    WithoutV(l);
    if l.metadata.Some? {
      MetadataIsValid(l);
    }
  }

  lemma ValidAllowed(ids: seq<string>)
    requires ValidIds(ids)
    ensures forall i | 0 <= i < |ids| :: AllowedId(ids[i])
  {
  }

  lemma StaysFree(core: string, pre: Option<seq<string>>)
    requires Free(core, '+') && (pre.Some? ==> pre.value != [] && Free(Join(pre.value, '.'), '+'))
    ensures Free(core + Tail("-", pre), '+')
  {
  }

  lemma WithoutV(l: Layout)
    requires Sound(l)
    requires Join(l.numbers, '.') != "" && Join(l.numbers, '.')[0] != 'v'
    ensures var s := Written(l); Body(l) == if s != "" && s[0] == 'v' then s[1..] else s
  {
    assert Body(l)[0] == Join(l.numbers, '.')[0];
    assert l.v ==> Written(l)[0] == 'v' && Written(l)[1..] == Body(l);
    assert !l.v ==> Written(l) == Body(l);
  }

  lemma MetadataIsValid(l: Layout)
    requires Sound(l) && l.metadata.Some? && Split(Join(l.metadata.value, '.'), '.') == l.metadata.value
    ensures ValidMetadata(Join(l.metadata.value, '.'))
  {
  }

  // ---------- what is read has been written

  lemma CutBack(s: string, d: char)
    ensures var (a, tail) := Cut(s, d); s == a + (if tail.Some? then [d] + tail.value else "")
  {
    var i := IndexOf(s, d);
    if i < |s| {
      assert s == s[..i] + [s[i]] + s[i + 1..];
    }
  }

  function Parts(text: Option<string>): Option<seq<string>> {
    if text.Some? then Some(Split(text.value, '.')) else None
  }

  lemma PartsBack(mark: char, text: Option<string>)
    ensures Tail([mark], Parts(text)) == if text.Some? then [mark] + text.value else ""
  {
    if text.Some? {
      JoinSplit(text.value, '.');
    }
  }

  lemma LayoutOf(s: string) returns (l: Layout)
    requires Parse(s).Some?
    ensures Sound(l) && Written(l) == s
  {
    hide Split, Join, IndexOf, Cut, NumeralValue, AllDigits, ValidId, AllowedId;
    var v := s != "" && s[0] == 'v';
    var body := if v then s[1..] else s;
    assert s == (if v then "v" else "") + body;
    var (rest, metadata) := Cut(body, '+');
    var (core, pre) := Cut(rest, '-');
    CutBack(body, '+');
    CutBack(rest, '-');
    l := Layout(v, Split(core, '.'), Parts(pre), Parts(metadata));
    JoinSplit(core, '.');
    PartsBack('-', pre);
    PartsBack('+', metadata);
    assert Sound(l) by { IsSound(s, l, core, pre, metadata); }
  }

  lemma IsSound(s: string, l: Layout, core: string, pre: Option<string>, metadata: Option<string>)
    requires Parse(s).Some?
    requires var (rest, m) := Cut(if s != "" && s[0] == 'v' then s[1..] else s, '+'); metadata == m && (core, pre) == Cut(rest, '-')
    requires l == Layout(s != "" && s[0] == 'v', Split(core, '.'), Parts(pre), Parts(metadata))
    ensures Sound(l)
  {
    hide Cut, Split, IndexOf, ValidId, NumeralValue, AllDigits;
    var parts := Split(core, '.');
    assert Segment(parts, 0).Some? && Segment(parts, 1).Some? && Segment(parts, 2).Some?;
  }
}
