/** Options, and the string operations of Go's strings and strconv packages
    that the modelled code relies on. */
module Text {

  datatype Option<+T> = None | Some(value: T) {
    function GetOr(default: T): T {
      match this
      case Some(v) => v
      case None => default
    }
  }

  // ---------- strings.Split and strings.Join, for a one-character delimiter

  predicate Free(s: string, d: char) { forall i | 0 <= i < |s| :: s[i] != d }

  /** The position of the first delimiter, or the length of the string. */
  function IndexOf(s: string, d: char): (i: nat)
    ensures i <= |s| && Free(s[..i], d)
    ensures i < |s| ==> s[i] == d
  {
    if s == "" || s[0] == d then 0 else 1 + IndexOf(s[1..], d)
  }

  function Split(s: string, d: char): (parts: seq<string>)
    ensures |parts| >= 1
    decreases |s|
  {
    var i := IndexOf(s, d);
    if i == |s| then [s] else [s[..i]] + Split(s[i + 1..], d)
  }

  lemma {:induction false} PartsFree(s: string, d: char, k: nat)
    requires k < |Split(s, d)|
    ensures Free(Split(s, d)[k], d)
    decreases |s|
  {
    var i := IndexOf(s, d);
    assert s[..|s|] == s;
    if i < |s| && k > 0 {
      PartsFree(s[i + 1..], d, k - 1);
    }
  }

  function Join(parts: seq<string>, d: char): string
    requires |parts| >= 1
  {
    if |parts| == 1 then parts[0] else parts[0] + [d] + Join(parts[1..], d)
  }

  lemma {:induction false} JoinSplit(s: string, d: char)
    ensures Join(Split(s, d), d) == s
    decreases |s|
  {
    hide IndexOf, Free;
    var i := IndexOf(s, d);
    if i < |s| {
      var rest := Split(s[i + 1..], d);
      JoinSplit(s[i + 1..], d);
      assert ([s[..i]] + rest)[1..] == rest;
      assert s == s[..i] + [d] + s[i + 1..];
    }
  }

  lemma FirstIndex(s: string, i: nat, d: char)
    requires i <= |s| && Free(s[..i], d) && (i < |s| ==> s[i] == d)
    ensures IndexOf(s, d) == i
  {
  }

  lemma SplitFree(s: string, d: char)
    requires Free(s, d)
    ensures Split(s, d) == [s]
  {
    assert s[..|s|] == s;
    FirstIndex(s, |s|, d);
  }

  lemma SplitFirst(first: string, rest: string, d: char)
    requires Free(first, d)
    ensures Split(first + [d] + rest, d) == [first] + Split(rest, d)
  {
    var s := first + [d] + rest;
    assert s[..|first|] == first && s[|first| + 1..] == rest;
    FirstIndex(s, |first|, d);
  }

  /** Splitting distributes over joining with the delimiter. */
  lemma {:induction false} SplitAppend(a: string, b: string, d: char)
    ensures Split(a + [d] + b, d) == Split(a, d) + Split(b, d)
    decreases |a|
  {
    hide IndexOf, Free;
    var i := IndexOf(a, d);
    if i == |a| {
      assert a[..i] == a;
      SplitFirst(a, b, d);
    } else {
      var rest := a[i + 1..];
      assert a + [d] + b == a[..i] + [d] + (rest + [d] + b);
      SplitFirst(a[..i], rest + [d] + b, d);
      SplitAppend(rest, b, d);
    }
  }

  lemma {:induction false} JoinAppend(a: seq<string>, b: seq<string>, d: char)
    requires |a| >= 1 && |b| >= 1
    ensures Join(a + b, d) == Join(a, d) + [d] + Join(b, d)
  {
    if |a| == 1 {
      assert (a + b)[1..] == b;
    } else {
      assert (a + b)[1..] == a[1..] + b;
      JoinAppend(a[1..], b, d);
    }
  }

  lemma {:induction false} SplitJoin(parts: seq<string>, d: char)
    requires |parts| >= 1 && forall i | 0 <= i < |parts| :: Free(parts[i], d)
    ensures Split(Join(parts, d), d) == parts
  {
    hide IndexOf, Free;
    if |parts| == 1 {
      SplitFree(parts[0], d);
    } else {
      SplitJoin(parts[1..], d);
      SplitFirst(parts[0], Join(parts[1..], d), d);
    }
  }

  // ---------- strconv: decimal numerals

  const UINT64_LIMIT: nat := 0x1_0000_0000_0000_0000
  const INT64_LIMIT: int := 0x8000_0000_0000_0000

  predicate IsDigit(c: char) { '0' <= c <= '9' }

  function DigitChar(n: nat): (c: char)
    requires n < 10
    ensures IsDigit(c) && c as int - '0' as int == n
  {
    ('0' as int + n) as char
  }

  function DigitOf(c: char): (n: nat)
    ensures n < 10 && (IsDigit(c) ==> DigitChar(n) == c)
  {
    if IsDigit(c) then c as int - '0' as int else 0
  }

  predicate AllDigits(s: string) { forall i | 0 <= i < |s| :: IsDigit(s[i]) }

  function Digits(n: nat): (s: string)
    ensures |s| > 0 && AllDigits(s)
  {
    if n < 10 then [DigitChar(n)] else Digits(n / 10) + [DigitChar(n % 10)]
  }

  function NumeralValue(s: string): nat {
    if s == "" then 0
    else 10 * NumeralValue(s[..|s| - 1]) + DigitOf(s[|s| - 1])
  }

  /** strconv.ParseUint(s, 10, 64): digits only, at least one, in range. */
  function ParseUint(s: string): Option<nat> {
    if s != "" && AllDigits(s) && NumeralValue(s) < UINT64_LIMIT then Some(NumeralValue(s)) else None
  }

  /** strconv.Atoi: an optional sign, then digits, in the range of a 64-bit int. */
  function Atoi(s: string): Option<int> {
    if s == "" then None
    else
      var body := if s[0] == '+' || s[0] == '-' then s[1..] else s;
      if body == "" || !AllDigits(body) then None
      else
        var v: int := if s[0] == '-' then 0 - NumeralValue(body) else NumeralValue(body);
        if -INT64_LIMIT <= v < INT64_LIMIT then Some(v) else None
  }

  lemma {:induction false} DigitsValue(n: nat)
    ensures NumeralValue(Digits(n)) == n
  {
    if n >= 10 {
      DigitsValue(n / 10);
      assert Digits(n)[..|Digits(n)| - 1] == Digits(n / 10);
    }
  }

  lemma DigitsInjective(m: nat, n: nat)
    requires Digits(m) == Digits(n)
    ensures m == n
  {
    DigitsValue(m);
    DigitsValue(n);
  }

  predicate Canonical(s: string) { s != "" && AllDigits(s) && (|s| > 1 ==> s[0] != '0') }

  lemma {:induction false} DigitsCanonical(n: nat)
    ensures Canonical(Digits(n))
    ensures n > 0 ==> Digits(n)[0] != '0'
  {
    if n >= 10 { DigitsCanonical(n / 10); }
  }

  /** A numeral without a leading zero is the numeral of its value. */
  lemma {:induction false} CanonicalDigits(s: string)
    requires Canonical(s)
    ensures Digits(NumeralValue(s)) == s
    ensures |s| > 1 ==> NumeralValue(s) >= 10
  {
    var front, last := s[..|s| - 1], s[|s| - 1];
    assert s == front + [last];
    if |s| > 1 {
      assert front[0] == s[0];
      CanonicalDigits(front);
      if |front| == 1 {
        assert NumeralValue(front[..0]) == 0;
        assert NumeralValue(front) > 0;
      }
      assert NumeralValue(s) / 10 == NumeralValue(front);
    } else {
      assert front == "";
    }
  }

  lemma ParseDigits(n: nat)
    ensures ParseUint(Digits(n)) == if n < UINT64_LIMIT then Some(n) else None
    ensures n < INT64_LIMIT ==> Atoi(Digits(n)) == Some(n)
  {
    DigitsValue(n);
    assert IsDigit(Digits(n)[0]);
  }
}
