/** The Python string built-ins the client relies on: `str(int)`, `in` on
    strings and `str.split(sep)`, with the partners that pin them down
    (parsing back, joining back). */
module PyStr {
  import opened Json

  predicate IsDigit(c: char) { '0' <= c <= '9' }

  predicate AllDigits(s: string) { forall i :: 0 <= i < |s| ==> IsDigit(s[i]) }

  function DigitChar(d: nat): (c: char)
    requires d < 10
    ensures IsDigit(c) && c as int - '0' as int == d
  {
    (d + '0' as int) as char
  }

  function DigitValue(c: char): (d: nat)
    requires IsDigit(c)
    ensures d < 10 && DigitChar(d) == c
  {
    c as int - '0' as int
  }

  /** `str(n)` for a non-negative integer: decimal, no leading zero. */
  function NatToString(n: nat): (s: string)
    ensures |s| >= 1 && AllDigits(s)
    ensures |s| > 1 ==> s[0] != '0'
    decreases n
  {
    if n < 10 then [DigitChar(n)] else NatToString(n / 10) + [DigitChar(n % 10)]
  }

  /** `str(i)` for any integer. */
  function IntToString(i: int): (s: string)
    ensures |s| >= 1
    ensures i >= 0 <==> IsDigit(s[0])
    ensures i < 0 <==> s[0] == '-'
  {
    if i < 0 then "-" + NatToString(-i) else NatToString(i)
  }

  /** The value of a string of decimal digits. */
  function ParseNat(s: string): nat
    requires AllDigits(s)
  {
    if |s| == 0 then 0 else ParseNat(s[..|s| - 1]) * 10 + DigitValue(s[|s| - 1])
  }

  /** `int(s)` restricted to the strings `str` produces; `None` otherwise. */
  function ParseInt(s: string): Option<int> {
    if |s| == 0 then None
    else if s[0] == '-' then
      (if |s| > 1 && AllDigits(s[1..]) then var n: int := ParseNat(s[1..]); Some(-n) else None)
    else if AllDigits(s) then Some(ParseNat(s))
    else None
  }

  lemma {:induction false} ParseNatToString(n: nat)
    ensures ParseNat(NatToString(n)) == n
    decreases n
  {
    if n >= 10 {
      var s := NatToString(n);
      assert s[..|s| - 1] == NatToString(n / 10);
      ParseNatToString(n / 10);
    }
  }

  /** Reading back what `str(i)` wrote gives `i`. */
  lemma IntToStringRoundTrip(i: int)
    ensures ParseInt(IntToString(i)) == Some(i)
  {
    if i < 0 {
      assert IntToString(i)[1..] == NatToString(-i);
      ParseNatToString(-i);
    } else {
      ParseNatToString(i);
    }
  }

  /** Distinct integers print differently. */
  lemma IntToStringInjective(i: int, j: int)
    requires IntToString(i) == IntToString(j)
    ensures i == j
  {
    IntToStringRoundTrip(i);
    IntToStringRoundTrip(j);
  }

  /** The number of leading decimal digits of `t`. */
  function LeadingDigits(t: string): (k: nat)
    ensures k <= |t|
    ensures AllDigits(t[..k])
    ensures k < |t| ==> !IsDigit(t[k])
  {
    if |t| == 0 || !IsDigit(t[0]) then 0
    else
      var k := 1 + LeadingDigits(t[1..]);
      assert t[..k] == [t[0]] + t[1..][..k - 1];
      k
  }

  lemma {:induction false} LeadingDigitsOfDigits(d: string, rest: string)
    requires AllDigits(d)
    requires rest == [] || !IsDigit(rest[0])
    ensures LeadingDigits(d + rest) == |d|
    decreases |d|
  {
    if |d| > 0 {
      assert (d + rest)[1..] == d[1..] + rest;
      LeadingDigitsOfDigits(d[1..], rest);
    }
  }

  /** `sep` starts at index `i` of `s`. */
  predicate OccursAt(s: string, sep: string, i: nat) {
    i + |sep| <= |s| && s[i..i + |sep|] == sep
  }

  /** Python's `sep in s`: the empty separator occurs in every string. */
  predicate Occurs(s: string, sep: string): (b: bool)
    ensures |sep| == 0 ==> b
    ensures b ==> |sep| <= |s|
  {
    assert |sep| == 0 ==> OccursAt(s, sep, 0);
    exists i: nat :: i <= |s| && OccursAt(s, sep, i)
  }

  /** `sep in s` agrees with the left-to-right search that `split` uses. */
  lemma OccursIffFound(s: string, sep: string)
    requires |sep| > 0
    ensures Occurs(s, sep) <==> FindFrom(s, sep, 0).Some?
  {
    var r := FindFrom(s, sep, 0);
    if r.Some? {
      assert OccursAt(s, sep, r.value);
    }
  }

  /** The first index at or after `from` where `sep` occurs in `s`. */
  function FindFrom(s: string, sep: string, from: nat): (r: Option<nat>)
    requires |sep| > 0
    ensures r.Some? ==> from <= r.value && OccursAt(s, sep, r.value)
    ensures r.Some? ==> forall j: nat :: from <= j < r.value ==> !OccursAt(s, sep, j)
    ensures r.None? ==> forall j: nat :: from <= j ==> !OccursAt(s, sep, j)
    decreases |s| - from
  {
    if from + |sep| > |s| then None
    else if s[from..from + |sep|] == sep then Some(from)
    else FindFrom(s, sep, from + 1)
  }

  /** Python's `s.split(sep)`: scan left to right, cut at each occurrence.
      `SplitJoin`, `SplitPiecesFree` and `SplitFirstPiece` pin the pieces down
      only for a separator that cannot overlap itself (`"aaa".split("aa")` is
      `["", "a"]`, yet `["a", ""]` meets them too); `reports/` and `#` cannot. */
  function Split(s: string, sep: string): (parts: seq<string>)
    requires |sep| > 0
    ensures |parts| >= 1
    decreases |s|
  {
    match FindFrom(s, sep, 0)
    case None => [s]
    case Some(j) => [s[..j]] + Split(s[j + |sep|..], sep)
  }

  /** Python's `sep.join(parts)`. */
  function Join(parts: seq<string>, sep: string): string {
    if |parts| == 0 then ""
    else if |parts| == 1 then parts[0]
    else parts[0] + sep + Join(parts[1..], sep)
  }

  /** Splitting and joining with the same separator gives back the string. */
  lemma {:induction false} SplitJoin(s: string, sep: string)
    requires |sep| > 0
    ensures Join(Split(s, sep), sep) == s
    decreases |s|
  {
    var found := FindFrom(s, sep, 0);
    if found.Some? {
      var j := found.value;
      var rest := s[j + |sep|..];
      var tail := Split(rest, sep);
      assert Split(s, sep) == [s[..j]] + tail;
      SplitJoin(rest, sep);
      calc {
        Join(Split(s, sep), sep);
        s[..j] + sep + Join(tail, sep);
        s[..j] + s[j..j + |sep|] + rest;
        s;
      }
    }
  }

  lemma NotOccursInPrefix(s: string, sep: string, j: nat)
    requires |sep| > 0 && j <= |s|
    requires forall i: nat :: i < j ==> !OccursAt(s, sep, i)
    ensures !Occurs(s[..j], sep)
  {
    forall i: nat | i <= j && OccursAt(s[..j], sep, i)
      ensures false
    {
      assert s[..j][i..i + |sep|] == s[i..i + |sep|];
      assert OccursAt(s, sep, i);
    }
  }

  lemma NotOccursNone(s: string, sep: string)
    requires |sep| > 0
    requires FindFrom(s, sep, 0).None?
    ensures !Occurs(s, sep)
  {
  }

  /** No piece of a split contains the separator. */
  lemma {:induction false} SplitPiecesFree(s: string, sep: string, k: nat)
    requires |sep| > 0
    requires k < |Split(s, sep)|
    ensures !Occurs(Split(s, sep)[k], sep)
    decreases |s|
  {
    match FindFrom(s, sep, 0)
    case None =>
      NotOccursNone(s, sep);
    case Some(j) =>
      if k == 0 {
        NotOccursInPrefix(s, sep, j);
      } else {
        SplitPiecesFree(s[j + |sep|..], sep, k - 1);
      }
  }

  /** A split has more than one piece exactly when the separator occurs. */
  lemma SplitSingleIffAbsent(s: string, sep: string)
    requires |sep| > 0
    ensures |Split(s, sep)| == 1 <==> !Occurs(s, sep)
  {
    match FindFrom(s, sep, 0)
    case None =>
    case Some(j) =>
      assert OccursAt(s, sep, j);
  }

  /** The first piece runs up to the first occurrence, or is the whole string. */
  lemma SplitFirstPiece(s: string, sep: string)
    requires |sep| > 0
    ensures var first := Split(s, sep)[0];
      |first| <= |s| && s[..|first|] == first &&
      (|first| == |s| || OccursAt(s, sep, |first|))
  {
  }

  lemma {:induction false} JoinLast(parts: seq<string>, sep: string)
    requires |parts| >= 2
    ensures Join(parts, sep) == Join(parts[..|parts| - 1], sep) + sep + parts[|parts| - 1]
    decreases |parts|
  {
    if |parts| > 2 {
      JoinLast(parts[1..], sep);
      assert parts[1..][..|parts| - 2] == parts[..|parts| - 1][1..];
    }
  }

  /** When the separator occurs, the last piece is what follows its last occurrence. */
  lemma SplitLastPiece(s: string, sep: string)
    requires |sep| > 0
    requires Occurs(s, sep)
    ensures var last := Split(s, sep)[|Split(s, sep)| - 1];
      |last| + |sep| <= |s| && s[|s| - |last|..] == last &&
      OccursAt(s, sep, |s| - |last| - |sep|)
  {
    var parts := Split(s, sep);
    SplitJoin(s, sep);
    SplitSingleIffAbsent(s, sep);
    JoinLast(parts, sep);
    var init := Join(parts[..|parts| - 1], sep);
    var last := parts[|parts| - 1];
    assert s == init + sep + last;
    assert s[|init|..|init| + |sep|] == sep;
    assert s[|s| - |last|..] == last;
  }
}
