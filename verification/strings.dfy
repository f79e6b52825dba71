/** The Python `str` operations EthoScraper relies on, over `string` (a
    `seq<char>`): stripping, case folding for the yes/no answers, search,
    `split`/`join`, `replace`, slicing with Python's index rules and `int()`. */
module Strings {
  import opened Wrappers

  // ---------------------------------------------------------------------------
  // Whitespace and stripping
  // ---------------------------------------------------------------------------

  /** Python's `str.isspace` class: what `str.strip()` with no argument removes. */
  predicate IsSpace(c: char) {
    || c == ' '
    || ('\t' <= c <= '\r')
    || ('\U{1C}' <= c <= '\U{1F}')
    || c == '\U{85}' || c == '\U{A0}' || c == '\U{1680}'
    || ('\U{2000}' <= c <= '\U{200A}')
    || c == '\U{2028}' || c == '\U{2029}' || c == '\U{202F}' || c == '\U{205F}' || c == '\U{3000}'
  }

  /** Drops the longest prefix whose characters all satisfy `drop` (`s.lstrip(chars)`). */
  function TrimStart(s: string, drop: char -> bool): (r: string)
    ensures |r| <= |s| && r == s[|s| - |r|..]
    ensures r == [] || !drop(r[0])
    ensures forall i :: 0 <= i < |s| - |r| ==> drop(s[i])
  {
    if s != [] && drop(s[0]) then TrimStart(s[1..], drop) else s
  }

  /** Drops the longest suffix whose characters all satisfy `drop` (`s.rstrip(chars)`). */
  function TrimEnd(s: string, drop: char -> bool): (r: string)
    ensures |r| <= |s| && r == s[..|r|]
    ensures r == [] || !drop(r[|r| - 1])
    ensures forall i :: |r| <= i < |s| ==> drop(s[i])
  {
    if s != [] && drop(s[|s| - 1]) then TrimEnd(s[..|s| - 1], drop) else s
  }

  /** `s.lstrip()` */
  function LStrip(s: string): string {
    if s != [] && IsSpace(s[0]) then LStrip(s[1..]) else s
  }

  /** `s.rstrip()` */
  function RStrip(s: string): string {
    if s != [] && IsSpace(s[|s| - 1]) then RStrip(s[..|s| - 1]) else s
  }

  /** `s.lstrip()` drops exactly the leading whitespace. */
  lemma {:induction false} LStripDrops(s: string)
    ensures var r := LStrip(s);
      && |r| <= |s| && r == s[|s| - |r|..]
      && (r == [] || !IsSpace(r[0]))
      && forall i :: 0 <= i < |s| - |r| ==> IsSpace(s[i])
  {
    if s != [] && IsSpace(s[0]) {
      var t := s[1..];
      LStripDrops(t);
      var r := LStrip(t);
      assert LStrip(s) == r;
      assert t[|t| - |r|..] == s[|s| - |r|..];
      forall i | 0 <= i < |s| - |r|
        ensures IsSpace(s[i])
      {
        if i > 0 {
          assert s[i] == t[i - 1];
        }
      }
    }
  }

  /** `s.rstrip()` drops exactly the trailing whitespace. */
  lemma {:induction false} RStripDrops(s: string)
    ensures var r := RStrip(s);
      && |r| <= |s| && r == s[..|r|]
      && (r == [] || !IsSpace(r[|r| - 1]))
      && forall i :: |r| <= i < |s| ==> IsSpace(s[i])
  {
    if s != [] && IsSpace(s[|s| - 1]) {
      var t := s[..|s| - 1];
      RStripDrops(t);
      var r := RStrip(t);
      assert RStrip(s) == r;
      assert t[..|r|] == s[..|r|];
      forall i | |r| <= i < |s|
        ensures IsSpace(s[i])
      {
        if i < |t| {
          assert s[i] == t[i];
        }
      }
    }
  }

  /** `s.strip()` */
  function Strip(s: string): string {
    RStrip(LStrip(s))
  }

  /** `s.strip(chars)` */
  function StripChars(s: string, chars: set<char>): string {
    TrimEnd(TrimStart(s, c => c in chars), c => c in chars)
  }

  /** `s.strip()` removes exactly the surrounding whitespace: the result is a
      contiguous piece of `s` that neither starts nor ends with whitespace,
      and everything cut away is whitespace. */
  lemma StripTrims(s: string) returns (i: nat)
    ensures var r := Strip(s);
      && (r == [] || (!IsSpace(r[0]) && !IsSpace(r[|r| - 1])))
      && i + |r| <= |s| && r == s[i..i + |r|]
      && (forall k :: 0 <= k < i ==> IsSpace(s[k]))
      && (forall k :: i + |r| <= k < |s| ==> IsSpace(s[k]))
  {
    var u := LStrip(s);
    var r := RStrip(u);
    LStripDrops(s);
    RStripDrops(u);
    i := |s| - |u|;
    assert r == s[i..i + |r|];
    forall k | i + |r| <= k < |s| ensures IsSpace(s[k]) {
      assert s[k] == u[k - i];
    }
    if r != [] {
      assert r[0] == u[0];
    }
  }

  /** Stripping twice is stripping once. */
  lemma StripIdempotent(s: string)
    ensures Strip(Strip(s)) == Strip(s)
  {
    var r := Strip(s);
    var _ := StripTrims(s);
    assert LStrip(r) == r;
    assert RStrip(r) == r;
  }

  // ---------------------------------------------------------------------------
  // Case folding (ASCII: enough for the `in ("y", "yes")` and suffix tests)
  // ---------------------------------------------------------------------------

  function LowerChar(c: char): char {
    if 'A' <= c <= 'Z' then (c as int + 32) as char else c
  }

  /** `s.lower()` on ASCII letters. */
  function Lower(s: string): (r: string)
    ensures |r| == |s|
    ensures forall i :: 0 <= i < |s| ==> r[i] == LowerChar(s[i])
  {
    seq(|s|, i requires 0 <= i < |s| => LowerChar(s[i]))
  }

  // ---------------------------------------------------------------------------
  // Search: `in`, `startswith`, `find`, `rfind`
  // ---------------------------------------------------------------------------

  predicate StartsWith(s: string, prefix: string) {
    |prefix| <= |s| && s[..|prefix|] == prefix
  }

  predicate OccursAt(s: string, t: string, i: int) {
    0 <= i && i + |t| <= |s| && s[i..i + |t|] == t
  }

  /** Python's `t in s`. */
  predicate Contains(s: string, t: string) {
    exists i :: 0 <= i <= |s| - |t| && OccursAt(s, t, i)
  }

  lemma OccursInTail(s: string, t: string)
    requires s != []
    ensures forall i :: 1 <= i ==> (OccursAt(s, t, i) <==> OccursAt(s[1..], t, i - 1))
  {
    forall i | 1 <= i
      ensures OccursAt(s, t, i) <==> OccursAt(s[1..], t, i - 1)
    {
      if i + |t| <= |s| {
        assert s[1..][i - 1..i - 1 + |t|] == s[i..i + |t|];
      }
    }
  }

  lemma OccursInInit(s: string, t: string)
    requires s != []
    ensures forall i :: i + |t| < |s| ==> (OccursAt(s, t, i) <==> OccursAt(s[..|s| - 1], t, i))
  {
    forall i | i + |t| < |s|
      ensures OccursAt(s, t, i) <==> OccursAt(s[..|s| - 1], t, i)
    {
      if 0 <= i {
        assert s[..|s| - 1][i..i + |t|] == s[i..i + |t|];
      }
    }
  }

  /** `s.find(t)`: the first index at which `t` occurs, -1 when it does not. */
  function Find(s: string, t: string): (r: int)
    ensures -1 <= r <= |s|
    ensures r == -1 <==> !Contains(s, t)
    ensures r >= 0 ==> OccursAt(s, t, r) && forall j :: 0 <= j < r ==> !OccursAt(s, t, j)
    decreases |s|
  {
    if StartsWith(s, t) then
      assert OccursAt(s, t, 0);
      0
    else if s == [] then
      -1
    else
      var k := Find(s[1..], t);
      OccursInTail(s, t);
      if k < 0 then -1
      else
        assert OccursAt(s, t, k + 1);
        k + 1
  }

  /** `s.rfind(t)`: the last index at which `t` occurs, -1 when it does not. */
  function RFind(s: string, t: string): (r: int)
    ensures -1 <= r <= |s|
    ensures r == -1 <==> !Contains(s, t)
    ensures r >= 0 ==> OccursAt(s, t, r) && forall j :: r < j ==> !OccursAt(s, t, j)
    decreases |s|
  {
    if |t| > |s| then
      -1
    else if s[|s| - |t|..] == t then
      assert OccursAt(s, t, |s| - |t|);
      |s| - |t|
    else
      OccursInInit(s, t);
      var k := RFind(s[..|s| - 1], t);
      if k < 0 then -1
      else
        assert OccursAt(s, t, k);
        k
  }

  // ---------------------------------------------------------------------------
  // split / join
  // ---------------------------------------------------------------------------

  /** `s.split(sep)` for a non-empty separator. */
  function Split(s: string, sep: string): (r: seq<string>)
    requires sep != []
    ensures |r| >= 1
    ensures Contains(s, sep) ==> |r| >= 2
    ensures !Contains(s, sep) ==> r == [s]
    decreases |s|
  {
    var i := Find(s, sep);
    if i < 0 then [s] else [s[..i]] + Split(s[i + |sep|..], sep)
  }

  /** `s.split(sep, 1)[1]`: the text after the first `sep`; `None` when `sep`
      does not occur (the index raises IndexError). */
  function After(s: string, sep: string): (r: Option<string>)
    ensures r.Some? <==> Contains(s, sep)
    ensures r.Some? ==> |r.value| + |sep| <= |s| && s[|s| - |r.value|..] == r.value
  {
    var i := Find(s, sep);
    if i < 0 then None else Some(s[i + |sep|..])
  }

  /** `sep.join(parts)` */
  function Join(sep: string, parts: seq<string>): string {
    if parts == [] then ""
    else if |parts| == 1 then parts[0]
    else parts[0] + sep + Join(sep, parts[1..])
  }

  /** Joining the pieces of a split with the same separator gives back the
      original text. */
  lemma {:induction false} JoinSplit(s: string, sep: string)
    requires sep != []
    ensures Join(sep, Split(s, sep)) == s
    decreases |s|
  {
    var i := Find(s, sep);
    if i >= 0 {
      var rest := s[i + |sep|..];
      JoinSplit(rest, sep);
      var parts := Split(s, sep);
      assert parts == [s[..i]] + Split(rest, sep);
      assert parts[1..] == Split(rest, sep);
      assert Join(sep, parts) == s[..i] + sep + rest;
      assert s == s[..i] + s[i..i + |sep|] + rest;
    }
  }

  lemma NotContainsSingle(s: string, c: char)
    requires forall k :: 0 <= k < |s| ==> s[k] != c
    ensures !Contains(s, [c])
  {
    forall i | 0 <= i <= |s| - 1
      ensures !OccursAt(s, [c], i)
    {
      assert s[i..i + 1][0] == s[i] != c;
    }
  }

  /** Splitting at a one-character separator undoes a join of pieces that do
      not contain that character. */
  lemma {:induction false} SplitJoin(parts: seq<string>, c: char)
    requires parts != []
    requires forall p, k :: p in parts && 0 <= k < |p| ==> p[k] != c
    ensures Split(Join([c], parts), [c]) == parts
    decreases |parts|
  {
    var s := Join([c], parts);
    if |parts| == 1 {
      NotContainsSingle(parts[0], c);
    } else {
      var rest := Join([c], parts[1..]);
      assert s == parts[0] + [c] + rest;
      NotContainsSingle(parts[0], c);
      var i := Find(s, [c]);
      assert OccursAt(s, [c], |parts[0]|);
      forall j | 0 <= j < |parts[0]|
        ensures !OccursAt(s, [c], j)
      {
        assert s[j..j + 1][0] == s[j] == parts[0][j];
      }
      assert i == |parts[0]|;
      assert s[..i] == parts[0];
      assert s[i + 1..] == rest;
      SplitJoin(parts[1..], c);
    }
  }

  // ---------------------------------------------------------------------------
  // replace
  // ---------------------------------------------------------------------------

  /** `s.replace(old, new)` for the empty `old`: `new` before every character
      and at the end. */
  function ReplaceEmpty(s: string, rep: string): string {
    if s == [] then rep else rep + [s[0]] + ReplaceEmpty(s[1..], rep)
  }

  /** `s.replace(old, new)`: the text up to the first occurrence of `old`,
      then `new`, then the rest replaced the same way (occurrences are taken
      left to right and never overlap). */
  function Replace(s: string, pat: string, rep: string): string
    decreases |s|
  {
    if pat == [] then ReplaceEmpty(s, rep)
    else
      var i := Find(s, pat);
      if i < 0 then s else s[..i] + rep + Replace(s[i + |pat|..], pat, rep)
  }

  /** One occurrence of `old`, with no earlier start of it and too little
      text after it for another, is replaced once. */
  lemma ReplaceOnce(a: string, pat: string, b: string, rep: string)
    requires pat != [] && |b| < |pat|
    requires forall k :: 0 <= k < |a| ==> a[k] != pat[0]
    ensures Replace(a + pat + b, pat, rep) == a + rep + b
  {
    var s := a + pat + b;
    assert OccursAt(s, pat, |a|) by {
      assert s[|a|..|a| + |pat|] == pat;
    }
    forall j | 0 <= j < |a|
      ensures !OccursAt(s, pat, j)
    {
      if j + |pat| <= |s| {
        assert s[j..j + |pat|][0] == a[j];
      }
    }
    var i := Find(s, pat);
    assert i == |a|;
    assert s[..i] == a;
    assert s[i + |pat|..] == b;
    assert !Contains(b, pat);
  }

  /** An independent definition of `replace`: split at `old`, join with `new`. */
  lemma {:induction false} ReplaceIsJoinSplit(s: string, pat: string, rep: string)
    requires pat != []
    ensures Replace(s, pat, rep) == Join(rep, Split(s, pat))
    decreases |s|
  {
    var i := Find(s, pat);
    if i >= 0 {
      var rest := s[i + |pat|..];
      ReplaceIsJoinSplit(rest, pat, rep);
      var parts := Split(s, pat);
      assert parts == [s[..i]] + Split(rest, pat);
      assert parts[1..] == Split(rest, pat);
    }
  }

  /** Replacing a string by itself changes nothing. */
  lemma ReplaceSelf(s: string, pat: string)
    ensures Replace(s, pat, pat) == s
  {
    if pat == [] {
      ReplaceEmptySelf(s);
    } else {
      ReplaceIsJoinSplit(s, pat, pat);
      JoinSplit(s, pat);
    }
  }

  lemma {:induction false} ReplaceEmptySelf(s: string)
    ensures ReplaceEmpty(s, []) == s
    decreases |s|
  {
    if s != [] {
      ReplaceEmptySelf(s[1..]);
      assert [s[0]] + s[1..] == s;
    }
  }

  // ---------------------------------------------------------------------------
  // Slicing with Python's index rules
  // ---------------------------------------------------------------------------

  /** How Python resolves a slice bound against a length `n`: negative
      bounds count from the end, and the result is clamped to `0..n`. */
  function SliceIndex(i: int, n: nat): (r: nat)
    ensures r <= n
    ensures 0 <= i <= n ==> r == i
    ensures i < 0 && 0 <= i + n ==> r == i + n
  {
    if i < 0 then (if i + n < 0 then 0 else i + n)
    else if i > n then n
    else i
  }

  /** `s[start:stop]` */
  function Slice(s: string, start: int, stop: int): (r: string)
    ensures |r| <= |s|
  {
    var a, b := SliceIndex(start, |s|), SliceIndex(stop, |s|);
    if a < b then s[a..b] else []
  }

  // ---------------------------------------------------------------------------
  // Decimal integers: `str(n)` and `int(text)`
  // ---------------------------------------------------------------------------

  predicate IsDigit(c: char) { '0' <= c <= '9' }

  predicate AllDigits(d: string) {
    forall k :: 0 <= k < |d| ==> IsDigit(d[k])
  }

  function DigitChar(n: nat): char
    requires n < 10
  {
    ('0' as int + n) as char
  }

  /** The decimal digits of `n`, most significant first. */
  function Decimal(n: nat): (r: string)
    ensures r != [] && AllDigits(r)
  {
    if n < 10 then [DigitChar(n)] else Decimal(n / 10) + [DigitChar(n % 10)]
  }

  function DigitsValue(d: string): nat
    requires AllDigits(d)
  {
    if d == [] then 0 else DigitsValue(d[..|d| - 1]) * 10 + (d[|d| - 1] as int - '0' as int)
  }

  /** `str(i)` */
  function IntToString(i: int): string {
    if i < 0 then "-" + Decimal(-i) else Decimal(i)
  }

  /** `int(text)`: optional surrounding whitespace, an optional sign and at
      least one decimal digit; anything else raises ValueError (`None`). */
  function ParseInt(text: string): Option<int> {
    var u := Strip(text);
    if u != [] && (u[0] == '+' || u[0] == '-') then
      if |u| > 1 && AllDigits(u[1..]) then
        Some(if u[0] == '-' then -(DigitsValue(u[1..]) as int) else DigitsValue(u[1..]))
      else None
    else if u != [] && AllDigits(u) then Some(DigitsValue(u))
    else None
  }

  lemma {:induction false} DecimalValue(n: nat)
    ensures DigitsValue(Decimal(n)) == n
  {
    if n >= 10 {
      DecimalValue(n / 10);
      var d := Decimal(n);
      assert d[..|d| - 1] == Decimal(n / 10);
    }
  }

  lemma StripDigits(d: string)
    requires d != [] && (IsDigit(d[0]) || d[0] == '-') && AllDigits(d[1..])
    ensures Strip(d) == d
  {
    assert !IsSpace(d[0]);
    assert d[|d| - 1] == d[0] || d[|d| - 1] == d[1..][|d| - 2];
    assert !IsSpace(d[|d| - 1]);
  }

  /** `int(str(i)) == i` */
  lemma ParseIntRoundTrip(i: int)
    ensures ParseInt(IntToString(i)) == Some(i)
  {
    var t := IntToString(i);
    if i < 0 {
      DecimalValue(-i);
      assert t[1..] == Decimal(-i);
      StripDigits(t);
    } else {
      DecimalValue(i);
      assert AllDigits(t[1..]);
      StripDigits(t);
    }
  }
}
