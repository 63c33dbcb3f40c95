/** Python string operations the pipeline relies on, with their Python meaning:
    `str.strip`, `str.lower` (on ASCII letters), `in`, `find`/`rfind`,
    `startswith`/`endswith`, `str.join`, `pathlib.PurePath.suffix`, `str(int)`
    and the digits matched by `\d`. */
module Text {

  /** The characters for which Python's `str.isspace()` is true; `str.strip()`
      with no argument removes exactly these. */
  predicate IsSpace(c: char) {
    ('\t' <= c <= '\r') || ('\U{1c}' <= c <= '\U{1f}') || c == ' ' || c == '\U{85}' || c == '\U{a0}'
    || c == '\U{1680}' || ('\U{2000}' <= c <= '\U{200a}') || c == '\U{2028}' || c == '\U{2029}'
    || c == '\U{202f}' || c == '\U{205f}' || c == '\U{3000}'
  }

  predicate AllSpace(s: string) {
    forall i :: 0 <= i < |s| ==> IsSpace(s[i])
  }

  /** Where the white space that starts at `i` ends. */
  function SpaceEnd(s: string, i: nat): (e: nat)
    requires i <= |s|
    ensures i <= e <= |s|
    ensures forall j :: i <= j < e ==> IsSpace(s[j])
    ensures e == |s| || !IsSpace(s[e])
    decreases |s| - i
  {
    if i < |s| && IsSpace(s[i]) then SpaceEnd(s, i + 1) else i
  }

  /** Where the white space that ends at `j` starts. */
  function SpaceStart(s: string, j: nat): (b: nat)
    requires j <= |s|
    ensures b <= j
    ensures forall k :: b <= k < j ==> IsSpace(s[k])
    ensures b == 0 || !IsSpace(s[b - 1])
  {
    if j > 0 && IsSpace(s[j - 1]) then SpaceStart(s, j - 1) else j
  }

  /** `s.strip()`: the text between the leading white space, which ends at
      `SpaceEnd(s, 0)`, and the trailing white space. */
  function Strip(s: string): (r: string)
    ensures var i := SpaceEnd(s, 0);
            i + |r| <= |s| && r == s[i..i + |r|]
            && (forall j :: 0 <= j < i ==> IsSpace(s[j]))
            && (forall j :: i + |r| <= j < |s| ==> IsSpace(s[j]))
    ensures r == [] || (!IsSpace(r[0]) && !IsSpace(r[|r| - 1]))
  {
    var i := SpaceEnd(s, 0);
    if i == |s| then []
    else
      var b := SpaceStart(s, |s|);
      s[i..b]
  }

  /** `not s.strip()`: the string is empty or white space only (see `BlankIffStripEmpty`). */
  predicate IsBlank(s: string) {
    AllSpace(s)
  }

  /** `s.strip()` is empty exactly when every character of `s` is white space. */
  lemma BlankIffStripEmpty(s: string)
    ensures Strip(s) == [] <==> IsBlank(s)
  {
  }

  /** Stripping keeps every character that is not white space. */
  lemma StripKeeps(s: string, k: nat)
    requires k < |s| && !IsSpace(s[k])
    ensures s[k] in Strip(s)
  {
    var r := Strip(s);
    var i := SpaceEnd(s, 0);
    assert r[k - i] == s[k];
  }

  /** `str.lower()` restricted to ASCII: 'A'..'Z' become 'a'..'z'. */
  function LowerChar(c: char): (r: char)
    ensures !('A' <= r <= 'Z')
    ensures 'A' <= c <= 'Z' ==> r as int == c as int + 32
    ensures !('A' <= c <= 'Z') ==> r == c
  {
    if 'A' <= c <= 'Z' then (c as int + 32) as char else c
  }

  function Lower(s: string): (r: string)
    ensures |r| == |s|
    ensures forall i :: 0 <= i < |s| ==> r[i] == LowerChar(s[i])
  {
    seq(|s|, i requires 0 <= i < |s| => LowerChar(s[i]))
  }

  lemma LowerConcat(a: string, b: string)
    ensures Lower(a + b) == Lower(a) + Lower(b)
  {
    assert forall i :: 0 <= i < |a + b| ==> Lower(a + b)[i] == (Lower(a) + Lower(b))[i];
  }

  /** A text without capitals is its own lower-cased form. */
  lemma LowerOfLower(s: string)
    requires forall i :: 0 <= i < |s| ==> !('A' <= s[i] <= 'Z')
    ensures Lower(s) == s
  {
  }

  predicate StartsWith(s: string, p: string) {
    |p| <= |s| && s[..|p|] == p
  }

  predicate EndsWith(s: string, p: string) {
    |p| <= |s| && s[|s| - |p|..] == p
  }

  /** Python's `sub in s`. */
  predicate Contains(s: string, sub: string) {
    exists i :: 0 <= i <= |s| - |sub| && OccursAt(s, sub, i)
  }

  predicate OccursAt(s: string, sub: string, i: nat) {
    i + |sub| <= |s| && s[i..i + |sub|] == sub
  }

  /** A string cannot contain a piece that holds a character the string lacks. */
  lemma {:induction false} NotContainsMissingChar(s: string, sub: string, c: char)
    requires c in sub && c !in s
    ensures !Contains(s, sub)
  {
    var k :| 0 <= k < |sub| && sub[k] == c;
    forall i: nat | i + |sub| <= |s|
      ensures !OccursAt(s, sub, i)
    {
      assert s[i..i + |sub|][k] == s[i + k];
    }
  }

  lemma ContainsPrefix(s: string, p: string)
    ensures Contains(p + s, p)
  {
    assert OccursAt(p + s, p, 0);
  }

  /** `s.find(c)`: the first index of `c`, or -1. */
  function Find(s: string, c: char): (r: int)
    ensures -1 <= r < |s|
    ensures r == -1 <==> c !in s
    ensures r >= 0 ==> s[r] == c && c !in s[..r]
  {
    if s == [] then -1
    else if s[0] == c then 0
    else
      var k := Find(s[1..], c);
      assert s[1..][..k + 1] == s[1..k + 2] by { if k >= 0 { } }
      if k == -1 then -1 else k + 1
  }

  /** `s.rfind(c)`: the last index of `c`, or -1. */
  function RFind(s: string, c: char): (r: int)
    ensures -1 <= r < |s|
    ensures r == -1 <==> c !in s
    ensures r >= 0 ==> s[r] == c && c !in s[r + 1..]
  {
    if s == [] then -1
    else if s[|s| - 1] == c then |s| - 1
    else
      var k := RFind(s[..|s| - 1], c);
      assert s == s[..|s| - 1] + [s[|s| - 1]];
      if k == -1 then -1 else k
  }

  /** `s.split(sep)[0]`: the text before the first separator. */
  function FirstField(s: string, sep: char): (r: string)
    ensures StartsWith(s, r) && sep !in r
    ensures |r| < |s| ==> s[|r|] == sep
  {
    var k := Find(s, sep);
    if k == -1 then s else s[..k]
  }

  /** `sep.join(parts)` */
  function Join(sep: string, parts: seq<string>): string {
    if |parts| == 0 then ""
    else if |parts| == 1 then parts[0]
    else parts[0] + sep + Join(sep, parts[1..])
  }

  lemma JoinSingle(sep: string, p: string)
    ensures Join(sep, [p]) == p
  {
  }

  lemma {:induction false} JoinEmptyParts(sep: string, parts: seq<string>)
    requires |parts| <= 1 || sep == ""
    requires forall i :: 0 <= i < |parts| ==> parts[i] == ""
    ensures Join(sep, parts) == ""
  {
    if |parts| > 1 {
      JoinEmptyParts(sep, parts[1..]);
    }
  }

  /** The last component of a '/'-separated path (`PurePath.name`). */
  function PathName(path: string): (r: string)
    ensures EndsWith(path, r) && '/' !in r
    ensures |r| < |path| ==> path[|path| - |r| - 1] == '/'
  {
    var k := RFind(path, '/');
    path[k + 1..]
  }

  /** `PurePath(path).suffix`: from the last '.' of the name, provided that dot
      is neither the first nor the last character of the name; otherwise "". */
  function Suffix(path: string): (r: string)
    ensures r == [] || (r[0] == '.' && |r| >= 2 && '.' !in r[1..] && '/' !in r)
    ensures r != [] ==> EndsWith(PathName(path), r) && |r| < |PathName(path)|
  {
    var name := PathName(path);
    var i := RFind(name, '.');
    if 0 < i < |name| - 1 then name[i..] else ""
  }

  /** The characters `\d` is modelled to match: ASCII and full-width digits. */
  predicate IsDigit(c: char) {
    ('0' <= c <= '9') || ('\U{ff10}' <= c <= '\U{ff19}')
  }

  function DigitValue(c: char): (d: nat)
    requires IsDigit(c)
    ensures d < 10
  {
    if '0' <= c <= '9' then c as int - '0' as int else c as int - 0xff10
  }

  predicate AllDigits(s: string) {
    forall i :: 0 <= i < |s| ==> IsDigit(s[i])
  }

  /** `int(s)` on a run of digits. */
  function DigitsValue(s: string): nat
    requires AllDigits(s)
  {
    if s == [] then 0 else DigitsValue(s[..|s| - 1]) * 10 + DigitValue(s[|s| - 1])
  }

  /** The longest run of digits at the start of `s` (what a greedy `\d+` takes). */
  function DigitRun(s: string): (r: string)
    ensures StartsWith(s, r) && AllDigits(r)
    ensures |r| < |s| ==> !IsDigit(s[|r|])
  {
    if s != [] && IsDigit(s[0]) then
      var t := DigitRun(s[1..]);
      assert [s[0]] + t == s[..|t| + 1];
      [s[0]] + t
    else []
  }

  function DigitChar(d: nat): (c: char)
    requires d < 10
    ensures '0' <= c <= '9' && DigitValue(c) == d
  {
    "0123456789"[d]
  }

  /** `str(n)` for a non-negative integer. */
  function NatToString(n: nat): (r: string)
    ensures |r| >= 1 && AllDigits(r)
    ensures forall i :: 0 <= i < |r| ==> '0' <= r[i] <= '9'
  {
    if n < 10 then [DigitChar(n)] else NatToString(n / 10) + [DigitChar(n % 10)]
  }

  /** `str(i)` for any integer. */
  function IntToString(i: int): string {
    if i < 0 then "-" + NatToString(-i) else NatToString(i)
  }

  /** Reading back the decimal text of a number gives the number. */
  lemma {:induction false} NatToStringRoundTrip(n: nat)
    ensures DigitsValue(NatToString(n)) == n
  {
    if n >= 10 {
      var s := NatToString(n);
      var t := NatToString(n / 10);
      assert s[..|s| - 1] == t;
      NatToStringRoundTrip(n / 10);
    }
  }

  /** A number's decimal text followed by a non-digit is read as exactly that number. */
  lemma DigitRunOfNumber(n: nat, rest: string)
    requires rest == [] || !IsDigit(rest[0])
    ensures DigitRun(NatToString(n) + rest) == NatToString(n)
  {
    DigitRunConcat(NatToString(n), rest);
  }

  lemma {:induction false} DigitRunConcat(d: string, rest: string)
    requires AllDigits(d)
    requires rest == [] || !IsDigit(rest[0])
    ensures DigitRun(d + rest) == d
  {
    if d != [] {
      assert (d + rest)[1..] == d[1..] + rest;
      DigitRunConcat(d[1..], rest);
    } else {
      assert d + rest == rest;
    }
  }
}
