/** The handful of Python `str` operations the version and weather tooling is
    built from, over `string` (= `seq<char>`): `split` and `join` on a
    one-character separator, `strip`/`lstrip`/`rstrip`, `startswith`, `in`,
    ASCII `upper`, and the `int(...)`/`float(...)` conversions of decimal text. */
module PyText {
  import opened Wrappers

  /** Python's `str.isspace()` for a single character. */
  predicate IsSpace(c: char) {
    || c == ' '
    || ('\t' <= c <= '\r')
    || ('\U{1c}' <= c <= '\U{1f}')
    || c == '\U{85}' || c == '\U{a0}' || c == '\U{1680}'
    || ('\U{2000}' <= c <= '\U{200a}')
    || c == '\U{2028}' || c == '\U{2029}' || c == '\U{202f}' || c == '\U{205f}' || c == '\U{3000}'
  }

  /** `s.lstrip()`: drops the longest all-whitespace prefix. */
  function LStrip(s: string): (r: string)
    ensures |r| <= |s| && r == s[|s| - |r|..]
    ensures r == [] || !IsSpace(r[0])
    ensures forall i :: 0 <= i < |s| - |r| ==> IsSpace(s[i])
  {
    if s != [] && IsSpace(s[0]) then LStrip(s[1..]) else s
  }

  /** `s.rstrip()`: drops the longest all-whitespace suffix. */
  function RStrip(s: string): (r: string)
    ensures |r| <= |s| && r == s[..|r|]
    ensures r == [] || !IsSpace(r[|r| - 1])
    ensures forall i :: |r| <= i < |s| ==> IsSpace(s[i])
  {
    if s != [] && IsSpace(s[|s| - 1]) then RStrip(s[..|s| - 1]) else s
  }

  /** `s.strip()`. */
  function Strip(s: string): string {
    RStrip(LStrip(s))
  }

  /** `s.rstrip(c)` for a one-character argument. */
  function RStripChar(s: string, c: char): (r: string)
    ensures |r| <= |s| && r == s[..|r|]
    ensures r == [] || r[|r| - 1] != c
    ensures forall i :: |r| <= i < |s| ==> s[i] == c
  {
    if s != [] && s[|s| - 1] == c then RStripChar(s[..|s| - 1], c) else s
  }

  /** `s.startswith(p)`. */
  predicate StartsWith(s: string, p: string) {
    |p| <= |s| && s[..|p|] == p
  }

  /** `sub in s`. */
  predicate Contains(s: string, sub: string)
    decreases |s|
  {
    StartsWith(s, sub) || (s != [] && Contains(s[1..], sub))
  }

  /** ASCII part of `str.upper()`. */
  function UpperChar(c: char): char {
    if 'a' <= c <= 'z' then (c as int - 32) as char else c
  }

  function Upper(s: string): string {
    seq(|s|, i requires 0 <= i < |s| => UpperChar(s[i]))
  }

  /** `s.replace(a, b)` for one-character arguments. */
  function ReplaceChar(s: string, a: char, b: char): string {
    seq(|s|, i requires 0 <= i < |s| => if s[i] == a then b else s[i])
  }

  /** `s.split(sep)` for a one-character separator: at least one field, and
      no field contains the separator. */
  function Split(s: string, sep: char): (r: seq<string>)
    ensures |r| >= 1
    ensures forall k, i :: 0 <= k < |r| && 0 <= i < |r[k]| ==> r[k][i] != sep
    decreases |s|
  {
    if s == [] then [""]
    else if s[0] == sep then [""] + Split(s[1..], sep)
    else
      var rest := Split(s[1..], sep);
      [[s[0]] + rest[0]] + rest[1..]
  }

  /** `sep.join(parts)` for a one-character separator. */
  function Join(parts: seq<string>, sep: char): string {
    if |parts| == 0 then ""
    else if |parts| == 1 then parts[0]
    else parts[0] + [sep] + Join(parts[1..], sep)
  }

  /** Prepending a character to the first field prepends it to the joined text. */
  lemma {:induction false} JoinConsFirst(c: char, parts: seq<string>, sep: char)
    requires |parts| >= 1
    ensures Join([[c] + parts[0]] + parts[1..], sep) == [c] + Join(parts, sep)
  {
    var q := [[c] + parts[0]] + parts[1..];
    assert q[1..] == parts[1..];
  }

  /** `sep.join(s.split(sep)) == s`: splitting loses nothing. */
  lemma {:induction false} JoinSplit(s: string, sep: char)
    ensures Join(Split(s, sep), sep) == s
    decreases |s|
  {
    if s == [] {
    } else if s[0] == sep {
      JoinSplit(s[1..], sep);
      var rest := Split(s[1..], sep);
      assert ([""] + rest)[1..] == rest;
    } else {
      JoinSplit(s[1..], sep);
      JoinConsFirst(s[0], Split(s[1..], sep), sep);
      assert s == [s[0]] + s[1..];
    }
  }

  /** `s.split(sep)[:2]` rejoined with `sep`: the text up to (not including)
      the second separator. */
  function FirstTwo(s: string, sep: char): string {
    var parts := Split(s, sep);
    Join(parts[..if |parts| < 2 then |parts| else 2], sep)
  }

  predicate IsDigit(c: char) {
    '0' <= c <= '9'
  }

  predicate AllDigits(s: string) {
    forall i :: 0 <= i < |s| ==> IsDigit(s[i])
  }

  /** The value of a string of decimal digits. */
  function DigitsValue(s: string): (n: nat)
    requires AllDigits(s)
  {
    if s == [] then 0
    else DigitsValue(s[..|s| - 1]) * 10 + (s[|s| - 1] as int - '0' as int)
  }

  function Pow10(k: nat): (p: nat)
    ensures p >= 1
  {
    if k == 0 then 1 else 10 * Pow10(k - 1)
  }

  /** `int(s)` over ASCII decimal text: surrounding whitespace, an optional sign,
      one or more digits; anything else is the `ValueError` (here `None`). */
  function ParseInt(s: string): Option<int> {
    var t := Strip(s);
    if |t| >= 1 && (t[0] == '+' || t[0] == '-') then
      var d := t[1..];
      if |d| >= 1 && AllDigits(d) then Some(if t[0] == '-' then 0 - DigitsValue(d) as int else DigitsValue(d) as int)
      else None
    else if |t| >= 1 && AllDigits(t) then Some(DigitsValue(t))
    else None
  }

  /** The value of `ip.fp` with digit strings `ip` and `fp`. */
  function DecimalValue(ip: string, fp: string): real
    requires AllDigits(ip) && AllDigits(fp)
  {
    DigitsValue(ip) as real + DigitsValue(fp) as real / Pow10(|fp|) as real
  }

  /** Unsigned part of `float(s)`: `ddd`, `ddd.`, `.ddd` or `ddd.ddd`. */
  function ParseUnsignedDecimal(t: string): Option<real> {
    var parts := Split(t, '.');
    if |parts| == 1 then
      if |t| >= 1 && AllDigits(t) then Some(DigitsValue(t) as real) else None
    else if |parts| == 2 then
      var ip, fp := parts[0], parts[1];
      if |ip| + |fp| >= 1 && AllDigits(ip) && AllDigits(fp) then Some(DecimalValue(ip, fp)) else None
    else None
  }

  /** `float(s)` over plain decimal text, as an exact real. */
  function ParseDecimal(s: string): Option<real> {
    var t := Strip(s);
    if |t| >= 1 && (t[0] == '+' || t[0] == '-') then
      match ParseUnsignedDecimal(t[1..])
      case None => None
      case Some(v) => Some(if t[0] == '-' then -v else v)
    else ParseUnsignedDecimal(t)
  }

  /** A separator anywhere in `s` gives `split` at least two fields. */
  lemma {:induction false} SplitAtSeparator(s: string, sep: char, i: nat)
    requires i < |s| && s[i] == sep
    ensures |Split(s, sep)| >= 2
    decreases |s|
  {
    if s[0] != sep {
      SplitAtSeparator(s[1..], sep, i - 1);
    }
  }

  /** Every character of a contained substring occurs in the string. */
  lemma {:induction false} ContainsChar(s: string, sub: string, k: nat)
    requires Contains(s, sub) && k < |sub|
    ensures exists i :: 0 <= i < |s| && s[i] == sub[k]
    decreases |s|
  {
    if StartsWith(s, sub) {
      assert s[k] == sub[k];
    } else {
      ContainsChar(s[1..], sub, k);
      var i :| 0 <= i < |s[1..]| && s[1..][i] == sub[k];
      assert s[i + 1] == sub[k];
    }
  }

  /** Fields that hold no separator come back unchanged from a join followed by a split. */
  lemma {:induction false} SplitJoin(parts: seq<string>, sep: char)
    requires |parts| >= 1
    requires forall k, i :: 0 <= k < |parts| && 0 <= i < |parts[k]| ==> parts[k][i] != sep
    ensures Split(Join(parts, sep), sep) == parts
    decreases |parts|, |parts[0]|
  {
    if |parts| == 1 {
      SplitField(parts[0], sep);
    } else if parts[0] == "" {
      SplitJoin(parts[1..], sep);
      var j := Join(parts, sep);
      assert j == [sep] + Join(parts[1..], sep);
      assert j[1..] == Join(parts[1..], sep);
      assert parts == [""] + parts[1..];
    } else {
      var q := [parts[0][1..]] + parts[1..];
      assert q[1..] == parts[1..];
      SplitJoin(q, sep);
      var j := Join(parts, sep);
      assert Join(q, sep) == parts[0][1..] + [sep] + Join(parts[1..], sep);
      assert j == [parts[0][0]] + Join(q, sep);
      assert j[1..] == Join(q, sep);
      assert parts[0] == [parts[0][0]] + parts[0][1..];
      assert parts == [[parts[0][0]] + q[0]] + q[1..];
    }
  }

  /** A string free of the separator splits into itself alone. */
  lemma {:induction false} SplitField(s: string, sep: char)
    requires forall i :: 0 <= i < |s| ==> s[i] != sep
    ensures Split(s, sep) == [s]
    decreases |s|
  {
    if s != [] {
      SplitField(s[1..], sep);
      assert s == [s[0]] + s[1..];
    }
  }

  /** Splitting a separator-free field followed by the separator peels that field off. */
  lemma {:induction false} SplitAfterField(a: string, b: string, sep: char)
    requires forall i :: 0 <= i < |a| ==> a[i] != sep
    ensures Split(a + [sep] + b, sep) == [a] + Split(b, sep)
    decreases |a|
  {
    if a == [] {
      assert (a + [sep] + b)[1..] == b;
    } else {
      SplitAfterField(a[1..], b, sep);
      assert (a + [sep] + b)[1..] == a[1..] + [sep] + b;
      assert a == [a[0]] + a[1..];
    }
  }

  /** Text with no whitespace at either end is its own `strip()`. */
  lemma StripUnpadded(s: string)
    requires s == [] || (!IsSpace(s[0]) && !IsSpace(s[|s| - 1]))
    ensures Strip(s) == s
  {
  }

  /** A run of digits reads back as its value. */
  lemma ParseIntOfDigits(s: string)
    requires |s| >= 1 && AllDigits(s)
    ensures ParseInt(s) == Some(DigitsValue(s) as int)
  {
    assert IsDigit(s[0]) && IsDigit(s[|s| - 1]);
    StripUnpadded(s);
    assert Strip(s) == s;
  }

  lemma DigitsValue2(a: char, b: char)
    requires IsDigit(a) && IsDigit(b)
    ensures DigitsValue([a, b]) == (a as int - '0' as int) * 10 + (b as int - '0' as int)
  {
    assert [a, b][..1] == [a];
    assert [a][..0] == [];
    assert DigitsValue([a]) == a as int - '0' as int;
  }

  /** `' ' * n`. */
  function Spaces(n: nat): (r: string)
    ensures |r| == n && forall i :: 0 <= i < n ==> r[i] == ' '
  {
    seq(n, _ => ' ')
  }

  /** `upper` works character by character. */
  lemma UpperAppend(a: string, b: string)
    ensures Upper(a + b) == Upper(a) + Upper(b)
  {
    assert forall i :: 0 <= i < |a + b| ==> Upper(a + b)[i] == (Upper(a) + Upper(b))[i];
  }

  /** A string that starts with `sub` contains it wherever it is appended. */
  lemma {:induction false} ContainsAfter(a: string, t: string, sub: string)
    requires StartsWith(t, sub)
    ensures Contains(a + t, sub)
    decreases |a|
  {
    if a == [] {
      assert a + t == t;
    } else {
      ContainsAfter(a[1..], t, sub);
      assert (a + t)[1..] == a[1..] + t;
    }
  }

  /** `lstrip` removes a run of spaces and stops at the first other character. */
  lemma {:induction false} LStripSpaces(n: nat, t: string)
    requires t == [] || !IsSpace(t[0])
    ensures LStrip(Spaces(n) + t) == t
    decreases n
  {
    if n == 0 {
      assert Spaces(0) + t == t;
    } else {
      assert (Spaces(n) + t)[1..] == Spaces(n - 1) + t;
      LStripSpaces(n - 1, t);
    }
  }

  /** `(t + c).rstrip(c)` is `t` when `t` does not itself end in `c`. */
  lemma RStripCharOnce(t: string, c: char)
    requires t == [] || t[|t| - 1] != c
    ensures RStripChar(t + [c], c) == t
  {
    assert (t + [c])[..|t|] == t;
  }

  /** A separator-free prefix of `s` is a prefix of its first field. */
  lemma {:induction false} SplitFirstFieldPrefix(s: string, sep: char, m: nat)
    requires m <= |s| && forall i :: 0 <= i < m ==> s[i] != sep
    ensures m <= |Split(s, sep)[0]| && Split(s, sep)[0][..m] == s[..m]
    decreases m
  {
    if m > 0 {
      SplitFirstFieldPrefix(s[1..], sep, m - 1);
      assert Split(s, sep)[0] == [s[0]] + Split(s[1..], sep)[0];
      assert s[..m] == [s[0]] + s[1..][..m - 1];
    }
  }

  /** `lstrip()` removes exactly the whitespace before the first non-space. */
  lemma {:induction false} LStripAt(s: string, n: nat)
    requires n < |s| && !IsSpace(s[n]) && forall i :: 0 <= i < n ==> IsSpace(s[i])
    ensures LStrip(s) == s[n..]
    decreases n
  {
    if n > 0 {
      assert IsSpace(s[0]);
      LStripAt(s[1..], n - 1);
      assert s[1..][n - 1..] == s[n..];
    }
  }

  /** `rstrip()` keeps every character up to a non-space. */
  lemma {:induction false} RStripKeepsPrefix(s: string, m: nat)
    requires 0 < m <= |s| && !IsSpace(s[m - 1])
    ensures m <= |RStrip(s)| && RStrip(s)[..m] == s[..m]
    decreases |s|
  {
    if |s| > m {
      RStripKeepsPrefix(s[..|s| - 1], m);
      assert s[..|s| - 1][..m] == s[..m];
    }
  }

  /** `rstrip(c)` keeps every character up to one that is not `c`. */
  lemma {:induction false} RStripCharKeepsPrefix(s: string, c: char, m: nat)
    requires 0 < m <= |s| && s[m - 1] != c
    ensures m <= |RStripChar(s, c)| && RStripChar(s, c)[..m] == s[..m]
    decreases |s|
  {
    if |s| > m {
      RStripCharKeepsPrefix(s[..|s| - 1], c, m);
      assert s[..|s| - 1][..m] == s[..m];
    }
  }

  /** Replacing one field by a separator-free text survives the join and
      the split back. */
  lemma SplitJoinUpdate(parts: seq<string>, i: nat, t: string, sep: char)
    requires i < |parts|
    requires forall k, j :: 0 <= k < |parts| && 0 <= j < |parts[k]| ==> parts[k][j] != sep
    requires forall j :: 0 <= j < |t| ==> t[j] != sep
    ensures Split(Join(parts[i := t], sep), sep) == parts[i := t]
  {
    var q := parts[i := t];
    forall k, j | 0 <= k < |q| && 0 <= j < |q[k]| ensures q[k][j] != sep {
      if k != i {
        assert q[k] == parts[k];
      }
    }
    SplitJoin(q, sep);
  }

  /** Indentation before a text with no whitespace at its ends is all that
      `strip()` removes. */
  lemma StripIndented(ind: string, body: string)
    requires forall i :: 0 <= i < |ind| ==> IsSpace(ind[i])
    requires |body| >= 1 && !IsSpace(body[0]) && !IsSpace(body[|body| - 1])
    ensures Strip(ind + body) == body
  {
    LStripAt(ind + body, |ind|);
    assert (ind + body)[|ind|..] == body;
  }
}
