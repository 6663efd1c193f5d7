/** String helpers standing in for the PHP string and PCRE functions the model
    calls: `implode`, `strpos`, `preg_replace(..., 1)`, `preg_split`, the
    character-class checks and `is_numeric`. */
module Strings {
  import opened Values

  /** Concatenation regroups freely. */
  lemma AppendAssoc<T>(a: seq<T>, b: seq<T>, c: seq<T>)
    ensures a + b + c == a + (b + c)
  {
  }

  /** `implode(sep, parts)`. */
  function Join(sep: string, parts: seq<string>): (r: string)
    ensures |parts| == 0 ==> r == ""
    ensures |parts| == 1 ==> r == parts[0]
  {
    if |parts| == 0 then ""
    else if |parts| == 1 then parts[0]
    else Join(sep, parts[..|parts| - 1]) + sep + parts[|parts| - 1]
  }

  /** `pat` occurs in `s` starting at position `k`. */
  predicate OccursAt(pat: string, s: string, k: int)
  {
    0 <= k && k + |pat| <= |s| && s[k..k + |pat|] == pat
  }

  /** The position of the first occurrence of `pat` in `s` (`strpos`). */
  function FirstIndexOf(pat: string, s: string): (r: Option<nat>)
    ensures r.Some? ==> OccursAt(pat, s, r.value)
    ensures r.Some? ==> forall k :: 0 <= k < r.value ==> !OccursAt(pat, s, k)
    ensures r.None? ==> forall k :: !OccursAt(pat, s, k)
  {
    FirstIndexFrom(pat, s, 0)
  }

  /** The first occurrence of `pat` in `s` at position `from` or later. */
  function FirstIndexFrom(pat: string, s: string, from: nat): (r: Option<nat>)
    ensures r.Some? ==> from <= r.value && OccursAt(pat, s, r.value)
    ensures r.Some? ==> forall k :: from <= k < r.value ==> !OccursAt(pat, s, k)
    ensures r.None? ==> forall k :: from <= k ==> !OccursAt(pat, s, k)
    decreases |s| - from
  {
    if |s| < from + |pat| then None
    else if s[from..from + |pat|] == pat then Some(from)
    else FirstIndexFrom(pat, s, from + 1)
  }

  /** `preg_replace(pat, rep, s, 1)` for a pattern that matches `pat` literally:
      only the first occurrence is replaced; without one, `s` is unchanged. */
  function ReplaceFirst(s: string, pat: string, rep: string): (r: string)
  {
    match FirstIndexOf(pat, s)
    case None => s
    case Some(i) => s[..i] + rep + s[i + |pat|..]
  }

  /** Replacing the first `pat` skips over a prefix that holds no first
      character of `pat`. */
  lemma {:induction false} ReplaceFirstSkips(a: string, b: string, pat: string, rep: string)
    requires pat != [] && pat[0] !in a
    ensures ReplaceFirst(a + b, pat, rep) == a + ReplaceFirst(b, pat, rep)
  {
    FirstIndexShift(a, b, pat);
    match FirstIndexOf(pat, b)
    case None =>
    case Some(i) => ReplaceFirstShifted(a, b, pat, rep, i);
  }

  /** The occurrence replaced in `a + b` is the one replaced in `b`, moved
      along by `|a|`. */
  lemma ReplaceFirstShifted(a: string, b: string, pat: string, rep: string, i: nat)
    requires FirstIndexOf(pat, b) == Some(i) && FirstIndexOf(pat, a + b) == Some(|a| + i)
    ensures ReplaceFirst(a + b, pat, rep) == a + ReplaceFirst(b, pat, rep)
  {
    ReplaceFirstAt(b, pat, rep, i);
    ReplaceFirstAt(a + b, pat, rep, |a| + i);
    SpliceShift(a, b, i, |pat|, rep);
  }

  /** Where the first occurrence is known, replacing it splices `rep` in. */
  lemma ReplaceFirstAt(s: string, pat: string, rep: string, j: nat)
    requires FirstIndexOf(pat, s) == Some(j)
    ensures j + |pat| <= |s|
    ensures ReplaceFirst(s, pat, rep) == s[..j] + rep + s[j + |pat|..]
  {
  }

  /** Cutting `n` characters at `i` out of `b` and putting `rep` in their
      place commutes with prefixing `a`. */
  lemma SpliceShift(a: string, b: string, i: nat, n: nat, rep: string)
    requires i + n <= |b|
    ensures (a + b)[..|a| + i] + rep + (a + b)[|a| + i + n..] == a + (b[..i] + rep + b[i + n..])
  {
    assert (a + b)[..|a| + i] == a + b[..i];
    assert (a + b)[|a| + i + n..] == b[i + n..];
  }

  /** A prefix that holds no first character of `pat` only shifts its first
      occurrence. */
  lemma FirstIndexShift(a: string, b: string, pat: string)
    requires pat != [] && pat[0] !in a
    ensures FirstIndexOf(pat, a + b) ==
      match FirstIndexOf(pat, b)
      case None => None
      case Some(i) => Some(|a| + i)
  {
    forall k ensures OccursAt(pat, a + b, k) <==> k >= |a| && OccursAt(pat, b, k - |a|) {
      OccursAfter(a, b, pat, k);
    }
    match FirstIndexOf(pat, b)
    case None =>
      FirstIndexNone(pat, a + b);
    case Some(i) =>
      FirstIndexIs(pat, a + b, |a| + i);
  }

  /** An occurrence in `a + b` lies wholly within `b` when `a` holds no first
      character of `pat`. */
  lemma OccursAfter(a: string, b: string, pat: string, k: int)
    requires pat != [] && pat[0] !in a
    ensures OccursAt(pat, a + b, k) <==> k >= |a| && OccursAt(pat, b, k - |a|)
  {
    var s := a + b;
    if 0 <= k < |a| && k + |pat| <= |s| {
      assert s[k..k + |pat|][0] == a[k];
    }
    if k >= |a| && k + |pat| <= |s| {
      assert s[k..k + |pat|] == b[k - |a|..k - |a| + |pat|];
    }
  }

  /** An occurrence with none before it is the first one. */
  lemma FirstIndexIs(pat: string, s: string, j: nat)
    requires OccursAt(pat, s, j)
    requires forall k :: 0 <= k < j ==> !OccursAt(pat, s, k)
    ensures FirstIndexOf(pat, s) == Some(j)
  {
  }

  /** Without an occurrence nothing is found. */
  lemma FirstIndexNone(pat: string, s: string)
    requires forall k :: !OccursAt(pat, s, k)
    ensures FirstIndexOf(pat, s) == None
  {
  }

  /** A string that starts with `pat` has it replaced there. */
  lemma ReplaceFirstAtStart(pat: string, post: string, rep: string)
    ensures ReplaceFirst(pat + post, pat, rep) == rep + post
  {
    assert pat <= pat + post;
    assert FirstIndexOf(pat, pat + post) == Some(0);
    assert (pat + post)[|pat|..] == post;
  }

  /** The decimal digit for `d`. */
  function DigitChar(d: nat): (c: char)
    requires d < 10
    ensures '0' <= c <= '9'
  {
    ('0' as int + d) as char
  }

  predicate IsDigit(c: char)
  {
    '0' <= c <= '9'
  }

  /** PHP's string form of a non-negative integer. */
  function NatToString(n: nat): (r: string)
    ensures |r| > 0
    ensures forall k :: 0 <= k < |r| ==> IsDigit(r[k])
  {
    if n < 10 then [DigitChar(n)]
    else NatToString(n / 10) + [DigitChar(n % 10)]
  }

  /** Distinct numbers print differently. */
  lemma {:induction false} NatToStringInjective(a: nat, b: nat)
    requires NatToString(a) == NatToString(b)
    ensures a == b
  {
    if a >= 10 && b >= 10 {
      var sa, sb := NatToString(a), NatToString(b);
      assert sa[..|sa| - 1] == NatToString(a / 10);
      assert sb[..|sb| - 1] == NatToString(b / 10);
      NatToStringInjective(a / 10, b / 10);
      assert DigitChar(a % 10) == sa[|sa| - 1] == sb[|sb| - 1] == DigitChar(b % 10);
    }
  }

  /** PHP's string form of an integer key. */
  function IntToString(i: int): (r: string)
    ensures |r| > 0
  {
    if i < 0 then "-" + NatToString(-i) else NatToString(i)
  }

  predicate EndsWith(s: string, suffix: string)
  {
    |suffix| <= |s| && s[|s| - |suffix|..] == suffix
  }

  /** The capture of `/^(.+?)_ids$/`: `.` does not match a newline, and `$`
      also matches just before a final newline. */
  function IdsPrefix(name: string): (r: Option<string>)
    ensures r.Some? ==> |r.value| > 0 && '\n' !in r.value
  {
    if |name| > 4 && EndsWith(name, "_ids") && '\n' !in name[..|name| - 4] then
      Some(name[..|name| - 4])
    else if |name| > 5 && EndsWith(name, "_ids\n") && '\n' !in name[..|name| - 5] then
      Some(name[..|name| - 5])
    else
      None
  }

  /** `IdsPrefix` recovers exactly the stem the accessor was built from, and
      only names so built have a stem. */
  lemma IdsPrefixRoundTrip(name: string, x: string)
    requires |x| > 0 && '\n' !in x
    ensures IdsPrefix(x + "_ids") == Some(x)
    ensures IdsPrefix(x + "_ids\n") == Some(x)
    ensures IdsPrefix(name) == Some(x) <==> name == x + "_ids" || name == x + "_ids\n"
  {
    assert (x + "_ids")[..|x|] == x;
    assert (x + "_ids")[|x|..] == "_ids";
    assert (x + "_ids\n")[..|x|] == x;
    assert (x + "_ids\n")[|x|..] == "_ids\n";
    assert (x + "_ids\n")[|x| + 1..] == "ids\n";
    if IdsPrefix(name) == Some(x) {
      if |name| > 4 && EndsWith(name, "_ids") && '\n' !in name[..|name| - 4] {
        assert name[..|name| - 4] == x;
        assert name == name[..|name| - 4] + name[|name| - 4..];
      } else {
        assert name[..|name| - 5] == x;
        assert name[|name| - 5..] == "_ids\n";
        assert name == name[..|name| - 5] + name[|name| - 5..];
      }
    }
  }

  /** One character of the class `[A-Za-z0-9\-_ ,\(\)]`. */
  predicate Allowed(c: char)
  {
    ('A' <= c <= 'Z') || ('a' <= c <= 'z') || IsDigit(c)
    || c == '-' || c == '_' || c == ' ' || c == ',' || c == '(' || c == ')'
  }

  predicate AllAllowed(s: string)
  {
    forall i :: 0 <= i < |s| ==> Allowed(s[i])
  }

  /** `preg_match('/^[A-Za-z0-9\-_ ,\(\)]+$/', s)`; PCRE's `$` lets one final
      newline through. */
  predicate Whitelisted(s: string)
  {
    (|s| > 0 && AllAllowed(s))
    || (|s| > 1 && s[|s| - 1] == '\n' && AllAllowed(s[..|s| - 1]))
  }

  /** PHP truthiness of a string: only "" and "0" are false. */
  predicate Truthy(s: string)
  {
    s != "" && s != "0"
  }

  predicate IsSpace(c: char)
  {
    c == ' ' || c == '\t' || c == '\n' || c == '\r' || c == '\U{000C}' || c == '\U{000B}'
  }

  /** The number of leading characters of `s` that satisfy a test. */
  function RunLength(s: string, digits: bool): (n: nat)
    ensures n <= |s|
    ensures forall k :: 0 <= k < n ==> (if digits then IsDigit(s[k]) else IsSpace(s[k]))
    ensures n < |s| ==> !(if digits then IsDigit(s[n]) else IsSpace(s[n]))
  {
    if s == [] || !(if digits then IsDigit(s[0]) else IsSpace(s[0])) then 0
    else 1 + RunLength(s[1..], digits)
  }

  /** `[eE][+-]?[0-9]+` filling all of `s`. */
  predicate IsExponent(s: string)
  {
    |s| > 1 && (s[0] == 'e' || s[0] == 'E') &&
    var t := if s[1] == '+' || s[1] == '-' then s[2..] else s[1..];
    |t| > 0 && RunLength(t, true) == |t|
  }

  /** `[0-9]+(\.[0-9]*)?` or `\.[0-9]+`, then an optional exponent, filling all of `s`. */
  predicate IsUnsignedNumber(s: string)
  {
    var d1 := RunLength(s, true);
    var rest := s[d1..];
    if |rest| > 0 && rest[0] == '.' then
      var d2 := RunLength(rest[1..], true);
      d1 + d2 > 0 && (rest[1 + d2..] == "" || IsExponent(rest[1 + d2..]))
    else
      d1 > 0 && (rest == "" || IsExponent(rest))
  }

  /** PHP 5's `is_numeric` on a decimal string: leading white space, an
      optional sign, then an unsigned decimal number. */
  predicate IsNumeric(s: string)
  {
    var t := s[RunLength(s, false)..];
    if |t| > 0 && (t[0] == '+' || t[0] == '-') then IsUnsignedNumber(t[1..])
    else IsUnsignedNumber(t)
  }

  /** A separator of `/[\s,]+/`. */
  predicate IsSeparator(c: char)
  {
    c == ',' || c == ' ' || c == '\t' || c == '\n' || c == '\r' || c == '\U{000C}'
  }

  /** `s` without its leading run of separators. */
  function SkipSeparators(s: string): (r: string)
    ensures |r| <= |s|
    ensures r == [] || !IsSeparator(r[0])
  {
    if s != [] && IsSeparator(s[0]) then SkipSeparators(s[1..]) else s
  }

  /** `preg_split('/[\s,]+/', s)`: the pieces between maximal separator runs;
      a leading or trailing run yields an empty first or last piece. */
  function SplitOnSeparators(s: string): (r: seq<string>)
    ensures |r| > 0
    decreases |s|
  {
    if s == [] then [""]
    else if IsSeparator(s[0]) then [""] + SplitOnSeparators(SkipSeparators(s))
    else
      var rest := SplitOnSeparators(s[1..]);
      [[s[0]] + rest[0]] + rest[1..]
  }

  /** `p` holds no separator. */
  predicate Clean(p: string)
  {
    forall i :: 0 <= i < |p| ==> !IsSeparator(p[i])
  }

  /** No piece holds a separator, and only the first and the last piece can
      be empty. */
  lemma {:induction false} SplitPieces(s: string)
    ensures forall k :: 0 <= k < |SplitOnSeparators(s)| ==> Clean(SplitOnSeparators(s)[k])
    ensures forall k :: 0 < k < |SplitOnSeparators(s)| - 1 ==> |SplitOnSeparators(s)[k]| > 0
    decreases |s|
  {
    var r := SplitOnSeparators(s);
    if s == [] {
    } else if IsSeparator(s[0]) {
      var t := SkipSeparators(s);
      SplitPieces(t);
      var rt := SplitOnSeparators(t);
      assert r == [""] + rt;
      if t != [] {
        assert |rt[0]| > 0;
      }
      forall k | 0 <= k < |r| ensures Clean(r[k]) {
        if k > 0 { assert r[k] == rt[k - 1]; }
      }
      forall k | 0 < k < |r| - 1 ensures |r[k]| > 0 {
        assert r[k] == rt[k - 1];
      }
    } else {
      SplitPieces(s[1..]);
      var rest := SplitOnSeparators(s[1..]);
      assert r == [[s[0]] + rest[0]] + rest[1..];
      forall k | 0 <= k < |r| ensures Clean(r[k]) {
        if k == 0 {
          assert Clean(rest[0]);
          forall i | 0 <= i < |r[0]| ensures !IsSeparator(r[0][i]) {
            if i > 0 { assert r[0][i] == rest[0][i - 1]; }
          }
        } else {
          assert r[k] == rest[k];
        }
      }
      forall k | 0 < k < |r| - 1 ensures |r[k]| > 0 {
        assert r[k] == rest[k];
      }
    }
  }
}
