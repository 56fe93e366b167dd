/**
 * The handful of Rust `str` operations the modelled code relies on, written
 * out over `seq<char>`: `starts_with`/`strip_prefix`, `split_once`/`rsplit_once`,
 * `join`, `replace`, `trim`, `lines`, decimal formatting and parsing, and the
 * lexicographic order `String` uses for `sort`.
 */
module Strings {
  import opened Wrappers

  // ---------------------------------------------------------------- prefixes

  predicate StartsWith(s: string, prefix: string) {
    |prefix| <= |s| && s[..|prefix|] == prefix
  }

  /** `str::strip_prefix`. */
  function StripPrefix(s: string, prefix: string): (r: Option<string>)
    ensures r.Some? <==> StartsWith(s, prefix)
    ensures r.Some? ==> s == prefix + r.value
  {
    if StartsWith(s, prefix) then
      assert s == s[..|prefix|] + s[|prefix|..];
      Some(s[|prefix|..])
    else None
  }

  ghost predicate ContainsSubstring(s: string, t: string) {
    exists i :: 0 <= i <= |s| && StartsWith(s[i..], t)
  }

  lemma ContainsMiddle(a: string, t: string, b: string)
    ensures ContainsSubstring(a + t + b, t)
  {
    var s := a + t + b;
    assert s[|a|..][..|t|] == t;
    assert StartsWith(s[|a|..], t);
  }

  // -------------------------------------------------------------- splitting

  /** Index of the first occurrence of `c`. */
  function FindFirst(s: string, c: char): (r: Option<nat>)
    ensures r.None? <==> c !in s
    ensures r.Some? ==> r.value < |s| && s[r.value] == c && c !in s[..r.value]
  {
    if |s| == 0 then None
    else if s[0] == c then Some(0)
    else
      match FindFirst(s[1..], c)
      case None => None
      case Some(i) =>
        assert s[..i + 1] == [s[0]] + s[1..][..i];
        Some(i + 1)
  }

  /** Index of the last occurrence of `c`. */
  function FindLast(s: string, c: char): (r: Option<nat>)
    ensures r.None? <==> c !in s
    ensures r.Some? ==> r.value < |s| && s[r.value] == c && c !in s[r.value + 1..]
  {
    if |s| == 0 then None
    else if s[|s| - 1] == c then Some(|s| - 1)
    else
      var init := s[..|s| - 1];
      match FindLast(init, c)
      case None =>
        assert s == init + [s[|s| - 1]];
        None
      case Some(i) =>
        assert s[i + 1..] == init[i + 1..] + [s[|s| - 1]];
        Some(i)
  }

  /** `str::split_once(c)`: the text before and after the FIRST `c`. */
  function SplitOnce(s: string, c: char): (r: Option<(string, string)>)
    ensures r.None? <==> c !in s
    ensures r.Some? ==> s == r.value.0 + [c] + r.value.1 && c !in r.value.0
  {
    match FindFirst(s, c)
    case None => None
    case Some(i) =>
      assert s == s[..i] + [c] + s[i + 1..];
      Some((s[..i], s[i + 1..]))
  }

  /** `str::rsplit_once(c)`: the text before and after the LAST `c`. */
  function RSplitOnce(s: string, c: char): (r: Option<(string, string)>)
    ensures r.None? <==> c !in s
    ensures r.Some? ==> s == r.value.0 + [c] + r.value.1 && c !in r.value.1
  {
    match FindLast(s, c)
    case None => None
    case Some(i) =>
      assert s == s[..i] + [c] + s[i + 1..];
      Some((s[..i], s[i + 1..]))
  }

  /** Splitting at the first `c` recovers the parts when the left one has no `c`. */
  lemma SplitOnceOfJoin(a: string, c: char, b: string)
    requires c !in a
    ensures SplitOnce(a + [c] + b, c) == Some((a, b))
  {
    var s := a + [c] + b;
    assert s[|a|] == c;
    var i := FindFirst(s, c).value;
    assert s[..i] == a;
    assert s[i + 1..] == b;
  }

  /** Splitting at the last `c` recovers the parts when the right one has no `c`. */
  lemma RSplitOnceOfJoin(a: string, c: char, b: string)
    requires c !in b
    ensures RSplitOnce(a + [c] + b, c) == Some((a, b))
  {
    var s := a + [c] + b;
    assert s[|a|] == c;
    var i := FindLast(s, c).value;
    assert s[..i] == a;
    assert s[i + 1..] == b;
  }

  /** The first `'/'`-separated segment, as `split('/').next()` yields it. */
  function FirstSegment(s: string): (r: string)
    ensures StartsWith(s, r) && '/' !in r
    ensures |r| < |s| ==> s[|r|] == '/'
  {
    match FindFirst(s, '/')
    case None => s
    case Some(i) => s[..i]
  }

  /** `trim_start_matches(c)`: drops every leading `c`. */
  function TrimStartChar(s: string, c: char): (r: string)
    ensures |r| <= |s| && s[|s| - |r|..] == r
    ensures |r| > 0 ==> r[0] != c
    ensures forall i :: 0 <= i < |s| - |r| ==> s[i] == c
  {
    if |s| > 0 && s[0] == c then TrimStartChar(s[1..], c) else s
  }

  // ------------------------------------------------------- joining, replacing

  /** `[&str]::join(sep)`. */
  function Join(parts: seq<string>, sep: string): (r: string)
    ensures |parts| == 0 ==> r == ""
    ensures |parts| == 1 ==> r == parts[0]
  {
    if |parts| == 0 then ""
    else if |parts| == 1 then parts[0]
    else parts[0] + sep + Join(parts[1..], sep)
  }

  lemma JoinCons(p: string, rest: seq<string>, sep: string)
    requires |rest| > 0
    ensures Join([p] + rest, sep) == p + sep + Join(rest, sep)
  {
    assert ([p] + rest)[1..] == rest;
  }

  /** `str::replace(pattern, by)` for a pattern that is a set of single characters. */
  function ReplaceChars(s: string, targets: set<char>, repl: string): (r: string)
    ensures |r| == |s| + (|repl| - 1) * CountIn(s, targets)
    ensures (forall c :: c in repl ==> c !in targets) ==> forall c :: c in r ==> c !in targets
  {
    if |s| == 0 then ""
    else (if s[0] in targets then repl else [s[0]]) + ReplaceChars(s[1..], targets, repl)
  }

  function CountIn(s: string, targets: set<char>): (n: nat)
    ensures n <= |s|
  {
    if |s| == 0 then 0 else (if s[0] in targets then 1 else 0) + CountIn(s[1..], targets)
  }

  /** Replacing works character by character, so it distributes over concatenation. */
  lemma {:induction false} ReplaceCharsAppend(a: string, b: string, targets: set<char>, repl: string)
    ensures ReplaceChars(a + b, targets, repl) == ReplaceChars(a, targets, repl) + ReplaceChars(b, targets, repl)
    decreases |a|
  {
    if |a| == 0 {
      assert a + b == b;
    } else {
      assert (a + b)[0] == a[0] && (a + b)[1..] == a[1..] + b;
      ReplaceCharsAppend(a[1..], b, targets, repl);
    }
  }

  /** A text without any of the targets is left as it is. */
  lemma {:induction false} ReplaceCharsNone(s: string, targets: set<char>, repl: string)
    requires forall c :: c in s ==> c !in targets
    ensures ReplaceChars(s, targets, repl) == s
    decreases |s|
  {
    if |s| > 0 {
      assert forall c :: c in s[1..] ==> c in s;
      ReplaceCharsNone(s[1..], targets, repl);
    }
  }

  lemma CountInNone(s: string, targets: set<char>)
    requires forall c :: c in s ==> c !in targets
    ensures CountIn(s, targets) == 0
  {
  }

  // --------------------------------------------------------------- trimming

  /** Rust's `char::is_whitespace`: the Unicode White_Space property. */
  predicate IsWhitespace(c: char) {
    c == ' ' || ('\t' <= c <= '\r') || c == '\U{85}' || c == '\U{A0}' || c == '\U{1680}'
    || ('\U{2000}' <= c <= '\U{200A}') || c == '\U{2028}' || c == '\U{2029}' || c == '\U{202F}'
    || c == '\U{205F}' || c == '\U{3000}'
  }

  /** How many whitespace characters `s` starts with. */
  function LeadingWhitespace(s: string): (n: nat)
    ensures n <= |s|
    ensures forall k :: 0 <= k < n ==> IsWhitespace(s[k])
    ensures n < |s| ==> !IsWhitespace(s[n])
  {
    if |s| > 0 && IsWhitespace(s[0]) then 1 + LeadingWhitespace(s[1..]) else 0
  }

  function TrimStart(s: string): (r: string)
    ensures |r| <= |s| && s[|s| - |r|..] == r
    ensures |r| > 0 ==> !IsWhitespace(r[0])
    ensures |s| - |r| == LeadingWhitespace(s)
  {
    if |s| > 0 && IsWhitespace(s[0]) then TrimStart(s[1..]) else s
  }

  function TrimEnd(s: string): (r: string)
    ensures |r| <= |s| && s[..|r|] == r
    ensures |r| > 0 ==> !IsWhitespace(r[|r| - 1])
    ensures forall k :: |r| <= k < |s| ==> IsWhitespace(s[k])
  {
    if |s| > 0 && IsWhitespace(s[|s| - 1]) then TrimEnd(s[..|s| - 1]) else s
  }

  /**
   * A prefix `t` of the suffix `s[i..]` is the slice of `s` at `i`, and the
   * whitespace after it in the suffix is whitespace after `i + |t|` in `s`.
   */
  lemma SliceOfSuffix(s: string, i: nat, front: string, t: string)
    requires i <= |s| && front == s[i..] && |t| <= |front| && t == front[..|t|]
    requires forall k :: |t| <= k < |front| ==> IsWhitespace(front[k])
    ensures i + |t| <= |s| && t == s[i..i + |t|]
    ensures forall k :: i + |t| <= k < |s| ==> IsWhitespace(s[k])
  {
    forall k | i + |t| <= k < |s|
      ensures IsWhitespace(s[k])
    {
      assert s[k] == front[k - i];
    }
  }

  /**
   * `str::trim`: what is left of `s` once the whitespace at both ends is
   * dropped; it neither starts nor ends with whitespace.
   */
  function Trim(s: string): (r: string)
    ensures var i := LeadingWhitespace(s);
      i + |r| <= |s| && r == s[i..i + |r|]
      && forall k :: i + |r| <= k < |s| ==> IsWhitespace(s[k])
    ensures |r| > 0 ==> !IsWhitespace(r[0]) && !IsWhitespace(r[|r| - 1])
  {
    var front := TrimStart(s);
    var t := TrimEnd(front);
    var i := |s| - |front|;
    assert |t| > 0 ==> t[0] == front[0];
    SliceOfSuffix(s, i, front, t);
    t
  }

  // ------------------------------------------------------------------ lines

  /**
   * `str::lines`: split at each `'\n'`, drop one `'\r'` before it, and yield
   * no empty final line after a trailing newline; a final line without a
   * `'\n'` keeps a `'\r'` it ends with.
   */
  function Lines(s: string): (r: seq<string>)
    ensures forall l :: l in r ==> '\n' !in l
    decreases |s|
  {
    if |s| == 0 then []
    else
      match FindFirst(s, '\n')
      case None => [s]
      case Some(i) => [DropCr(s[..i])] + Lines(s[i + 1..])
  }

  function DropCr(l: string): (r: string)
    ensures |r| <= |l| && l[..|r|] == r
  {
    if |l| > 0 && l[|l| - 1] == '\r' then l[..|l| - 1] else l
  }

  // ------------------------------------------------------ decimal numbers

  predicate IsDigit(c: char) { '0' <= c <= '9' }

  function DigitChar(d: nat): (c: char)
    requires d < 10
    ensures IsDigit(c) && c as int - '0' as int == d
  {
    ('0' as int + d) as char
  }

  function DigitOf(c: char): (d: nat)
    requires IsDigit(c)
    ensures d < 10 && DigitChar(d) == c
  {
    c as int - '0' as int
  }

  /** The value of a string of decimal digits. */
  function DecimalValue(s: string): nat
    requires forall i :: 0 <= i < |s| ==> IsDigit(s[i])
  {
    if |s| == 0 then 0
    else 10 * DecimalValue(s[..|s| - 1]) + DigitOf(s[|s| - 1])
  }

  /** `format!("{n}")` for a non-negative integer: digits without leading zeros. */
  function NatToString(n: nat): (r: string)
    ensures |r| > 0 && forall i :: 0 <= i < |r| ==> IsDigit(r[i])
    ensures |r| > 1 ==> r[0] != '0'
    ensures DecimalValue(r) == n
  {
    if n < 10 then [DigitChar(n)]
    else
      var r := NatToString(n / 10) + [DigitChar(n % 10)];
      assert r[..|r| - 1] == NatToString(n / 10);
      r
  }

  /** `format!("{n:0w$}")`: zero-padded on the left to at least `w` digits. */
  function ZeroPad(n: nat, w: nat): (r: string)
    ensures |r| == if |NatToString(n)| < w then w else |NatToString(n)|
    ensures forall i :: 0 <= i < |r| ==> IsDigit(r[i])
    ensures DecimalValue(r) == n
  {
    var d := NatToString(n);
    if |d| < w then
      var r := Zeros(w - |d|) + d;
      LeadingZeros(w - |d|, d);
      r
    else d
  }

  lemma LeadingZeros(k: nat, d: string)
    requires forall i :: 0 <= i < |d| ==> IsDigit(d[i])
    ensures forall i :: 0 <= i < k + |d| ==> IsDigit((Zeros(k) + d)[i])
    ensures DecimalValue(Zeros(k) + d) == DecimalValue(d)
    decreases |d|
  {
    var z := Zeros(k);
    if |d| == 0 {
      assert z + d == z;
      ZerosValue(k);
    } else {
      var init := d[..|d| - 1];
      assert (z + d)[..|z + d| - 1] == z + init;
      LeadingZeros(k, init);
    }
  }

  function Zeros(k: nat): (z: string)
    ensures |z| == k && forall i :: 0 <= i < k ==> z[i] == '0'
  {
    seq(k, _ => '0')
  }

  lemma ZerosValue(k: nat)
    ensures DecimalValue(Zeros(k)) == 0
  {
    if k > 0 {
      assert Zeros(k)[..k - 1] == Zeros(k - 1);
      ZerosValue(k - 1);
    }
  }

  /**
   * Rust's `str::parse::<u16>()`: an optional `'+'`, then one or more decimal
   * digits whose value is at most 65535 (leading zeros allowed).
   */
  function ParseU16(s: string): (r: Option<nat>)
    ensures r.Some? ==> r.value <= 65535
  {
    var digits := if |s| > 0 && s[0] == '+' then s[1..] else s;
    if |digits| > 0 && (forall i :: 0 <= i < |digits| ==> IsDigit(digits[i]))
      && DecimalValue(digits) <= 65535
    then Some(DecimalValue(digits))
    else None
  }

  lemma ParseU16OfNat(n: nat)
    requires n <= 65535
    ensures ParseU16(NatToString(n)) == Some(n)
  {
    var s := NatToString(n);
    assert s[0] != '+' by { assert IsDigit(s[0]); }
  }

  // ---------------------------------------------------- lexicographic order

  /** `a < b` under `Ord for String`: code-point lexicographic order. */
  predicate Below(a: string, b: string) {
    if |a| == 0 then |b| > 0
    else if |b| == 0 then false
    else if a[0] != b[0] then a[0] < b[0]
    else Below(a[1..], b[1..])
  }

  lemma {:induction false} BelowIrreflexive(a: string)
    ensures !Below(a, a)
  {
    if |a| > 0 { BelowIrreflexive(a[1..]); }
  }

  lemma {:induction false} BelowTransitive(a: string, b: string, c: string)
    requires Below(a, b) && Below(b, c)
    ensures Below(a, c)
  {
    if |a| > 0 && |b| > 0 && |c| > 0 && a[0] == b[0] && b[0] == c[0] {
      BelowTransitive(a[1..], b[1..], c[1..]);
    }
  }

  lemma {:induction false} BelowTotal(a: string, b: string)
    requires a != b
    ensures Below(a, b) || Below(b, a)
  {
    if |a| > 0 && |b| > 0 && a[0] == b[0] {
      assert a == [a[0]] + a[1..] && b == [b[0]] + b[1..];
      BelowTotal(a[1..], b[1..]);
    }
  }

  lemma BelowAsymmetric(a: string, b: string)
    requires Below(a, b)
    ensures !Below(b, a)
  {
    if Below(b, a) {
      BelowTransitive(a, b, a);
      BelowIrreflexive(a);
    }
  }

  predicate StrictlySorted(s: seq<string>) {
    forall i, j :: 0 <= i < j < |s| ==> Below(s[i], s[j])
  }
}
