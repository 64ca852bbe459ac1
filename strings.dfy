/**
 * The Python string operations the repository relies on, over `seq<char>`:
 * `startswith`/`endswith`, `in` on strings, `strip()`, `lower()`, `join`,
 * `replace`, slicing and `str()` of a non-negative integer.
 */
module Strings {

  predicate StartsWith(s: string, prefix: string)
  {
    |prefix| <= |s| && s[..|prefix|] == prefix
  }

  predicate EndsWith(s: string, suffix: string)
  {
    |suffix| <= |s| && s[|s| - |suffix|..] == suffix
  }

  /** Python's `s.endswith(suffixes)` for a tuple: an early-return scan over the suffixes. */
  function EndsWithAny(s: string, suffixes: seq<string>): (r: bool)
    ensures r <==> exists i :: 0 <= i < |suffixes| && EndsWith(s, suffixes[i])
  {
    if suffixes == [] then false
    else if EndsWith(s, suffixes[0]) then true
    else
      var r := EndsWithAny(s, suffixes[1..]);
      assert forall i :: 1 <= i < |suffixes| ==> suffixes[i] == suffixes[1..][i - 1];
      r
  }

  /** A suffix fixes the last character. */
  lemma EndsWithLastChar(s: string, suffix: string)
    requires suffix != []
    ensures EndsWith(s, suffix) ==> s[|s| - 1] == suffix[|suffix| - 1]
  {
    if EndsWith(s, suffix) {
      assert s[|s| - |suffix|..][|suffix| - 1] == s[|s| - 1];
    }
  }

  /** Python's `sub in s` for strings. */
  predicate Contains(s: string, sub: string)
  {
    StartsWith(s, sub) || (s != [] && Contains(s[1..], sub))
  }

  /** The characters `str.isspace()` accepts, which `strip()` removes. */
  predicate IsSpace(c: char)
  {
    || ('\t' <= c <= '\r')
    || ('\U{1C}' <= c <= ' ')
    || c == '\U{85}' || c == '\U{A0}' || c == '\U{1680}'
    || ('\U{2000}' <= c <= '\U{200A}')
    || c == '\U{2028}' || c == '\U{2029}' || c == '\U{202F}'
    || c == '\U{205F}' || c == '\U{3000}'
  }

  predicate IsBlank(s: string)
  {
    forall i :: 0 <= i < |s| ==> IsSpace(s[i])
  }

  /** The start of the run of whitespace that ends at `j`. */
  function SpaceRunTo(s: string, j: nat): (k: nat)
    requires j <= |s|
    ensures k <= j
    ensures forall m :: k <= m < j ==> IsSpace(s[m])
    ensures 0 < k ==> !IsSpace(s[k - 1])
  {
    if 0 < j && IsSpace(s[j - 1]) then SpaceRunTo(s, j - 1) else j
  }

  /** `s[i:].strip()`: skip the leading whitespace from `i` on, then cut the trailing whitespace. */
  function StripFrom(s: string, i: nat): (r: string)
    requires i <= |s|
    ensures r == [] <==> forall m :: i <= m < |s| ==> IsSpace(s[m])
    ensures r != [] ==> !IsSpace(r[0]) && !IsSpace(r[|r| - 1])
    ensures |r| <= |s| - i
    decreases |s| - i
  {
    if i == |s| then []
    else if IsSpace(s[i]) then StripFrom(s, i + 1)
    else s[i..SpaceRunTo(s, |s|)]
  }

  /** Python's `s.strip()`: the text between the leading and trailing whitespace. */
  function Strip(s: string): (r: string)
    ensures r == [] <==> IsBlank(s)
    ensures r != [] ==> !IsSpace(r[0]) && !IsSpace(r[|r| - 1])
    ensures |r| <= |s|
  {
    StripFrom(s, 0)
  }

  /** The first non-whitespace position at or after `i` (`|s|` when there is none). */
  function SkipSpace(s: string, i: nat): (k: nat)
    requires i <= |s|
    ensures i <= k <= |s|
    ensures forall m :: i <= m < k ==> IsSpace(s[m])
    ensures k < |s| ==> !IsSpace(s[k])
    decreases |s| - i
  {
    if i < |s| && IsSpace(s[i]) then SkipSpace(s, i + 1) else i
  }

  /** What `strip()` keeps is the slice between the leading and the trailing whitespace run. */
  lemma {:induction false} StripFromIsSlice(s: string, i: nat)
    requires i <= |s|
    ensures SkipSpace(s, i) < |s| ==> SkipSpace(s, i) < SpaceRunTo(s, |s|)
    ensures StripFrom(s, i) == if SkipSpace(s, i) == |s| then [] else s[SkipSpace(s, i)..SpaceRunTo(s, |s|)]
    decreases |s| - i
  {
    if i < |s| && IsSpace(s[i]) {
      StripFromIsSlice(s, i + 1);
    }
  }

  /** `strip()` removes only whitespace: the blank prefix and suffix around what it keeps. */
  lemma StripIsSlice(s: string)
    ensures exists a, b :: 0 <= a <= b <= |s| && Strip(s) == s[a..b] && IsBlank(s[..a]) && IsBlank(s[b..])
  {
    StripFromIsSlice(s, 0);
    var a := SkipSpace(s, 0);
    var b := if a == |s| then a else SpaceRunTo(s, |s|);
    assert IsBlank(s[..a]) by {
      assert forall m :: 0 <= m < a ==> s[..a][m] == s[m];
    }
    assert IsBlank(s[b..]) by {
      assert forall m :: 0 <= m < |s| - b ==> s[b..][m] == s[b + m];
    }
    assert Strip(s) == s[a..b];
  }

  /** Python's `s[:n]` for `n >= 0`. */
  function Take(s: string, n: nat): (r: string)
    ensures |r| <= n && |r| <= |s|
    ensures r == s[..|r|]
    ensures |s| <= n ==> r == s
  {
    if |s| <= n then s else s[..n]
  }

  function LowerChar(c: char): char
  {
    if 'A' <= c <= 'Z' then (c as int + 32) as char else c
  }

  /** Python's `s.lower()` on the ASCII letters. */
  function Lower(s: string): (r: string)
    ensures |r| == |s|
    ensures forall i :: 0 <= i < |s| ==> r[i] == LowerChar(s[i])
  {
    seq(|s|, i requires 0 <= i < |s| => LowerChar(s[i]))
  }

  /** Python's `sep.join(parts)`. */
  function Join(sep: string, parts: seq<string>): string
  {
    if |parts| == 0 then ""
    else if |parts| == 1 then parts[0]
    else Join(sep, parts[..|parts| - 1]) + sep + parts[|parts| - 1]
  }

  lemma JoinSnoc(sep: string, parts: seq<string>, p: string)
    ensures Join(sep, parts + [p]) == if parts == [] then p else Join(sep, parts) + sep + p
  {
    assert (parts + [p])[..|parts|] == parts;
  }

  /** Joining with a whitespace separator is blank exactly when every part is. */
  lemma {:induction false} JoinBlank(sep: string, parts: seq<string>)
    requires IsBlank(sep)
    ensures IsBlank(Join(sep, parts)) <==> forall i :: 0 <= i < |parts| ==> IsBlank(parts[i])
  {
    if |parts| > 1 {
      var init := parts[..|parts| - 1];
      JoinBlank(sep, init);
      var j := Join(sep, init) + sep + parts[|parts| - 1];
      assert IsBlank(j) <==> IsBlank(Join(sep, init)) && IsBlank(parts[|parts| - 1]) by {
        if IsBlank(j) {
          forall i | 0 <= i < |Join(sep, init)| ensures IsSpace(Join(sep, init)[i]) {
            assert j[i] == Join(sep, init)[i];
          }
          var last := parts[|parts| - 1];
          forall i | 0 <= i < |last| ensures IsSpace(last[i]) {
            assert j[|Join(sep, init)| + |sep| + i] == last[i];
          }
        }
      }
      assert forall i :: 0 <= i < |init| ==> init[i] == parts[i];
    }
  }

  function TotalLength(parts: seq<string>): nat
  {
    if parts == [] then 0 else TotalLength(parts[..|parts| - 1]) + |parts[|parts| - 1]|
  }

  /** The length of a join: every part plus one separator between neighbours. */
  lemma {:induction false} JoinLength(sep: string, parts: seq<string>)
    requires parts != []
    ensures |Join(sep, parts)| == TotalLength(parts) + (|parts| - 1) * |sep|
  {
    if |parts| > 1 {
      JoinLength(sep, parts[..|parts| - 1]);
    } else {
      assert parts[..0] == [];
    }
  }

  /** Python's `s.replace(pat, rep)`: every non-overlapping occurrence, left to right. */
  function Replace(s: string, pat: string, rep: string): string
    requires pat != []
  {
    if |s| < |pat| then s
    else if s[..|pat|] == pat then rep + Replace(s[|pat|..], pat, rep)
    else [s[0]] + Replace(s[1..], pat, rep)
  }

  /** A string without the first character of the pattern is left as it is. */
  lemma {:induction false} ReplaceAbsent(s: string, pat: string, rep: string)
    requires pat != [] && pat[0] !in s
    ensures Replace(s, pat, rep) == s
  {
    if |s| >= |pat| {
      assert s[..|pat|][0] == s[0];
      ReplaceAbsent(s[1..], pat, rep);
    }
  }

  /** Where the pattern does not start the string, `replace` keeps the first character. */
  lemma ReplaceKeepsFirst(s: string, pat: string, rep: string)
    requires pat != [] && s != [] && !(|s| >= |pat| && s[..|pat|] == pat)
    ensures Replace(s, pat, rep) == [s[0]] + Replace(s[1..], pat, rep)
  {
    if |s| < |pat| {
      ReplaceShort(s[1..], pat, rep);
      assert [s[0]] + s[1..] == s;
    }
  }

  lemma ReplaceShort(s: string, pat: string, rep: string)
    requires pat != [] && |s| < |pat|
    ensures Replace(s, pat, rep) == s
  {
  }

  /** Replacing inside `head + tail` leaves a head without the pattern's first character alone. */
  lemma {:induction false} ReplaceAfterPlainHead(head: string, tail: string, pat: string, rep: string)
    requires pat != [] && pat[0] !in head
    ensures Replace(head + tail, pat, rep) == head + Replace(tail, pat, rep)
  {
    if head != [] {
      var s := head + tail;
      assert s[0] == head[0];
      assert s[1..] == head[1..] + tail;
      assert !(|s| >= |pat| && s[..|pat|] == pat) by {
        if |s| >= |pat| {
          assert s[..|pat|][0] == s[0];
        }
      }
      ReplaceKeepsFirst(s, pat, rep);
      ReplaceAfterPlainHead(head[1..], tail, pat, rep);
      assert head == [head[0]] + head[1..];
    } else {
      assert head + tail == tail;
    }
  }

  /** Replacing one character by another maps the string character by character. */
  lemma {:induction false} ReplaceChar(s: string, a: char, b: char)
    ensures |Replace(s, [a], [b])| == |s|
    ensures forall i :: 0 <= i < |s| ==> Replace(s, [a], [b])[i] == if s[i] == a then b else s[i]
  {
    if s != [] {
      ReplaceChar(s[1..], a, b);
      var t := Replace(s[1..], [a], [b]);
      assert s[..1] == [s[0]];
      assert Replace(s, [a], [b]) == [if s[0] == a then b else s[0]] + t;
    }
  }

  /** `s.replace("\\", "/")`: Windows separators turned into forward slashes. */
  function NormSlashes(s: string): (r: string)
    ensures |r| == |s| && '\\' !in r
    ensures forall i :: 0 <= i < |s| && s[i] != '\\' ==> r[i] == s[i]
    ensures forall i :: 0 <= i < |s| && s[i] == '\\' ==> r[i] == '/'
    ensures '\\' !in s ==> r == s
  {
    ReplaceChar(s, '\\', '/');
    Replace(s, "\\", "/")
  }

  /** `pat` occurs in `s` at position `p`. */
  predicate OccursAt(s: string, pat: string, p: nat)
  {
    p + |pat| <= |s| && s[p..p + |pat|] == pat
  }

  /** Where `pat` does not occur, `replace` changes nothing. */
  lemma {:induction false} ReplaceNoOccurrence(s: string, pat: string, rep: string)
    requires pat != []
    requires forall p: nat :: !OccursAt(s, pat, p)
    ensures Replace(s, pat, rep) == s
  {
    if |s| >= |pat| {
      assert !OccursAt(s, pat, 0);
      assert s[0..|pat|] == s[..|pat|];
      forall p: nat ensures !OccursAt(s[1..], pat, p) {
        assert !OccursAt(s, pat, p + 1);
        if p + |pat| <= |s[1..]| {
          assert s[1..][p..p + |pat|] == s[p + 1..p + 1 + |pat|];
        }
      }
      ReplaceNoOccurrence(s[1..], pat, rep);
      assert s == [s[0]] + s[1..];
    }
  }

  /** An occurrence in `s[1..]` is an occurrence in `s` one place further on. */
  lemma OccursShift(s: string, pat: string, p: nat)
    requires s != []
    ensures OccursAt(s[1..], pat, p) <==> OccursAt(s, pat, p + 1)
  {
    if p + |pat| <= |s[1..]| {
      assert s[1..][p..p + |pat|] == s[p + 1..p + 1 + |pat|];
    }
  }

  /** Where `pat` occurs only as the suffix of `head + pat`, `replace` swaps just that suffix. */
  lemma {:induction false} ReplaceOnlyAtEnd(head: string, pat: string, rep: string)
    requires pat != []
    requires forall p: nat :: p < |head| ==> !OccursAt(head + pat, pat, p)
    ensures Replace(head + pat, pat, rep) == head + rep
  {
    var s := head + pat;
    if head == [] {
      assert s[..|pat|] == pat && s[|pat|..] == [];
    } else {
      assert !OccursAt(s, pat, 0);
      assert s[0..|pat|] == s[..|pat|];
      ReplaceKeepsFirst(s, pat, rep);
      assert s[1..] == head[1..] + pat;
      forall p: nat | p < |head[1..]| ensures !OccursAt(head[1..] + pat, pat, p) {
        OccursShift(s, pat, p);
      }
      ReplaceOnlyAtEnd(head[1..], pat, rep);
      assert head == [head[0]] + head[1..];
    }
  }

  /** An occurrence puts each character of the pattern at its offset. */
  lemma OccursAtChar(s: string, pat: string, p: nat, k: nat)
    requires OccursAt(s, pat, p) && k < |pat|
    ensures s[p + k] == pat[k]
  {
    assert s[p..p + |pat|][k] == s[p + k];
  }

  function Digit(d: nat): char
    requires d < 10
  {
    ('0' as int + d) as char
  }

  predicate IsDigits(s: string)
  {
    forall i :: 0 <= i < |s| ==> '0' <= s[i] <= '9'
  }

  /** Python's `str(n)` for a non-negative integer. */
  function NatToString(n: nat): (r: string)
    ensures |r| >= 1 && IsDigits(r)
    ensures r[0] == '0' ==> n == 0
  {
    if n < 10 then [Digit(n)] else NatToString(n / 10) + [Digit(n % 10)]
  }

  /** The number a string of decimal digits denotes. */
  function DecimalValue(s: string): nat
    requires IsDigits(s)
  {
    if s == [] then 0 else DecimalValue(s[..|s| - 1]) * 10 + (s[|s| - 1] as int - '0' as int)
  }

  lemma {:induction false} DecimalRoundTrip(n: nat)
    ensures DecimalValue(NatToString(n)) == n
  {
    if n >= 10 {
      DecimalRoundTrip(n / 10);
      var r, p := NatToString(n), NatToString(n / 10);
      assert r == p + [Digit(n % 10)];
      assert r[..|r| - 1] == p;
      assert r[|r| - 1] as int - '0' as int == n % 10;
      assert DecimalValue(r) == DecimalValue(p) * 10 + n % 10;
    }
  }

  /** Python's `s * k` for a string. */
  function Repeat(s: string, k: nat): (r: string)
    ensures |r| == |s| * k
  {
    if k == 0 then "" else s + Repeat(s, k - 1)
  }

  /** Python's `s.split(c)` for a one-character separator. */
  function Split(s: string, c: char): (r: seq<string>)
    ensures |r| >= 1
  {
    if s == [] then [""]
    else
      var rest := Split(s[1..], c);
      if s[0] == c then [""] + rest else [[s[0]] + rest[0]] + rest[1..]
  }

  /** Without the separator there is one piece. */
  lemma {:induction false} SplitNoSep(s: string, c: char)
    requires c !in s
    ensures Split(s, c) == [s]
  {
    if s != [] {
      SplitNoSep(s[1..], c);
      assert [s[0]] + s[1..] == s;
    }
  }

  /** Splitting around one separator splits each side. */
  lemma {:induction false} SplitAround(a: string, b: string, c: char)
    ensures Split(a + [c] + b, c) == Split(a, c) + Split(b, c)
  {
    if a == [] {
      assert a + [c] + b == [c] + b;
      assert ([c] + b)[1..] == b;
    } else {
      var whole := a + [c] + b;
      assert whole[0] == a[0] && whole[1..] == a[1..] + [c] + b;
      SplitAround(a[1..], b, c);
      var r, t := Split(whole[1..], c), Split(a[1..], c);
      assert r == t + Split(b, c);
      if a[0] != c {
        assert r[0] == t[0];
        assert r[1..] == t[1..] + Split(b, c);
      }
    }
  }

  /** `sep.join` and `split` undo each other when no part holds the separator. */
  lemma {:induction false} SplitJoin(parts: seq<string>, c: char)
    requires parts != []
    requires forall i :: 0 <= i < |parts| ==> c !in parts[i]
    ensures Split(Join([c], parts), c) == parts
  {
    var last := parts[|parts| - 1];
    SplitNoSep(last, c);
    if |parts| > 1 {
      var init := parts[..|parts| - 1];
      SplitJoin(init, c);
      SplitAround(Join([c], init), last, c);
      assert init + [last] == parts;
    }
  }

  /** Repeating once more appends one more copy. */
  lemma {:induction false} RepeatSnoc(s: string, k: nat)
    ensures Repeat(s, k + 1) == Repeat(s, k) + s
  {
    if k > 0 {
      RepeatSnoc(s, k - 1);
    }
  }
}
