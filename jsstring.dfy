/**
 * The JavaScript string built-ins the bundler and the command line rely on,
 * for the inputs the program gives them: `replaceAll` with a string pattern,
 * `slice` with negative and out-of-range indices, `lastIndexOf` returning -1,
 * `endsWith`, `toLowerCase` (ASCII letters only), `Array.prototype.join` and
 * the decimal `toString` of an integer (without the exponent form ECMAScript
 * uses from 10^21 on).
 */
module JsString {

  /** `s` begins with `p`. */
  predicate StartsWith(s: string, p: string) {
    |p| <= |s| && s[..|p|] == p
  }

  /** `s.endsWith(p)`: true exactly when the last `|p|` characters of `s` are `p`. */
  predicate EndsWith(s: string, p: string) {
    |p| <= |s| && s[|s| - |p|..] == p
  }

  /**
   * `s.replaceAll(pat, rep)` for a non-empty string pattern: matches are found
   * from the left, and scanning resumes after each match, so matches never overlap.
   */
  function ReplaceAll(s: string, pat: string, rep: string): (r: string)
    requires |pat| > 0
    decreases |s|
  {
    if |s| == 0 then ""
    else if StartsWith(s, pat) then rep + ReplaceAll(s[|pat|..], pat, rep)
    else [s[0]] + ReplaceAll(s[1..], pat, rep)
  }

  /** The number of positions at which `pat` occurs in `s` (overlapping occurrences counted). */
  function Occurrences(s: string, pat: string): (n: nat)
    requires |pat| > 0
    ensures n <= |s|
    decreases |s|
  {
    if |s| < |pat| then 0
    else (if StartsWith(s, pat) then 1 else 0) + Occurrences(s[1..], pat)
  }

  /** `Occurrences` counts exactly the positions where `pat` starts. */
  lemma {:induction false} OccurrencesZero(s: string, pat: string)
    requires |pat| > 0
    ensures Occurrences(s, pat) == 0 <==> forall i :: 0 <= i <= |s| - |pat| ==> !StartsWith(s[i..], pat)
  {
    if |s| >= |pat| {
      OccurrencesZero(s[1..], pat);
      assert s[0..] == s;
      forall i | 1 <= i <= |s| - |pat|
        ensures s[i..] == s[1..][i - 1..]
      {
      }
    }
  }

  /** A string in which the pattern does not occur is left unchanged. */
  lemma {:induction false} ReplaceAllNoMatch(s: string, pat: string, rep: string)
    requires |pat| > 0
    requires Occurrences(s, pat) == 0
    ensures ReplaceAll(s, pat, rep) == s
  {
    if |s| > 0 {
      if |s| >= |pat| {
        assert !StartsWith(s, pat);
        ReplaceAllNoMatch(s[1..], pat, rep);
      } else {
        assert !StartsWith(s, pat);
        assert Occurrences(s[1..], pat) == 0;
        ReplaceAllNoMatch(s[1..], pat, rep);
      }
      assert s == [s[0]] + s[1..];
    }
  }

  /**
   * Replacing a one-character pattern by a one-character replacement is a
   * character-by-character substitution: the length is kept and every other
   * character stays where it was.
   */
  lemma {:induction false} ReplaceCharAt(s: string, c: char, d: char)
    ensures |ReplaceAll(s, [c], [d])| == |s|
    ensures forall i :: 0 <= i < |s| ==> ReplaceAll(s, [c], [d])[i] == if s[i] == c then d else s[i]
  {
    if |s| > 0 {
      ReplaceCharAt(s[1..], c, d);
      var r := ReplaceAll(s, [c], [d]);
      var t := ReplaceAll(s[1..], [c], [d]);
      assert StartsWith(s, [c]) <==> s[0] == c;
      assert s[|[c]|..] == s[1..];
      assert r == [if s[0] == c then d else s[0]] + t;
      forall i | 0 <= i < |s|
        ensures r[i] == if s[i] == c then d else s[i]
      {
        if i > 0 {
          assert r[i] == t[i - 1];
          assert s[i] == s[1..][i - 1];
        }
      }
    }
  }

  /** After replacing `c` by a different character, no `c` is left. */
  lemma ReplaceCharRemoves(s: string, c: char, d: char)
    requires c != d
    ensures forall i :: 0 <= i < |ReplaceAll(s, [c], [d])| ==> ReplaceAll(s, [c], [d])[i] != c
  {
    ReplaceCharAt(s, c, d);
  }

  /** The index ECMAScript's `slice` derives from a relative index: negative counts from the end; clamped to `[0, len]`. */
  function RelativeIndex(i: int, len: nat): (r: nat)
    ensures r <= len
    ensures 0 <= i <= len ==> r == i
    ensures i < 0 && 0 <= len + i ==> r == len + i
    ensures i > len ==> r == len
    ensures len + i < 0 ==> r == 0
  {
    if i < 0 then (if len + i < 0 then 0 else len + i)
    else if i < len then i else len
  }

  /** `s.slice(start, end)`. */
  function Slice(s: string, start: int, end: int): (r: string)
    ensures |r| <= |s|
  {
    var from := RelativeIndex(start, |s|);
    var to := RelativeIndex(end, |s|);
    if from < to then s[from..to] else ""
  }

  /** `s.slice(start)`. */
  function SliceFrom(s: string, start: int): (r: string)
    ensures |r| <= |s|
  {
    s[RelativeIndex(start, |s|)..]
  }

  /** `slice(0, k)` of an index inside the string is the prefix of length `k`; `slice(0, -1)` drops the last character. */
  lemma SlicePrefix(s: string, k: int)
    requires -1 <= k <= |s|
    ensures 0 <= k ==> Slice(s, 0, k) == s[..k]
    ensures k == -1 && |s| > 0 ==> Slice(s, 0, k) == s[..|s| - 1]
    ensures k == -1 && |s| == 0 ==> Slice(s, 0, k) == ""
  {
  }

  /** `slice(k)` of an index inside the string is the suffix from `k`. */
  lemma SliceFromSuffix(s: string, k: int)
    requires 0 <= k <= |s|
    ensures SliceFrom(s, k) == s[k..]
  {
  }

  /** `s.lastIndexOf(c)` for a one-character search string. */
  function LastIndexOf(s: string, c: char): (r: int)
    ensures -1 <= r < |s|
  {
    if |s| == 0 then -1
    else if s[|s| - 1] == c then |s| - 1
    else LastIndexOf(s[..|s| - 1], c)
  }

  /**
   * `lastIndexOf` finds the last occurrence: the index holds `c` and no later
   * index does; it is -1 exactly when `c` does not occur at all.
   */
  lemma {:induction false} LastIndexOfSpec(s: string, c: char)
    ensures var r := LastIndexOf(s, c);
      && (r >= 0 ==> s[r] == c)
      && (forall j :: r < j < |s| ==> s[j] != c)
      && (r == -1 <==> forall j :: 0 <= j < |s| ==> s[j] != c)
  {
    if |s| > 0 && s[|s| - 1] != c {
      var init := s[..|s| - 1];
      LastIndexOfSpec(init, c);
      forall j | 0 <= j < |init|
        ensures init[j] == s[j]
      {
      }
    }
  }

  /** `toLowerCase` of one character; only the ASCII letters `A`..`Z` are mapped. */
  function LowerChar(c: char): (r: char)
    ensures 'A' <= c <= 'Z' ==> r as int == c as int + 32
    ensures !('A' <= c <= 'Z') ==> r == c
  {
    if 'A' <= c <= 'Z' then (c as int + 32) as char else c
  }

  /** `s.toLowerCase()`, restricted to ASCII. */
  function ToLower(s: string): (r: string)
    ensures |r| == |s|
    ensures forall i :: 0 <= i < |s| ==> r[i] == LowerChar(s[i])
  {
    seq(|s|, i requires 0 <= i < |s| => LowerChar(s[i]))
  }

  /** `parts.join(sep)`: the parts in order with `sep` between neighbours, none before the first or after the last. */
  function Join(parts: seq<string>, sep: string): (r: string)
    ensures |parts| == 0 ==> r == ""
    ensures |parts| == 1 ==> r == parts[0]
  {
    if |parts| == 0 then ""
    else if |parts| == 1 then parts[0]
    else parts[0] + sep + Join(parts[1..], sep)
  }

  /** A non-empty join starts with the first part and ends with the last. */
  lemma {:induction false} JoinEnds(parts: seq<string>, sep: string)
    requires |parts| > 0
    ensures StartsWith(Join(parts, sep), parts[0])
    ensures EndsWith(Join(parts, sep), parts[|parts| - 1])
  {
    if |parts| > 1 {
      JoinEnds(parts[1..], sep);
      var tail := Join(parts[1..], sep);
      var r := parts[0] + sep + tail;
      assert Join(parts, sep) == r;
      assert r[..|parts[0]|] == parts[0];
      assert parts[1..][|parts[1..]| - 1] == parts[|parts| - 1];
      assert r[|r| - |tail|..] == tail;
      assert tail[|tail| - |parts[|parts| - 1]|..] == parts[|parts| - 1];
      assert r[|r| - |parts[|parts| - 1]|..] == tail[|tail| - |parts[|parts| - 1]|..];
    }
  }

  /** Joining one more part appends one separator and that part. */
  lemma {:induction false} JoinSnoc(parts: seq<string>, p: string, sep: string)
    requires |parts| > 0
    ensures Join(parts + [p], sep) == Join(parts, sep) + sep + p
  {
    var longer := parts + [p];
    assert longer[0] == parts[0];
    if |parts| == 1 {
      assert longer[1..] == [p];
      assert Join(longer, sep) == parts[0] + sep + Join([p], sep);
    } else {
      JoinSnoc(parts[1..], p, sep);
      assert longer[1..] == parts[1..] + [p];
      calc {
        Join(longer, sep);
        parts[0] + sep + Join(parts[1..] + [p], sep);
        parts[0] + sep + (Join(parts[1..], sep) + sep + p);
        (parts[0] + sep + Join(parts[1..], sep)) + sep + p;
      }
    }
  }

  /** The number of times `c` occurs in `s`. */
  function Count(s: string, c: char): (n: nat)
    ensures n <= |s|
  {
    if |s| == 0 then 0 else (if s[0] == c then 1 else 0) + Count(s[1..], c)
  }

  lemma {:induction false} CountAppend(s: string, t: string, c: char)
    ensures Count(s + t, c) == Count(s, c) + Count(t, c)
  {
    if |s| > 0 {
      assert (s + t)[1..] == s[1..] + t;
      CountAppend(s[1..], t, c);
    } else {
      assert s + t == t;
    }
  }

  lemma {:induction false} CountAbsent(s: string, c: char)
    requires forall i :: 0 <= i < |s| ==> s[i] != c
    ensures Count(s, c) == 0
  {
    if |s| > 0 {
      CountAbsent(s[1..], c);
    }
  }

  /**
   * When no part contains the one-character separator, the joined string
   * contains it exactly `|parts| - 1` times: single separators, none trailing.
   */
  lemma {:induction false} JoinCount(parts: seq<string>, c: char)
    requires |parts| > 0
    requires forall k :: 0 <= k < |parts| ==> Count(parts[k], c) == 0
    ensures Count(Join(parts, [c]), c) == |parts| - 1
  {
    if |parts| > 1 {
      JoinCount(parts[1..], c);
      CountAppend(parts[0], [c], c);
      CountAppend(parts[0] + [c], Join(parts[1..], [c]), c);
      assert Count([c], c) == 1;
    }
  }

  /** The decimal digit of `d`. */
  function Digit(d: nat): (r: char)
    requires d < 10
    ensures '0' <= r <= '9'
  {
    "0123456789"[d]
  }

  /** `Number.prototype.toString()` of a non-negative integer. */
  function NatToString(n: nat): (r: string)
    ensures |r| > 0
    ensures forall i :: 0 <= i < |r| ==> '0' <= r[i] <= '9'
  {
    if n < 10 then [Digit(n)] else NatToString(n / 10) + [Digit(n % 10)]
  }

  /** `Number.prototype.toString()` of an integer: an optional `-` and the digits. */
  function IntToString(n: int): (r: string)
    ensures |r| > 0
    ensures '0' <= r[|r| - 1] <= '9'
    ensures forall i :: 0 <= i < |r| ==> r[i] == '-' || '0' <= r[i] <= '9'
  {
    if n < 0 then "-" + NatToString(-n) else NatToString(n)
  }
}
