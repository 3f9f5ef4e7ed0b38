/** Text operations the chat handler applies to the user's message: Python's
    `str.strip()` (with no argument), `str.lower()` and the substring test
    `keyword in message`. The cache key is `Normalize(message)`. */
module Text {

  /** Python's `str.isspace()` on one character: the characters that
      `str.strip()` with no argument removes. */
  predicate IsSpace(c: char) {
    ('\t' <= c <= '\r') || ('\U{1C}' <= c <= ' ') ||
    c == '\U{85}' || c == '\U{A0}' || c == '\U{1680}' ||
    ('\U{2000}' <= c <= '\U{200A}') || c == '\U{2028}' || c == '\U{2029}' ||
    c == '\U{202F}' || c == '\U{205F}' || c == '\U{3000}'
  }

  predicate AllSpace(s: string) {
    forall i :: 0 <= i < |s| ==> IsSpace(s[i])
  }

  /** Lower-cases one character; only the ASCII letters are mapped. */
  function ToLower(c: char): char {
    if 'A' <= c <= 'Z' then (c as int + 32) as char else c
  }

  /** Python's `str.lower()`, character by character. */
  function Lower(s: string): (r: string)
    ensures |r| == |s|
    ensures forall i :: 0 <= i < |s| ==> r[i] == ToLower(s[i])
  {
    if s == [] then [] else [ToLower(s[0])] + Lower(s[1..])
  }

  /** Drops the leading whitespace: the result is the suffix of `s` that
      starts at its first non-space character. */
  function TrimStart(s: string): string {
    if s != [] && IsSpace(s[0]) then TrimStart(s[1..]) else s
  }

  /** Drops the trailing whitespace: the result is the prefix of `s` that
      ends at its last non-space character. */
  function TrimEnd(s: string): string {
    if s != [] && IsSpace(s[|s| - 1]) then TrimEnd(s[..|s| - 1]) else s
  }

  /** Python's `str.strip()`. */
  function Strip(s: string): string {
    TrimEnd(TrimStart(s))
  }

  /** The cache key of a message: `message.strip().lower()`. */
  function Normalize(s: string): string {
    Lower(Strip(s))
  }

  /** `s` is stripped down to `s[i..j]`: whitespace before `i` and from `j`
      on, and a non-space character at each end of the kept part. */
  ghost predicate StripsTo(s: string, i: int, j: int) {
    0 <= i <= j <= |s| && AllSpace(s[..i]) && AllSpace(s[j..]) &&
    (i < j ==> !IsSpace(s[i]) && !IsSpace(s[j - 1]))
  }

  /** Once the leading whitespace ends at `i`, `TrimStart` keeps `s[i..]`. */
  lemma {:induction false} TrimStartUnique(s: string, i: int)
    requires 0 <= i <= |s| && AllSpace(s[..i])
    requires i < |s| ==> !IsSpace(s[i])
    ensures TrimStart(s) == s[i..]
  {
    if i > 0 {
      assert s[..i][0] == s[0];
      assert s[1..][..i - 1] == s[1..i];
      TrimStartUnique(s[1..], i - 1);
    }
  }

  /** Once the trailing whitespace starts at `j`, `TrimEnd` keeps `s[..j]`. */
  lemma {:induction false} TrimEndUnique(s: string, j: int)
    requires 0 <= j <= |s| && AllSpace(s[j..])
    requires j > 0 ==> !IsSpace(s[j - 1])
    ensures TrimEnd(s) == s[..j]
  {
    if j < |s| {
      assert s[j..][|s| - 1 - j] == s[|s| - 1];
      var t := s[..|s| - 1];
      assert t[j..] == s[j..|s| - 1];
      TrimEndUnique(t, j);
    }
  }

  /** Every string strips to some `s[i..j]`, and `Strip` returns exactly the
      kept part described by `StripsTo`, whichever `i`, `j` witness it. */
  lemma StripUnique(s: string, i: int, j: int)
    requires StripsTo(s, i, j)
    ensures Strip(s) == s[i..j]
  {
    if i < j {
      TrimStartUnique(s, i);
      var t := s[i..];
      assert t[j - i..] == s[j..];
      TrimEndUnique(t, j - i);
    } else {
      forall k | i <= k < |s| ensures IsSpace(s[k]) {
        assert s[j..][k - j] == s[k];
      }
      TrimStartUnique(s, |s|);
      assert s[..|s|] == s;
    }
  }

  /** Every string has a leading run of whitespace, ending at `i`. */
  lemma {:induction false} LeadingSpace(s: string) returns (i: int)
    ensures 0 <= i <= |s| && AllSpace(s[..i])
    ensures i < |s| ==> !IsSpace(s[i])
  {
    if s != [] && IsSpace(s[0]) {
      var k := LeadingSpace(s[1..]);
      i := k + 1;
      assert s[..i] == [s[0]] + s[1..][..k];
    } else {
      i := 0;
    }
  }

  /** Every string has a trailing run of whitespace, starting at `j`. */
  lemma {:induction false} TrailingSpace(s: string) returns (j: int)
    ensures 0 <= j <= |s| && AllSpace(s[j..])
    ensures j > 0 ==> !IsSpace(s[j - 1])
  {
    if s != [] && IsSpace(s[|s| - 1]) {
      var t := s[..|s| - 1];
      j := TrailingSpace(t);
      assert s[j..] == t[j..] + [s[|s| - 1]];
    } else {
      j := |s|;
    }
  }

  /** `Strip` keeps exactly the part of `s` between its leading and its
      trailing whitespace. */
  lemma StripExists(s: string) returns (i: int, j: int)
    ensures StripsTo(s, i, j) && Strip(s) == s[i..j]
  {
    i := LeadingSpace(s);
    var t := s[i..];
    var k := TrailingSpace(t);
    j := i + k;
    assert s[j..] == t[k..];
    if k > 0 {
      assert s[j - 1] == t[k - 1];
    }
    StripUnique(s, i, j);
  }

  /** Strings that agree character by character after `ToLower` have the
      same `Lower`. */
  lemma LowerAgree(a: string, b: string)
    requires |a| == |b|
    requires forall k :: 0 <= k < |a| ==> ToLower(a[k]) == ToLower(b[k])
    ensures Lower(a) == Lower(b)
  {
  }

  /** `Lower` leaves a lower-cased string as it is. */
  lemma LowerLower(a: string)
    ensures Lower(Lower(a)) == Lower(a)
  {
  }

  /** Lower-casing keeps the whitespace at the ends of a stripped string. */
  lemma LowerStripped(n: string)
    requires StripsTo(n, 0, |n|)
    ensures StripsTo(Lower(n), 0, |n|)
  {
  }

  /** Normalising a cache key again gives the same key. */
  lemma {:induction false} NormalizeIdempotent(s: string)
    ensures Normalize(Normalize(s)) == Normalize(s)
  {
    var i, j := StripExists(s);
    var m := s[i..j];
    assert m[..0] == [] && m[|m|..] == [];
    assert StripsTo(m, 0, |m|);
    LowerStripped(m);
    var n := Lower(m);
    StripUnique(n, 0, |n|);
    assert n[0..|n|] == n;
    LowerLower(m);
  }

  /** Padding a string with whitespace moves its kept part along. */
  lemma PaddedStripsTo(p: string, s: string, q: string, i: int, j: int)
    requires AllSpace(p) && AllSpace(q) && StripsTo(s, i, j)
    ensures StripsTo(p + s + q, |p| + i, |p| + j)
  {
  }

  lemma PaddedSlice(p: string, s: string, q: string, i: int, j: int)
    requires 0 <= i <= j <= |s|
    ensures (p + s + q)[|p| + i..|p| + j] == s[i..j]
  {
  }

  /** The cache key of a message is the lower-cased kept part. */
  lemma NormalizeFrom(s: string, i: int, j: int)
    requires StripsTo(s, i, j)
    ensures Normalize(s) == Lower(s[i..j])
  {
    StripUnique(s, i, j);
  }

  /** Whitespace around a message does not change its cache key. */
  lemma {:induction false} NormalizePadding(p: string, s: string, q: string)
    requires AllSpace(p) && AllSpace(q)
    ensures Normalize(p + s + q) == Normalize(s)
  {
    var i, j := StripExists(s);
    PaddedStripsTo(p, s, q, i, j);
    NormalizeFrom(p + s + q, |p| + i, |p| + j);
    NormalizeFrom(s, i, j);
    PaddedSlice(p, s, q, i, j);
  }

  /** Lower-casing does not move whitespace, so case-equal strings are
      stripped at the same places. */
  lemma CaseStripsTo(s: string, t: string, i: int, j: int)
    requires |s| == |t|
    requires forall k :: 0 <= k < |s| ==> ToLower(s[k]) == ToLower(t[k])
    requires StripsTo(s, i, j)
    ensures StripsTo(t, i, j)
  {
  }

  /** Two messages that agree after lower-casing share one cache key. */
  lemma {:induction false} NormalizeIgnoresCase(s: string, t: string)
    requires |s| == |t|
    requires forall k :: 0 <= k < |s| ==> ToLower(s[k]) == ToLower(t[k])
    ensures Normalize(s) == Normalize(t)
  {
    var i, j := StripExists(s);
    CaseStripsTo(s, t, i, j);
    NormalizeFrom(s, i, j);
    NormalizeFrom(t, i, j);
    LowerAgree(s[i..j], t[i..j]);
  }

  /** Python's `k in s` on strings: `k` occurs in `s` as a contiguous part,
      searched from the left. */
  predicate Contains(s: string, k: string)
    decreases |s|
  {
    (|k| <= |s| && s[..|k|] == k) || (s != [] && Contains(s[1..], k))
  }

  /** The reference meaning of the substring test. */
  ghost predicate OccursAt(s: string, k: string, i: int) {
    0 <= i && i + |k| <= |s| && s[i..i + |k|] == k
  }

  /** `Contains` holds exactly when the keyword occurs at some position. */
  lemma {:induction false} ContainsMeans(s: string, k: string)
    ensures Contains(s, k) <==> exists i :: OccursAt(s, k, i)
    decreases |s|
  {
    if |k| <= |s| && s[..|k|] == k {
      assert OccursAt(s, k, 0);
    } else if s == [] {
      assert forall i :: !OccursAt(s, k, i);
    } else {
      ContainsMeans(s[1..], k);
      if Contains(s[1..], k) {
        var i :| OccursAt(s[1..], k, i);
        assert s[1..][i..i + |k|] == k;
        assert s[i + 1..i + 1 + |k|] == s[1..][i..i + |k|];
        assert OccursAt(s, k, i + 1);
      } else {
        forall i | OccursAt(s, k, i) ensures i >= 1 && OccursAt(s[1..], k, i - 1) {
          if i >= 1 {
            assert s[1..][i - 1..i - 1 + |k|] == s[i..i + |k|];
          }
        }
      }
    }
  }

  /** A keyword holding a character the message lacks does not occur in it. */
  lemma {:induction false} MissingChar(s: string, k: string, c: char)
    requires c in k && c !in s
    ensures !Contains(s, k)
    decreases |s|
  {
    if |k| <= |s| {
      assert c !in s[..|k|];
    }
    if s != [] {
      assert c !in s[1..];
      MissingChar(s[1..], k, c);
    }
  }
}
