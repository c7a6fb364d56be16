/**
 * The parts of JavaScript's String and Array built-ins that the consent
 * pipeline relies on: `String.prototype.split` with a non-empty string
 * separator, `Array.prototype.join`, and `String.prototype.trim`.
 */
module JsString {
  import opened Wrappers

  /** `sep` occurs in `s` starting at index `i`. */
  predicate OccursAt(s: string, sep: string, i: nat)
  {
    i + |sep| <= |s| && s[i..i + |sep|] == sep
  }

  /** `s.includes(sep)`. */
  predicate Contains(s: string, sep: string)
  {
    exists i: nat | i <= |s| :: OccursAt(s, sep, i)
  }

  /** `s.indexOf(sep, from)`: the first occurrence of `sep` at or after `from`. */
  function IndexFrom(s: string, sep: string, from: nat): (r: Option<nat>)
    requires |sep| > 0 && from <= |s|
    ensures r.Some? ==> from <= r.value && OccursAt(s, sep, r.value)
    ensures r.Some? ==> forall j: nat :: from <= j < r.value ==> !OccursAt(s, sep, j)
    ensures r.None? ==> forall j: nat :: from <= j ==> !OccursAt(s, sep, j)
    decreases |s| - from
  {
    if from + |sep| > |s| then None
    else if OccursAt(s, sep, from) then Some(from)
    else IndexFrom(s, sep, from + 1)
  }

  /** An occurrence at `i` with none between `from` and `i` is the one `indexOf` finds. */
  lemma {:induction false} IndexFromFirst(s: string, sep: string, from: nat, i: nat)
    requires |sep| > 0 && from <= i && OccursAt(s, sep, i)
    requires forall j: nat :: from <= j < i ==> !OccursAt(s, sep, j)
    ensures IndexFrom(s, sep, from) == Some(i)
    decreases i - from
  {
    if from < i {
      IndexFromFirst(s, sep, from + 1, i);
    }
  }

  /** `parts.join(sep)`. */
  function Join(parts: seq<string>, sep: string): string
  {
    if |parts| == 0 then ""
    else if |parts| == 1 then parts[0]
    else parts[0] + sep + Join(parts[1..], sep)
  }

  /**
   * `s.split(sep)` for a non-empty string separator: the text between
   * successive left-to-right, non-overlapping occurrences of `sep`.
   * Even the empty string yields one (empty) part.
   */
  function Split(s: string, sep: string): (parts: seq<string>)
    requires |sep| > 0
    ensures |parts| >= 1
    ensures Join(parts, sep) == s
    ensures forall p :: p in parts ==> !Contains(p, sep)
    decreases |s|
  {
    var found := IndexFrom(s, sep, 0);
    match found
    case None => [s]
    case Some(i) =>
      var head, rest := s[..i], Split(s[i + |sep|..], sep);
      NoEarlierOccurrence(s, sep, i);
      assert s == head + sep + s[i + |sep|..];
      [head] + rest
  }

  /** The text before the first occurrence of `sep` does not contain `sep`. */
  lemma NoEarlierOccurrence(s: string, sep: string, i: nat)
    requires |sep| > 0 && i <= |s| && forall j: nat :: j < i ==> !OccursAt(s, sep, j)
    ensures !Contains(s[..i], sep)
  {
    var head := s[..i];
    forall j: nat | j <= |head| ensures !OccursAt(head, sep, j) {
      if j + |sep| <= |head| {
        assert head[j..j + |sep|] == s[j..j + |sep|];
        assert !OccursAt(s, sep, j);
      }
    }
  }

  /** Splitting cuts at the first occurrence of the separator. */
  lemma SplitAt(s: string, sep: string, i: nat)
    requires |sep| > 0 && IndexFrom(s, sep, 0) == Some(i)
    ensures Split(s, sep) == [s[..i]] + Split(s[i + |sep|..], sep)
  {
  }

  /** No proper non-empty suffix of `sep` is also a prefix of it ("; ", "=", ",", ":" all qualify). */
  predicate Unbordered(sep: string)
  {
    forall k :: 0 < k < |sep| ==> sep[k..] != sep[..|sep| - k]
  }

  /** A separator inserted after a part free of it is the first occurrence. */
  lemma {:induction false} FirstOccurrenceAfterPart(p: string, sep: string, rest: string)
    requires |sep| > 0 && Unbordered(sep) && !Contains(p, sep)
    ensures IndexFrom(p + sep + rest, sep, 0) == Some(|p|)
  {
    var s := p + sep + rest;
    assert OccursAt(s, sep, |p|) by { assert s[|p|..|p| + |sep|] == sep; }
    forall j: nat | j < |p| ensures !OccursAt(s, sep, j) {
      if j + |sep| <= |p| {
        assert s[j..j + |sep|] == p[j..j + |sep|];
        assert !OccursAt(p, sep, j);
      } else if j + |sep| <= |s| {
        // an occurrence straddling the end of p would be a border of sep
        var k := |p| - j;
        assert s[j..j + |sep|][k..] == s[|p|..j + |sep|] == sep[..|sep| - k];
        assert sep[k..] != sep[..|sep| - k];
      }
    }
  }

  /** Joining parts free of an unbordered separator and splitting again gives the parts back. */
  lemma {:induction false} SplitJoin(parts: seq<string>, sep: string)
    requires |sep| > 0 && Unbordered(sep) && |parts| >= 1
    requires forall p :: p in parts ==> !Contains(p, sep)
    ensures Split(Join(parts, sep), sep) == parts
  {
    if |parts| == 1 {
      assert parts[0] in parts;
    } else {
      var p, rest := parts[0], Join(parts[1..], sep);
      FirstOccurrenceAfterPart(p, sep, rest);
      assert (p + sep + rest)[|p| + |sep|..] == rest;
      assert (p + sep + rest)[..|p|] == p;
      SplitJoin(parts[1..], sep);
    }
  }

  /** For a one-character separator, containing it is containing the character. */
  lemma ContainsChar(s: string, c: char)
    ensures Contains(s, [c]) <==> c in s
  {
    if c in s {
      var i :| 0 <= i < |s| && s[i] == c;
      assert OccursAt(s, [c], i);
    } else {
      forall i: nat | i <= |s| ensures !OccursAt(s, [c], i) {
        if i + 1 <= |s| {
          assert s[i..i + 1][0] == s[i];
        }
      }
    }
  }

  /** With no `c` in `s`, splitting on `c` leaves `s` whole. */
  lemma SplitNoField(s: string, c: char)
    requires c !in s
    ensures Split(s, [c]) == [s]
  {
    ContainsChar(s, c);
  }

  /** When `m` is the first `c` in `t` (or its end), splitting on `c` cuts at `m`. */
  lemma FirstField(t: string, c: char, m: nat)
    requires m <= |t| && c !in t[..m] && (m == |t| || t[m] == c)
    ensures Split(t, [c])[0] == t[..m]
    ensures m < |t| ==> Split(t, [c])[1..] == Split(t[m + 1..], [c])
  {
    if m == |t| {
      assert t[..m] == t;
      SplitNoField(t, c);
    } else {
      FirstChar(t, c, m);
      SplitAt(t, [c], m);
    }
  }

  /** `indexOf` of a one-character separator finds its first occurrence. */
  lemma FirstChar(t: string, c: char, m: nat)
    requires m < |t| && c !in t[..m] && t[m] == c
    ensures IndexFrom(t, [c], 0) == Some(m)
  {
    forall k: nat | k < m ensures !OccursAt(t, [c], k) {
      assert t[k..k + 1][0] == t[..m][k];
    }
    assert t[m..m + 1] == [c];
    IndexFromFirst(t, [c], 0, m);
  }

  /**
   * With `i` the first `c` in `s` and `j` the next one (or the end),
   * `s.split(c)` starts with `s[..i]` and then `s[i+1..j]`.
   */
  lemma SplitFields(s: string, c: char, i: nat, j: nat)
    requires i < j <= |s| && s[i] == c && (j == |s| || s[j] == c)
    requires c !in s[..i] && c !in s[i + 1..j]
    ensures |Split(s, [c])| >= 2 && Split(s, [c])[0] == s[..i] && Split(s, [c])[1] == s[i + 1..j]
  {
    FirstField(s, c, i);
    var t := s[i + 1..];
    assert t[..j - i - 1] == s[i + 1..j];
    FirstField(t, c, j - i - 1);
  }

  /** A one-character separator is unbordered. */
  lemma SingleCharUnbordered(c: char)
    ensures Unbordered([c])
  {
  }

  /** A string without `c` does not contain the separator `[c] + t`. */
  lemma {:induction false} MissingFirstChar(s: string, c: char, t: string)
    requires c !in s
    ensures !Contains(s, [c] + t)
  {
    forall i: nat | i <= |s| ensures !OccursAt(s, [c] + t, i) {
      if i + |[c] + t| <= |s| {
        assert s[i..i + |[c] + t|][0] == s[i];
      }
    }
  }

  /**
   * The characters `trim` removes: ECMAScript WhiteSpace (tab, vertical tab,
   * form feed, ZWNBSP and every space separator) and LineTerminator.
   */
  predicate IsJsWhitespace(c: char)
  {
    c == '\t' || c == '\n' || c == '\U{B}' || c == '\U{C}' || c == '\r' || c == ' '
    || c == '\U{A0}' || c == '\U{1680}' || ('\U{2000}' <= c <= '\U{200A}')
    || c == '\U{2028}' || c == '\U{2029}' || c == '\U{202F}' || c == '\U{205F}'
    || c == '\U{3000}' || c == '\U{FEFF}'
  }

  /** Neither end of `s` is whitespace. */
  predicate Trimmed(s: string)
  {
    s == [] || (!IsJsWhitespace(s[0]) && !IsJsWhitespace(s[|s| - 1]))
  }

  /** `s` is `r`, found at index `lo`, with nothing but whitespace around it. */
  predicate PaddedSlice(s: string, lo: nat, r: string)
  {
    lo + |r| <= |s| && r == s[lo..lo + |r|]
    && (forall i :: 0 <= i < lo ==> IsJsWhitespace(s[i]))
    && (forall i :: lo + |r| <= i < |s| ==> IsJsWhitespace(s[i]))
  }

  /** Drops leading whitespace. */
  function TrimStart(s: string): (r: string)
    ensures |r| <= |s| && r == s[|s| - |r|..]
    ensures r == [] || !IsJsWhitespace(r[0])
    ensures forall i :: 0 <= i < |s| - |r| ==> IsJsWhitespace(s[i])
  {
    if |s| > 0 && IsJsWhitespace(s[0]) then TrimStart(s[1..]) else s
  }

  /** Drops trailing whitespace. */
  function TrimEnd(s: string): (r: string)
    ensures |r| <= |s| && r == s[..|r|]
    ensures r == [] || !IsJsWhitespace(r[|r| - 1])
    ensures forall i :: |r| <= i < |s| ==> IsJsWhitespace(s[i])
  {
    if |s| > 0 && IsJsWhitespace(s[|s| - 1]) then TrimEnd(s[..|s| - 1]) else s
  }

  /**
   * `s.trim()`: the slice `s[lo..hi]` that is left once the whitespace at
   * both ends is gone; everything cut off is whitespace.
   */
  function Trim(s: string): (r: string)
    ensures Trimmed(r)
    ensures exists lo: nat :: PaddedSlice(s, lo, r)
  {
    var t := TrimStart(s);
    var r := TrimEnd(t);
    assert PaddedSlice(s, |s| - |t|, r);
    r
  }

  /** Trimming a string that has no whitespace at its ends leaves it alone. */
  lemma TrimOfTrimmed(s: string)
    requires Trimmed(s)
    ensures Trim(s) == s
  {
  }
}
