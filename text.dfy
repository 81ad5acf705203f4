/**
 * The handful of Python `str` operations the services rely on, written out
 * over `string` (a sequence of Unicode scalar values).
 *
 * Whitespace is exactly the set CPython's `str.isspace()`, `str.strip()` and
 * the regex class `\s` agree on. Case mapping is ASCII only (see README).
 */
module Text {

  /** CPython whitespace: `\t`..`\r`, `\x1c`..`\x1f`, space, NEL, NBSP and the Unicode space separators. */
  predicate IsSpace(c: char) {
    || c == ' '
    || ('\t' <= c <= '\r')
    || ('\U{1C}' <= c <= '\U{1F}')
    || c == '\U{85}' || c == '\U{A0}' || c == '\U{1680}'
    || ('\U{2000}' <= c <= '\U{200A}')
    || c == '\U{2028}' || c == '\U{2029}' || c == '\U{202F}' || c == '\U{205F}' || c == '\U{3000}'
  }

  predicate IsUpper(c: char) { 'A' <= c <= 'Z' }

  /** `str.lower()` on one character, restricted to ASCII letters. */
  function LowerChar(c: char): (d: char)
    ensures !IsUpper(d)
    ensures !IsUpper(c) ==> d == c
  {
    if IsUpper(c) then (c as int + 32) as char else c
  }

  /** `str.lower()`. */
  function Lower(s: string): (r: string)
    ensures |r| == |s|
    ensures forall i :: 0 <= i < |r| ==> !IsUpper(r[i])
  {
    seq(|s|, i requires 0 <= i < |s| => LowerChar(s[i]))
  }

  lemma LowerIdempotent(s: string)
    ensures Lower(Lower(s)) == Lower(s)
  {
  }

  /** Removes every leading character that `drop` selects (`str.lstrip(chars)`). */
  function TrimStartBy(s: string, drop: char -> bool): (r: string)
    ensures |r| <= |s| && r == s[|s| - |r|..]
    ensures r == [] || !drop(r[0])
    ensures forall i :: 0 <= i < |s| - |r| ==> drop(s[i])
  {
    if s != [] && drop(s[0]) then
      var r := TrimStartBy(s[1..], drop);
      TrimStartStep(s, drop, r);
      r
    else s
  }

  /** Dropping the first character and then a prefix of the rest drops a prefix of `s`. */
  lemma TrimStartStep(s: string, drop: char -> bool, r: string)
    requires s != [] && drop(s[0])
    requires |r| <= |s| - 1 && r == s[1..][|s| - 1 - |r|..]
    requires forall i :: 0 <= i < |s| - 1 - |r| ==> drop(s[1..][i])
    ensures r == s[|s| - |r|..]
    ensures forall i :: 0 <= i < |s| - |r| ==> drop(s[i])
  {
    forall i | 0 <= i < |s| - |r| ensures drop(s[i]) {
      if i > 0 {
        assert s[i] == s[1..][i - 1];
      }
    }
  }

  /** Removes every trailing character that `drop` selects (`str.rstrip(chars)`). */
  function TrimEndBy(s: string, drop: char -> bool): (r: string)
    ensures |r| <= |s| && r == s[..|r|]
    ensures r == [] || !drop(r[|r| - 1])
    ensures forall i :: |r| <= i < |s| ==> drop(s[i])
  {
    if s != [] && drop(s[|s| - 1]) then TrimEndBy(s[..|s| - 1], drop) else s
  }

  /** `(a + [sep] + b).lstrip()`, where `sep` is stripped and `b` has nothing to strip. */
  lemma {:induction false} TrimStartSep(a: string, sep: char, b: string, drop: char -> bool)
    requires drop(sep) && TrimStartBy(b, drop) == b
    ensures TrimStartBy(a + [sep] + b, drop) ==
      if TrimStartBy(a, drop) != [] then TrimStartBy(a, drop) + [sep] + b else b
  {
    if a == [] {
      assert a + [sep] + b == [sep] + b;
      assert ([sep] + b)[1..] == b;
    } else if drop(a[0]) {
      var t := a[1..];
      assert (a + [sep] + b)[1..] == t + [sep] + b;
      assert TrimStartBy(a + [sep] + b, drop) == TrimStartBy(t + [sep] + b, drop);
      assert TrimStartBy(a, drop) == TrimStartBy(t, drop);
      TrimStartSep(t, sep, b, drop);
    } else {
      assert (a + [sep] + b)[0] == a[0];
    }
  }

  /** A stripped last character goes, and `rstrip` carries on from there. */
  lemma TrimEndSnoc(a: string, c: char, drop: char -> bool)
    requires drop(c)
    ensures TrimEndBy(a + [c], drop) == TrimEndBy(a, drop)
  {
    assert (a + [c])[..|a|] == a;
  }

  /** Characters of `s` are all whitespace (Python: `not s.strip()`). */
  predicate IsBlank(s: string) {
    forall i :: 0 <= i < |s| ==> IsSpace(s[i])
  }

  /** Neither the first nor the last character is whitespace. */
  predicate Trimmed(s: string) {
    s == [] || (!IsSpace(s[0]) && !IsSpace(s[|s| - 1]))
  }

  /** `str.strip()`: the longest infix that neither starts nor ends with whitespace. */
  function Strip(s: string): (r: string)
    ensures Trimmed(r)
    ensures Trimmed(s) ==> r == s
    ensures r == [] <==> IsBlank(s)
    ensures |r| <= |s|
  {
    var t := TrimStartBy(s, IsSpace);
    var r := TrimEndBy(t, IsSpace);
    StripBlank(s, t, r);
    StripTrimmed(s, t, r);
    r
  }

  lemma StripBlank(s: string, t: string, r: string)
    requires t == TrimStartBy(s, IsSpace) && r == TrimEndBy(t, IsSpace)
    ensures r == [] <==> IsBlank(s)
  {
    if r == [] {
      if t != [] {
        assert false;
      }
    } else {
      NonBlankWitness(s, t, r);
    }
  }

  lemma NonBlankWitness(s: string, t: string, r: string)
    requires t == TrimStartBy(s, IsSpace) && r == TrimEndBy(t, IsSpace) && r != []
    ensures !IsBlank(s)
  {
    var k := |s| - |t|;
    assert t[0] == s[k];
  }

  lemma StripTrimmed(s: string, t: string, r: string)
    requires t == TrimStartBy(s, IsSpace) && r == TrimEndBy(t, IsSpace)
    ensures Trimmed(r) && |r| <= |s|
    ensures Trimmed(s) ==> r == s
  {
    if r != [] {
      assert r[0] == t[0];
    }
    if Trimmed(s) && s != [] {
      assert !IsSpace(s[0]);
      assert t == s;
      assert !IsSpace(t[|t| - 1]);
    }
  }

  /** `sep` occurs in `hay` at position `i`. */
  predicate OccursAt(sep: string, hay: string, i: nat)
    requires i + |sep| <= |hay|
  {
    hay[i..i + |sep|] == sep
  }

  /**
   * `hay.find(sep)` for a non-empty `sep`: the first position where `sep`
   * occurs, or `|hay|` when it does not occur.
   */
  function Find(hay: string, sep: string): (i: nat)
    requires sep != []
    ensures i <= |hay|
    ensures i + |sep| <= |hay| ==> OccursAt(sep, hay, i)
    ensures i + |sep| > |hay| ==> i == |hay|
    ensures forall j :: 0 <= j < i && j + |sep| <= |hay| ==> !OccursAt(sep, hay, j)
  {
    if |hay| < |sep| then |hay|
    else if OccursAt(sep, hay, 0) then 0
    else
      var i := Find(hay[1..], sep);
      forall j | 1 <= j <= i + 1 && j + |sep| <= |hay|
        ensures OccursAt(sep, hay, j) <==> OccursAt(sep, hay[1..], j - 1)
      {
        SliceShift(hay, j, |sep|);
      }
      i + 1
  }

  lemma SliceShift(hay: string, j: nat, n: nat)
    requires 1 <= j && j + n <= |hay|
    ensures hay[j..j + n] == hay[1..][j - 1..j - 1 + n]
  {
    var a := hay[j..j + n];
    var b := hay[1..][j - 1..j - 1 + n];
    assert |a| == |b|;
    forall k | 0 <= k < n ensures a[k] == b[k] {
      assert a[k] == hay[j + k];
      assert b[k] == hay[1..][j - 1 + k] == hay[j + k];
    }
  }

  /**
   * `s.split(sep)` for a non-empty separator: the pieces between the
   * non-overlapping occurrences of `sep`, found left to right.
   */
  function SplitOn(s: string, sep: string): (parts: seq<string>)
    requires sep != []
    ensures |parts| >= 1
    decreases |s|
  {
    var i := Find(s, sep);
    if i + |sep| > |s| then [s]
    else [s[..i]] + SplitOn(s[i + |sep|..], sep)
  }

  /** `sep.join(parts)`. */
  function Join(parts: seq<string>, sep: string): string
  {
    if |parts| == 0 then ""
    else if |parts| == 1 then parts[0]
    else parts[0] + sep + Join(parts[1..], sep)
  }

  /** Splitting and joining again with the same separator gives the text back. */
  lemma {:induction false} JoinSplitOn(s: string, sep: string)
    requires sep != []
    ensures Join(SplitOn(s, sep), sep) == s
    decreases |s|
  {
    var i := Find(s, sep);
    if i + |sep| <= |s| {
      var rest := SplitOn(s[i + |sep|..], sep);
      JoinSplitOn(s[i + |sep|..], sep);
      assert [s[..i]] + rest == [s[..i]] + rest && ([s[..i]] + rest)[1..] == rest;
      assert s == s[..i] + sep + s[i + |sep|..];
    }
  }

  /** `s.split(c, 1)` when `c in s`: the text before the first `c` and the text after it. */
  function SplitFirst(s: string, c: char): (r: (string, string))
    requires c in s
    ensures s == r.0 + [c] + r.1
    ensures c !in r.0
  {
    var i := Find(s, [c]);
    assert i < |s| by {
      var k :| 0 <= k < |s| && s[k] == c;
      assert OccursAt([c], s, k);
    }
    assert forall j :: 0 <= j < i ==> s[j] != c by {
      forall j | 0 <= j < i ensures s[j] != c {
        assert !OccursAt([c], s, j);
      }
    }
    assert s == s[..i] + [c] + s[i + 1..];
    (s[..i], s[i + 1..])
  }

  /** Whitespace in front of a stripped text is all that `strip()` removes. */
  lemma StripAfterSpace(t: string)
    requires Trimmed(t)
    ensures Strip(" " + t) == t
  {
    assert (" " + t)[1..] == t;
    assert TrimStartBy(" " + t, IsSpace) == TrimStartBy(t, IsSpace) == t;
    assert TrimEndBy(t, IsSpace) == t;
  }

  /** The split at the first `c` is determined by any decomposition whose left part is free of `c`. */
  lemma SplitFirstAt(a: string, c: char, b: string)
    requires c !in a
    ensures c in a + [c] + b && SplitFirst(a + [c] + b, c) == (a, b)
  {
    var s := a + [c] + b;
    assert s[|a|] == c;
    var r := SplitFirst(s, c);
    assert |r.0| == |a|;
    assert r.0 == s[..|a|] == a;
    assert r.1 == s[|a| + 1..] == b;
  }

  /** `s.startswith(p)`. */
  predicate StartsWith(s: string, p: string) {
    |p| <= |s| && s[..|p|] == p
  }

  /** Python's `needle in hay` on strings: `needle` occurs as a contiguous infix. */
  predicate IsSubstring(needle: string, hay: string) {
    exists i | 0 <= i <= |hay| - |needle| :: OccursAt(needle, hay, i)
  }

  lemma EmptyIsSubstring(hay: string)
    ensures IsSubstring("", hay)
  {
    assert OccursAt("", hay, 0);
  }

  /** `s.replace(a, b)` for single characters. */
  function ReplaceChar(s: string, a: char, b: char): (r: string)
    ensures |r| == |s|
    ensures a != b ==> a !in r
  {
    seq(|s|, i requires 0 <= i < |s| => if s[i] == a then b else s[i])
  }

  /** `re.sub('[...]', '', s)` for a character class: every character that `drop` selects is removed. */
  function Without(s: string, drop: char -> bool): (r: string)
    ensures |r| <= |s|
    ensures forall i :: 0 <= i < |r| ==> !drop(r[i])
    ensures (forall i :: 0 <= i < |s| ==> !drop(s[i])) ==> r == s
    ensures forall c :: c in r ==> c in s
  {
    if s == [] then ""
    else
      var rest := Without(s[1..], drop);
      if drop(s[0]) then rest else [s[0]] + rest
  }

  /** The number of leading characters of `s` that `p` selects. */
  function CountLeading(s: string, p: char -> bool): (n: nat)
    ensures n <= |s|
    ensures forall i :: 0 <= i < n ==> p(s[i])
    ensures n < |s| ==> !p(s[n])
  {
    if s != [] && p(s[0]) then 1 + CountLeading(s[1..], p) else 0
  }

  /**
   * `[t for t in (q.strip() for q in parts) if t]`: every piece stripped,
   * the ones left empty dropped, the order kept.
   */
  function NonEmptyStripped(parts: seq<string>): (r: seq<string>)
    ensures forall i :: 0 <= i < |r| ==> r[i] != "" && Trimmed(r[i])
    ensures |r| <= |parts|
  {
    if parts == [] then []
    else
      var r := NonEmptyStripped(parts[..|parts| - 1]);
      var t := Strip(parts[|parts| - 1]);
      if t == "" then r else r + [t]
  }

  /** Stripping one more piece appends it unless it is left empty. */
  lemma NonEmptyStrippedSnoc(parts: seq<string>, j: nat)
    requires j < |parts|
    ensures Strip(parts[j]) == "" ==> NonEmptyStripped(parts[..j + 1]) == NonEmptyStripped(parts[..j])
    ensures Strip(parts[j]) != "" ==> NonEmptyStripped(parts[..j + 1]) == NonEmptyStripped(parts[..j]) + [Strip(parts[j])]
  {
    assert parts[..j + 1][..j] == parts[..j];
  }

  /** The pieces of a split at a single character never contain it, and hold only characters of the text. */
  lemma {:induction false} SplitOnPieces(s: string, c: char)
    ensures forall i :: 0 <= i < |SplitOn(s, [c])| ==> c !in SplitOn(s, [c])[i]
    ensures forall i, d :: 0 <= i < |SplitOn(s, [c])| && d in SplitOn(s, [c])[i] ==> d in s
    decreases |s|
  {
    var i := Find(s, [c]);
    forall j | 0 <= j < i && j + 1 <= |s| ensures s[j] != c {
      assert !OccursAt([c], s, j);
      assert s[j..j + 1] == [s[j]];
    }
    if i + 1 <= |s| {
      var rest := s[i + 1..];
      SplitOnPieces(rest, c);
      assert SplitOn(s, [c]) == [s[..i]] + SplitOn(rest, [c]);
      forall k, d | 0 < k < |SplitOn(s, [c])| && d in SplitOn(s, [c])[k] ensures d in s {
        assert SplitOn(s, [c])[k] == SplitOn(rest, [c])[k - 1];
        assert d in rest;
      }
    }
  }

  /** Case mapping neither creates nor removes whitespace or a non-letter character. */
  lemma LowerCharPreserves(x: char, c: char)
    requires !IsUpper(c) && !('a' <= c <= 'z')
    ensures LowerChar(x) == c <==> x == c
    ensures IsSpace(LowerChar(x)) <==> IsSpace(x)
  {
  }

  lemma {:induction false} TrimStartLower(s: string)
    ensures TrimStartBy(Lower(s), IsSpace) == Lower(TrimStartBy(s, IsSpace))
  {
    if s != [] {
      var l := Lower(s);
      SpaceLower(s[0]);
      LowerTail(s);
      if IsSpace(s[0]) {
        TrimStartLower(s[1..]);
        assert TrimStartBy(l, IsSpace) == TrimStartBy(l[1..], IsSpace);
      } else {
        assert TrimStartBy(l, IsSpace) == l;
        assert TrimStartBy(s, IsSpace) == s;
      }
    }
  }

  /** Lower-casing keeps a character whitespace exactly when it was. */
  lemma SpaceLower(x: char)
    ensures IsSpace(LowerChar(x)) <==> IsSpace(x)
  {
  }

  /** Lower-casing works character by character. */
  lemma LowerTail(s: string)
    requires s != []
    ensures Lower(s)[0] == LowerChar(s[0]) && Lower(s)[1..] == Lower(s[1..])
  {
  }

  lemma {:induction false} TrimEndLower(s: string)
    ensures TrimEndBy(Lower(s), IsSpace) == Lower(TrimEndBy(s, IsSpace))
  {
    if s != [] {
      LowerCharPreserves(s[|s| - 1], ' ');
      if IsSpace(s[|s| - 1]) {
        TrimEndLower(s[..|s| - 1]);
        assert Lower(s)[..|s| - 1] == Lower(s[..|s| - 1]);
      }
    }
  }

  /** Stripping and lower-casing commute. */
  lemma StripLower(s: string)
    ensures Strip(Lower(s)) == Lower(Strip(s))
  {
    TrimStartLower(s);
    TrimEndLower(TrimStartBy(s, IsSpace));
  }

  /** A non-letter separator is found at the same place before and after lower-casing. */
  lemma FindLower(s: string, c: char)
    requires !IsUpper(c) && !('a' <= c <= 'z')
    ensures Find(Lower(s), [c]) == Find(s, [c])
  {
    forall j | 0 <= j < |s| ensures OccursAt([c], Lower(s), j) <==> OccursAt([c], s, j) {
      LowerCharPreserves(s[j], c);
      assert Lower(s)[j..j + 1] == [Lower(s)[j]];
      assert s[j..j + 1] == [s[j]];
    }
  }

  /** Splitting at a non-letter after lower-casing gives the lower-cased pieces. */
  lemma {:induction false} SplitOnLower(s: string, c: char)
    requires !IsUpper(c) && !('a' <= c <= 'z')
    ensures LowerParts(SplitOn(Lower(s), [c]), SplitOn(s, [c]))
    decreases |s|
  {
    FindLower(s, c);
    var i := Find(s, [c]);
    if i + 1 <= |s| {
      SplitOnLower(s[i + 1..], c);
      SplitOnLowerStep(s, c, i);
      LowerPartsCons(s[..i], SplitOn(s[i + 1..], [c]), SplitOn(Lower(s[i + 1..]), [c]));
    } else {
      assert SplitOn(Lower(s), [c]) == [Lower(s)];
    }
  }

  /** `ls` is `ps` with every piece lower-cased. */
  ghost predicate LowerParts(ls: seq<string>, ps: seq<string>) {
    |ls| == |ps| && forall i :: 0 <= i < |ps| ==> ls[i] == Lower(ps[i])
  }

  lemma LowerPartsCons(p: string, ps: seq<string>, ls: seq<string>)
    requires LowerParts(ls, ps)
    ensures LowerParts([Lower(p)] + ls, [p] + ps)
  {
    var l2 := [Lower(p)] + ls;
    var p2 := [p] + ps;
    forall j | 0 <= j < |p2| ensures l2[j] == Lower(p2[j]) {
      if j > 0 {
        assert p2[j] == ps[j - 1] && l2[j] == ls[j - 1];
      }
    }
  }

  /** One split step, before and after lower-casing. */
  lemma SplitOnLowerStep(s: string, c: char, i: nat)
    requires !IsUpper(c) && !('a' <= c <= 'z')
    requires i == Find(s, [c]) && i + 1 <= |s|
    ensures SplitOn(s, [c]) == [s[..i]] + SplitOn(s[i + 1..], [c])
    ensures SplitOn(Lower(s), [c]) == [Lower(s[..i])] + SplitOn(Lower(s[i + 1..]), [c])
  {
    FindLower(s, c);
    var l := Lower(s);
    assert l[..i] == Lower(s[..i]);
    assert l[i + 1..] == Lower(s[i + 1..]);
  }
}
