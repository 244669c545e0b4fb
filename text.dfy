/**
 * The JavaScript string operations the plugin relies on, over `string` (a sequence
 * of characters): `trim`, `split` on a character class, `join`, `indexOf`,
 * `lastIndexOf`, `includes`, `startsWith` and an ASCII `toLowerCase`.
 */
module Text {

  /** The characters `String.prototype.trim` and the regular-expression class `\s` treat as white space. */
  predicate IsSpace(c: char) {
    ('\U{9}' <= c <= '\U{D}') || c == ' ' || c == '\U{A0}' || c == '\U{1680}'
    || ('\U{2000}' <= c <= '\U{200A}') || c == '\U{2028}' || c == '\U{2029}'
    || c == '\U{202F}' || c == '\U{205F}' || c == '\U{3000}' || c == '\U{FEFF}'
  }

  /** The characters the regular-expression `.` does not match. */
  predicate IsLineTerminator(c: char) {
    c == '\n' || c == '\r' || c == '\U{2028}' || c == '\U{2029}'
  }

  predicate AllSpace(s: string) {
    forall i :: 0 <= i < |s| ==> IsSpace(s[i])
  }

  /** Neither end of `s` is white space. */
  predicate Trimmed(s: string) {
    s == [] || (!IsSpace(s[0]) && !IsSpace(s[|s| - 1]))
  }

  /** No character of `s` belongs to `cs`. */
  predicate NoneIn(s: string, cs: set<char>) {
    forall i :: 0 <= i < |s| ==> s[i] !in cs
  }

  /** `s.trimStart()`: `s` without its leading white space. */
  function TrimStart(s: string): (r: string)
    ensures |r| <= |s| && r == s[|s| - |r|..]
    ensures r == [] || !IsSpace(r[0])
  {
    if |s| > 0 && IsSpace(s[0]) then TrimStart(s[1..]) else s
  }

  /** `s.trimEnd()`: `s` without its trailing white space. */
  function TrimEnd(s: string): (r: string)
    ensures |r| <= |s| && r == s[..|r|]
    ensures r == [] || !IsSpace(r[|r| - 1])
  {
    if |s| > 0 && IsSpace(s[|s| - 1]) then TrimEnd(s[..|s| - 1]) else s
  }

  /** `s.trim()`: `s` without leading and trailing white space. */
  function Trim(s: string): (r: string)
    ensures Trimmed(r)
    ensures |r| <= |s|
  {
    TrimEnd(TrimStart(s))
  }

  /** What `TrimStart` removes is white space. */
  lemma {:induction false} TrimStartRemovesSpace(s: string)
    ensures AllSpace(s[..|s| - |TrimStart(s)|])
  {
    if |s| > 0 && IsSpace(s[0]) {
      TrimStartRemovesSpace(s[1..]);
      var k := |s| - |TrimStart(s)|;
      assert forall i :: 1 <= i < k ==> s[..k][i] == s[1..][..k - 1][i - 1];
    }
  }

  /** What `TrimEnd` removes is white space. */
  lemma {:induction false} TrimEndRemovesSpace(s: string)
    ensures AllSpace(s[|TrimEnd(s)|..])
  {
    if |s| > 0 && IsSpace(s[|s| - 1]) {
      var init := s[..|s| - 1];
      TrimEndRemovesSpace(init);
      var k := |TrimEnd(s)|;
      assert forall i :: 0 <= i < |s| - 1 - k ==> s[k..][i] == init[k..][i];
    }
  }

  /** `Trim(s)` is the infix of `s` left once the white space at both ends is removed. */
  lemma TrimInfix(s: string)
    ensures var r := Trim(s);
      exists i :: 0 <= i <= |s| - |r| && r == s[i..i + |r|] && AllSpace(s[..i]) && AllSpace(s[i + |r|..])
  {
    var t := TrimStart(s);
    var r := TrimEnd(t);
    TrimStartRemovesSpace(s);
    TrimEndRemovesSpace(t);
    var i := |s| - |t|;
    assert r == s[i..i + |r|];
    assert s[i + |r|..] == t[|r|..];
  }

  /** A string trims to nothing exactly when it is all white space. */
  lemma TrimEmptyIff(s: string)
    ensures Trim(s) == "" <==> AllSpace(s)
  {
    var r := Trim(s);
    if AllSpace(s) {
      assert TrimStart(s) == [];
    } else if r == "" {
      TrimInfix(s);
      var i :| 0 <= i <= |s| - |r| && r == s[i..i + |r|] && AllSpace(s[..i]) && AllSpace(s[i + |r|..]);
      forall k | 0 <= k < |s| ensures IsSpace(s[k]) {
        if k < i {
          assert s[..i][k] == s[k];
        } else {
          assert s[i..][k - i] == s[k];
        }
      }
    }
  }

  /** Trimming only removes characters. */
  lemma TrimKeepsCharacters(s: string)
    ensures forall c :: c in Trim(s) ==> c in s
  {
    var t := TrimStart(s);
    assert forall c :: c in t ==> c in s;
    assert forall c :: c in TrimEnd(t) ==> c in t;
  }

  lemma TrimOfTrimmed(s: string)
    requires Trimmed(s)
    ensures Trim(s) == s
  {
  }

  lemma TrimIdempotent(s: string)
    ensures Trim(Trim(s)) == Trim(s)
  {
    TrimOfTrimmed(Trim(s));
  }

  /** `s.split(re)` where `re` matches exactly one character of `seps`. */
  function Split(s: string, seps: set<char>): (parts: seq<string>)
    ensures |parts| >= 1
    ensures forall i :: 0 <= i < |parts| ==> NoneIn(parts[i], seps)
    decreases |s|
  {
    if |s| == 0 then [""]
    else
      var rest := Split(s[1..], seps);
      if s[0] in seps then [""] + rest
      else [[s[0]] + rest[0]] + rest[1..]
  }

  /** `parts.join(sep)`. */
  function Join(parts: seq<string>, sep: string): string
  {
    if |parts| == 0 then ""
    else if |parts| == 1 then parts[0]
    else parts[0] + sep + Join(parts[1..], sep)
  }

  lemma {:induction false} SplitNoSeparator(s: string, seps: set<char>)
    requires NoneIn(s, seps)
    ensures Split(s, seps) == [s]
    decreases |s|
  {
    if |s| > 0 {
      SplitNoSeparator(s[1..], seps);
      assert [s[0]] + s[1..] == s;
    }
  }

  /** A string splits into a single part exactly when it holds no separator. */
  lemma {:induction false} SplitSingleIff(s: string, seps: set<char>)
    ensures |Split(s, seps)| == 1 <==> NoneIn(s, seps)
    decreases |s|
  {
    if NoneIn(s, seps) {
      SplitNoSeparator(s, seps);
    } else if |s| > 0 {
      if s[0] !in seps {
        SplitSingleIff(s[1..], seps);
        assert !NoneIn(s[1..], seps) by {
          var i :| 0 <= i < |s| && s[i] in seps;
          assert s[1..][i - 1] == s[i];
        }
      }
    }
  }

  lemma {:induction false} SplitConcat(a: string, c: char, b: string, seps: set<char>)
    requires NoneIn(a, seps) && c in seps
    ensures Split(a + [c] + b, seps) == [a] + Split(b, seps)
    decreases |a|
  {
    var s := a + [c] + b;
    if |a| == 0 {
      assert s[1..] == b;
    } else {
      assert s[1..] == a[1..] + [c] + b;
      SplitConcat(a[1..], c, b, seps);
      assert [a[0]] + a[1..] == a;
    }
  }

  /** Joining with a separator character and splitting on it again gives the parts back. */
  lemma {:induction false} SplitJoin(parts: seq<string>, c: char, seps: set<char>)
    requires |parts| >= 1 && c in seps
    requires forall i :: 0 <= i < |parts| ==> NoneIn(parts[i], seps)
    ensures Split(Join(parts, [c]), seps) == parts
  {
    if |parts| == 1 {
      SplitNoSeparator(parts[0], seps);
    } else {
      SplitJoin(parts[1..], c, seps);
      SplitConcat(parts[0], c, Join(parts[1..], [c]), seps);
      assert [parts[0]] + parts[1..] == parts;
    }
  }

  /** Splitting on one character and joining with it again gives the string back. */
  lemma {:induction false} JoinSplit(s: string, c: char)
    ensures Join(Split(s, {c}), [c]) == s
    decreases |s|
  {
    if |s| > 0 {
      var rest := Split(s[1..], {c});
      JoinSplit(s[1..], c);
      if s[0] == c {
        assert Split(s, {c}) == [""] + rest;
        if |rest| == 1 {
          assert Join([""] + rest, [c]) == "" + [c] + rest[0];
        } else {
          assert ([""] + rest)[1..] == rest;
        }
        assert [s[0]] + s[1..] == s;
      } else {
        var parts := [[s[0]] + rest[0]] + rest[1..];
        assert Split(s, {c}) == parts;
        if |rest| == 1 {
          assert Join(rest, [c]) == rest[0];
        } else {
          assert parts[1..] == rest[1..];
          assert Join(rest, [c]) == rest[0] + [c] + Join(rest[1..], [c]);
        }
        assert [s[0]] + s[1..] == s;
      }
    }
  }

  /** `s.indexOf(c)`: the first position of `c` in `s`, or -1. */
  function IndexOf(s: string, c: char): (r: int)
    ensures -1 <= r < |s|
    ensures r == -1 <==> c !in s
    ensures 0 <= r ==> s[r] == c && c !in s[..r]
  {
    if |s| == 0 then -1
    else if s[0] == c then 0
    else
      var k := IndexOf(s[1..], c);
      assert c in s[1..] ==> c in s;
      assert c in s ==> s[0] == c || c in s[1..] by {
        if c in s { var i :| 0 <= i < |s| && s[i] == c; if i > 0 { assert s[1..][i - 1] == c; } }
      }
      if k == -1 then -1
      else
        assert s[..k + 1] == [s[0]] + s[1..][..k];
        k + 1
  }

  /** `pat` occurs in `s` starting at position `i`. */
  predicate OccursAt(s: string, pat: string, i: int) {
    0 <= i && i + |pat| <= |s| && s[i..i + |pat|] == pat
  }

  lemma OccursShift(s: string, pat: string, i: int)
    requires |s| > 0 && 0 <= i
    ensures OccursAt(s[1..], pat, i) <==> OccursAt(s, pat, i + 1)
  {
    if 0 <= i && i + 1 + |pat| <= |s| {
      assert s[1..][i..i + |pat|] == s[i + 1..i + 1 + |pat|];
    }
  }

  /** `s.includes(pat)`. */
  function Contains(s: string, pat: string): (b: bool)
    ensures b <==> exists i :: OccursAt(s, pat, i)
    decreases |s|
  {
    if pat <= s then
      assert OccursAt(s, pat, 0);
      true
    else if |s| == 0 then
      assert forall i :: !OccursAt(s, pat, i);
      false
    else
      var b := Contains(s[1..], pat);
      OccursTail(s, pat);
      b
  }

  lemma OccursTail(s: string, pat: string)
    requires |s| > 0 && !(pat <= s)
    ensures (exists i :: OccursAt(s, pat, i)) <==> (exists i :: OccursAt(s[1..], pat, i))
  {
    if exists i :: OccursAt(s, pat, i) {
      var i :| OccursAt(s, pat, i);
      assert i != 0;
      OccursShift(s, pat, i - 1);
    }
    if exists i :: OccursAt(s[1..], pat, i) {
      var i :| OccursAt(s[1..], pat, i);
      OccursShift(s, pat, i);
    }
  }

  /** The last occurrence of `pat` in `s` starting at or before `n`, or -1. */
  function LastAtOrBefore(s: string, pat: string, n: nat): (r: int)
    requires n <= |s|
    ensures -1 <= r <= n
    ensures 0 <= r ==> OccursAt(s, pat, r)
    ensures forall i :: r < i <= n ==> !OccursAt(s, pat, i)
  {
    if OccursAt(s, pat, n) then n
    else if n == 0 then -1
    else LastAtOrBefore(s, pat, n - 1)
  }

  /** The first occurrence of `pat` in `s` starting at or after `n`, or -1. */
  function FirstAtOrAfter(s: string, pat: string, n: nat): (r: int)
    requires n <= |s|
    ensures r == -1 || (n <= r <= |s| && OccursAt(s, pat, r))
    ensures forall i :: n <= i && (r == -1 || i < r) ==> !OccursAt(s, pat, i)
    decreases |s| - n
  {
    if OccursAt(s, pat, n) then n
    else if n == |s| then -1
    else FirstAtOrAfter(s, pat, n + 1)
  }

  /** `s.lastIndexOf(pat)`. */
  function LastIndexOf(s: string, pat: string): (r: int)
    ensures -1 <= r <= |s|
    ensures r == -1 <==> forall i :: !OccursAt(s, pat, i)
    ensures 0 <= r ==> OccursAt(s, pat, r) && forall i :: r < i ==> !OccursAt(s, pat, i)
  {
    LastAtOrBefore(s, pat, |s|)
  }

  /** The UTF-16 code units of a character: two (a surrogate pair) outside the Basic Multilingual Plane. */
  function Units(c: char): nat {
    if c as int > 0xFFFF then 2 else 1
  }

  /** `s.length`: the number of UTF-16 code units of `s`. */
  function Utf16Length(s: string): (n: nat)
    ensures |s| <= n <= 2 * |s|
  {
    if s == [] then 0 else Units(s[0]) + Utf16Length(s[1..])
  }

  lemma {:induction false} Utf16LengthConcat(a: string, b: string)
    ensures Utf16Length(a + b) == Utf16Length(a) + Utf16Length(b)
  {
    if a != [] {
      assert (a + b)[1..] == a[1..] + b;
      Utf16LengthConcat(a[1..], b);
    } else {
      assert a + b == b;
    }
  }

  /** Code units and characters agree on text inside the Basic Multilingual Plane. */
  lemma {:induction false} Utf16LengthBmp(s: string)
    requires forall i :: 0 <= i < |s| ==> s[i] as int <= 0xFFFF
    ensures Utf16Length(s) == |s|
  {
    if s != [] {
      Utf16LengthBmp(s[1..]);
    }
  }

  /**
   * `s.substring(0, n)` for a column `n` counted in UTF-16 code units: the longest prefix
   * of `s` whose length is at most `n`.
   */
  function PrefixWithin(s: string, n: nat): (r: string)
    ensures r <= s && Utf16Length(r) <= n
    ensures r == s || n < Utf16Length(r) + Units(s[|r|])
  {
    if s == [] || n < Units(s[0]) then []
    else
      var r := [s[0]] + PrefixWithin(s[1..], n - Units(s[0]));
      assert r[1..] == PrefixWithin(s[1..], n - Units(s[0]));
      r
  }

  /** ASCII upper case to lower case; every other character is kept. */
  function LowerChar(c: char): char {
    if 'A' <= c <= 'Z' then (c as int + 32) as char else c
  }

  /** `s.toLowerCase()`, restricted to ASCII letters. */
  function Lower(s: string): (r: string)
    ensures |r| == |s| && forall i :: 0 <= i < |s| ==> r[i] == LowerChar(s[i])
  {
    seq(|s|, i requires 0 <= i < |s| => LowerChar(s[i]))
  }

  /** Splitting only cuts: a character the string does not hold is in none of its parts. */
  lemma {:induction false} SplitPartsNoneIn(s: string, seps: set<char>, cs: set<char>)
    requires NoneIn(s, cs)
    ensures forall i :: 0 <= i < |Split(s, seps)| ==> NoneIn(Split(s, seps)[i], cs)
    decreases |s|
  {
    if |s| > 0 {
      SplitPartsNoneIn(s[1..], seps, cs);
      assert s[0] !in cs;
    }
  }

  /** Joining adds only the separator's characters. */
  lemma {:induction false} JoinNoneIn(parts: seq<string>, sep: string, cs: set<char>)
    requires NoneIn(sep, cs) && forall i :: 0 <= i < |parts| ==> NoneIn(parts[i], cs)
    ensures NoneIn(Join(parts, sep), cs)
  {
    if |parts| > 1 {
      JoinNoneIn(parts[1..], sep, cs);
    }
  }

  /** A join whose last part is not empty ends with that part's last character. */
  lemma {:induction false} JoinLast(parts: seq<string>, sep: string)
    requires |parts| > 0 && parts[|parts| - 1] != ""
    ensures var j := Join(parts, sep); |j| > 0 && j[|j| - 1] == parts[|parts| - 1][|parts[|parts| - 1]| - 1]
  {
    if |parts| > 1 {
      JoinLast(parts[1..], sep);
    }
  }

  /** A character that is not white space lies inside any white-space-bounded infix that covers it. */
  lemma InfixKeeps(s: string, t: string, i: nat, j: nat)
    requires i + |t| <= |s| && t == s[i..i + |t|] && AllSpace(s[..i]) && AllSpace(s[i + |t|..])
    requires j < |s| && !IsSpace(s[j])
    ensures i <= j < i + |t| && t[j - i] == s[j]
  {
  }

  /** Trimming keeps every character that is not white space. */
  lemma TrimKeepsNonSpace(s: string, c: char)
    requires c in s && !IsSpace(c)
    ensures c in Trim(s)
  {
    var j :| 0 <= j < |s| && s[j] == c;
    var t := Trim(s);
    TrimInfix(s);
    var i :| 0 <= i <= |s| - |t| && t == s[i..i + |t|] && AllSpace(s[..i]) && AllSpace(s[i + |t|..]);
    InfixKeeps(s, t, i, j);
  }

  /** An occurrence in a suffix is an occurrence in the whole string. */
  lemma OccursInSuffix(s: string, k: nat, pat: string, i: int)
    requires k <= |s| && OccursAt(s[k..], pat, i)
    ensures OccursAt(s, pat, k + i)
  {
    assert s[k..][i..i + |pat|] == s[k + i..k + i + |pat|];
  }
}
