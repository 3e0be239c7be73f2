/** The `java.lang.String` operations the converters use: `trim`, `contains`, `replace` and
    `equalsIgnoreCase`. */
module JavaStrings {

  /** The characters `String.trim` removes: every one whose code is at most U+0020. */
  predicate IsTrimmable(c: char) {
    c <= ' '
  }

  predicate AllTrimmable(s: string) {
    forall k :: 0 <= k < |s| ==> IsTrimmable(s[k])
  }

  /** A string `String.trim` leaves as it is: empty, or starting and ending with a character
      above U+0020. */
  predicate IsTrimmed(s: string) {
    s == [] || (!IsTrimmable(s[0]) && !IsTrimmable(s[|s| - 1]))
  }

  /** The number of trimmable characters at the start of `s`. */
  function LeadingTrimmable(s: string): (n: nat)
    ensures n <= |s|
    ensures AllTrimmable(s[..n])
    ensures n < |s| ==> !IsTrimmable(s[n])
  {
    if |s| > 0 && IsTrimmable(s[0]) then
      var n := 1 + LeadingTrimmable(s[1..]);
      assert s[..n] == [s[0]] + s[1..][..n - 1];
      n
    else 0
  }

  /** The number of trimmable characters at the end of `s`. */
  function TrailingTrimmable(s: string): (n: nat)
    ensures n <= |s|
    ensures AllTrimmable(s[|s| - n..])
    ensures n < |s| ==> !IsTrimmable(s[|s| - 1 - n])
  {
    if |s| > 0 && IsTrimmable(s[|s| - 1]) then
      var front := s[..|s| - 1];
      var n := 1 + TrailingTrimmable(front);
      assert s[|s| - n..] == front[|front| - (n - 1)..] + [s[|s| - 1]];
      n
    else 0
  }

  /** `String.trim`: `s` without its leading and trailing characters up to U+0020. */
  function Trim(s: string): (r: string)
    ensures IsTrimmed(r)
    ensures r == [] <==> AllTrimmable(s)
    ensures var start := LeadingTrimmable(s);
      && start + |r| <= |s|
      && s == s[..start] + r + s[start + |r|..]
      && AllTrimmable(s[..start]) && AllTrimmable(s[start + |r|..])
  {
    var start := LeadingTrimmable(s);
    var rest := s[start..];
    var r := rest[..|rest| - TrailingTrimmable(rest)];
    TrimSplits(s, start, rest, r);
    r
  }

  /** The facts behind the contract of `Trim`, for its own decomposition of `s`. */
  lemma TrimSplits(s: string, start: nat, rest: string, r: string)
    requires start == LeadingTrimmable(s) && rest == s[start..]
    requires r == rest[..|rest| - TrailingTrimmable(rest)]
    ensures IsTrimmed(r)
    ensures r == [] <==> AllTrimmable(s)
    ensures start + |r| <= |s| && s == s[..start] + r + s[start + |r|..]
    ensures AllTrimmable(s[start + |r|..])
  {
    var n := TrailingTrimmable(rest);
    TrimPieces(s, start, rest, r, n);
    TrimmedMiddle(rest, r, n);
    if r == [] {
      AllTrimmableConcat(s[..start], s[start..]);
    }
    if start < |s| {
      assert rest[0] == s[start];
    }
  }

  /** `s` is its trimmable prefix, the middle `r` and the trimmable tail of `rest`. */
  lemma TrimPieces(s: string, start: nat, rest: string, r: string, n: nat)
    requires start <= |s| && rest == s[start..] && n <= |rest| && r == rest[..|rest| - n]
    ensures start + |r| <= |s| && s[start + |r|..] == rest[|rest| - n..]
    ensures s == s[..start] + r + s[start + |r|..]
    ensures r == [] ==> s[start..] == rest[|rest| - n..]
  {
    assert s == s[..start] + rest;
    assert rest == r + rest[|rest| - n..];
  }

  /** The middle of `rest` starts and ends with what `rest` starts and ends with, once the
      trailing trimmable characters are cut. */
  lemma TrimmedMiddle(rest: string, r: string, n: nat)
    requires n <= |rest| && r == rest[..|rest| - n]
    requires n < |rest| ==> !IsTrimmable(rest[|rest| - 1 - n])
    requires rest != [] ==> !IsTrimmable(rest[0])
    ensures IsTrimmed(r)
  {
    if r != [] {
      assert r[0] == rest[0];
      assert r[|r| - 1] == rest[|rest| - 1 - n];
    }
  }

  lemma AllTrimmableConcat(a: string, b: string)
    requires AllTrimmable(a) && AllTrimmable(b)
    ensures AllTrimmable(a + b)
  {
  }

  /** A trimmed string is its own trim. */
  lemma TrimmedIsFixpoint(s: string)
    requires IsTrimmed(s)
    ensures Trim(s) == s
  {
    if s != [] {
      assert LeadingTrimmable(s) == 0;
      assert TrailingTrimmable(s) == 0;
    }
  }

  /** Trimming twice is trimming once. */
  lemma TrimIdempotent(s: string)
    ensures Trim(Trim(s)) == Trim(s)
  {
    TrimmedIsFixpoint(Trim(s));
  }

  /** `s` begins with `prefix`. */
  predicate StartsWith(s: string, prefix: string) {
    |prefix| <= |s| && s[..|prefix|] == prefix
  }

  /** `sub` occurs in `s` at index `i`. */
  predicate OccursAt(s: string, sub: string, i: int) {
    0 <= i && i + |sub| <= |s| && s[i..i + |sub|] == sub
  }

  /** `String.contains`: `sub` occurs somewhere in `s`. */
  predicate Contains(s: string, sub: string)
    ensures Contains(s, sub) <==> exists i :: OccursAt(s, sub, i)
    decreases |s|
  {
    if StartsWith(s, sub) then
      assert OccursAt(s, sub, 0);
      true
    else if |s| > 0 && Contains(s[1..], sub) then
      var j :| OccursAt(s[1..], sub, j);
      assert s[j + 1..j + 1 + |sub|] == s[1..][j..j + |sub|];
      assert OccursAt(s, sub, j + 1);
      true
    else
      assert forall i :: OccursAt(s, sub, i) ==> i > 0 && OccursAt(s[1..], sub, i - 1) by {
        forall i | OccursAt(s, sub, i)
          ensures i > 0 && OccursAt(s[1..], sub, i - 1)
        {
          assert i != 0;
          assert s[i..i + |sub|] == s[1..][i - 1..i - 1 + |sub|];
        }
      }
      false
  }

  /** `String.replace(target, replacement)` for a non-empty target: scanning from the left,
      every occurrence of `target` that does not overlap an earlier one is replaced. */
  function Replace(s: string, target: string, replacement: string): (r: string)
    requires target != []
    ensures |replacement| >= |target| ==> |r| >= |s|
    ensures StartsWith(s, target) ==> StartsWith(r, replacement)
    decreases |s|
  {
    if |s| < |target| then s
    else if s[..|target|] == target then replacement + Replace(s[|target|..], target, replacement)
    else [s[0]] + Replace(s[1..], target, replacement)
  }

  /** Replacing a target that does not occur leaves the string as it is. */
  lemma {:induction false} ReplaceAbsent(s: string, target: string, replacement: string)
    requires target != [] && !Contains(s, target)
    ensures Replace(s, target, replacement) == s
    decreases |s|
  {
    if |s| >= |target| {
      ReplaceAbsent(s[1..], target, replacement);
      assert [s[0]] + s[1..] == s;
    }
  }

  function ToUpperAscii(c: char): char {
    if 'a' <= c <= 'z' then (c as int - 32) as char else c
  }

  function ToLowerAscii(c: char): char {
    if 'A' <= c <= 'Z' then (c as int + 32) as char else c
  }

  /** The character test of `String.equalsIgnoreCase`, with the ASCII case mapping. */
  predicate CharEqualsIgnoreCase(a: char, b: char) {
    || a == b
    || ToUpperAscii(a) == ToUpperAscii(b)
    || ToLowerAscii(ToUpperAscii(a)) == ToLowerAscii(ToUpperAscii(b))
  }

  /** `String.equalsIgnoreCase` on a non-null argument. */
  predicate EqualsIgnoreCase(a: string, b: string)
    ensures a == b ==> EqualsIgnoreCase(a, b)
    ensures EqualsIgnoreCase(a, b) ==> |a| == |b|
  {
    |a| == |b| && forall i :: 0 <= i < |a| ==> CharEqualsIgnoreCase(a[i], b[i])
  }

  /** The comparison does not depend on the order of its arguments. */
  lemma EqualsIgnoreCaseSymmetric(a: string, b: string)
    ensures EqualsIgnoreCase(a, b) == EqualsIgnoreCase(b, a)
  {
  }
}
