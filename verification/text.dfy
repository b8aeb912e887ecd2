/** The string operations the resolver uses: lower-casing, `includes`, `trim`,
    `split` on single-character separators and `join`. */
module Text {

  /** `toLowerCase` on one character, restricted to ASCII letters. */
  function LowerChar(c: char): char {
    if 'A' <= c <= 'Z' then (c as int + 32) as char else c
  }

  /** `String.prototype.toLowerCase`, restricted to ASCII letters. */
  function Lower(s: string): string {
    if |s| == 0 then "" else [LowerChar(s[0])] + Lower(s[1..])
  }

  /** Lower-casing works character by character and keeps the length. */
  lemma {:induction false} LowerPointwise(s: string)
    ensures |Lower(s)| == |s|
    ensures forall i :: 0 <= i < |s| ==> Lower(s)[i] == LowerChar(s[i])
    decreases |s|
  {
    if |s| > 0 {
      LowerPointwise(s[1..]);
      assert Lower(s) == [LowerChar(s[0])] + Lower(s[1..]);
    }
  }

  /** Lower-casing twice is lower-casing once. */
  lemma LowerIdempotent(s: string)
    ensures Lower(Lower(s)) == Lower(s)
  {
    LowerPointwise(s);
    LowerPointwise(Lower(s));
  }

  /** `String.prototype.includes`: `n` occurs in `h` as a contiguous piece. */
  function Contains(h: string, n: string): bool
    decreases |h|
  {
    n <= h || (|h| > 0 && Contains(h[1..], n))
  }

  /** A one-character needle is found exactly when the character occurs. */
  lemma {:induction false} ContainsChar(h: string, c: char)
    ensures Contains(h, [c]) <==> c in h
    decreases |h|
  {
    if |h| > 0 {
      ContainsChar(h[1..], c);
      assert [c] <= h <==> h[0] == c;
      assert c in h <==> h[0] == c || c in h[1..];
    }
  }

  /** `n` occurs in `h` starting at position `i`. */
  predicate OccursAt(h: string, n: string, i: int) {
    0 <= i <= |h| - |n| && h[i..i + |n|] == n
  }

  /** Every occurrence `Contains` reports is an infix of `h`. */
  lemma {:induction false} ContainsHasOccurrence(h: string, n: string)
    requires Contains(h, n)
    ensures exists i :: OccursAt(h, n, i)
    decreases |h|
  {
    if n <= h {
      assert h[0..|n|] == n;
      assert OccursAt(h, n, 0);
    } else {
      ContainsHasOccurrence(h[1..], n);
      var i :| OccursAt(h[1..], n, i);
      assert h[1..][i..i + |n|] == h[i + 1..i + 1 + |n|];
      assert OccursAt(h, n, i + 1);
    }
  }

  /** Every infix of `h` is found by `Contains`. */
  lemma {:induction false} OccurrenceIsContained(h: string, n: string, i: int)
    requires OccursAt(h, n, i)
    ensures Contains(h, n)
    decreases i
  {
    if i == 0 {
      assert h[..|n|] == n;
      assert n <= h;
    } else {
      assert h[1..][i - 1..i - 1 + |n|] == h[i..i + |n|];
      OccurrenceIsContained(h[1..], n, i - 1);
    }
  }

  /** The characters ECMAScript's `trim` removes: WhiteSpace and LineTerminator. */
  predicate IsSpace(c: char) {
    || c == '\t' || c == '\n' || c == '\U{000B}' || c == '\U{000C}' || c == '\r' || c == ' '
    || c == '\U{00A0}' || c == '\U{1680}' || ('\U{2000}' <= c <= '\U{200A}')
    || c == '\U{2028}' || c == '\U{2029}' || c == '\U{202F}' || c == '\U{205F}'
    || c == '\U{3000}' || c == '\U{FEFF}'
  }

  /** Every character is one `trim` removes (the empty string included). */
  predicate IsBlank(s: string) {
    forall i :: 0 <= i < |s| ==> IsSpace(s[i])
  }

  /** The end of the run of white space starting at position `i`. */
  function SpaceRunFrom(s: string, i: nat): (e: nat)
    requires i <= |s|
    ensures i <= e <= |s|
    ensures forall j :: i <= j < e ==> IsSpace(s[j])
    ensures e < |s| ==> !IsSpace(s[e])
    decreases |s| - i
  {
    if i < |s| && IsSpace(s[i]) then SpaceRunFrom(s, i + 1) else i
  }

  /** The start of the run of white space ending just before position `j`,
      looking no further back than `lo`. */
  function SpaceRunBack(s: string, lo: nat, j: nat): (b: nat)
    requires lo <= j <= |s|
    ensures lo <= b <= j
    ensures forall k :: b <= k < j ==> IsSpace(s[k])
    ensures lo < b ==> !IsSpace(s[b - 1])
    decreases j
  {
    if lo < j && IsSpace(s[j - 1]) then SpaceRunBack(s, lo, j - 1) else j
  }

  /** `r` is the infix of `s` at `i` with only white space on either side. */
  predicate TrimmedAt(s: string, r: string, i: int) {
    && 0 <= i && i + |r| <= |s| && r == s[i..i + |r|]
    && (forall j :: 0 <= j < i ==> IsSpace(s[j]))
    && (forall j :: i + |r| <= j < |s| ==> IsSpace(s[j]))
  }

  /** `String.prototype.trim`: `s` without its leading and trailing white space. */
  function Trim(s: string): (r: string)
    ensures exists i :: TrimmedAt(s, r, i)
    ensures r == [] || (!IsSpace(r[0]) && !IsSpace(r[|r| - 1]))
    ensures r == [] <==> IsBlank(s)
  {
    var a := SpaceRunFrom(s, 0);
    var e := SpaceRunBack(s, a, |s|);
    var r := s[a..e];
    assert TrimmedAt(s, r, a);
    assert IsBlank(s) ==> a == |s|;
    r
  }

  /** No character of `s` is in `seps`. */
  predicate NoSep(s: string, seps: set<char>) {
    forall i :: 0 <= i < |s| ==> s[i] !in seps
  }

  /** `split` on every character of `seps`: the maximal pieces between separators,
      one more piece than there are separators, so the empty string gives [""]. */
  function SplitOn(s: string, seps: set<char>): (r: seq<string>)
    ensures |r| >= 1
    ensures forall i :: 0 <= i < |r| ==> NoSep(r[i], seps)
    decreases |s|
  {
    if |s| == 0 then [""]
    else
      var rest := SplitOn(s[1..], seps);
      if s[0] in seps then [""] + rest
      else
        var r := [[s[0]] + rest[0]] + rest[1..];
        assert forall i :: 1 <= i < |r| ==> r[i] == rest[i];
        r
  }

  /** `Array.prototype.join(sep)`: the parts with `sep` between neighbours. */
  function Join(parts: seq<string>, sep: char): (r: string)
    ensures |parts| == 0 ==> r == ""
    ensures |parts| > 0 ==> parts[0] <= r
    ensures |parts| > 1 ==> parts[0] + [sep] <= r
    ensures forall c :: c in r ==> c == sep || exists i :: 0 <= i < |parts| && c in parts[i]
    decreases |parts|
  {
    if |parts| == 0 then ""
    else if |parts| == 1 then parts[0]
    else
      var rest := Join(parts[1..], sep);
      var r := parts[0] + [sep] + rest;
      forall c | c in r ensures c == sep || exists i :: 0 <= i < |parts| && c in parts[i] {
        if c in rest && c != sep {
          var i :| 0 <= i < |parts[1..]| && c in parts[1..][i];
          assert parts[1..][i] == parts[i + 1];
        }
      }
      r
  }

  /** Joining the pieces of a split puts the string back together. */
  lemma {:induction false} JoinSplit(s: string, sep: char)
    ensures Join(SplitOn(s, {sep}), sep) == s
    decreases |s|
  {
    if |s| > 0 {
      var rest := SplitOn(s[1..], {sep});
      JoinSplit(s[1..], sep);
      if s[0] != sep {
        var r := SplitOn(s, {sep});
        assert r[1..] == rest[1..];
        if |rest| > 1 {
          assert Join(rest, sep) == rest[0] + [sep] + Join(rest[1..], sep);
        }
      }
    }
  }

  /** A prefix free of separators sticks to the first piece of what follows it. */
  lemma {:induction false} SplitPrefix(p: string, t: string, seps: set<char>)
    requires NoSep(p, seps)
    ensures SplitOn(p + t, seps) == [p + SplitOn(t, seps)[0]] + SplitOn(t, seps)[1..]
    decreases |p|
  {
    if |p| > 0 {
      assert (p + t)[1..] == p[1..] + t;
      assert NoSep(p[1..], seps) by {
        forall i | 0 <= i < |p[1..]| ensures p[1..][i] !in seps { assert p[1..][i] == p[i + 1]; }
      }
      SplitPrefix(p[1..], t, seps);
      assert (p + t)[0] == p[0] && p[0] !in seps;
      assert [p[0]] + (p[1..] + SplitOn(t, seps)[0]) == p + SplitOn(t, seps)[0];
    } else {
      var T := SplitOn(t, seps);
      assert p + t == t;
      assert p + T[0] == T[0];
      assert [T[0]] + T[1..] == T;
    }
  }

  /** A separator-free string splits into itself alone. */
  lemma SplitWhole(p: string, seps: set<char>)
    requires NoSep(p, seps)
    ensures SplitOn(p, seps) == [p]
  {
    SplitPrefix(p, "", seps);
    assert p + "" == p;
  }

  /** A separator-free piece followed by a separator splits off as one piece,
      ahead of the pieces of the rest. */
  lemma SplitPiece(p: string, c: char, t: string, seps: set<char>)
    requires NoSep(p, seps) && c in seps
    ensures SplitOn(p + [c] + t, seps) == [p] + SplitOn(t, seps)
  {
    assert p + [c] + t == p + ([c] + t);
    SplitPrefix(p, [c] + t, seps);
    assert ([c] + t)[1..] == t;
    assert p + "" == p;
  }

  /** Splitting a join of separator-free parts gives the parts back. */
  lemma {:induction false} SplitJoin(parts: seq<string>, sep: char)
    requires |parts| >= 1
    requires forall i :: 0 <= i < |parts| ==> NoSep(parts[i], {sep})
    ensures SplitOn(Join(parts, sep), {sep}) == parts
    decreases |parts|
  {
    if |parts| == 1 {
      SplitPrefix(parts[0], "", {sep});
      assert parts[0] + "" == parts[0];
    } else {
      var tail := Join(parts[1..], sep);
      SplitJoin(parts[1..], sep);
      assert Join(parts, sep) == parts[0] + ([sep] + tail);
      SplitPrefix(parts[0], [sep] + tail, {sep});
      assert ([sep] + tail)[1..] == tail;
      assert SplitOn([sep] + tail, {sep}) == [""] + parts[1..];
      assert parts[0] + "" == parts[0];
    }
  }
}
