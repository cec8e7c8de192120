/**
 String helpers. A Go string is a sequence of bytes; here each byte is one char, so |s| is len(s)
 and text is ASCII unless a char of 0x80 or above occurs.
 */
module GoStrings {

  predicate IsPrefix(p: string, s: string) {
    |p| <= |s| && p == s[..|p|]
  }

  predicate IsSuffix(p: string, s: string) {
    |p| <= |s| && p == s[|s| - |p|..]
  }

  function TrimPrefix(s: string, p: string): string {
    if IsPrefix(p, s) then s[|p|..] else s
  }

  function TrimSuffix(s: string, p: string): string {
    if IsSuffix(p, s) then s[..|s| - |p|] else s
  }

  lemma TrimExactPrefix(p: string, rest: string)
    ensures TrimPrefix(p + rest, p) == rest
  {
    assert (p + rest)[..|p|] == p;
  }

  lemma TrimExactSuffix(rest: string, p: string)
    ensures TrimSuffix(rest + p, p) == rest
  {
    assert (rest + p)[|rest|..] == p;
  }

  /** strings.Contains */
  predicate Contains(s: string, sub: string) {
    exists i :: 0 <= i <= |s| - |sub| && IsPrefix(sub, s[i..])
  }

  function Max(x: int, y: int): int {
    if x > y then x else y
  }

  // ---------- splitting at a separator ----------

  /** strings.Split for a one-char separator. */
  function Split(s: string, sep: char): (parts: seq<string>)
    ensures |parts| == 1 + CountChar(s, sep)
  {
    if s == "" then [""]
    else
      var rest := Split(s[1..], sep);
      if s[0] == sep then [""] + rest else [[s[0]] + rest[0]] + rest[1..]
  }

  function CountChar(s: string, c: char): nat {
    if s == "" then 0 else (if s[0] == c then 1 else 0) + CountChar(s[1..], c)
  }

  /** strings.Join */
  function Join(parts: seq<string>, sep: char): string {
    if parts == [] then ""
    else if |parts| == 1 then parts[0]
    else parts[0] + ([sep] + Join(parts[1..], sep))
  }

  /** Splitting is undone by joining, and no part holds a separator; only one list of parts is like that. */
  lemma {:induction false} SplitJoins(s: string, sep: char)
    ensures Join(Split(s, sep), sep) == s
    ensures forall i :: 0 <= i < |Split(s, sep)| ==> sep !in Split(s, sep)[i]
  {
    if s != "" {
      SplitJoins(s[1..], sep);
      var rest, parts := Split(s[1..], sep), Split(s, sep);
      assert s == [s[0]] + s[1..];
      if s[0] == sep {
        assert parts[1..] == rest;
      } else {
        assert parts[1..] == rest[1..];
        var tail := [sep] + Join(rest[1..], sep);
        assert |rest| > 1 ==> [s[0]] + (rest[0] + tail) == parts[0] + tail;
      }
    }
  }

  lemma {:induction false} CountCharAppend(a: string, b: string, c: char)
    ensures CountChar(a + b, c) == CountChar(a, c) + CountChar(b, c)
  {
    if a == "" {
      assert a + b == b;
    } else {
      assert (a + b)[1..] == a[1..] + b;
      CountCharAppend(a[1..], b, c);
    }
  }

  // ---------- lexicographic order and the longest common prefix ----------

  predicate LexLe(a: string, b: string) {
    a == "" || (b != "" && (a[0] < b[0] || (a[0] == b[0] && LexLe(a[1..], b[1..]))))
  }

  lemma {:induction false} LexTotal(a: string, b: string)
    ensures LexLe(a, b) || LexLe(b, a)
  {
    if a != "" && b != "" && a[0] == b[0] {
      LexTotal(a[1..], b[1..]);
    }
  }

  lemma {:induction false} LexTransitive(a: string, b: string, c: string)
    requires LexLe(a, b) && LexLe(b, c)
    ensures LexLe(a, c)
  {
    if a != "" && a[0] == b[0] == c[0] {
      LexTransitive(a[1..], b[1..], c[1..]);
    }
  }

  predicate SortedStrings(s: seq<string>) {
    forall i, j :: 0 <= i < j < |s| ==> LexLe(s[i], s[j])
  }

  /** The prefix two strings share, character by character. */
  function CommonPrefix(a: string, b: string): (p: string)
    ensures IsPrefix(p, a) && IsPrefix(p, b)
    ensures |p| < |a| && |p| < |b| ==> a[|p|] != b[|p|]
  {
    if a == "" || b == "" || a[0] != b[0] then ""
    else [a[0]] + CommonPrefix(a[1..], b[1..])
  }

  lemma CommonPrefixLongest(a: string, b: string, q: string)
    requires IsPrefix(q, a) && IsPrefix(q, b)
    ensures IsPrefix(q, CommonPrefix(a, b))
  {
    var p := CommonPrefix(a, b);
    assert forall k :: 0 <= k < |q| ==> a[k] == q[k] && b[k] == q[k];
    assert forall k :: 0 <= k < |p| ==> a[k] == p[k];
  }

  /** A prefix of both ends of a lexicographic interval is a prefix of everything between. */
  lemma {:induction false} BetweenSharesPrefix(a: string, b: string, c: string, q: string)
    requires LexLe(a, b) && LexLe(b, c)
    requires IsPrefix(q, a) && IsPrefix(q, c)
    ensures IsPrefix(q, b)
  {
    if q != "" {
      assert a[0] == q[0] == c[0] == b[0];
      assert a[1..][..|q| - 1] == q[1..] == c[1..][..|q| - 1];
      BetweenSharesPrefix(a[1..], b[1..], c[1..], q[1..]);
      assert b == [b[0]] + b[1..];
    }
  }

  /** Where the smaller string still has a byte after a shared prefix, so has the larger one. */
  lemma {:induction false} LargerIsLongEnough(a: string, b: string, i: nat)
    requires LexLe(a, b)
    requires i < |a| && i <= |b| && a[..i] == b[..i]
    ensures i < |b|
  {
    if i > 0 {
      assert a[0] == a[..i][0] == b[..i][0] == b[0];
      assert a[1..][..i - 1] == a[..i][1..] == b[..i][1..] == b[1..][..i - 1];
      LargerIsLongEnough(a[1..], b[1..], i - 1);
    }
  }

  /** p is common to all of strs, and every common prefix is a prefix of p. */
  ghost predicate IsLongestCommonPrefix(p: string, strs: seq<string>) {
    && (forall s :: s in strs ==> IsPrefix(p, s))
    && (forall q :: (forall s :: s in strs ==> IsPrefix(q, s)) ==> IsPrefix(q, p))
  }

  predicate IsAscii(s: string) {
    forall i :: 0 <= i < |s| ==> s[i] as int < 0x80
  }

  /** string(b) for one byte b: the byte is taken for a code point and encoded again. */
  function ByteToString(b: char): string {
    var n := b as int;
    if n < 0x80 then [b] else [(0xC0 + n / 64) as char, (0x80 + n % 64) as char]
  }

  function Recode(s: string): (r: string)
    ensures |r| >= |s|
    ensures r == s <==> IsAscii(s)
  {
    if s == "" then ""
    else
      var last := |s| - 1;
      var front := Recode(s[..last]);
      assert s == s[..last] + [s[last]];
      assert IsAscii(s) <==> (IsAscii(s[..last]) && s[last] as int < 0x80);
      var r := front + ByteToString(s[last]);
      assert |front| > last ==> |r| > |s|;
      assert |front| == last && s[last] as int < 0x80 ==> r[..last] == front;
      r
  }

  /** slices.Sort, a library routine: sorts in place. */
  method SortStrings(a: array<string>)
    modifies a
    ensures SortedStrings(a[..])
    ensures multiset(a[..]) == multiset(old(a[..]))
  {
    ghost var was := a[..];
    var sorted: seq<string> := [];
    for i := 0 to a.Length
      invariant a[..] == was
      invariant SortedStrings(sorted) && multiset(sorted) == multiset(was[..i])
    {
      assert was[..i + 1] == was[..i] + [was[i]];
      InsertSortedIsSorted(sorted, a[i]);
      InsertSortedKeeps(sorted, a[i]);
      sorted := InsertSorted(sorted, a[i]);
    }
    assert was[..|was|] == was;
    assert |sorted| == |multiset(sorted)| == |multiset(was)| == a.Length;
    forall i | 0 <= i < a.Length {
      a[i] := sorted[i];
    }
    assert a[..] == sorted;
  }

  function InsertSorted(s: seq<string>, x: string): seq<string> {
    if s == [] || LexLe(x, s[0]) then [x] + s
    else [s[0]] + InsertSorted(s[1..], x)
  }

  lemma {:induction false} InsertSortedKeeps(s: seq<string>, x: string)
    ensures multiset(InsertSorted(s, x)) == multiset(s) + multiset{x}
  {
    if s != [] && !LexLe(x, s[0]) {
      InsertSortedKeeps(s[1..], x);
      assert s == [s[0]] + s[1..];
    }
  }

  lemma {:induction false} InsertSortedIsSorted(s: seq<string>, x: string)
    requires SortedStrings(s)
    ensures SortedStrings(InsertSorted(s, x))
  {
    if s == [] {
      LexTotal(x, x);
    } else if LexLe(x, s[0]) {
      forall j | 0 <= j < |s|
        ensures LexLe(x, s[j])
      {
        if j > 0 {
          LexTransitive(x, s[0], s[j]);
        }
      }
      LexTotal(x, x);
    } else {
      InsertSortedIsSorted(s[1..], x);
      InsertSortedKeeps(s[1..], x);
      forall y | y in InsertSorted(s[1..], x)
        ensures LexLe(s[0], y)
      {
        InsertedOrOld(s[1..], x, y);
        LexTotal(x, s[0]);
      }
    }
  }

  lemma InsertedOrOld(s: seq<string>, x: string, y: string)
    requires y in InsertSorted(s, x)
    ensures y == x || exists j :: 0 <= j < |s| && s[j] == y
  {
    InsertSortedKeeps(s, x);
    assert y in multiset(InsertSorted(s, x));
    assert y == x || y in multiset(s);
  }

  /** Sorts the slice and compares its two ends only. */
  method LongestCommonPrefix(strs: array<string>) returns (longestPrefix: string)
    modifies strs
    ensures multiset(strs[..]) == multiset(old(strs[..]))
    ensures strs.Length == 0 ==> longestPrefix == ""
    ensures strs.Length > 0 ==>
              exists p :: IsLongestCommonPrefix(p, old(strs[..])) && longestPrefix == Recode(p)
    ensures forall p :: strs.Length > 0 && IsLongestCommonPrefix(p, old(strs[..])) ==>
                          (longestPrefix == p <==> IsAscii(p))
  {
    longestPrefix := "";
    ghost var input := strs[..];
    if strs.Length > 0 {
      SortStrings(strs);
      ghost var sorted := strs[..];
      var first := strs[0];
      var last := strs[strs.Length - 1];
      EndsInOrder(sorted);
      ghost var p;
      longestPrefix, p := SharedStart(first, last);
      EndsDecide(sorted, p);
      AnyOrder(p, sorted, input);
    }
  }

  /** With a byte that is not ASCII the result is longer than what the strings share. */
  lemma NonAsciiPrefixIsWidened()
    ensures IsLongestCommonPrefix("\U{E9}", ["\U{E9}", "\U{E9}"])
    ensures |Recode("\U{E9}")| == 2
  {
    var e := "\U{E9}";
    assert e[..0] == "" && Recode(e) == Recode("") + ByteToString(e[0]);
  }

  lemma EndsInOrder(s: seq<string>)
    requires s != [] && SortedStrings(s)
    ensures LexLe(s[0], s[|s| - 1])
  {
    LexTotal(s[0], s[0]);
  }

  /** The comparison loop; p is what the two strings share. */
  method SharedStart(first: string, last: string) returns (longestPrefix: string, ghost p: string)
    requires LexLe(first, last)
    ensures IsPrefix(p, first) && IsPrefix(p, last) && longestPrefix == Recode(p)
    ensures |p| < |first| ==> |p| < |last| && first[|p|] != last[|p|]
  {
    longestPrefix := "";
    var i := 0;
    while i < |first|
      invariant i <= |first| && i <= |last| && first[..i] == last[..i]
      invariant longestPrefix == Recode(first[..i])
    {
      LargerIsLongEnough(first, last, i);
      if ByteToString(last[i]) == ByteToString(first[i]) {
        longestPrefix := longestPrefix + ByteToString(last[i]);
        OneMoreCharacter(first, last, i);
      } else {
        break;
      }
      i := i + 1;
    }
    p := first[..i];
  }

  lemma OneMoreCharacter(first: string, last: string, i: nat)
    requires i < |first| && i < |last| && first[..i] == last[..i]
    requires ByteToString(last[i]) == ByteToString(first[i])
    ensures first[..i + 1] == last[..i + 1]
    ensures Recode(first[..i + 1]) == Recode(first[..i]) + ByteToString(last[i])
  {
    assert first[..i + 1] == first[..i] + [first[i]] && last[..i + 1] == last[..i] + [last[i]];
    assert first[..i + 1][..i] == first[..i];
  }

  /** In a sorted list the longest prefix common to the two ends is common to all. */
  lemma EndsDecide(s: seq<string>, p: string)
    requires s != [] && SortedStrings(s)
    requires IsPrefix(p, s[0]) && IsPrefix(p, s[|s| - 1])
    requires |p| < |s[0]| ==> |p| < |s[|s| - 1]| && s[0][|p|] != s[|s| - 1][|p|]
    ensures IsLongestCommonPrefix(p, s)
  {
    forall x | x in s
      ensures IsPrefix(p, x)
    {
      var k :| 0 <= k < |s| && s[k] == x;
      if 0 < k < |s| - 1 {
        BetweenSharesPrefix(s[0], s[k], s[|s| - 1], p);
      }
    }
    forall q | forall x :: x in s ==> IsPrefix(q, x)
      ensures IsPrefix(q, p)
    {
      var first, last := s[0], s[|s| - 1];
      assert first in s && last in s;
      assert forall k :: 0 <= k < |q| ==> first[k] == q[k] && last[k] == q[k];
      assert forall k :: 0 <= k < |p| ==> first[k] == p[k];
    }
  }

  /** The order of the list does not matter, and there is only one longest common prefix. */
  lemma AnyOrder(p: string, s: seq<string>, t: seq<string>)
    requires s != [] && multiset(s) == multiset(t)
    requires IsLongestCommonPrefix(p, s)
    ensures IsLongestCommonPrefix(p, t)
    ensures forall q :: IsLongestCommonPrefix(q, t) ==> q == p
  {
    assert forall x :: x in s <==> x in multiset(s);
    assert forall x :: x in t <==> x in multiset(t);
    assert IsLongestCommonPrefix(p, t);
    assert t != [];
    forall q | IsLongestCommonPrefix(q, t)
      ensures q == p
    {
      LongestIsUnique(t, p, q);
    }
  }

  lemma LongestIsUnique(s: seq<string>, p: string, q: string)
    requires s != []
    requires IsLongestCommonPrefix(p, s) && IsLongestCommonPrefix(q, s)
    ensures p == q
  {
    assert IsPrefix(p, q) && IsPrefix(q, p);
  }

  lemma LongestOfTwo(a: string, b: string, p: string)
    requires IsLongestCommonPrefix(p, [a, b])
    ensures p == CommonPrefix(a, b)
  {
    var s := [a, b];
    assert a in s && b in s;
    forall q | forall x :: x in s ==> IsPrefix(q, x)
      ensures IsPrefix(q, CommonPrefix(a, b))
    {
      CommonPrefixLongest(a, b, q);
    }
    assert IsLongestCommonPrefix(CommonPrefix(a, b), s);
    LongestIsUnique(s, p, CommonPrefix(a, b));
  }

  // ---------- overlap of one string's end with another's start ----------

  /** r ends a, starts b, and nothing longer does both. */
  ghost predicate IsLongestOverlap(r: string, a: string, b: string) {
    && IsSuffix(r, a) && IsPrefix(r, b)
    && (forall q :: IsSuffix(q, a) && IsPrefix(q, b) ==> |q| <= |r|)
  }

  method StringOverlap(a: string, b: string) returns (r: string)
    ensures IsLongestOverlap(r, a, b)
    ensures r == Overlap(a, b)
  {
    OverlapIsLongest(a, b);
    for i := Max(0, |a| - |b|) to |a|
      invariant forall q :: IsSuffix(q, a) && IsPrefix(q, b) ==> |q| <= |a| - i
    {
      if IsPrefix(a[i..], b) {
        return a[i..];
      }
      assert forall q :: IsSuffix(q, a) && |q| == |a| - i ==> q == a[i..];
    }
    return "";
  }

  /** The same value as a function, for specifications. */
  function Overlap(a: string, b: string): string {
    if a == "" || IsPrefix(a, b) then a else Overlap(a[1..], b)
  }

  lemma {:induction false} OverlapEnds(a: string, b: string)
    ensures IsSuffix(Overlap(a, b), a) && IsPrefix(Overlap(a, b), b)
  {
    if a != "" && !IsPrefix(a, b) {
      OverlapEnds(a[1..], b);
    }
  }

  lemma {:induction false} OverlapLongest(a: string, b: string, q: string)
    requires IsSuffix(q, a) && IsPrefix(q, b)
    ensures |q| <= |Overlap(a, b)|
  {
    if a != "" && !IsPrefix(a, b) {
      assert |q| == |a| ==> q == a;
      OverlapLongest(a[1..], b, q);
    }
  }

  lemma OverlapIsLongest(a: string, b: string)
    ensures IsLongestOverlap(Overlap(a, b), a, b)
  {
    OverlapEnds(a, b);
    forall q | IsSuffix(q, a) && IsPrefix(q, b)
      ensures |q| <= |Overlap(a, b)|
    {
      OverlapLongest(a, b, q);
    }
  }

  lemma OverlapIsUnique(r: string, q: string, a: string, b: string)
    requires IsLongestOverlap(r, a, b) && IsLongestOverlap(q, a, b)
    ensures r == q
  {
  }
}
