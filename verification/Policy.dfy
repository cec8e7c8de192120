/** Image policy: which rule governs an image, and what makes one pattern more specific than another. */
module Policy {
  import opened Wrappers
  import opened Distinct
  import opened GoStrings

  datatype RuleOptions = RuleOptions(
    trustRoot: string,
    threshold: int,
    required: seq<string>,
    delegations: seq<string>,
    mode: string)

  const NO_OPTIONS := RuleOptions("", 0, [], [], "")

  datatype Rule = Rule(pattern: string, validator: string, with: RuleOptions)

  // ---------- glob patterns ----------

  /** Patterns of literals, * for any text and ? for any one character; both match a slash. */
  predicate Glob(pattern: string, s: string)
    decreases |pattern| + |s|
  {
    if pattern == "" then s == ""
    else if pattern[0] == '*' then Glob(pattern[1..], s) || (s != "" && Glob(pattern, s[1..]))
    else s != "" && (pattern[0] == '?' || pattern[0] == s[0]) && Glob(pattern[1..], s[1..])
  }

  /** The wildcards MatchingRule puts around a pattern. */
  function Wrapped(pattern: string): string {
    var p := if IsPrefix("*", pattern) then pattern else "*" + pattern;
    if IsSuffix("*", p) then p else p + "*"
  }

  predicate Matches(rule: Rule, image: string) {
    Glob(Wrapped(rule.pattern), image)
  }

  // ---------- what patterns mean ----------

  /** A star stands for any text, slashes included. */
  lemma {:induction false} GlobStar(p: string, s: string)
    ensures Glob("*" + p, s) <==> exists i :: 0 <= i <= |s| && Glob(p, s[i..])
  {
    assert ("*" + p)[1..] == p;
    assert s[0..] == s;
    if s != "" {
      GlobStar(p, s[1..]);
      assert forall i :: 0 <= i <= |s| - 1 ==> s[1..][i..] == s[i + 1..];
      if i :| 0 <= i <= |s| && Glob(p, s[i..]) {
        assert i > 0 ==> s[1..][i - 1..] == s[i..];
      }
    }
  }

  /** A question mark stands for any one character, and every other character for itself. */
  lemma GlobOne(c: char, p: string, s: string)
    requires c != '*'
    ensures Glob([c] + p, s) <==> s != "" && (c == '?' || s[0] == c) && Glob(p, s[1..])
    ensures Glob("", s) <==> s == ""
  {
    assert ([c] + p)[1..] == p;
  }

  predicate Literal(p: string) {
    forall i :: 0 <= i < |p| ==> p[i] != '*' && p[i] != '?'
  }

  lemma {:induction false} GlobLiteral(p: string, rest: string, s: string)
    requires Literal(p)
    ensures Glob(p + rest, s) <==> IsPrefix(p, s) && Glob(rest, s[|p|..])
  {
    if p == "" {
      assert p + rest == rest && s[0..] == s;
    } else {
      assert p == [p[0]] + p[1..];
      assert p + rest == [p[0]] + (p[1..] + rest);
      GlobOne(p[0], p[1..] + rest, s);
      if s != "" {
        GlobLiteral(p[1..], rest, s[1..]);
        assert s == [s[0]] + s[1..];
        assert |s| >= |p| ==> s[1..][|p| - 1..] == s[|p|..];
        assert s[0] == p[0] ==> (IsPrefix(p, s) <==> IsPrefix(p[1..], s[1..]));
      }
    }
  }

  lemma GlobAll(s: string)
    ensures Glob("*", s)
  {
    GlobStar("", s);
    assert "*" + "" == "*" && s[|s|..] == "";
  }

  /** Equivalent ends make equivalent patterns. */
  lemma {:induction false} GlobCongruent(p: string, a: string, b: string, s: string)
    requires forall t: string :: Glob(a, t) <==> Glob(b, t)
    ensures Glob(p + a, s) <==> Glob(p + b, s)
    decreases |p|
  {
    if p == "" {
      assert p + a == a && p + b == b;
    } else {
      assert p == [p[0]] + p[1..];
      assert p + a == [p[0]] + (p[1..] + a) && p + b == [p[0]] + (p[1..] + b);
      forall t: string
        ensures Glob(p[1..] + a, t) <==> Glob(p[1..] + b, t)
      {
        GlobCongruent(p[1..], a, b, t);
      }
      if p[0] == '*' {
        GlobStar(p[1..] + a, s);
        GlobStar(p[1..] + b, s);
      } else {
        GlobOne(p[0], p[1..] + a, s);
        GlobOne(p[0], p[1..] + b, s);
      }
    }
  }

  /** A second star changes nothing. */
  lemma TwoStars(p: string, s: string)
    ensures Glob("*" + ("*" + p), s) <==> Glob("*" + p, s)
  {
    GlobStar("*" + p, s);
    GlobStar(p, s);
    assert s[0..] == s;
    forall i | 0 <= i <= |s| && Glob("*" + p, s[i..])
      ensures exists k :: 0 <= k <= |s| && Glob(p, s[k..])
    {
      GlobStar(p, s[i..]);
      var j :| 0 <= j <= |s[i..]| && Glob(p, s[i..][j..]);
      assert s[i..][j..] == s[i + j..];
    }
  }

  /** A rule matches as if a star stood at both ends, whether there already is one or not. */
  lemma MatchesBetweenStars(rule: Rule, image: string)
    ensures Matches(rule, image) <==> Glob("*" + rule.pattern + "*", image)
  {
    var pattern := rule.pattern;
    var p := if IsPrefix("*", pattern) then pattern else "*" + pattern;
    assert Glob(p + "*", image) <==> Glob("*" + pattern + "*", image) by {
      if IsPrefix("*", pattern) {
        assert pattern == "*" + pattern[1..];
        TwoStars(pattern[1..] + "*", image);
        assert "*" + pattern + "*" == "*" + ("*" + (pattern[1..] + "*")) && p + "*" == "*" + (pattern[1..] + "*");
      }
    }
    if IsSuffix("*", p) {
      var front := p[..|p| - 1];
      assert p == front + "*" && p + "*" == front + "**";
      forall t: string
        ensures Glob("**", t) <==> Glob("*", t)
      {
        TwoStars("", t);
        assert "*" + ("*" + "") == "**" && "*" + "" == "*";
      }
      GlobCongruent(front, "**", "*", image);
    }
  }

  /** A pattern without wildcards matches exactly the images that contain it. */
  lemma LiteralMatchesContained(rule: Rule, image: string)
    requires Literal(rule.pattern)
    ensures Matches(rule, image) <==> Contains(image, rule.pattern)
  {
    MatchesBetweenStars(rule, image);
    assert "*" + rule.pattern + "*" == "*" + (rule.pattern + "*");
    GlobStar(rule.pattern + "*", image);
    forall i | 0 <= i <= |image|
      ensures Glob(rule.pattern + "*", image[i..]) <==> IsPrefix(rule.pattern, image[i..])
    {
      GlobLiteral(rule.pattern, "*", image[i..]);
      if IsPrefix(rule.pattern, image[i..]) {
        GlobAll(image[i..][|rule.pattern|..]);
      }
    }
  }

  /** The usual catch-all rule matches every image with a colon in it. */
  lemma CatchAllMatches(rule: Rule, image: string)
    requires rule.pattern == "*:*"
    ensures Matches(rule, image) <==> ':' in image
  {
    assert Wrapped("*:*") == "*:*" == "*" + ":*" && ":*" == [':'] + "*";
    GlobStar(":*", image);
    forall i | 0 <= i <= |image|
      ensures Glob(":*", image[i..]) <==> i < |image| && image[i] == ':'
    {
      GlobOne(':', "*", image[i..]);
      if i < |image| {
        GlobAll(image[i..][1..]);
      }
    }
  }

  /** Each slash of a pattern is matched by one of the image. */
  lemma {:induction false} GlobSlashes(pattern: string, s: string)
    requires Glob(pattern, s)
    ensures CountChar(pattern, '/') <= CountChar(s, '/')
    decreases |pattern| + |s|
  {
    if pattern == "" {
    } else if pattern[0] == '*' {
      if Glob(pattern[1..], s) {
        GlobSlashes(pattern[1..], s);
      } else {
        GlobSlashes(pattern, s[1..]);
      }
    } else {
      GlobSlashes(pattern[1..], s[1..]);
    }
  }

  lemma WrappedSlashes(pattern: string)
    ensures CountChar(Wrapped(pattern), '/') == CountChar(pattern, '/')
  {
    CountCharAppend("*", pattern, '/');
    var p := if IsPrefix("*", pattern) then pattern else "*" + pattern;
    assert CountChar("*", '/') == 0;
    CountCharAppend(p, "*", '/');
  }

  /** A matching pattern has no more components than the image, so no component is looked up in vain. */
  lemma ComponentsInRange(rule: Rule, image: string)
    requires Matches(rule, image)
    ensures |Split(rule.pattern, '/')| <= |Split(image, '/')|
  {
    GlobSlashes(Wrapped(rule.pattern), image);
    WrappedSlashes(rule.pattern);
  }

  // ---------- specificity ----------

  /** Lexicographic order on sequences of numbers. */
  predicate Less(a: seq<nat>, b: seq<nat>) {
    if a == [] then b != []
    else b != [] && (a[0] < b[0] || (a[0] == b[0] && Less(a[1..], b[1..])))
  }

  lemma {:induction false} LessTransitive(a: seq<nat>, b: seq<nat>, c: seq<nat>)
    requires Less(a, b) && Less(b, c)
    ensures Less(a, c)
  {
    if a != [] && a[0] == b[0] == c[0] {
      LessTransitive(a[1..], b[1..], c[1..]);
    }
  }

  lemma {:induction false} LessTrichotomy(a: seq<nat>, b: seq<nat>)
    ensures Less(a, b) || Less(b, a) || a == b
    ensures !(Less(a, b) && Less(b, a)) && !Less(a, a)
  {
    if a != [] && b != [] {
      LessTrichotomy(a[1..], b[1..]);
      assert a == [a[0]] + a[1..] && b == [b[0]] + b[1..];
    } else if a != [] {
      LessTrichotomy(a[1..], a[1..]);
    }
  }

  /** The first place where two sequences differ decides. */
  lemma {:induction false} LessAt(a: seq<nat>, b: seq<nat>, i: nat)
    requires i < |a| && i < |b|
    requires a[..i] == b[..i] && a[i] < b[i]
    ensures Less(a, b)
  {
    if i > 0 {
      assert a[0] == a[..i][0] == b[..i][0] == b[0];
      assert a[1..][..i - 1] == a[..i][1..] == b[..i][1..] == b[1..][..i - 1];
      LessAt(a[1..], b[1..], i - 1);
    }
  }

  lemma {:induction false} LessAppend(a: seq<nat>, b: seq<nat>, x: seq<nat>, y: seq<nat>)
    requires |a| == |b|
    ensures Less(a + x, b + y) <==> Less(a, b) || (a == b && Less(x, y))
  {
    if a == [] {
      assert a + x == x && b + y == y;
    } else {
      assert (a + x)[1..] == a[1..] + x && (b + y)[1..] == b[1..] + y;
      LessAppend(a[1..], b[1..], x, y);
      assert a == [a[0]] + a[1..] && b == [b[0]] + b[1..];
    }
  }

  /** Compares two slices of equal length from the left: 1, 0 or -1. */
  method LeftmostDifference(a: seq<nat>, b: seq<nat>) returns (order: int)
    requires |a| == |b|
    ensures order in {-1, 0, 1}
    ensures order == 1 <==> Less(b, a)
    ensures order == -1 <==> Less(a, b)
    ensures order == 0 <==> a == b
  {
    LessTrichotomy(a, b);
    for idx := 0 to |a|
      invariant a[..idx] == b[..idx]
    {
      if a[idx] > b[idx] {
        LessAt(b, a, idx);
        return 1;
      } else if a[idx] < b[idx] {
        LessAt(a, b, idx);
        return -1;
      }
    }
    assert a == a[..|a|] == b[..|b|] == b;
    LessTrichotomy(a, a);
    return 0;
  }

  datatype Match = Match(
    rule: Rule,
    componentCount: nat,
    componentLengths: seq<nat>,
    prefixLengths: seq<nat>)
  {
    predicate Valid() {
      |componentLengths| == componentCount == |prefixLengths|
    }

    /** Specificity as one number sequence: component count, prefix lengths, component lengths. */
    function Key(): seq<nat> {
      [componentCount] + (prefixLengths + componentLengths)
    }

    /** The winner is the more specific one, and the receiver if both are equally specific. */
    method Compare(m2: Match) returns (winner: Match)
      requires Valid() && m2.Valid()
      ensures winner == if Less(Key(), m2.Key()) then m2 else this
    {
      var lengths1, lengths2 := prefixLengths + componentLengths, m2.prefixLengths + m2.componentLengths;
      LessAppend([componentCount], [m2.componentCount], lengths1, lengths2);
      LessTrichotomy([componentCount], [m2.componentCount]);
      if componentCount > m2.componentCount {
        LessAt([m2.componentCount], [componentCount], 0);
        return this;
      } else if componentCount < m2.componentCount {
        LessAt([componentCount], [m2.componentCount], 0);
        return m2;
      }
      LessAppend(prefixLengths, m2.prefixLengths, componentLengths, m2.componentLengths);
      LessTrichotomy(prefixLengths, m2.prefixLengths);
      var prefixes := LeftmostDifference(prefixLengths, m2.prefixLengths);
      if prefixes != 0 {
        return if prefixes > 0 then this else m2;
      }
      var lengths := LeftmostDifference(componentLengths, m2.componentLengths);
      if lengths != 0 {
        LessTrichotomy(componentLengths, m2.componentLengths);
        return if lengths > 0 then this else m2;
      }
      LessTrichotomy(componentLengths, componentLengths);
      return this;
    }
  }

  /** What a pattern and an image have in common, component by component, without any sorting. */
  function MatchOf(rule: Rule, image: string): (m: Match)
    requires |Split(rule.pattern, '/')| <= |Split(image, '/')|
    ensures m.Valid() && m.rule == rule
  {
    var components, ic := Split(rule.pattern, '/'), Split(image, '/');
    Match(rule, |components|,
          seq(|components|, i requires 0 <= i < |components| => |components[i]|),
          seq(|components|, i requires 0 <= i < |components| => |Recode(CommonPrefix(components[i], ic[i]))|))
  }

  method PrefixLength(component: string, imageComponent: string) returns (n: nat)
    ensures n == |Recode(CommonPrefix(component, imageComponent))|
  {
    var pair := new string[] [component, imageComponent];
    assert pair[..] == [component, imageComponent];
    var prefix := LongestCommonPrefix(pair);
    ghost var p :| IsLongestCommonPrefix(p, [component, imageComponent]) && prefix == Recode(p);
    LongestOfTwo(component, imageComponent, p);
    return |prefix|;
  }

  method NewMatch(rule: Rule, image: string) returns (m: Match)
    requires |Split(rule.pattern, '/')| <= |Split(image, '/')|
    ensures m == MatchOf(rule, image)
  {
    var components, ic := Split(rule.pattern, '/'), Split(image, '/');
    var cc := |components|;
    var cl := seq(cc, _ => 0);
    for idx := 0 to cc
      invariant |cl| == cc && forall i :: 0 <= i < idx ==> cl[i] == |components[i]|
    {
      cl := cl[idx := |components[idx]|];
    }
    var pl := seq(cc, _ => 0);
    for idx := 0 to cc
      invariant |pl| == cc && forall i :: 0 <= i < idx ==> pl[i] == |Recode(CommonPrefix(components[i], ic[i]))|
    {
      var n := PrefixLength(components[idx], ic[idx]);
      pl := pl[idx := n];
    }
    m := Match(rule, cc, cl, pl);
    assert m.componentLengths == MatchOf(rule, image).componentLengths;
    assert m.prefixLengths == MatchOf(rule, image).prefixLengths;
  }

  // ---------- the matching rule ----------

  function Specificity(rule: Rule, image: string): seq<nat>
    requires Matches(rule, image)
  {
    ComponentsInRange(rule, image);
    MatchOf(rule, image).Key()
  }

  /** How much of its i-th component a pattern shares with that of the image. */
  function SharedAt(pattern: string, image: string, i: nat): nat
    requires i < |Split(pattern, '/')| && i < |Split(image, '/')|
  {
    |Recode(CommonPrefix(Split(pattern, '/')[i], Split(image, '/')[i]))|
  }

  /** a and b agree at all places before i. */
  predicate AgreeBefore(a: seq<nat>, b: seq<nat>, i: nat) {
    i <= |a| && i <= |b| && forall j :: 0 <= j < i ==> a[j] == b[j]
  }

  /** The first place where two lists of one length differ decides. */
  lemma {:induction false} LessExactly(a: seq<nat>, b: seq<nat>)
    requires |a| == |b|
    ensures Less(a, b) <==> exists i :: 0 <= i < |a| && AgreeBefore(a, b, i) && a[i] < b[i]
  {
    if a != [] {
      LessExactly(a[1..], b[1..]);
      if a[0] == b[0] {
        if i :| 0 <= i < |a| - 1 && AgreeBefore(a[1..], b[1..], i) && a[1..][i] < b[1..][i] {
          forall j | 0 <= j < i + 1
            ensures a[j] == b[j]
          {
            assert j > 0 ==> a[1..][j - 1] == b[1..][j - 1];
          }
          assert AgreeBefore(a, b, i + 1) && a[i + 1] < b[i + 1];
        }
        if i :| 0 <= i < |a| && AgreeBefore(a, b, i) && a[i] < b[i] {
          assert AgreeBefore(a[1..], b[1..], i - 1) && a[1..][i - 1] < b[1..][i - 1];
        }
      } else if a[0] < b[0] {
        assert AgreeBefore(a, b, 0);
      }
    }
  }

  function SharedLengths(rule: Rule, image: string): seq<nat>
    requires |Split(rule.pattern, '/')| <= |Split(image, '/')|
  {
    seq(|Split(rule.pattern, '/')|, i requires 0 <= i < |Split(rule.pattern, '/')| => SharedAt(rule.pattern, image, i))
  }

  function OwnLengths(rule: Rule): seq<nat> {
    seq(|Split(rule.pattern, '/')|, i requires 0 <= i < |Split(rule.pattern, '/')| => |Split(rule.pattern, '/')[i]|)
  }

  /** The first place at which b is longer, up to which both are alike. */
  ghost predicate LongerFirst(a: seq<nat>, b: seq<nat>) {
    |a| == |b| && exists i :: 0 <= i < |a| && AgreeBefore(a, b, i) && a[i] < b[i]
  }

  /**
   b is more specific than a: it has more components, or as many and the leftmost difference in what
   is shared with the image is in its favour, or nothing is shared differently and the leftmost
   difference in length is.
   */
  lemma MoreSpecificExactly(a: Rule, b: Rule, image: string)
    requires Matches(a, image) && Matches(b, image)
    ensures |Split(a.pattern, '/')| <= |Split(image, '/')| && |Split(b.pattern, '/')| <= |Split(image, '/')|
    ensures Less(Specificity(a, image), Specificity(b, image))
       <==> || |Split(a.pattern, '/')| < |Split(b.pattern, '/')|
            || LongerFirst(SharedLengths(a, image), SharedLengths(b, image))
            || (SharedLengths(a, image) == SharedLengths(b, image) && LongerFirst(OwnLengths(a), OwnLengths(b)))
  {
    ComponentsInRange(a, image);
    ComponentsInRange(b, image);
    KeyOf(a, image);
    KeyOf(b, image);
    KeyLess(SharedLengths(a, image), OwnLengths(a), SharedLengths(b, image), OwnLengths(b));
  }

  lemma KeyOf(rule: Rule, image: string)
    requires Matches(rule, image) && |Split(rule.pattern, '/')| <= |Split(image, '/')|
    ensures Specificity(rule, image) == [|SharedLengths(rule, image)|] + (SharedLengths(rule, image) + OwnLengths(rule))
  {
    var m := MatchOf(rule, image);
    assert m.prefixLengths == SharedLengths(rule, image);
    assert m.componentLengths == OwnLengths(rule);
  }

  lemma KeyLess(pa: seq<nat>, la: seq<nat>, pb: seq<nat>, lb: seq<nat>)
    requires |pa| == |la| && |pb| == |lb|
    ensures Less([|pa|] + (pa + la), [|pb|] + (pb + lb))
       <==> |pa| < |pb| || LongerFirst(pa, pb) || (pa == pb && LongerFirst(la, lb))
  {
    LessAppend([|pa|], [|pb|], pa + la, pb + lb);
    OneNumber(|pa|, |pb|);
    if |pa| == |pb| {
      LessAppend(pa, pb, la, lb);
      LessExactly(pa, pb);
      LessExactly(la, lb);
    }
  }

  lemma OneNumber(m: nat, n: nat)
    ensures Less([m], [n]) <==> m < n
    ensures [m] == [n] <==> m == n
  {
    assert [m][0] == m && [n][0] == n && [m][1..] == [] && [n][1..] == [];
  }

  /** No matching rule of the list is more specific than the i-th, and no later one ties with it. */
  ghost predicate MostSpecific(rules: seq<Rule>, image: string, i: nat) {
    && i < |rules|
    && Matches(rules[i], image)
    && (forall j :: 0 <= j < |rules| && Matches(rules[j], image) ==>
                      !Less(Specificity(rules[i], image), Specificity(rules[j], image)))
    && (forall j :: i < j < |rules| && Matches(rules[j], image) ==>
                      Specificity(rules[j], image) != Specificity(rules[i], image))
  }

  const NO_RULE := Rule("", "", NO_OPTIONS)

  lemma EmptyPatternIsLeast(image: string, rule: Rule)
    requires Matches(rule, image)
    ensures MatchOf(NO_RULE, "").Key() == [1, 0, 0]
    ensures rule.pattern == "" ==> Specificity(rule, image) == [1, 0, 0]
    ensures rule.pattern != "" ==> Less([1, 0, 0], Specificity(rule, image))
  {
    assert Split("", '/') == [""];
    var k := Specificity(rule, image);
    ComponentsInRange(rule, image);
    if rule.pattern != "" {
      var components := Split(rule.pattern, '/');
      if |components| == 1 {
        SplitOne(rule.pattern);
        assert k == [1, k[1], |rule.pattern|];
        LessTail(k[1], |rule.pattern|);
      }
    }
  }

  lemma {:induction false} SplitOne(s: string)
    requires |Split(s, '/')| == 1
    ensures Split(s, '/') == [s]
  {
    if s != "" {
      SplitOne(s[1..]);
      assert s == [s[0]] + s[1..];
    }
  }

  lemma LessTail(p: nat, c: nat)
    requires c > 0
    ensures Less([1, 0, 0], [1, p, c])
  {
    if p == 0 {
      LessAt([1, 0, 0], [1, p, c], 2);
    } else {
      LessAt([1, 0, 0], [1, p, c], 1);
    }
  }

  ghost predicate BestSoFar(rules: seq<Rule>, image: string, m: Match) {
    || (m == MatchOf(NO_RULE, "") && forall j :: 0 <= j < |rules| ==> !Matches(rules[j], image))
    || exists i: nat :: MostSpecific(rules, image, i) && m == RuleMatch(rules[i], image)
  }

  function RuleMatch(rule: Rule, image: string): Match
    requires Matches(rule, image)
  {
    ComponentsInRange(rule, image);
    MatchOf(rule, image)
  }

  lemma MostSpecificIsUnique(rules: seq<Rule>, image: string, i: nat, j: nat)
    requires MostSpecific(rules, image, i) && MostSpecific(rules, image, j)
    ensures i == j
  {
    LessTrichotomy(Specificity(rules[i], image), Specificity(rules[j], image));
  }

  /** The rule an image falls under, by definition. */
  ghost function Governing(rules: seq<Rule>, image: string): Result<Rule> {
    if exists i: nat :: MostSpecific(rules, image, i) && rules[i].pattern != "" then
      var i: nat :| MostSpecific(rules, image, i) && rules[i].pattern != "";
      Success(rules[i])
    else Failure("no matching rule")
  }

  /** The body of the loop: the rule takes over unless it does not match or is less specific. */
  method Consider(ghost earlier: seq<Rule>, rule: Rule, image: string, bestMatch: Match) returns (m: Match)
    requires bestMatch.Valid() && BestSoFar(earlier, image, bestMatch)
    ensures m.Valid() && BestSoFar(earlier + [rule], image, m)
  {
    var pattern := rule.pattern;
    if !IsPrefix("*", pattern) {
      pattern := "*" + pattern;
    }
    if !IsSuffix("*", pattern) {
      pattern := pattern + "*";
    }
    if !Glob(pattern, image) {
      KeepBest(earlier, image, bestMatch, rule);
      return bestMatch;
    }
    ComponentsInRange(rule, image);
    m := NewMatch(rule, image);
    TakeBetter(earlier, image, bestMatch, rule);
    assert m == RuleMatch(rule, image) && m.Key() == Specificity(rule, image);
    m := m.Compare(bestMatch);
  }

  /** The most specific matching rule, the later one among equals; an error if nothing usable matches. */
  method MatchingRule(rules: seq<Rule>, image: string) returns (r: Result<Rule>)
    ensures r.Success? ==> exists i: nat :: MostSpecific(rules, image, i) && r.value == rules[i]
    ensures r.Success? ==> r.value.pattern != ""
    ensures r.Failure? <==> forall j :: 0 <= j < |rules| && Matches(rules[j], image) ==> rules[j].pattern == ""
    ensures r == Governing(rules, image)
  {
    var bestMatch := NewMatch(NO_RULE, "");
    for k := 0 to |rules|
      invariant bestMatch.Valid() && BestSoFar(rules[..k], image, bestMatch)
    {
      assert rules[..k + 1] == rules[..k] + [rules[k]];
      bestMatch := Consider(rules[..k], rules[k], image, bestMatch);
    }
    assert rules[..|rules|] == rules;
    BestUsable(rules, image, bestMatch);
    BestGoverns(rules, image, bestMatch);
    if bestMatch.rule.pattern == "" {
      return Failure("no matching rule");
    }
    return Success(bestMatch.rule);
  }

  /** The best match, if it is usable, is what the definition picks. */
  lemma BestGoverns(rules: seq<Rule>, image: string, m: Match)
    requires BestSoFar(rules, image, m)
    ensures Governing(rules, image) == if m.rule.pattern == "" then Failure("no matching rule") else Success(m.rule)
  {
    BestUsable(rules, image, m);
    forall i: nat, j: nat | MostSpecific(rules, image, i) && MostSpecific(rules, image, j)
      ensures i == j
    {
      MostSpecificIsUnique(rules, image, i, j);
    }
  }

  lemma KeepBest(rules: seq<Rule>, image: string, m: Match, rule: Rule)
    requires BestSoFar(rules, image, m) && !Matches(rule, image)
    ensures BestSoFar(rules + [rule], image, m)
  {
    if i: nat :| MostSpecific(rules, image, i) && m == RuleMatch(rules[i], image) {
      StaysMostSpecific(rules, image, i, rule);
    }
  }

  lemma StaysMostSpecific(rules: seq<Rule>, image: string, i: nat, rule: Rule)
    requires MostSpecific(rules, image, i) && !Matches(rule, image)
    ensures MostSpecific(rules + [rule], image, i)
  {
    var all := rules + [rule];
    assert forall j :: 0 <= j < |all| && Matches(all[j], image) ==> j < |rules| && all[j] == rules[j];
  }

  lemma TakeBetter(rules: seq<Rule>, image: string, m: Match, rule: Rule)
    requires BestSoFar(rules, image, m) && Matches(rule, image)
    ensures BestSoFar(rules + [rule], image,
                      if Less(Specificity(rule, image), m.Key()) then m else RuleMatch(rule, image))
  {
    if i: nat :| MostSpecific(rules, image, i) && m == RuleMatch(rules[i], image) {
      if Less(Specificity(rule, image), m.Key()) {
        StillBest(rules, image, i, rule);
      } else {
        NewBest(rules, image, i, rule);
      }
    } else {
      EmptyPatternIsLeast(image, rule);
      LessTrichotomy([1, 0, 0], Specificity(rule, image));
      FirstBest(rules, image, rule);
    }
  }

  lemma FirstBest(rules: seq<Rule>, image: string, rule: Rule)
    requires Matches(rule, image) && forall j :: 0 <= j < |rules| ==> !Matches(rules[j], image)
    ensures MostSpecific(rules + [rule], image, |rules|)
  {
    var k := Specificity(rule, image);
    LessTrichotomy(k, k);
  }

  lemma StillBest(rules: seq<Rule>, image: string, i: nat, rule: Rule)
    requires MostSpecific(rules, image, i)
    requires Matches(rule, image) && Less(Specificity(rule, image), Specificity(rules[i], image))
    ensures MostSpecific(rules + [rule], image, i)
  {
    LessTrichotomy(Specificity(rule, image), Specificity(rules[i], image));
  }

  /** A rule at least as specific as the best so far takes its place. */
  lemma NewBest(rules: seq<Rule>, image: string, best: nat, rule: Rule)
    requires MostSpecific(rules, image, best)
    requires Matches(rule, image)
    requires !Less(Specificity(rule, image), Specificity(rules[best], image))
    ensures MostSpecific(rules + [rule], image, |rules|)
  {
    var all, k := rules + [rule], Specificity(rule, image);
    forall j | 0 <= j < |all| && Matches(all[j], image)
      ensures !Less(k, Specificity(all[j], image))
    {
      var b := Specificity(rules[best], image);
      LessTrichotomy(k, k);
      LessTrichotomy(k, b);
      if j < |rules| && Less(k, Specificity(all[j], image)) {
        if Less(b, k) {
          LessTransitive(b, k, Specificity(rules[j], image));
        }
      }
    }
  }

  lemma BestUsable(rules: seq<Rule>, image: string, m: Match)
    requires BestSoFar(rules, image, m)
    ensures m.rule.pattern == "" <==>
            forall j :: 0 <= j < |rules| && Matches(rules[j], image) ==> rules[j].pattern == ""
    ensures m.rule.pattern != "" ==> exists i: nat :: MostSpecific(rules, image, i) && m.rule == rules[i]
  {
    if i: nat :| MostSpecific(rules, image, i) && m == RuleMatch(rules[i], image) {
      forall j | 0 <= j < |rules| && Matches(rules[j], image) && rules[i].pattern == ""
        ensures rules[j].pattern == ""
      {
        EmptyPatternIsLeast(image, rules[i]);
        EmptyPatternIsLeast(image, rules[j]);
      }
    }
  }

  /** Specificity is a total preorder on the rules matching one image, and never ranks in circles. */
  lemma SpecificityIsTotalPreorder(a: Rule, b: Rule, c: Rule, image: string)
    requires Matches(a, image) && Matches(b, image) && Matches(c, image)
    ensures !Less(Specificity(a, image), Specificity(b, image)) || !Less(Specificity(b, image), Specificity(a, image))
    ensures !Less(Specificity(b, image), Specificity(a, image)) && !Less(Specificity(c, image), Specificity(b, image))
            ==> !Less(Specificity(c, image), Specificity(a, image))
  {
    var x, y, z := Specificity(a, image), Specificity(b, image), Specificity(c, image);
    LessTrichotomy(x, y);
    LessTrichotomy(y, z);
    LessTrichotomy(z, x);
    if Less(z, x) && Less(x, y) {
      LessTransitive(z, x, y);
    }
  }

  /** No two entries of the list that match the image are equally specific. */
  ghost predicate NoTies(rules: seq<Rule>, image: string) {
    forall i, j :: 0 <= i < j < |rules| && Matches(rules[i], image) && Matches(rules[j], image) ==>
                     Specificity(rules[i], image) != Specificity(rules[j], image)
  }

  /** Nothing that matches is more specific; several rules may share this place. */
  ghost predicate Top(rules: seq<Rule>, image: string, i: nat) {
    && i < |rules| && Matches(rules[i], image)
    && forall j :: 0 <= j < |rules| && Matches(rules[j], image) ==>
                     !Less(Specificity(rules[i], image), Specificity(rules[j], image))
  }

  /** With one more rule there is a most specific one again. */
  lemma OneMoreRule(rules: seq<Rule>, image: string, i: nat, rule: Rule)
    requires MostSpecific(rules, image, i)
    ensures exists k: nat :: MostSpecific(rules + [rule], image, k)
  {
    if !Matches(rule, image) {
      StaysMostSpecific(rules, image, i, rule);
    } else if Less(Specificity(rule, image), Specificity(rules[i], image)) {
      StillBest(rules, image, i, rule);
    } else {
      NewBest(rules, image, i, rule);
    }
  }

  /** If any rule matches, one of them is the most specific. */
  lemma {:induction false} MostSpecificExists(rules: seq<Rule>, image: string)
    requires exists j :: 0 <= j < |rules| && Matches(rules[j], image)
    ensures exists i: nat :: MostSpecific(rules, image, i)
  {
    var last := |rules| - 1;
    var front, rule := rules[..last], rules[last];
    assert rules == front + [rule];
    if exists j :: 0 <= j < |front| && Matches(front[j], image) {
      MostSpecificExists(front, image);
      var i: nat :| MostSpecific(front, image, i);
      OneMoreRule(front, image, i, rule);
    } else {
      assert forall j :: 0 <= j < |front| ==> front[j] == rules[j];
      FirstBest(front, image, rule);
    }
  }

  /** Whichever list of the same rules is searched, its winner is at the top of the other one. */
  lemma WinnerIsOnTop(rules: seq<Rule>, reordered: seq<Rule>, image: string, j: nat) returns (k: nat)
    requires multiset(rules) == multiset(reordered) && MostSpecific(reordered, image, j)
    ensures Top(rules, image, k) && rules[k] == reordered[j]
  {
    PermutationMembers(rules, reordered);
    assert reordered[j] in reordered;
    k :| 0 <= k < |rules| && rules[k] == reordered[j];
    forall l | 0 <= l < |rules| && Matches(rules[l], image)
      ensures !Less(Specificity(rules[k], image), Specificity(rules[l], image))
    {
      assert rules[l] in rules;
      var m :| 0 <= m < |reordered| && reordered[m] == rules[l];
    }
  }

  /** Rules at the top are equally specific, so either all of them have an empty pattern or none has. */
  lemma TopsTie(rules: seq<Rule>, image: string, i: nat, j: nat)
    requires Top(rules, image, i) && Top(rules, image, j)
    ensures Specificity(rules[i], image) == Specificity(rules[j], image)
    ensures rules[i].pattern == "" <==> rules[j].pattern == ""
  {
    LessTrichotomy(Specificity(rules[i], image), Specificity(rules[j], image));
    EmptyPatternIsLeast(image, rules[i]);
    EmptyPatternIsLeast(image, rules[j]);
    LessTrichotomy([1, 0, 0], [1, 0, 0]);
  }

  /** The winner's rule, or the failure if its pattern is empty. */
  lemma GoverningIsWinner(rules: seq<Rule>, image: string, i: nat)
    requires MostSpecific(rules, image, i)
    ensures Governing(rules, image) == if rules[i].pattern == "" then Failure("no matching rule") else Success(rules[i])
  {
    forall j: nat | MostSpecific(rules, image, j)
      ensures j == i
    {
      MostSpecificIsUnique(rules, image, i, j);
    }
  }

  /** All rules at the top are one and the same, or have no pattern. */
  ghost predicate OneTopRule(rules: seq<Rule>, image: string) {
    forall i: nat, j: nat :: Top(rules, image, i) && Top(rules, image, j) ==>
                               rules[i] == rules[j] || rules[i].pattern == ""
  }

  lemma OneTopRuleGoverns(rules: seq<Rule>, reordered: seq<Rule>, image: string)
    requires multiset(rules) == multiset(reordered) && OneTopRule(rules, image)
    ensures Governing(rules, image) == Governing(reordered, image)
  {
    PermutationMembers(rules, reordered);
    if exists j :: 0 <= j < |rules| && Matches(rules[j], image) {
      var j :| 0 <= j < |rules| && Matches(rules[j], image);
      assert rules[j] in reordered;
      var l :| 0 <= l < |reordered| && reordered[l] == rules[j];
      MostSpecificExists(rules, image);
      MostSpecificExists(reordered, image);
      var a: nat :| MostSpecific(rules, image, a);
      var b: nat :| MostSpecific(reordered, image, b);
      GoverningIsWinner(rules, image, a);
      GoverningIsWinner(reordered, image, b);
      var k := WinnerIsOnTop(rules, reordered, image, b);
      TopsTie(rules, image, a, k);
    } else {
      forall j | 0 <= j < |reordered|
        ensures !Matches(reordered[j], image)
      {
        assert reordered[j] in rules;
      }
    }
  }

  /** A rule at the top wins if it is written last. */
  lemma LastOfTopWins(rules: seq<Rule>, image: string, i: nat) returns (reordered: seq<Rule>)
    requires Top(rules, image, i)
    ensures multiset(reordered) == multiset(rules)
    ensures Governing(reordered, image)
         == if rules[i].pattern == "" then Failure("no matching rule") else Success(rules[i])
  {
    WithoutMultiset(rules, i);
    reordered := Without(rules, i) + [rules[i]];
    OnTopOfEveryOrder(rules, reordered, image, i);
    assert MostSpecific(reordered, image, |rules| - 1);
    GoverningIsWinner(reordered, image, |rules| - 1);
  }

  /** A rule at the top is at least as specific as any match in any order of the rules. */
  lemma OnTopOfEveryOrder(rules: seq<Rule>, reordered: seq<Rule>, image: string, i: nat)
    requires Top(rules, image, i) && multiset(rules) == multiset(reordered)
    ensures forall j :: 0 <= j < |reordered| && Matches(reordered[j], image) ==>
                          !Less(Specificity(rules[i], image), Specificity(reordered[j], image))
  {
    PermutationMembers(reordered, rules);
    forall j | 0 <= j < |reordered| && Matches(reordered[j], image)
      ensures !Less(Specificity(rules[i], image), Specificity(reordered[j], image))
    {
      assert reordered[j] in rules;
      var l :| 0 <= l < |rules| && rules[l] == reordered[j];
    }
  }

  /** Every way to write the list gives the same result. */
  ghost predicate AnyOrderGoverns(rules: seq<Rule>, image: string) {
    forall reordered :: multiset(rules) == multiset(reordered) ==>
                          Governing(rules, image) == Governing(reordered, image)
  }

  /** The result is the same for every order of the rules exactly if the top holds one rule only. */
  lemma RuleOrderIrrelevantExactly(rules: seq<Rule>, image: string)
    ensures AnyOrderGoverns(rules, image) <==> OneTopRule(rules, image)
  {
    if OneTopRule(rules, image) {
      forall reordered | multiset(rules) == multiset(reordered)
        ensures Governing(rules, image) == Governing(reordered, image)
      {
        OneTopRuleGoverns(rules, reordered, image);
      }
    } else {
      var i: nat, j: nat :| Top(rules, image, i) && Top(rules, image, j)
                            && rules[i] != rules[j] && rules[i].pattern != "";
      TwoTopRules(rules, image, i, j);
    }
  }

  lemma TwoTopRules(rules: seq<Rule>, image: string, i: nat, j: nat)
    requires Top(rules, image, i) && Top(rules, image, j) && rules[i] != rules[j] && rules[i].pattern != ""
    ensures !AnyOrderGoverns(rules, image)
  {
    TopsTie(rules, image, i, j);
    var a := LastOfTopWins(rules, image, i);
    var b := LastOfTopWins(rules, image, j);
    assert Governing(a, image) != Governing(b, image);
    assert multiset(rules) == multiset(a) && multiset(rules) == multiset(b);
  }

  /** Without ties the order in which rules are written does not matter, failure included. */
  lemma RuleOrderIrrelevant(rules: seq<Rule>, reordered: seq<Rule>, image: string)
    requires multiset(rules) == multiset(reordered)
    requires NoTies(rules, image)
    ensures Governing(rules, image) == Governing(reordered, image)
  {
    NoTiesOneTop(rules, image);
    OneTopRuleGoverns(rules, reordered, image);
  }

  lemma NoTiesOneTop(rules: seq<Rule>, image: string)
    requires NoTies(rules, image)
    ensures OneTopRule(rules, image)
  {
    forall i: nat, j: nat | Top(rules, image, i) && Top(rules, image, j)
      ensures i == j
    {
      TopsTie(rules, image, i, j);
    }
  }

  /** Two rules that differ in the validator only: the one written last decides. */
  lemma TiedRulesDependOnOrder(options: RuleOptions)
    ensures
      var a, b := Rule("*", "a", options), Rule("*", "b", options);
      && !OneTopRule([a, b], "x")
      && Governing([a, b], "x") == Success(b) && Governing([b, a], "x") == Success(a)
  {
    var a, b := Rule("*", "a", options), Rule("*", "b", options);
    LastOfTwoGoverns(a, b);
    LastOfTwoGoverns(b, a);
    assert Top([a, b], "x", 0) && Top([a, b], "x", 1);
  }

  lemma LastOfTwoGoverns(a: Rule, b: Rule)
    requires a.pattern == "*" == b.pattern
    ensures Matches(a, "x") && Matches(b, "x") && Specificity(a, "x") == Specificity(b, "x")
    ensures Governing([a, b], "x") == Success(b)
    ensures Top([a, b], "x", 0) && Top([a, b], "x", 1)
  {
    assert Glob("*", "x") by {
      assert "*"[1..] == "" && "x"[1..] == "";
      assert Glob("", "") && Glob("*", "");
    }
    LessTrichotomy(Specificity(a, "x"), Specificity(b, "x"));
    assert MostSpecific([a, b], "x", 1);
    GoverningIsWinner([a, b], "x", 1);
  }
}
