/** Automatic tagging (internal/client/tagger): rules with glob patterns are evaluated in
    tiers, and rules are learned from what the user tags by hand. Letters are lowered as
    in ASCII. */
module Tagger {
  import opened Base

  // ----- Text -----

  function LowerChar(c: char): char {
    if 'A' <= c <= 'Z' then c + 32 as char else c
  }

  /** strings.ToLower. */
  function Lower(s: string): string {
    seq(|s|, i requires 0 <= i < |s| => LowerChar(s[i]))
  }

  lemma LowerTwice(s: string)
    ensures Lower(Lower(s)) == Lower(s)
  {
  }

  /** The characters extractSignificantWords turns into spaces. */
  predicate IsSeparator(c: char) {
    c in "-—|·[]()/\\:"
  }

  function Clean(s: string): string {
    seq(|s|, i requires 0 <= i < |s| => if IsSeparator(s[i]) then ' ' else s[i])
  }

  /** unicode.IsSpace. */
  predicate IsSpace(c: char) {
    || '\t' <= c <= '\r' || c == ' ' || c == '\U{85}' || c == '\U{A0}' || c == '\U{1680}'
    || '\U{2000}' <= c <= '\U{200A}' || c == '\U{2028}' || c == '\U{2029}'
    || c == '\U{202F}' || c == '\U{205F}' || c == '\U{3000}'
  }

  /** The number of bytes of a string in UTF-8. */
  function ByteLen(s: string): nat {
    if s == "" then 0
    else
      ByteLen(s[1..])
      + if s[0] < '\U{80}' then 1 else if s[0] < '\U{800}' then 2 else if s[0] < '\U{10000}' then 3 else 4
  }

  /** The length of the run of non-space characters at the front. */
  function Run(s: string): (n: nat)
    ensures n <= |s| && (forall i :: 0 <= i < n ==> !IsSpace(s[i])) && (n < |s| ==> IsSpace(s[n]))
  {
    if s == "" || IsSpace(s[0]) then 0 else 1 + Run(s[1..])
  }

  /** strings.Fields. */
  function Fields(s: string): seq<string>
    decreases |s|
  {
    if s == "" then []
    else if IsSpace(s[0]) then Fields(s[1..])
    else [s[..Run(s)]] + Fields(s[Run(s)..])
  }

  predicate OccursAt(w: string, s: string, i: nat) {
    i + |w| <= |s| && s[i..i + |w|] == w
  }

  /** strings.Contains. */
  predicate OccursIn(w: string, s: string) {
    exists i: nat | i <= |s| :: OccursAt(w, s, i)
  }

  lemma OccursInSuffix(w: string, s: string, k: nat)
    requires k <= |s| && OccursIn(w, s[k..])
    ensures OccursIn(w, s)
  {
    var i: nat :| i <= |s[k..]| && OccursAt(w, s[k..], i);
    assert s[k + i..k + i + |w|] == s[k..][i..i + |w|];
    assert OccursAt(w, s, k + i);
  }

  /** A field is a space-free stretch of the text. */
  lemma {:induction false} FieldsAreStretches(s: string, w: string)
    requires w in Fields(s)
    ensures OccursIn(w, s) && forall i :: 0 <= i < |w| ==> !IsSpace(w[i])
    decreases |s|
  {
    if IsSpace(s[0]) {
      FieldsAreStretches(s[1..], w);
      OccursInSuffix(w, s, 1);
    } else if w == s[..Run(s)] {
      assert OccursAt(w, s, 0);
    } else {
      FieldsAreStretches(s[Run(s)..], w);
      OccursInSuffix(w, s, Run(s));
    }
  }

  /** What makes a word significant for a title. */
  ghost predicate IsSignificant(title: string, w: string) {
    ByteLen(w) > 3 && exists f :: f in Fields(Clean(title)) && w == Lower(f)
  }

  /** extractSignificantWords: lowered fields of more than three bytes, each once. */
  method ExtractSignificantWords(title: string) returns (words: seq<string>)
    ensures forall w :: w in words <==> IsSignificant(title, w)
    ensures forall i, j :: 0 <= i < j < |words| ==> words[i] != words[j]
    ensures words == Words(title)
  {
    var parts := Fields(Clean(title));
    words := [];
    var seen: set<string> := {};
    for i := 0 to |parts|
      invariant words == WordsOf(parts[..i]) && seen == set w | w in words
    {
      assert parts[..i + 1][..i] == parts[..i];
      var w := Lower(parts[i]);
      if ByteLen(w) > 3 && w !in seen {
        seen := seen + {w};
        words := words + [w];
      }
    }
    assert parts[..|parts|] == parts;
    WordsAreSignificant(parts);
  }

  function WordsOf(parts: seq<string>): seq<string> {
    if parts == [] then []
    else
      var rest, w := WordsOf(parts[..|parts| - 1]), Lower(parts[|parts| - 1]);
      if ByteLen(w) > 3 && w !in rest then rest + [w] else rest
  }

  function Words(title: string): seq<string> {
    WordsOf(Fields(Clean(title)))
  }

  lemma {:induction false} WordsAreSignificant(parts: seq<string>)
    ensures forall w :: w in WordsOf(parts) <==> ByteLen(w) > 3 && exists f :: f in parts && w == Lower(f)
    ensures forall i, j :: 0 <= i < j < |WordsOf(parts)| ==> WordsOf(parts)[i] != WordsOf(parts)[j]
  {
    if parts != [] {
      var init, last := parts[..|parts| - 1], parts[|parts| - 1];
      WordsAreSignificant(init);
      assert forall f :: f in parts <==> f in init || f == last;
    }
  }

  /** A significant word occurs in the lowered title, and holds no slash, bracket or
      backslash. */
  lemma WordOccurs(title: string, w: string)
    requires w in Words(title)
    ensures OccursIn(w, Lower(title)) && '/' !in w && '[' !in w && '\\' !in w
  {
    WordsAreSignificant(Fields(Clean(title)));
    var f :| f in Fields(Clean(title)) && w == Lower(f);
    FieldsAreStretches(Clean(title), f);
    var i: nat :| i <= |Clean(title)| && OccursAt(f, Clean(title), i);
    hide Words, Fields, WordsOf;
    StretchStays(title, f, i);
  }

  /** A space-free stretch of the cleaned title is a stretch of the title. */
  lemma StretchStays(title: string, f: string, i: nat)
    requires OccursAt(f, Clean(title), i) && forall k :: 0 <= k < |f| ==> !IsSpace(f[k])
    ensures OccursIn(Lower(f), Lower(title)) && '/' !in Lower(f) && '[' !in Lower(f) && '\\' !in Lower(f)
  {
    var w := Lower(f);
    forall k | 0 <= k < |w| ensures w[k] == Lower(title)[i + k] && w[k] != '/' && w[k] != '[' && w[k] != '\\' {
      assert f[k] == Clean(title)[i + k] && !IsSpace(f[k]);
      assert f[k] == title[i + k] && !IsSeparator(title[i + k]);
    }
    assert Lower(title)[i..i + |w|] == w;
    assert OccursAt(w, Lower(title), i);
  }

  /** No word reaches across a separating character or a space. */
  lemma WordsAreSeparated(title: string, w: string, c: char)
    requires w in Words(title) && c in "-—|·[]()/\\: \t\n\r"
    ensures c !in w
  {
    WordsAreSignificant(Fields(Clean(title)));
    var f :| f in Fields(Clean(title)) && w == Lower(f);
    FieldsAreStretches(Clean(title), f);
    var i: nat :| i <= |Clean(title)| && OccursAt(f, Clean(title), i);
    hide Words, Fields, WordsOf, ByteLen;
    StretchIsClean(title, f, i);
    hide Clean, OccursAt;
  }

  lemma StretchIsClean(title: string, f: string, i: nat)
    requires OccursAt(f, Clean(title), i) && forall k :: 0 <= k < |f| ==> !IsSpace(f[k])
    ensures forall k :: 0 <= k < |f| ==> !IsSpace(f[k]) && !IsSeparator(f[k])
  {
    forall k | 0 <= k < |f| ensures !IsSeparator(f[k]) {
      assert f[k] == Clean(title)[i + k] && !IsSpace(f[k]);
    }
  }

  /** A title without them is one word, in lower case, if it is longer than three bytes. */
  lemma UnbrokenTitle(title: string)
    requires title != "" && forall c :: c in title ==> !IsSpace(c) && c !in "-—|·[]()/\\:"
    ensures Words(title) == if ByteLen(Lower(title)) > 3 then [Lower(title)] else []
  {
    assert Clean(title) == title;
    assert title[0] in title && forall i :: 0 <= i < |title| ==> title[i] in title;
    assert Run(title) == |title| && title[..|title|] == title && title[|title|..] == "";
    assert Fields("") == [];
    assert Fields(title) == [title] + [];
    var parts := [title];
    assert parts[..0] == [] && Fields(title) == parts;
    assert WordsOf(parts[..0]) == [];
  }

  lemma LowerExample()
    ensures Lower("VS Code") == "vs code"
  {
  }

  // ----- Globs -----

  /** The platform decides the path separator; on Windows that is the backslash, which
      then escapes nothing. */
  datatype Platform = Posix | Windows
  {
    function Separator(): char {
      if Posix? then '/' else '\\'
    }
  }

  /** The platform's filepath.Match; `other` decides patterns with brackets or escapes. */
  datatype Matcher = Matcher(platform: Platform, other: (string, string) -> bool)

  predicate IsPlain(p: string, platform: Platform) {
    '[' !in p && (platform.Posix? ==> '\\' !in p)
  }

  /** filepath.Match for patterns without brackets and escapes: a star matches any run of
      characters but separators, a question mark any one of them. */
  predicate Match(p: string, n: string, sep: char)
    decreases |p| + |n|
  {
    if p == "" then n == ""
    else if p[0] == '*' then Match(p[1..], n, sep) || (n != "" && n[0] != sep && Match(p, n[1..], sep))
    else n != "" && (if p[0] == '?' then n[0] != sep else p[0] == n[0]) && Match(p[1..], n[1..], sep)
  }

  predicate Glob(p: string, n: string, m: Matcher) {
    if IsPlain(p, m.platform) then Match(p, n, m.platform.Separator()) else m.other(p, n)
  }

  lemma {:induction false} MatchesItself(s: string, sep: char)
    requires sep != '*' && sep != '?'
    ensures Match(s, s, sep)
  {
    if s != "" {
      MatchesItself(s[1..], sep);
      if s[0] == '*' {
        assert Match(s[1..], s[1..], sep);
        assert Match(s, s[1..], sep);
      }
    }
  }

  lemma {:induction false} StarMatches(s: string, sep: char)
    requires sep !in s
    ensures Match("*", s, sep)
  {
    if s != "" {
      assert s[0] in s && forall c :: c in s[1..] ==> c in s;
      StarMatches(s[1..], sep);
    } else {
      assert "*"[1..] == "";
    }
  }

  lemma {:induction false} WordThenStar(w: string, rest: string, sep: char)
    requires sep !in w && sep !in rest
    ensures Match(w + "*", w + rest, sep)
  {
    if w == "" {
      assert w + "*" == "*" && w + rest == rest;
      StarMatches(rest, sep);
    } else {
      assert w[0] in w && forall c :: c in w[1..] ==> c in w;
      WordThenStar(w[1..], rest, sep);
      assert (w + "*")[1..] == w[1..] + "*" && (w + rest)[1..] == w[1..] + rest;
      if w[0] == '*' {
        assert Match(w + "*", (w + rest)[1..], sep);
      }
    }
  }

  lemma {:induction false} StarSkips(q: string, n: string, k: nat, sep: char)
    requires k <= |n| && sep !in n[..k] && Match(q, n[k..], sep)
    ensures Match("*" + q, n, sep)
    decreases k
  {
    assert ("*" + q)[1..] == q;
    if k == 0 {
      assert n[0..] == n;
    } else {
      assert n[0] == n[..k][0] && n[1..][..k - 1] == n[..k][1..] && n[1..][k - 1..] == n[k..];
      assert forall c :: c in n[..k][1..] ==> c in n[..k];
      StarSkips(q, n[1..], k - 1, sep);
    }
  }

  /** A pattern without a separator matches no name with one. */
  lemma {:induction false} SeparatorNeedsSeparator(p: string, n: string, sep: char)
    requires sep !in p && Match(p, n, sep)
    ensures sep !in n
    decreases |p| + |n|
  {
    if p != "" {
      assert p[0] in p && forall c :: c in p[1..] ==> c in p;
      if p[0] == '*' && Match(p[1..], n, sep) {
        SeparatorNeedsSeparator(p[1..], n, sep);
      } else if p[0] == '*' {
        SeparatorNeedsSeparator(p, n[1..], sep);
        assert n == [n[0]] + n[1..];
      } else {
        SeparatorNeedsSeparator(p[1..], n[1..], sep);
        assert n == [n[0]] + n[1..];
      }
    }
  }

  /** A pattern without stars and question marks matches itself only. */
  lemma {:induction false} LiteralMatches(p: string, n: string, sep: char)
    requires '*' !in p && '?' !in p
    ensures Match(p, n, sep) <==> p == n
  {
    if p != "" {
      assert p[0] in p && forall c :: c in p[1..] ==> c in p;
      if n != "" {
        LiteralMatches(p[1..], n[1..], sep);
        assert p == [p[0]] + p[1..] && n == [n[0]] + n[1..];
      }
    }
  }

  /** What a star stands for: any beginning. */
  lemma {:induction false} StarSplits(q: string, n: string, sep: char)
    requires Match("*" + q, n, sep)
    ensures exists k: nat :: k <= |n| && Match(q, n[k..], sep)
    decreases |n|
  {
    assert ("*" + q)[1..] == q;
    if Match(q, n, sep) {
      assert n[0..] == n;
    } else {
      StarSplits(q, n[1..], sep);
      var j: nat :| j <= |n[1..]| && Match(q, n[1..][j..], sep);
      assert n[1..][j..] == n[j + 1..];
    }
  }

  lemma {:induction false} LiteralPrefix(w: string, n: string, sep: char)
    requires '*' !in w && Match(w + "*", n, sep) && '?' !in w
    ensures w <= n
  {
    if w != "" {
      assert w[0] in w && forall c :: c in w[1..] ==> c in w;
      assert (w + "*")[1..] == w[1..] + "*";
      LiteralPrefix(w[1..], n[1..], sep);
    }
  }

  /** A word between two stars matches exactly the names that hold it and no separator. */
  lemma WordBetweenStars(w: string, n: string, sep: char)
    requires '*' !in w && '?' !in w && sep !in w && sep != '*'
    ensures Match("*" + w + "*", n, sep) <==> sep !in n && OccursIn(w, n)
  {
    var p := "*" + w + "*";
    assert p == "*" + (w + "*");
    if Match(p, n, sep) {
      SeparatorNeedsSeparator(p, n, sep);
      StarSplits(w + "*", n, sep);
      var k: nat :| k <= |n| && Match(w + "*", n[k..], sep);
      LiteralPrefix(w, n[k..], sep);
      assert n[k..][..|w|] == w && OccursAt(w, n, k);
    }
    if sep !in n && OccursIn(w, n) {
      WordPatternMatches(w, n, sep);
    }
  }

  // ----- Rules -----

  datatype Rule = Rule(
    id: int, tagID: int, appPattern: string, titlePattern: Option<string>, priority: int, suggested: bool)
  datatype FocusContext = FocusContext(appName: string, windowTitle: string)

  predicate MatchesRule(ctx: FocusContext, r: Rule, m: Matcher) {
    && Glob(Lower(r.appPattern), Lower(ctx.appName), m)
    && (r.titlePattern.Some? ==> Glob(Lower(r.titlePattern.value), Lower(ctx.windowTitle), m))
  }

  /** Title rules, application rules, then suggested title and application rules. */
  function Tier(r: Rule): nat {
    if !r.suggested then (if r.titlePattern.Some? then 0 else 1) else if r.titlePattern.Some? then 2 else 3
  }

  /** Rule `i` wins: it matches, and every matching rule is in a later tier, or in the
      same tier and later in the list. */
  ghost predicate Wins(ctx: FocusContext, rules: seq<Rule>, i: nat, m: Matcher) {
    && i < |rules| && MatchesRule(ctx, rules[i], m)
    && forall j :: 0 <= j < |rules| && MatchesRule(ctx, rules[j], m) ==>
         Tier(rules[i]) < Tier(rules[j]) || (Tier(rules[i]) == Tier(rules[j]) && i <= j)
  }

  /** Partitions the rules into tiers and returns the first match of the first tier that
      has one. */
  method Evaluate(ctx: FocusContext, rules: seq<Rule>, m: Matcher) returns (found: Option<Rule>)
    ensures found.None? <==> forall r :: r in rules ==> !MatchesRule(ctx, r, m)
    ensures found.Some? ==> exists i: nat :: Wins(ctx, rules, i, m) && found.value == rules[i]
  {
    var titleRules, appRules, suggestedTitle, suggestedApp := [], [], [], [];
    for i := 0 to |rules|
      invariant titleRules == InTier(rules[..i], 0) && appRules == InTier(rules[..i], 1)
      invariant suggestedTitle == InTier(rules[..i], 2) && suggestedApp == InTier(rules[..i], 3)
    {
      var r := rules[i];
      assert rules[..i + 1][..i] == rules[..i];
      if r.suggested {
        if r.titlePattern.Some? {
          suggestedTitle := suggestedTitle + [r];
        } else {
          suggestedApp := suggestedApp + [r];
        }
      } else if r.titlePattern.Some? {
        titleRules := titleRules + [r];
      } else {
        appRules := appRules + [r];
      }
    }
    assert rules[..|rules|] == rules;
    var tiers := [titleRules, appRules, suggestedTitle, suggestedApp];
    for t := 0 to 4
      invariant forall u: nat :: u < t ==> NoMatch(ctx, InTier(rules, u), m)
    {
      found := EvaluateTier(ctx, tiers[t], m);
      if found.Some? {
        ghost var k :| 0 <= k < |tiers[t]| && found.value == tiers[t][k] && NoMatch(ctx, tiers[t][..k], m);
        WinnerOfTier(ctx, rules, t, k, m);
        return;
      }
    }
    NothingInTiers(ctx, rules, m);
    return None;
  }

  ghost predicate NoMatch(ctx: FocusContext, rules: seq<Rule>, m: Matcher) {
    forall r :: r in rules ==> !MatchesRule(ctx, r, m)
  }

  method EvaluateTier(ctx: FocusContext, rules: seq<Rule>, m: Matcher)
    returns (found: Option<Rule>)
    ensures found.None? ==> NoMatch(ctx, rules, m)
    ensures found.Some? ==> exists k :: 0 <= k < |rules| && found.value == rules[k] && MatchesRule(ctx, rules[k], m)
                                        && NoMatch(ctx, rules[..k], m)
  {
    for k := 0 to |rules|
      invariant NoMatch(ctx, rules[..k], m)
    {
      PrefixStep(rules, k);
      if MatchesRule(ctx, rules[k], m) {
        return Some(rules[k]);
      }
    }
    assert rules[..|rules|] == rules;
    return None;
  }

  function InTier(rules: seq<Rule>, t: nat): seq<Rule> {
    if rules == [] then []
    else
      var rest, r := InTier(rules[..|rules| - 1], t), rules[|rules| - 1];
      if Tier(r) == t then rest + [r] else rest
  }

  lemma {:induction false} InTierIsFilter(rules: seq<Rule>, t: nat)
    ensures forall r :: r in InTier(rules, t) <==> r in rules && Tier(r) == t
  {
    if rules != [] {
      InTierIsFilter(rules[..|rules| - 1], t);
      assert forall r :: r in rules <==> r in rules[..|rules| - 1] || r == rules[|rules| - 1];
    }
  }

  lemma NothingInTiers(ctx: FocusContext, rules: seq<Rule>, m: Matcher)
    requires forall u: nat :: u < 4 ==> NoMatch(ctx, InTier(rules, u), m)
    ensures NoMatch(ctx, rules, m)
  {
    forall r | r in rules ensures !MatchesRule(ctx, r, m) {
      InTierIsFilter(rules, Tier(r));
      assert r in InTier(rules, Tier(r));
    }
  }

  /** The k-th rule of a tier sits somewhere in the list, after all earlier rules of the
      tier. */
  lemma {:induction false} TierPosition(rules: seq<Rule>, t: nat, k: nat) returns (i: nat)
    requires k < |InTier(rules, t)|
    ensures i < |rules| && rules[i] == InTier(rules, t)[k] && Tier(rules[i]) == t
    ensures InTier(rules[..i], t) == InTier(rules, t)[..k]
  {
    var init := rules[..|rules| - 1];
    if k < |InTier(init, t)| {
      i := TierPosition(init, t, k);
      assert init[..i] == rules[..i];
    } else {
      i := |rules| - 1;
    }
  }

  lemma WinnerOfTier(ctx: FocusContext, rules: seq<Rule>, t: nat, k: nat, m: Matcher)
    requires t < 4 && forall u: nat :: u < t ==> NoMatch(ctx, InTier(rules, u), m)
    requires k < |InTier(rules, t)| && NoMatch(ctx, InTier(rules, t)[..k], m)
    requires MatchesRule(ctx, InTier(rules, t)[k], m)
    ensures exists i: nat :: Wins(ctx, rules, i, m) && InTier(rules, t)[k] == rules[i]
    ensures InTier(rules, t)[k] in rules
  {
    var i := TierPosition(rules, t, k);
    InTierIsFilter(rules[..i], t);
    forall j | 0 <= j < i ensures rules[j] in rules[..i] {
      assert rules[..i][j] == rules[j];
    }
    forall j | 0 <= j < |rules| && MatchesRule(ctx, rules[j], m)
      ensures t < Tier(rules[j]) || (t == Tier(rules[j]) && i <= j)
    {
      InTierIsFilter(rules, Tier(rules[j]));
      assert rules[j] in InTier(rules, Tier(rules[j]));
    }
    assert Wins(ctx, rules, i, m);
  }

  /** A rule whose patterns hold no stars and question marks matches its texts, in any case. */
  lemma LiteralRuleMatches(r: Rule, ctx: FocusContext, m: Matcher)
    requires IsLiteral(Lower(r.appPattern), m.platform)
    requires r.titlePattern.Some? ==> IsLiteral(Lower(r.titlePattern.value), m.platform)
    ensures MatchesRule(ctx, r, m)
            <==> Lower(r.appPattern) == Lower(ctx.appName)
                 && (r.titlePattern.Some? ==> Lower(r.titlePattern.value) == Lower(ctx.windowTitle))
  {
    LiteralMatches(Lower(r.appPattern), Lower(ctx.appName), m.platform.Separator());
    if r.titlePattern.Some? {
      LiteralMatches(Lower(r.titlePattern.value), Lower(ctx.windowTitle), m.platform.Separator());
    }
  }

  predicate IsLiteral(p: string, platform: Platform) {
    IsPlain(p, platform) && '*' !in p && '?' !in p
  }

  /** Who wins over whom: the user's rules over suggested ones, of either kind those with a
      title over those without, and the first in the list among equals. */
  lemma WinnerBeats(ctx: FocusContext, rules: seq<Rule>, i: nat, j: nat, m: Matcher)
    requires Wins(ctx, rules, i, m) && j < |rules| && MatchesRule(ctx, rules[j], m)
    ensures var r, other := rules[i], rules[j];
            if r.suggested != other.suggested then other.suggested
            else if r.titlePattern.Some? != other.titlePattern.Some? then r.titlePattern.Some?
            else i <= j
  {
  }

  // ----- Learning -----

  /** A pattern of manual tagging; an empty word stands for the application alone. */
  datatype PatternKey = PatternKey(appName: string, word: string, tagID: int)

  datatype Observation = Observation(appName: string, windowTitle: string, tagID: int)

  /** The learner's counts and the rules in its store. */
  datatype State = State(counts: map<PatternKey, nat>, rules: seq<Rule>)

  function CountOf(counts: map<PatternKey, nat>, key: PatternKey): nat {
    if key in counts then counts[key] else 0
  }

  /** The rule proposed for a key. */
  function RuleFor(key: PatternKey, id: int): Rule {
    Rule(id, key.tagID, key.appName, if key.word == "" then None else Some("*" + key.word + "*"), 0, true)
  }

  /** A similar rule is in the store already. */
  predicate Similar(r: Rule, key: PatternKey) {
    && Lower(r.appPattern) == Lower(key.appName) && r.tagID == key.tagID
    && ((key.word == "" && r.titlePattern.None?)
        || (r.titlePattern.Some? && OccursIn(key.word, Lower(r.titlePattern.value))))
  }

  predicate HasSimilar(rules: seq<Rule>, key: PatternKey) {
    exists i :: 0 <= i < |rules| && Similar(rules[i], key)
  }

  /** proposeSuggestion; `createOk` says whether the store takes the new rule. */
  function Propose(rules: seq<Rule>, key: PatternKey, createOk: bool): seq<Rule> {
    if HasSimilar(rules, key) || !createOk then rules else rules + [RuleFor(key, |rules| + 1)]
  }

  /** Counts one more occurrence, and proposes a rule when the count hits the threshold. */
  function Bump(s: State, key: PatternKey, threshold: nat, createOk: bool): State {
    var n := CountOf(s.counts, key) + 1;
    State(s.counts[key := n], if n == threshold then Propose(s.rules, key, createOk) else s.rules)
  }

  function WordKey(o: Observation, w: string): PatternKey {
    PatternKey(Lower(o.appName), w, o.tagID)
  }

  function BumpWords(s: State, o: Observation, words: seq<string>, threshold: nat, createOk: bool): State {
    if words == [] then s
    else
      var before := BumpWords(s, o, words[..|words| - 1], threshold, createOk);
      Bump(before, WordKey(o, words[|words| - 1]), threshold, createOk)
  }

  /** ObserveManualTag: the application is counted first, but proposed last. */
  function Observe(s: State, o: Observation, threshold: nat, createOk: bool): State {
    var app := WordKey(o, "");
    var n := CountOf(s.counts, app) + 1;
    var t := BumpWords(s.(counts := s.counts[app := n]), o, Words(o.windowTitle), threshold, createOk);
    if n == threshold then t.(rules := Propose(t.rules, app, createOk)) else t
  }

  /** A learner that starts with the rules in its store and sees the observations. */
  function Learn(rules: seq<Rule>, seen: seq<(Observation, bool)>, threshold: nat): State {
    if seen == [] then State(map[], rules)
    else
      var last := seen[|seen| - 1];
      Observe(Learn(rules, seen[..|seen| - 1], threshold), last.0, threshold, last.1)
  }

  /** The observation counts towards the key. */
  ghost predicate CountsTowards(o: Observation, key: PatternKey) {
    && key.appName == Lower(o.appName) && key.tagID == o.tagID
    && (key.word == "" || key.word in Words(o.windowTitle))
  }

  /** How many observations count towards the key. */
  ghost function Evidence(seen: seq<(Observation, bool)>, key: PatternKey): nat {
    if seen == [] then 0
    else Evidence(seen[..|seen| - 1], key) + if CountsTowards(seen[|seen| - 1].0, key) then 1 else 0
  }

  /** A key that observations can count towards. */
  ghost predicate IsKey(key: PatternKey) {
    key.word == "" || exists title :: key.word in Words(title)
  }

  ghost predicate IsLearned(r: Rule, key: PatternKey) {
    r.suggested && r.appPattern == key.appName && r.tagID == key.tagID
    && r.titlePattern == if key.word == "" then None else Some("*" + key.word + "*")
  }

  /** Rule `i` was learned from a key counted to the threshold, to which no earlier rule
      is similar. */
  ghost predicate IsBacked(s: State, i: nat, key: PatternKey, threshold: nat)
    requires i < |s.rules|
  {
    IsLearned(s.rules[i], key) && CountOf(s.counts, key) >= threshold && !HasSimilar(s.rules[..i], key)
  }

  ghost predicate HasBacking(s: State, i: nat, threshold: nat)
    requires i < |s.rules|
  {
    exists key :: IsBacked(s, i, key, threshold)
  }

  /** Every rule from position `n` on is backed by some key. */
  ghost predicate Backed(s: State, n: nat, threshold: nat) {
    n <= |s.rules| && forall i :: n <= i < |s.rules| ==> HasBacking(s, i, threshold)
  }

  lemma ProposeKeepsBacked(s: State, n: nat, threshold: nat, key: PatternKey, createOk: bool)
    requires Backed(s, n, threshold) && CountOf(s.counts, key) >= threshold
    ensures Backed(s.(rules := Propose(s.rules, key, createOk)), n, threshold)
    ensures s.rules <= Propose(s.rules, key, createOk)
  {
    var t := s.(rules := Propose(s.rules, key, createOk));
    forall i | n <= i < |t.rules| ensures HasBacking(t, i, threshold) {
      assert t.rules[..i] == s.rules[..i];
      if i < |s.rules| {
        assert HasBacking(s, i, threshold);
        var k :| IsBacked(s, i, k, threshold);
        assert IsBacked(t, i, k, threshold);
      } else {
        assert s.rules[..i] == s.rules;
        assert IsBacked(t, i, key, threshold);
      }
    }
  }

  lemma CountMoreKeepsBacked(s: State, n: nat, threshold: nat, key: PatternKey)
    requires Backed(s, n, threshold)
    ensures Backed(s.(counts := s.counts[key := CountOf(s.counts, key) + 1]), n, threshold)
  {
    var t := s.(counts := s.counts[key := CountOf(s.counts, key) + 1]);
    forall i | n <= i < |t.rules| ensures HasBacking(t, i, threshold) {
      assert HasBacking(s, i, threshold);
      var k :| IsBacked(s, i, k, threshold);
      assert IsBacked(t, i, k, threshold);
    }
  }

  lemma {:induction false} BumpWordsKeepsBacked(
    s: State, o: Observation, words: seq<string>, n: nat, threshold: nat, createOk: bool)
    requires Backed(s, n, threshold)
    ensures Backed(BumpWords(s, o, words, threshold, createOk), n, threshold)
    ensures s.rules <= BumpWords(s, o, words, threshold, createOk).rules
  {
    if words != [] {
      var t, key := BumpWords(s, o, words[..|words| - 1], threshold, createOk), WordKey(o, words[|words| - 1]);
      BumpWordsKeepsBacked(s, o, words[..|words| - 1], n, threshold, createOk);
      CountMoreKeepsBacked(t, n, threshold, key);
      var u := t.(counts := t.counts[key := CountOf(t.counts, key) + 1]);
      if CountOf(u.counts, key) == threshold {
        ProposeKeepsBacked(u, n, threshold, key, createOk);
      }
    }
  }

  /** Counting the words adds one to each, and leaves other keys alone. */
  lemma {:induction false} BumpWordsCounts(
    s: State, o: Observation, words: seq<string>, threshold: nat, createOk: bool, key: PatternKey)
    requires forall i, j :: 0 <= i < j < |words| ==> words[i] != words[j]
    ensures CountOf(BumpWords(s, o, words, threshold, createOk).counts, key)
            == CountOf(s.counts, key) + if key.word in words && key == WordKey(o, key.word) then 1 else 0
  {
    if words != [] {
      BumpWordsCounts(s, o, words[..|words| - 1], threshold, createOk, key);
      assert forall w :: w in words <==> w in words[..|words| - 1] || w == words[|words| - 1];
    }
  }

  lemma EmptyWordNotSignificant(title: string)
    ensures "" !in Words(title)
  {
    WordsAreSignificant(Fields(Clean(title)));
  }

  lemma ObserveCounts(s: State, o: Observation, threshold: nat, createOk: bool, key: PatternKey)
    ensures CountOf(Observe(s, o, threshold, createOk).counts, key)
            == CountOf(s.counts, key) + if CountsTowards(o, key) then 1 else 0
  {
    var app, words := WordKey(o, ""), Words(o.windowTitle);
    var t := s.(counts := s.counts[app := CountOf(s.counts, app) + 1]);
    WordsAreSignificant(Fields(Clean(o.windowTitle)));
    EmptyWordNotSignificant(o.windowTitle);
    BumpWordsCounts(t, o, words, threshold, createOk, key);
  }

  lemma ObserveKeepsBacked(s: State, o: Observation, n: nat, threshold: nat, createOk: bool)
    requires Backed(s, n, threshold)
    ensures Backed(Observe(s, o, threshold, createOk), n, threshold)
    ensures s.rules <= Observe(s, o, threshold, createOk).rules
  {
    var app, words := WordKey(o, ""), Words(o.windowTitle);
    var t := s.(counts := s.counts[app := CountOf(s.counts, app) + 1]);
    CountMoreKeepsBacked(s, n, threshold, app);
    BumpWordsKeepsBacked(t, o, words, n, threshold, createOk);
    var u := BumpWords(t, o, words, threshold, createOk);
    WordsAreSignificant(Fields(Clean(o.windowTitle)));
    EmptyWordNotSignificant(o.windowTitle);
    BumpWordsCounts(t, o, words, threshold, createOk, app);
    if CountOf(t.counts, app) == threshold {
      ProposeKeepsBacked(u, n, threshold, app, createOk);
    }
  }

  /** The counts are the evidence, and the rules beyond the initial ones are backed. */
  lemma {:induction false} LearnCounts(rules: seq<Rule>, seen: seq<(Observation, bool)>, threshold: nat)
    ensures var s := Learn(rules, seen, threshold);
            && (forall key :: CountOf(s.counts, key) == Evidence(seen, key))
            && Backed(s, |rules|, threshold) && rules <= s.rules
  {
    if seen != [] {
      var init, last := seen[..|seen| - 1], seen[|seen| - 1];
      LearnCounts(rules, init, threshold);
      ObserveKeepsBacked(Learn(rules, init, threshold), last.0, |rules|, threshold, last.1);
      forall key ensures CountOf(Learn(rules, seen, threshold).counts, key) == Evidence(seen, key) {
        ObserveCounts(Learn(rules, init, threshold), last.0, threshold, last.1, key);
      }
    }
  }

  // ----- Main results -----

  /** A rule learned from a key matches a context that counts towards the key exactly
      when the rule is for the application alone or the title holds no separator. */
  lemma LearnedRuleMatchesEvidence(r: Rule, key: PatternKey, o: Observation, m: Matcher)
    requires IsLearned(r, key) && CountsTowards(o, key) && IsPlain(o.appName, m.platform)
    ensures MatchesRule(FocusContext(o.appName, o.windowTitle), r, m)
            <==> key.word == "" || m.platform.Separator() !in o.windowTitle
  {
    var app, title, sep := Lower(o.appName), Lower(o.windowTitle), m.platform.Separator();
    LowerTwice(o.appName);
    MatchesItself(app, sep);
    PlainStaysPlain(o.appName, m.platform);
    SeparatorStays(o.windowTitle, sep);
    if key.word != "" {
      WordOccurs(o.windowTitle, key.word);
      WordPattern(o.windowTitle, key.word, m.platform);
      if sep in title {
        if Match("*" + key.word + "*", title, sep) {
          SeparatorNeedsSeparator("*" + key.word + "*", title, sep);
        }
      } else {
        WordPatternMatches(key.word, title, sep);
      }
    }
  }

  /** Exactly which contexts a learned rule matches, if its texts hold no stars and question
      marks: those of its application, in any case, with its word in the title and no
      separator there. */
  lemma LearnedRuleMatchesIff(r: Rule, key: PatternKey, ctx: FocusContext, m: Matcher)
    requires IsLearned(r, key) && IsKey(key) && Lower(key.appName) == key.appName && IsPlain(key.appName, m.platform)
    requires '*' !in key.appName + key.word && '?' !in key.appName + key.word
    ensures MatchesRule(ctx, r, m)
            <==> Lower(ctx.appName) == key.appName
                 && (key.word == "" ||
                     (m.platform.Separator() !in ctx.windowTitle && OccursIn(key.word, Lower(ctx.windowTitle))))
  {
    var sep := m.platform.Separator();
    assert '*' !in key.appName && '?' !in key.appName && '*' !in key.word && '?' !in key.word by {
      assert forall c :: c in key.appName || c in key.word ==> c in key.appName + key.word;
    }
    LiteralMatches(key.appName, Lower(ctx.appName), sep);
    if key.word != "" {
      var title :| key.word in Words(title);
      WordPattern(title, key.word, m.platform);
      WordOccurs(title, key.word);
      hide Words, OccursIn;
      WordBetweenStars(key.word, Lower(ctx.windowTitle), sep);
      SeparatorStays(ctx.windowTitle, sep);
    }
  }

  lemma PlainStaysPlain(s: string, platform: Platform)
    requires IsPlain(s, platform)
    ensures IsPlain(Lower(s), platform)
  {
  }

  lemma SeparatorStays(s: string, sep: char)
    requires sep == '/' || sep == '\\'
    ensures sep in Lower(s) <==> sep in s
  {
    if sep in s {
      var i :| 0 <= i < |s| && s[i] == sep;
      assert Lower(s)[i] == sep;
    }
  }

  /** The pattern for a significant word is plain and already in lower case. */
  lemma WordPattern(title: string, w: string, platform: Platform)
    requires w in Words(title)
    ensures var p := "*" + w + "*";
            Lower(p) == p && IsPlain(p, platform) && platform.Separator() !in p
  {
    WordOccurs(title, w);
    WordsAreSignificant(Fields(Clean(title)));
    var f :| f in Fields(Clean(title)) && w == Lower(f);
    LowerTwice(f);
    hide Words, Fields, Clean;
    LowerPattern(w);
  }

  lemma LowerPattern(w: string)
    requires Lower(w) == w
    ensures Lower("*" + w + "*") == "*" + w + "*"
  {
    var p := "*" + w + "*";
    forall i | 0 <= i < |p| ensures Lower(p)[i] == p[i] {
      if 0 < i < |p| - 1 {
        assert p[i] == w[i - 1] && Lower(w)[i - 1] == w[i - 1];
      }
    }
  }

  lemma WordPatternMatches(w: string, title: string, sep: char)
    requires OccursIn(w, title) && sep !in w && sep !in title
    ensures Match("*" + w + "*", title, sep)
  {
    var i: nat :| i <= |title| && OccursAt(w, title, i);
    var rest := title[i + |w|..];
    assert title[i..] == w + rest;
    assert forall c :: c in rest || c in title[..i] ==> c in title;
    WordThenStar(w, rest, sep);
    StarSkips(w + "*", title, i, sep);
    assert "*" + (w + "*") == "*" + w + "*";
  }

  /** Every rule the learner has added was backed by enough observations and resembles no
      rule that was there before it. For any observed context that counted towards it,
      without a separator in the title, evaluating any list that holds the rule finds a match. */
  lemma LearnedRulesWork(rules: seq<Rule>, seen: seq<(Observation, bool)>, threshold: nat, i: nat)
    returns (key: PatternKey)
    requires |rules| <= i < |Learn(rules, seen, threshold).rules|
    ensures IsLearned(Learn(rules, seen, threshold).rules[i], key) && Evidence(seen, key) >= threshold
    ensures !HasSimilar(Learn(rules, seen, threshold).rules[..i], key)
    ensures forall o, list, m: Matcher ::
              CountsTowards(o, key) && IsPlain(o.appName, m.platform) && m.platform.Separator() !in o.windowTitle
              && Learn(rules, seen, threshold).rules[i] in list ==>
                !NoMatch(FocusContext(o.appName, o.windowTitle), list, m)
  {
    LearnCounts(rules, seen, threshold);
    var s := Learn(rules, seen, threshold);
    var r := s.rules[i];
    assert HasBacking(s, i, threshold);
    key :| IsBacked(s, i, key, threshold);
    forall o, list, m: Matcher |
      CountsTowards(o, key) && IsPlain(o.appName, m.platform) && m.platform.Separator() !in o.windowTitle && r in list
      ensures !NoMatch(FocusContext(o.appName, o.windowTitle), list, m)
    {
      LearnedRuleMatchesEvidence(r, key, o, m);
    }
  }

  // ----- Nothing is missed -----

  /** The rule proposed for a key is similar to it. */
  lemma ProposalIsSimilar(key: PatternKey, id: int)
    requires IsKey(key)
    ensures Similar(RuleFor(key, id), key)
  {
    if key.word != "" {
      var title :| key.word in Words(title);
      WordPattern(title, key.word, Posix);
      assert OccursAt(key.word, "*" + key.word + "*", 1);
    }
  }

  lemma MoreRulesStaySimilar(rules: seq<Rule>, more: seq<Rule>, key: PatternKey)
    requires HasSimilar(rules, key) && rules <= more
    ensures HasSimilar(more, key)
  {
    var i :| 0 <= i < |rules| && Similar(rules[i], key);
    assert more[i] == rules[i];
  }

  lemma ProposeLeavesSimilar(rules: seq<Rule>, key: PatternKey)
    requires IsKey(key)
    ensures HasSimilar(Propose(rules, key, true), key)
  {
    ProposalIsSimilar(key, |rules| + 1);
    var more := Propose(rules, key, true);
    if !HasSimilar(rules, key) {
      assert more[|rules|] == RuleFor(key, |rules| + 1);
    }
  }

  /** A word whose count hits the threshold in the loop has a similar rule after it. */
  lemma {:induction false} BumpWordsProposes(
    s: State, o: Observation, words: seq<string>, threshold: nat, key: PatternKey)
    requires forall i, j :: 0 <= i < j < |words| ==> words[i] != words[j]
    requires IsKey(key) && key == WordKey(o, key.word) && key.word in words && CountOf(s.counts, key) + 1 == threshold
    ensures HasSimilar(BumpWords(s, o, words, threshold, true).rules, key)
  {
    hide IsKey, Similar, Lower;
    var init, last := words[..|words| - 1], words[|words| - 1];
    var t := BumpWords(s, o, init, threshold, true);
    if last == key.word {
      BumpWordsCounts(s, o, init, threshold, true, key);
      ProposeLeavesSimilar(t.rules, key);
    } else {
      assert key.word in init;
      BumpWordsProposes(s, o, init, threshold, key);
      MoreRulesStaySimilar(t.rules, Bump(t, WordKey(o, last), threshold, true).rules, key);
    }
  }

  lemma {:induction false} BumpWordsKeepsRules(
    s: State, o: Observation, words: seq<string>, threshold: nat, createOk: bool)
    ensures s.rules <= BumpWords(s, o, words, threshold, createOk).rules
  {
    if words != [] {
      BumpWordsKeepsRules(s, o, words[..|words| - 1], threshold, createOk);
    }
  }

  lemma ObserveProposes(s: State, o: Observation, threshold: nat, key: PatternKey)
    requires CountOf(s.counts, key) >= threshold ==> HasSimilar(s.rules, key)
    requires CountOf(Observe(s, o, threshold, true).counts, key) >= threshold
    ensures HasSimilar(Observe(s, o, threshold, true).rules, key)
  {
    var app, words := WordKey(o, ""), Words(o.windowTitle);
    var t := s.(counts := s.counts[app := CountOf(s.counts, app) + 1]);
    var u, v := BumpWords(t, o, words, threshold, true), Observe(s, o, threshold, true);
    ObserveCounts(s, o, threshold, true, key);
    BumpWordsKeepsRules(t, o, words, threshold, true);
    hide Similar, Lower, BumpWords, Words, HasSimilar;
    if CountOf(s.counts, key) >= threshold {
      MoreRulesStaySimilar(s.rules, v.rules, key);
    } else if key.word == "" {
      assert key == app && IsKey(key);
      ProposeLeavesSimilar(u.rules, key);
    } else {
      WordIsProposed(t, o, threshold, key);
      MoreRulesStaySimilar(u.rules, v.rules, key);
    }
  }

  lemma WordIsProposed(t: State, o: Observation, threshold: nat, key: PatternKey)
    requires CountsTowards(o, key) && key.word != "" && CountOf(t.counts, key) + 1 == threshold
    ensures HasSimilar(BumpWords(t, o, Words(o.windowTitle), threshold, true).rules, key)
  {
    hide Similar, Lower, BumpWords, Words, HasSimilar;
    assert IsKey(key);
    DistinctWords(o.windowTitle);
    BumpWordsProposes(t, o, Words(o.windowTitle), threshold, key);
  }

  lemma DistinctWords(title: string)
    ensures forall i, j :: 0 <= i < j < |Words(title)| ==> Words(title)[i] != Words(title)[j]
  {
    WordsAreSignificant(Fields(Clean(title)));
  }

  /** As long as the store takes every rule, each key counted to the threshold has a
      similar rule in the end. */
  lemma {:induction false} EvidenceIsProposed(
    rules: seq<Rule>, seen: seq<(Observation, bool)>, threshold: nat, key: PatternKey)
    requires threshold > 0 && (forall i :: 0 <= i < |seen| ==> seen[i].1) && Evidence(seen, key) >= threshold
    ensures HasSimilar(Learn(rules, seen, threshold).rules, key)
  {
    var init, last := seen[..|seen| - 1], seen[|seen| - 1];
    if Evidence(init, key) >= threshold {
      EvidenceIsProposed(rules, init, threshold, key);
    }
    LearnCounts(rules, init, threshold);
    LearnCounts(rules, seen, threshold);
    ObserveProposes(Learn(rules, init, threshold), last.0, threshold, key);
  }

  // ----- The code -----

  class Learner {
    var counts: map<PatternKey, nat>
    var rules: seq<Rule>
    const threshold: nat

    function Now(): State
      reads this
    {
      State(counts, rules)
    }

    constructor (rules: seq<Rule>, threshold: nat)
      ensures Now() == Learn(rules, [], threshold) && this.threshold == threshold
    {
      this.counts, this.rules, this.threshold := map[], rules, threshold;
    }

    method ObserveManualTag(o: Observation, createOk: bool)
      modifies this
      ensures Now() == Observe(old(Now()), o, threshold, createOk)
    {
      var appKey := WordKey(o, "");
      counts := counts[appKey := CountOf(counts, appKey) + 1];
      ghost var start := Now();
      var words := ExtractSignificantWords(o.windowTitle);
      BumpEach(o, words, createOk);
      EmptyWordNotSignificant(o.windowTitle);
      BumpWordsCounts(start, o, words, threshold, createOk, appKey);
      if CountOf(counts, appKey) == threshold {
        ProposeSuggestion(appKey, createOk);
      }
    }

    /** The loop over the significant words. */
    method BumpEach(o: Observation, words: seq<string>, createOk: bool)
      modifies this
      ensures Now() == BumpWords(old(Now()), o, words, threshold, createOk)
    {
      for i := 0 to |words|
        invariant Now() == BumpWords(old(Now()), o, words[..i], threshold, createOk)
      {
        assert words[..i + 1][..i] == words[..i];
        var key := WordKey(o, words[i]);
        counts := counts[key := CountOf(counts, key) + 1];
        if counts[key] == threshold {
          ProposeSuggestion(key, createOk);
        }
      }
      assert words[..|words|] == words;
    }

    method ProposeSuggestion(key: PatternKey, createOk: bool)
      modifies `rules
      ensures rules == Propose(old(rules), key, createOk)
    {
      for i := 0 to |rules|
        invariant rules == old(rules)
        invariant forall j :: 0 <= j < i ==> !Similar(rules[j], key)
      {
        if Similar(rules[i], key) {
          return;
        }
      }
      if createOk {
        rules := rules + [RuleFor(key, |rules| + 1)];
      }
    }
  }
}
