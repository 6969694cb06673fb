/** Role families (backend/internal/processor/matcher.go, `detectRoleFamily`). */
module RoleFamily {
  import opened Collections
  import opened Normalize

  datatype Rule = Rule(name: string, terms: seq<string>)

  // ---------- the substring test ----------

  function Padded(s: string): string {
    " " + s + " "
  }

  /** The term's words occur in the value's words, one after another and whole. */
  predicate WholeWords(value: seq<string>, term: seq<string>) {
    Contains(value, term)
  }

  predicate AreWords(words: seq<string>) {
    forall i :: 0 <= i < |words| ==> words[i] != [] && ' ' !in words[i]
  }

  /** Every word followed by a space. */
  function Spaced(words: seq<string>): string {
    if words == [] then [] else words[0] + [' '] + Spaced(words[1..])
  }

  // ---------- tidy texts are their words ----------

  lemma {:induction false} WordsAreWords(word: string, s: string)
    requires ' ' !in word
    ensures AreWords(Words(word, s))
    decreases s
  {
    if s != [] {
      if s[0] == ' ' { WordsAreWords([], s[1..]); } else { WordsAreWords(word + [s[0]], s[1..]); }
    }
  }

  predicate SingleSpaced(s: string) {
    forall i :: 0 <= i < |s| - 1 ==> s[i] != ' ' || s[i + 1] != ' '
  }

  lemma {:induction false} SpacedWords(word: string, s: string)
    requires SingleSpaced(s) && (s != [] ==> s[|s| - 1] != ' ') && (word == [] && s != [] ==> s[0] != ' ')
    requires word != [] || s != []
    ensures Spaced(Words(word, s)) == word + s + [' ']
    decreases s
  {
    if s == [] {
      SpacedFirst(word, []);
      assert word + [] + [' '] == word + [' '] + Spaced([]);
    } else if s[0] == ' ' {
      assert |s| > 1;
      SpacedWords([], s[1..]);
      assert word != [];
      SpacedFirst(word, Words([], s[1..]));
      SpaceJoins(word, s);
    } else {
      SpacedWords(word + [s[0]], s[1..]);
      assert word + [s[0]] + s[1..] + [' '] == word + s + [' '];
    }
  }

  lemma SpacedFirst(word: string, words: seq<string>)
    ensures Spaced([word] + words) == word + [' '] + Spaced(words)
  {
    assert ([word] + words)[1..] == words;
  }

  lemma SpaceJoins(word: string, s: string)
    requires s != [] && s[0] == ' '
    ensures word + [' '] + ([] + s[1..] + [' ']) == word + s + [' ']
  {
    assert s == [' '] + s[1..];
  }

  // ---------- the test is about whole words ----------

  lemma {:induction false} SpacedSplit(words: seq<string>, i: nat)
    requires i <= |words|
    ensures Spaced(words) == Spaced(words[..i]) + Spaced(words[i..])
  {
    if i > 0 {
      SpacedSplit(words[1..], i - 1);
      assert words[1..][..i - 1] == words[..i][1..] && words[1..][i - 1..] == words[i..];
    } else {
      assert words[0..] == words && Spaced(words[..0]) == [];
    }
  }

  /** Where a space is, a word ends. */
  lemma {:induction false} SpaceIsBoundary(words: seq<string>, p: nat) returns (i: nat)
    requires AreWords(words) && p < |Spaced(words)| && Spaced(words)[p] == ' '
    ensures i < |words| && |Spaced(words[..i + 1])| == p + 1
  {
    var w := |words[0]|;
    if p <= w {
      assert forall k :: 0 <= k < w ==> Spaced(words)[k] == words[0][k] != ' ';
      i := 0;
      assert words[..1][1..] == [];
    } else {
      assert AreWords(words[1..]) by { assert forall k :: 0 <= k < |words| - 1 ==> words[1..][k] == words[k + 1]; }
      i := SpaceIsBoundary(words[1..], p - w - 1);
      assert words[1..][..i + 1] == words[..i + 2][1..];
      i := i + 1;
    }
  }

  /** A prefix made of words is a prefix of the words. */
  lemma {:induction false} PrefixIsWords(value: seq<string>, term: seq<string>)
    requires AreWords(value) && AreWords(term) && |Spaced(term)| <= |Spaced(value)|
    requires Spaced(value)[..|Spaced(term)|] == Spaced(term)
    ensures PartAt(value, term, 0)
    decreases |term|
  {
    if term != [] {
      var v, t := value[0], term[0];
      FirstWordsAgree(v, Spaced(value[1..]), t, Spaced(term[1..]));
      assert AreWords(value[1..]) by { assert forall k :: 0 <= k < |value| - 1 ==> value[1..][k] == value[k + 1]; }
      assert AreWords(term[1..]) by { assert forall k :: 0 <= k < |term| - 1 ==> term[1..][k] == term[k + 1]; }
      PrefixIsWords(value[1..], term[1..]);
      assert value[..|term|] == [v] + value[1..][..|term| - 1];
      assert term == [t] + term[1..];
    }
  }

  lemma FirstWordsAgree(v: string, vs: string, t: string, ts: string)
    requires ' ' !in v && ' ' !in t && |t + [' '] + ts| <= |v + [' '] + vs|
    requires (v + [' '] + vs)[..|t + [' '] + ts|] == t + [' '] + ts
    ensures v == t && |ts| <= |vs| && vs[..|ts|] == ts
  {
    FirstWordsEndTogether(v, vs, t, ts);
    forall k | 0 <= k < |t| ensures v[k] == t[k] {
      SameAt(v, vs, t, ts, k);
    }
    forall k | 0 <= k < |ts| ensures vs[..|ts|][k] == ts[k] {
      SameAt(v, vs, t, ts, |t| + 1 + k);
    }
  }

  /** The character at a place of a word, a space and more. */
  function After(v: string, vs: string, k: nat): char
    requires k < |v| + 1 + |vs|
  {
    if k < |v| then v[k] else if k == |v| then ' ' else vs[k - |v| - 1]
  }

  lemma SameAt(v: string, vs: string, t: string, ts: string, k: nat)
    requires k < |t + [' '] + ts| <= |v + [' '] + vs|
    requires (v + [' '] + vs)[..|t + [' '] + ts|] == t + [' '] + ts
    ensures After(v, vs, k) == After(t, ts, k)
  {
    var a, b := v + [' '] + vs, t + [' '] + ts;
    assert a[..|b|][k] == b[k] && a[k] == After(v, vs, k) && b[k] == After(t, ts, k);
  }

  lemma FirstWordsEndTogether(v: string, vs: string, t: string, ts: string)
    requires ' ' !in v && ' ' !in t && |t + [' '] + ts| <= |v + [' '] + vs|
    requires (v + [' '] + vs)[..|t + [' '] + ts|] == t + [' '] + ts
    ensures |v| == |t|
  {
    SameAt(v, vs, t, ts, |t|);
    if |v| < |t| { SameAt(v, vs, t, ts, |v|); }
  }

  /** In texts of single-spaced words the padded substring test finds whole words only. */
  lemma PaddedTestIsWholeWords(value: seq<string>, term: seq<string>)
    requires AreWords(value) && AreWords(term) && term != []
    ensures Contains([' '] + Spaced(value), [' '] + Spaced(term)) <==> WholeWords(value, term)
  {
    var s, p := [' '] + Spaced(value), [' '] + Spaced(term);
    if WholeWords(value, term) {
      var i :| 0 <= i <= |value| && PartAt(value, term, i);
      WholeWordsAreFound(value, term, i);
    }
    if Contains(s, p) {
      var k :| 0 <= k <= |s| && PartAt(s, p, k);
      FoundIsWholeWords(value, term, k);
    }
  }

  lemma WholeWordsAreFound(value: seq<string>, term: seq<string>, i: nat)
    requires PartAt(value, term, i)
    ensures Contains([' '] + Spaced(value), [' '] + Spaced(term))
  {
    SpacedSplit(value, i);
    SpacedSplit(value[i..], |term|);
    assert value[i..][..|term|] == term;
    EndsWithSpace(value[..i]);
    var a, b, c := Spaced(value[..i]), Spaced(term), Spaced(value[i..][|term|..]);
    PieceIsFound(a, b, c);
    assert Spaced(value) == a + (b + c);
  }

  lemma PieceIsFound(a: string, b: string, c: string)
    requires a != [] ==> a[|a| - 1] == ' '
    ensures Contains([' '] + (a + (b + c)), [' '] + b)
  {
    var s, p := [' '] + (a + (b + c)), [' '] + b;
    forall k | 0 <= k < |p| ensures s[|a| + k] == p[k] {
      if k == 0 && a != [] { assert s[|a|] == a[|a| - 1]; }
    }
    assert s[|a|..|a| + |p|] == p;
    assert PartAt(s, p, |a|);
  }

  lemma {:induction false} EndsWithSpace(words: seq<string>)
    ensures words != [] ==> Spaced(words) != [] && Spaced(words)[|Spaced(words)| - 1] == ' '
  {
    if |words| > 1 { EndsWithSpace(words[1..]); }
  }

  lemma FoundIsWholeWords(value: seq<string>, term: seq<string>, k: nat)
    requires AreWords(value) && AreWords(term) && PartAt([' '] + Spaced(value), [' '] + Spaced(term), k)
    ensures WholeWords(value, term)
  {
    var s, p := [' '] + Spaced(value), [' '] + Spaced(term);
    assert s[k] == s[k..k + |p|][0] == ' ';
    var i := 0;
    if k > 0 {
      assert Spaced(value)[k - 1] == ' ';
      i := SpaceIsBoundary(value, k - 1);
      i := i + 1;
    } else {
      assert Spaced(value[..0]) == [];
    }
    SpacedSplit(value, i);
    assert |Spaced(value[..i])| == k;
    assert Spaced(value[i..]) == s[k + 1..];
    assert s[k + 1..][..|p| - 1] == s[k..k + |p|][1..] == Spaced(term);
    assert AreWords(value[i..]) by { assert forall j :: 0 <= j < |value| - i ==> value[i..][j] == value[i + j]; }
    PrefixIsWords(value[i..], term);
    assert value[i..][..|term|] == value[i..i + |term|];
    assert PartAt(value, term, i);
  }

  // ---------- the family ----------

  predicate Matches(a: Alphabet, value: string, term: string) {
    Contains(Padded(Normalized(a, value)), Padded(Normalized(a, term)))
  }

  /** A term's words are found in the value's as whole words, one after another; whatever the value. */
  lemma MatchesWholeWords(a: Alphabet, value: string, term: string)
    requires Sane(a) && Normalized(a, term) != []
    ensures Matches(a, value, term) <==> WholeWords(Words([], Normalized(a, value)), Words([], Normalized(a, term)))
  {
    var n, t := Normalized(a, value), Normalized(a, term);
    NormalizedIsTidy(a, value);
    NormalizedIsTidy(a, term);
    SpacedWords([], t);
    WordsAreWords([], n);
    WordsAreWords([], t);
    assert Padded(t) == [' '] + Spaced(Words([], t));
    if n == [] {
      assert Words([], n) == [];
      assert |Padded(n)| < |Padded(t)|;
    } else {
      SpacedWords([], n);
      assert Padded(n) == [' '] + Spaced(Words([], n));
      PaddedTestIsWholeWords(Words([], n), Words([], t));
    }
  }

  predicate RuleMatches(a: Alphabet, value: string, rule: Rule) {
    exists j :: 0 <= j < |rule.terms| && Matches(a, value, rule.terms[j])
  }

  /** The name of the first rule, from the i-th on, with a matching term; empty if there is none. */
  function FamilyFrom(a: Alphabet, rules: seq<Rule>, value: string, i: nat): string
    requires i <= |rules|
    decreases |rules| - i
  {
    if i == |rules| then "" else if RuleMatches(a, value, rules[i]) then rules[i].name else FamilyFrom(a, rules, value, i + 1)
  }

  function Family(a: Alphabet, rules: seq<Rule>, value: string): string {
    FamilyFrom(a, rules, value, 0)
  }

  lemma {:induction false} FamilyIsFirstMatch(a: Alphabet, rules: seq<Rule>, value: string, i: nat, first: nat)
    requires i <= first < |rules| && RuleMatches(a, value, rules[first])
    requires forall k :: i <= k < first ==> !RuleMatches(a, value, rules[k])
    ensures FamilyFrom(a, rules, value, i) == rules[first].name
    decreases first - i
  {
    if i < first { FamilyIsFirstMatch(a, rules, value, i + 1, first); }
  }

  method FindSubstring(s: string, p: string) returns (found: bool)
    ensures found <==> Contains(s, p)
  {
    var i := 0;
    while i <= |s|
      invariant i <= |s| + 1 && forall k :: 0 <= k < i ==> !PartAt(s, p, k)
    {
      if PartAt(s, p, i) {
        return true;
      }
      i := i + 1;
    }
    return false;
  }

  /** The first rule with a matching term wins. */
  method DetectRoleFamily(a: Alphabet, rules: seq<Rule>, value: string) returns (name: string)
    ensures name == Family(a, rules, value)
  {
    var n := Normalize.Normalize(a, value);
    for i := 0 to |rules|
      invariant Family(a, rules, value) == FamilyFrom(a, rules, value, i)
    {
      for j := 0 to |rules[i].terms|
        invariant forall k :: 0 <= k < j ==> !Matches(a, value, rules[i].terms[k])
      {
        var needle := Normalize.Normalize(a, rules[i].terms[j]);
        var found := FindSubstring(Padded(n), Padded(needle));
        if found {
          assert Matches(a, value, rules[i].terms[j]);
          return rules[i].name;
        }
      }
    }
    return "";
  }
}
