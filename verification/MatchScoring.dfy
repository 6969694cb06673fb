/**
 Match scores (backend/internal/processor/matcher.go) in exact arithmetic.
 Rounded points are counted in hundredths.
 */
module MatchScoring {
  import opened Wrappers
  import opened Collections
  import opened Normalize
  import opened RoleFamily
  import ScanLifecycle

  datatype Profile = Profile(skills: seq<string>, roles: seq<string>, years: real, seniority: string, domains: seq<string>)

  datatype Candidate = Candidate(id: nat, title: string, role: string, workMode: string, required: seq<string>,
                                 preferred: seq<string>, domains: seq<string>, seniority: string, minimum: Option<real>,
                                 distance: Option<int>)

  /** The alphabet, the table of role families, and the library's upper case and case-blind comparison. */
  datatype Rules = Rules(a: Alphabet, families: seq<Rule>, upper: string -> string, equalFold: (string, string) -> bool)

  datatype ScoreError = InvalidCandidate

  // ---------- shares ----------

  /** m of n parts of a weight. */
  function Share(weight: real, m: nat, n: nat): real
    requires n > 0
  {
    weight * m as real / n as real
  }

  lemma MulOrdered(w: real, x: real, y: real)
    requires w >= 0.0 && x <= y
    ensures w * x <= w * y
  {
    assert w * (y - x) >= 0.0;
  }

  lemma DivideOrdered(x: real, y: real, n: real)
    requires x <= y && n > 0.0
    ensures x / n <= y / n
  {
    var d, e := x / n, y / n;
    assert d * n == x && e * n == y;
    if d > e { MulStrict(n, e, d); }
  }

  lemma MulStrict(w: real, x: real, y: real)
    requires w > 0.0 && x < y
    ensures x * w < y * w
  {
    assert w * (y - x) > 0.0;
  }

  lemma WholeShare(weight: real, n: real)
    requires n > 0.0
    ensures weight * n / n == weight
  {
  }

  lemma ShareGrows(weight: real, m: nat, m': nat, n: nat)
    requires weight >= 0.0 && m <= m' && n > 0
    ensures Share(weight, m, n) <= Share(weight, m', n)
  {
    MulOrdered(weight, m as real, m' as real);
    DivideOrdered(weight * m as real, weight * m' as real, n as real);
  }

  /** A share is between nothing and the whole weight, and grows with m. */
  lemma ShareBounds(weight: real, m: nat, m': nat, n: nat)
    requires weight >= 0.0 && m <= m' <= n && n > 0
    ensures 0.0 <= Share(weight, m, n) <= Share(weight, m', n) <= weight
  {
    ShareGrows(weight, 0, m, n);
    ShareGrows(weight, m, m', n);
    ShareGrows(weight, m', n, n);
    WholeShare(weight, n as real);
    WholeShare(0.0, n as real);
  }

  // ---------- sets of normalised values ----------

  function NormalizedSet(a: Alphabet, values: seq<string>): set<string> {
    set v | v in values && Normalized(a, v) != [] :: Normalized(a, v)
  }

  method BuildNormalizedSet(a: Alphabet, values: seq<string>) returns (r: set<string>)
    ensures r == NormalizedSet(a, values)
  {
    r := {};
    for i := 0 to |values|
      invariant r == NormalizedSet(a, values[..i])
    {
      var normalized := Normalize.Normalize(a, values[i]);
      assert values[..i + 1] == values[..i] + [values[i]];
      if normalized == [] {
        continue;
      }
      r := r + {normalized};
    }
    assert values[..|values|] == values;
  }

  predicate NoDuplicates(s: seq<string>) {
    forall i, j :: 0 <= i < j < |s| ==> s[i] != s[j]
  }

  /** The values once each, in whatever order the map gives them. */
  method UniqueNormalized(a: Alphabet, values: seq<string>) returns (r: seq<string>)
    ensures (set v | v in r) == NormalizedSet(a, values) && NoDuplicates(r)
  {
    var left := BuildNormalizedSet(a, values);
    ghost var whole := left;
    r := [];
    while left != {}
      invariant forall v :: v in whole <==> v in left || v in r
      invariant forall v :: v in r ==> v !in left
      invariant NoDuplicates(r)
      decreases |left|
    {
      var value :| value in left;
      left := left - {value};
      r := r + [value];
    }
  }

  /** How many values, each counted once, are in a set. */
  function Counted(values: seq<string>, have: set<string>): nat {
    if values == [] then 0
    else Counted(values[..|values| - 1], have) + (if values[|values| - 1] in have then 1 else 0)
  }

  lemma {:induction false} CountedIsCommon(values: seq<string>, have: set<string>)
    requires NoDuplicates(values)
    ensures Counted(values, have) == |(set v | v in values) * have| && |set v | v in values| == |values|
  {
    if values == [] {
      assert (set v | v in values) == {};
    } else {
      var front, last := values[..|values| - 1], values[|values| - 1];
      CountedIsCommon(front, have);
      assert last !in front;
      assert (set v | v in values) == (set v | v in front) + {last};
      CommonWithOneMore((set v | v in front), last, have);
    }
  }

  lemma CommonWithOneMore(some: set<string>, last: string, have: set<string>)
    requires last !in some
    ensures |some + {last}| == |some| + 1
    ensures |(some + {last}) * have| == |some * have| + (if last in have then 1 else 0)
  {
    if last in have {
      assert (some + {last}) * have == some * have + {last};
    } else {
      assert (some + {last}) * have == some * have;
    }
  }

  method CountMatched(values: seq<string>, have: set<string>) returns (matched: nat)
    ensures matched == Counted(values, have)
  {
    matched := 0;
    for i := 0 to |values|
      invariant matched == Counted(values[..i], have)
    {
      assert values[..i + 1][..i] == values[..i];
      if values[i] in have {
        matched := matched + 1;
      }
    }
    assert values[..|values|] == values;
  }

  // ---------- overlap ----------

  /** The share of the targets that is there, of the weight; nothing when there are no targets. */
  function Overlap(targets: set<string>, have: set<string>, weight: real): real {
    if targets == {} then 0.0 else Share(weight, |targets * have|, |targets|)
  }

  lemma OverlapCounts(values: seq<string>, have: set<string>, weight: real)
    requires NoDuplicates(values)
    ensures Overlap((set v | v in values), have, weight) == if |values| == 0 then 0.0 else Share(weight, Counted(values, have), |values|)
  {
    CountedIsCommon(values, have);
  }

  method WeightedOverlap(a: Alphabet, profileValues: seq<string>, candidateValues: seq<string>, weight: real) returns (r: real)
    ensures r == Overlap(NormalizedSet(a, candidateValues), NormalizedSet(a, profileValues), weight)
  {
    var values := UniqueNormalized(a, candidateValues);
    OverlapCounts(values, NormalizedSet(a, profileValues), weight);
    if |values| == 0 {
      return 0.0;
    }
    var profileSet := BuildNormalizedSet(a, profileValues);
    var matched := CountMatched(values, profileSet);
    return Share(weight, matched, |values|);
  }

  method PreferredDomainPoints(a: Alphabet, p: Profile, c: Candidate) returns (r: real)
    ensures r == Overlap(NormalizedSet(a, c.preferred + c.domains), NormalizedSet(a, p.skills + p.domains), 10.0)
  {
    r := WeightedOverlap(a, p.skills + p.domains, c.preferred + c.domains, 10.0);
  }

  lemma OverlapBounds(targets: set<string>, have: set<string>, more: set<string>, weight: real)
    requires weight >= 0.0 && have <= more
    ensures 0.0 <= Overlap(targets, have, weight) <= Overlap(targets, more, weight) <= weight
  {
    if targets != {} {
      assert targets * have <= targets * more;
      SubsetIsSmaller(targets * have, targets * more);
      SubsetIsSmaller(targets * more, targets);
      ShareBounds(weight, |targets * have|, |targets * more|, |targets|);
    }
  }

  /** Full points exactly when every target is there, and there is one; none exactly when none is. */
  lemma OverlapExtremes(targets: set<string>, have: set<string>, weight: real)
    requires weight > 0.0
    ensures Overlap(targets, have, weight) == weight <==> targets != {} && targets <= have
    ensures Overlap(targets, have, weight) == 0.0 <==> targets * have == {}
  {
    if targets != {} {
      var m, n := |targets * have|, |targets|;
      SubsetIsSmaller(targets * have, targets);
      ShareExtremes(weight, m, n);
      if m == n {
        EqualSizes(targets * have, targets);
        assert forall v :: v in targets ==> v in targets * have;
      }
      if targets <= have { assert targets * have == targets; }
    }
  }

  lemma EqualSizes<T>(x: set<T>, y: set<T>)
    requires x <= y && |x| == |y|
    ensures x == y
  {
    if e :| e in y && e !in x { SubsetIsSmaller(x, y - {e}); }
  }

  lemma ShareExtremes(weight: real, m: nat, n: nat)
    requires weight > 0.0 && m <= n && n > 0
    ensures Share(weight, m, n) == weight <==> m == n
    ensures Share(weight, m, n) == 0.0 <==> m == 0
  {
    var share := Share(weight, m, n);
    assert share * n as real == weight * m as real;
    if m < n { MulStrict(weight, m as real, n as real); }
    if m > 0 { MulStrict(weight, 0.0, m as real); }
    WholeShare(weight, n as real);
  }

  // ---------- roles ----------

  function Join(parts: seq<string>): string {
    if parts == [] then "" else if |parts| == 1 then parts[0] else parts[0] + " " + Join(parts[1..])
  }

  function Tokens(a: Alphabet, text: string): set<string> {
    NormalizedSet(a, Words([], Normalized(a, text)))
  }

  function Larger(left: nat, right: nat): nat {
    if left > right then left else right
  }

  /** How well one profile role fits, from 0 to 1. */
  function RoleFit(a: Alphabet, profileRole: string, candidateRole: string, roleText: set<string>): real {
    var profileText := Tokens(a, profileRole);
    var p, c := Normalized(a, profileRole), Normalized(a, candidateRole);
    if profileText == {} then 0.0
    else if Contains(c, p) || Contains(p, c) then 1.0
    else Share(1.0, |profileText * roleText|, Larger(|profileText|, |roleText|))
  }

  function BestFit(a: Alphabet, roles: seq<string>, candidateRole: string, roleText: set<string>): real {
    if roles == [] then 0.0
    else
      var before, fit := BestFit(a, roles[..|roles| - 1], candidateRole, roleText), RoleFit(a, roles[|roles| - 1], candidateRole, roleText);
      if fit > before then fit else before
  }

  function RolePoints(r: Rules, p: Profile, c: Candidate): real {
    var mine, theirs := Family(r.a, r.families, Join(p.roles)), Family(r.a, r.families, c.role + " " + c.title);
    if mine != "" && theirs != "" then if mine == theirs then 25.0 else 0.0
    else
      var roleText := Tokens(r.a, c.role + " " + c.title);
      if roleText == {} then 0.0 else
        var best := BestFit(r.a, p.roles, c.role, roleText);
        25.0 * (if best < 1.0 then best else 1.0)
  }

  method TokenSet(a: Alphabet, text: string) returns (r: set<string>)
    ensures r == Tokens(a, text)
  {
    var normalized := Normalize.Normalize(a, text);
    r := BuildNormalizedSet(a, Words([], normalized));
  }

  method FitRole(a: Alphabet, profileRole: string, candidateRole: string, roleText: set<string>) returns (fit: real)
    ensures fit == RoleFit(a, profileRole, candidateRole, roleText)
  {
    var profileText := TokenSet(a, profileRole);
    if |profileText| == 0 {
      return 0.0;
    }
    fit := Share(1.0, |profileText * roleText|, Larger(|profileText|, |roleText|));
    var p := Normalize.Normalize(a, profileRole);
    var c := Normalize.Normalize(a, candidateRole);
    var inside := FindSubstring(c, p);
    var around := FindSubstring(p, c);
    if inside || around {
      fit := 1.0;
    }
  }

  method BestRole(a: Alphabet, roles: seq<string>, candidateRole: string, roleText: set<string>) returns (best: real)
    ensures best == BestFit(a, roles, candidateRole, roleText)
  {
    best := 0.0;
    for i := 0 to |roles|
      invariant best == BestFit(a, roles[..i], candidateRole, roleText)
    {
      assert roles[..i + 1][..i] == roles[..i];
      var fit := FitRole(a, roles[i], candidateRole, roleText);
      if fit > best {
        best := fit;
      }
    }
    assert roles[..|roles|] == roles;
  }

  method RoleRelevance(r: Rules, p: Profile, c: Candidate) returns (points: real)
    ensures points == RolePoints(r, p, c)
  {
    var profileFamily := DetectRoleFamily(r.a, r.families, Join(p.roles));
    if profileFamily != "" {
      var candidateFamily := DetectRoleFamily(r.a, r.families, c.role + " " + c.title);
      if candidateFamily != "" {
        return if profileFamily == candidateFamily then 25.0 else 0.0;
      }
    }
    var roleText := TokenSet(r.a, c.role + " " + c.title);
    if |roleText| == 0 {
      return 0.0;
    }
    var best := BestRole(r.a, p.roles, c.role, roleText);
    return 25.0 * (if best < 1.0 then best else 1.0);
  }

  lemma RoleFitBounds(a: Alphabet, profileRole: string, candidateRole: string, roleText: set<string>)
    ensures 0.0 <= RoleFit(a, profileRole, candidateRole, roleText) <= 1.0
  {
    var profileText := Tokens(a, profileRole);
    if profileText != {} {
      SubsetIsSmaller(profileText * roleText, profileText);
      ShareBounds(1.0, |profileText * roleText|, |profileText * roleText|, Larger(|profileText|, |roleText|));
    }
  }

  lemma {:induction false} BestFitBounds(a: Alphabet, roles: seq<string>, candidateRole: string, roleText: set<string>)
    ensures 0.0 <= BestFit(a, roles, candidateRole, roleText) <= 1.0
  {
    if roles != [] {
      BestFitBounds(a, roles[..|roles| - 1], candidateRole, roleText);
      RoleFitBounds(a, roles[|roles| - 1], candidateRole, roleText);
    }
  }

  lemma {:induction false} RolePointsBounds(r: Rules, p: Profile, c: Candidate)
    ensures 0.0 <= RolePoints(r, p, c) <= 25.0
  {
    BestFitBounds(r.a, p.roles, c.role, Tokens(r.a, c.role + " " + c.title));
  }

  // ---------- the five parts ----------

  datatype Exact = Exact(required: real, role: real, experience: real, seniority: real, preferred: real)

  function Total(e: Exact): real {
    e.required + e.role + e.experience + e.seniority + e.preferred
  }

  function ExperiencePoints(years: real, minimum: Option<real>): real {
    if minimum.None? || minimum.value <= 0.0 then 0.0
    else 15.0 * (if years / minimum.value < 1.0 then years / minimum.value else 1.0)
  }

  function SeniorityPoints(r: Rules, mine: string, theirs: string): real {
    var job, own := r.upper(Trim(r.a, theirs)), Trim(r.a, mine);
    if job == "" || job == "UNSPECIFIED" || own == "" || r.equalFold(own, "UNSPECIFIED") then 0.0
    else if r.upper(own) == job then 15.0
    else 0.0
  }

  predicate SupportedWorkMode(r: Rules, mode: string) {
    r.upper(Trim(r.a, mode)) in {"REMOTE", "HYBRID", "ONSITE"}
  }

  function Points(r: Rules, p: Profile, c: Candidate): Exact {
    Exact(Overlap(NormalizedSet(r.a, c.required), NormalizedSet(r.a, p.skills), 35.0),
          RolePoints(r, p, c),
          ExperiencePoints(p.years, c.minimum),
          SeniorityPoints(r, p.seniority, c.seniority),
          Overlap(NormalizedSet(r.a, c.preferred + c.domains), NormalizedSet(r.a, p.skills + p.domains), 10.0))
  }

  predicate Scorable(r: Rules, p: Profile, c: Candidate) {
    && c.id != 0 && Trim(r.a, c.title) != [] && Trim(r.a, c.role) != []
    && SupportedWorkMode(r, c.workMode)
    && 0.0 <= p.years <= 100.0
  }

  /** Full points exactly from the minimum on; a candidate without a minimum gives none. */
  lemma ExperienceExtremes(years: real, more: real, minimum: Option<real>)
    requires 0.0 <= years <= more
    ensures ExperiencePoints(years, minimum) == 15.0 <==> minimum.Some? && 0.0 < minimum.value <= years
    ensures ExperiencePoints(years, minimum) <= ExperiencePoints(more, minimum)
  {
    if minimum.Some? && minimum.value > 0.0 {
      var m := minimum.value;
      DivideOrdered(years, more, m);
      if years < m {
        assert years / m * m == years;
      } else {
        DivideOrdered(m, years, m);
        assert m / m == 1.0;
      }
    }
  }

  /** `roundScore`: the nearest hundredth, halves upwards. */
  function Hundredths(x: real): int {
    (x * 100.0 + 0.5).Floor
  }

  function Rounded(e: Exact, distance: Option<int>): ScanLifecycle.Score {
    ScanLifecycle.Score(Hundredths(e.required), Hundredths(e.role), Hundredths(e.experience), Hundredths(e.seniority),
                        Hundredths(e.preferred), Hundredths(Total(e)), distance)
  }

  method ScoreCandidate(r: Rules, p: Profile, c: Candidate) returns (m: Result<ScanLifecycle.Match, ScoreError>)
    ensures m == if Scorable(r, p, c) then Ok(ScanLifecycle.Match(c.id, Rounded(Points(r, p, c), c.distance))) else Err(InvalidCandidate)
  {
    if c.id == 0 || Trim(r.a, c.title) == [] || Trim(r.a, c.role) == [] {
      return Err(InvalidCandidate);
    }
    if !SupportedWorkMode(r, c.workMode) {
      return Err(InvalidCandidate);
    }
    if p.years < 0.0 || p.years > 100.0 {
      return Err(InvalidCandidate);
    }
    var required := WeightedOverlap(r.a, p.skills, c.required, 35.0);
    var role := RoleRelevance(r, p, c);
    var preferred := PreferredDomainPoints(r.a, p, c);
    var e := Exact(required, role, ExperiencePoints(p.years, c.minimum), SeniorityPoints(r, p.seniority, c.seniority), preferred);
    return Ok(ScanLifecycle.Match(c.id, Rounded(e, c.distance)));
  }

  // ---------- range, rounding, the table's check ----------

  predicate InRange(e: Exact) {
    && 0.0 <= e.required <= 35.0 && 0.0 <= e.role <= 25.0 && 0.0 <= e.experience <= 15.0
    && (e.seniority == 0.0 || e.seniority == 15.0) && 0.0 <= e.preferred <= 10.0
  }

  lemma {:induction false} PointsInRange(r: Rules, p: Profile, c: Candidate)
    requires p.years >= 0.0
    ensures InRange(Points(r, p, c))
  {
    OverlapBounds(NormalizedSet(r.a, c.required), NormalizedSet(r.a, p.skills), NormalizedSet(r.a, p.skills), 35.0);
    OverlapBounds(NormalizedSet(r.a, c.preferred + c.domains), NormalizedSet(r.a, p.skills + p.domains), NormalizedSet(r.a, p.skills + p.domains), 10.0);
    RolePointsBounds(r, p, c);
    if c.minimum.Some? && c.minimum.value > 0.0 { DivideOrdered(0.0, p.years, c.minimum.value); }
  }

  lemma HundredthsBounds(x: real)
    ensures x * 100.0 - 0.5 < Hundredths(x) as real <= x * 100.0 + 0.5
  {
  }

  lemma HundredthsOrdered(x: real, y: real)
    requires x <= y
    ensures Hundredths(x) <= Hundredths(y)
  {
    HundredthsBounds(x);
    HundredthsBounds(y);
  }

  function PartSum(s: ScanLifecycle.Score): int {
    s.required + s.role + s.experience + s.seniority + s.preferred
  }

  /**
   Every score is a percentage, and differs from the sum of its rounded parts by
   at most two hundredths.
   */
  lemma {:induction false} PercentIsCloseToItsParts(e: Exact, distance: Option<int>)
    requires InRange(e)
    ensures 0 <= Rounded(e, distance).percent <= 10000
    ensures -2 <= Rounded(e, distance).percent - PartSum(Rounded(e, distance)) <= 2
  {
    HundredthsBounds(e.required);
    HundredthsBounds(e.role);
    HundredthsBounds(e.experience);
    HundredthsBounds(e.preferred);
    HundredthsBounds(Total(e));
  }

  // ---------- skills ----------

  lemma MoreValues(a: Alphabet, some: seq<string>, more: seq<string>)
    requires forall v :: v in some ==> v in more
    ensures NormalizedSet(a, some) <= NormalizedSet(a, more)
  {
  }

  /** Adding skills, or domains, to a profile lowers no part of any score, nor the percentage. */
  lemma {:induction false} MoreSkillsNeverLower(r: Rules, p: Profile, more: Profile, c: Candidate)
    requires Scorable(r, p, c) && more == p.(skills := more.skills, domains := more.domains)
    requires (forall v :: v in p.skills ==> v in more.skills) && (forall v :: v in p.domains ==> v in more.domains)
    ensures var s, s' := Rounded(Points(r, p, c), c.distance), Rounded(Points(r, more, c), c.distance);
            && s.required <= s'.required && s.role == s'.role && s.experience == s'.experience
            && s.seniority == s'.seniority && s.preferred <= s'.preferred && s.percent <= s'.percent
  {
    var e, e' := Points(r, p, c), Points(r, more, c);
    MoreValues(r.a, p.skills, more.skills);
    MoreValues(r.a, p.skills + p.domains, more.skills + more.domains);
    OverlapBounds(NormalizedSet(r.a, c.required), NormalizedSet(r.a, p.skills), NormalizedSet(r.a, more.skills), 35.0);
    OverlapBounds(NormalizedSet(r.a, c.preferred + c.domains), NormalizedSet(r.a, p.skills + p.domains), NormalizedSet(r.a, more.skills + more.domains), 10.0);
    RoundedOrdered(e, e', c.distance);
  }

  lemma RoundedOrdered(e: Exact, e': Exact, distance: Option<int>)
    requires e' == e.(required := e'.required, preferred := e'.preferred) && e.required <= e'.required && e.preferred <= e'.preferred
    ensures var s, s' := Rounded(e, distance), Rounded(e', distance);
            && s.required <= s'.required && s.role == s'.role && s.experience == s'.experience
            && s.seniority == s'.seniority && s.preferred <= s'.preferred && s.percent <= s'.percent
  {
    HundredthsOrdered(e.required, e'.required);
    HundredthsOrdered(e.preferred, e'.preferred);
    HundredthsOrdered(Total(e), Total(e'));
  }

  ghost predicate SameValues(x: seq<string>, y: seq<string>) {
    forall v :: v in x <==> v in y
  }

  /** Scores do not depend on the order of the skill and domain lists, nor on repetitions in them. */
  lemma {:induction false} OrderAndRepetitionDoNotMatter(r: Rules, p: Profile, p': Profile, c: Candidate, c': Candidate)
    requires p' == p.(skills := p'.skills, domains := p'.domains)
    requires c' == c.(required := c'.required, preferred := c'.preferred, domains := c'.domains)
    requires SameValues(p.skills, p'.skills) && SameValues(p.domains, p'.domains)
    requires SameValues(c.required, c'.required) && SameValues(c.preferred, c'.preferred) && SameValues(c.domains, c'.domains)
    ensures Points(r, p', c') == Points(r, p, c) && (Scorable(r, p', c') <==> Scorable(r, p, c))
  {
    assert NormalizedSet(r.a, p.skills) == NormalizedSet(r.a, p'.skills);
    assert NormalizedSet(r.a, c.required) == NormalizedSet(r.a, c'.required);
    assert NormalizedSet(r.a, p.skills + p.domains) == NormalizedSet(r.a, p'.skills + p'.domains);
    assert NormalizedSet(r.a, c.preferred + c.domains) == NormalizedSet(r.a, c'.preferred + c'.domains);
  }

  // ---------- a role without letters ----------

  /**
   A candidate whose role has no letters or digits, but whose title has some,
   gives every profile role with a word in it the full points, unless both sides
   have a family.
   */
  lemma WordlessRoleFitsEverything(r: Rules, p: Profile, c: Candidate, i: nat)
    requires Normalized(r.a, c.role) == [] && Tokens(r.a, c.role + " " + c.title) != {}
    requires Family(r.a, r.families, Join(p.roles)) == "" || Family(r.a, r.families, c.role + " " + c.title) == ""
    requires i < |p.roles| && Tokens(r.a, p.roles[i]) != {}
    ensures RolePoints(r, p, c) == 25.0
  {
    var roleText := Tokens(r.a, c.role + " " + c.title);
    var n := Normalized(r.a, p.roles[i]);
    assert PartAt(n, [], 0);
    BestFitBounds(r.a, p.roles, c.role, roleText);
    BestFitIsAtLeast(r.a, p.roles, c.role, roleText, i);
  }

  /** A profile role that reads the same as the candidate's gives full points, unless both sides have families and they differ. */
  lemma SharedRoleFitsFully(r: Rules, p: Profile, c: Candidate, i: nat)
    requires i < |p.roles| && Normalized(r.a, p.roles[i]) == Normalized(r.a, c.role) && Tokens(r.a, c.role) != {}
    requires Tokens(r.a, c.role + " " + c.title) != {}
    ensures RolePoints(r, p, c) == 25.0 <==>
              var mine, theirs := Family(r.a, r.families, Join(p.roles)), Family(r.a, r.families, c.role + " " + c.title);
              mine == "" || theirs == "" || mine == theirs
  {
    var roleText, n := Tokens(r.a, c.role + " " + c.title), Normalized(r.a, c.role);
    assert PartAt(n, n, 0);
    BestFitBounds(r.a, p.roles, c.role, roleText);
    BestFitIsAtLeast(r.a, p.roles, c.role, roleText, i);
  }

  lemma {:induction false} BestFitIsAtLeast(a: Alphabet, roles: seq<string>, candidateRole: string, roleText: set<string>, i: nat)
    requires i < |roles|
    ensures BestFit(a, roles, candidateRole, roleText) >= RoleFit(a, roles[i], candidateRole, roleText)
  {
    if i < |roles| - 1 {
      BestFitIsAtLeast(a, roles[..|roles| - 1], candidateRole, roleText, i);
    }
  }
}
