/**
 Which scores the match table accepts
 (database/migrations/000001_initial_schema.up.sql). It wants the percentage to
 be the sum of the five rounded parts, but the percentage is rounded on its own
 (backend/internal/processor/matcher.go). The condition is on what is known
 before anything is rounded: how many of how many values match, and the years.
 */
module ScoreRounding {
  import opened Wrappers
  import opened Collections
  import opened Normalize
  import opened RoleFamily
  import opened MatchScoring
  import ScanLifecycle

  // ---------- a share in hundredths ----------

  /** How far x lies above the whole number it rounds to, halves upwards. */
  function OffNearest(x: real): real {
    x - (x + 0.5).Floor as real
  }

  /** The same for 100 * weight * m / n, in whole numbers. */
  function CentredRemainder(weight: nat, m: nat, n: nat): real
    requires n > 0
  {
    ((200 * weight * m + n) % (2 * n) - n) as real / (2 * n) as real
  }

  lemma SameQuotient(a: real, b: real, c: real)
    requires a * c == b * c && c > 0.0
    ensures a == b
  {
    if a < b { MulStrict(c, a, b); }
    if b < a { MulStrict(c, b, a); }
  }

  lemma ProperFraction(r: nat, d: nat)
    requires r < d
    ensures 0.0 <= r as real / d as real < 1.0
  {
    var f := r as real / d as real;
    assert f * d as real == r as real;
    DivideOrdered(0.0, r as real, d as real);
    if f >= 1.0 { MulOrdered(d as real, 1.0, f); }
  }

  lemma Distributes(x: real, y: real, d: real)
    ensures (x + y) * d == x * d + y * d && (x - y) * d == x * d - y * d
  {
  }

  lemma HalfOf(n: nat)
    ensures 0.5 * (2 * n) as real == n as real
  {
  }

  lemma LessHalf(r: nat, n: nat)
    requires n > 0
    ensures (r - n) as real / (2 * n) as real == r as real / (2 * n) as real - 0.5
  {
    var d := (2 * n) as real;
    var f, g := r as real / d, (r - n) as real / d;
    assert f * d == r as real && g * d == (r - n) as real;
    HalfOf(n);
    Distributes(f, 0.5, d);
    assert d > 0.0 && (f - 0.5) * d == (r - n) as real;
    SameQuotient(g, f - 0.5, d);
  }

  /** Rounding a quotient: floor(x + 1/2) and what is left, when 2n(x + 1/2) = 2nq + r. */
  lemma RoundQuotient(x: real, n: nat, q: int, r: nat)
    requires n > 0 && r < 2 * n && (x + 0.5) * (2 * n) as real == (2 * n) as real * q as real + r as real
    ensures (x + 0.5).Floor == q && OffNearest(x) == (r - n) as real / (2 * n) as real
  {
    var d := (2 * n) as real;
    var f := r as real / d;
    assert f * d == r as real;
    ProperFraction(r, 2 * n);
    Distributes(q as real, f, d);
    SameQuotient(x + 0.5, q as real + f, d);
    LessHalf(r, n);
  }

  /** The rounded hundredths of a share are a whole-number quotient of the counts. */
  lemma HundredthsOfShare(weight: nat, m: nat, n: nat)
    requires n > 0
    ensures Hundredths(Share(weight as real, m, n)) == (200 * weight * m + n) / (2 * n)
    ensures OffNearest(100.0 * Share(weight as real, m, n)) == CentredRemainder(weight, m, n)
  {
    var x := 100.0 * Share(weight as real, m, n);
    var a, d := 200 * weight * m + n, 2 * n;
    ShareTimesParts(weight, m, n);
    assert (x + 0.5) * d as real == a as real;
    assert a == d * (a / d) + a % d;
    QuotientAsReal(a, d);
    RoundQuotient(x, n, a / d, a % d);
  }

  lemma QuotientAsReal(a: nat, d: nat)
    requires d > 0
    ensures a as real == d as real * (a / d) as real + (a % d) as real
  {
    var q, r := a / d, a % d;
    assert a == d * q + r;
    ProductAsReal(d, q);
  }

  lemma {:induction false} ProductAsReal(x: nat, y: nat)
    ensures (x * y) as real == x as real * y as real
  {
    if y > 0 {
      ProductAsReal(x, y - 1);
      assert x * y == x * (y - 1) + x;
      assert x as real * y as real == x as real * (y - 1) as real + x as real;
    }
  }

  lemma ShareTimesParts(weight: nat, m: nat, n: nat)
    requires n > 0
    ensures (100.0 * Share(weight as real, m, n) + 0.5) * (2 * n) as real == (200 * weight * m + n) as real
  {
    var share := Share(weight as real, m, n);
    assert share * n as real == weight as real * m as real;
    ProductAsReal(weight, m);
    assert (200 * weight * m) as real == 200.0 * (weight * m) as real by { assert 200 * weight * m == 200 * (weight * m); }
    assert (100.0 * share + 0.5) * (2.0 * n as real) == 200.0 * (share * n as real) + n as real;
  }

  lemma CentredRemainderBounds(weight: nat, m: nat, n: nat)
    requires n > 0
    ensures -0.5 <= CentredRemainder(weight, m, n) < 0.5
    ensures CentredRemainder(weight, m, n) == 0.0 <==> (100 * weight * m) % n == 0
  {
    var a, d := 200 * weight * m + n, 2 * n;
    ProperFraction(a % d, d);
    var c := CentredRemainder(weight, m, n);
    assert c * d as real == (a % d - n) as real;
    HalfOf(n);
    CentredBounds(c, (a % d - n) as real, n as real, d as real);
    CentredIsWhole(100 * weight * m, n);
    assert 2 * (100 * weight * m) == 200 * weight * m;
  }

  lemma CentredBounds(c: real, k: real, h: real, d: real)
    requires d > 0.0 && c * d == k && 0.5 * d == h && -h <= k < h
    ensures -0.5 <= c < 0.5 && (c == 0.0 <==> k == 0.0)
  {
    Ordered(c, 0.5, d);
    Ordered(c, -0.5, d);
    Ordered(0.0, c, d);
    Ordered(c, 0.0, d);
  }

  lemma Ordered(x: real, y: real, d: real)
    requires d > 0.0
    ensures x < y <==> x * d < y * d
  {
    if x < y { MulStrict(d, x, y); } else { MulOrdered(d, y, x); }
  }

  /** Twice a number, and a half turn more, leaves exactly a half turn when the number is a multiple. */
  lemma CentredIsWhole(x: nat, n: nat)
    requires n > 0
    ensures (2 * x + n) % (2 * n) == n <==> x % n == 0
  {
    var q, r := x / n, x % n;
    assert x == n * q + r;
    assert 2 * x + n == (2 * n) * q + (2 * r + n);
    if 2 * r + n < 2 * n {
      RemainderIs(2 * x + n, 2 * n, q, 2 * r + n);
    } else {
      assert 2 * x + n == (2 * n) * (q + 1) + (2 * r - n) by { assert (2 * n) * (q + 1) == (2 * n) * q + 2 * n; }
      RemainderIs(2 * x + n, 2 * n, q + 1, 2 * r - n);
    }
  }

  lemma RemainderIs(a: nat, d: nat, q: nat, r: nat)
    requires d > 0 && r < d && a == d * q + r
    ensures a % d == r
  {
    var q', r' := a / d, a % d;
    assert a == d * q' + r';
    OneQuotient(d, q, r, q', r');
  }

  lemma OneQuotient(d: nat, q: int, r: nat, q': int, r': nat)
    requires r < d && r' < d && d * q + r == d * q' + r'
    ensures r == r'
  {
    var k := q - q';
    assert d * k == r' - r by { assert d * k == d * q - d * q'; }
    assert d * -k == -(d * k);
    if k >= 1 { AtLeastOnce(d, k); }
    if k <= -1 { AtLeastOnce(d, -k); }
  }

  lemma AtLeastOnce(d: nat, k: int)
    requires k >= 1
    ensures d * k >= d
  {
  }

  // ---------- the counts behind each part ----------

  /** m of n values of a part; with no values at all, none of one. */
  datatype Parts = Parts(m: nat, n: nat)

  predicate Proper(x: Parts) {
    x.m <= x.n && x.n > 0
  }

  lemma CommonIsProper(x: set<string>, y: set<string>)
    ensures x != {} ==> |x * y| <= |x| <= Larger(|x|, |y|) && Larger(|x|, |y|) > 0
  {
    SubsetIsSmaller(x * y, x);
  }

  function OverlapParts(targets: set<string>, have: set<string>): (x: Parts)
    ensures Proper(x)
  {
    SubsetIsSmaller(targets * have, targets);
    if targets == {} then Parts(0, 1) else Parts(|targets * have|, |targets|)
  }

  function RoleParts(a: Alphabet, profileRole: string, candidateRole: string, roleText: set<string>): (x: Parts)
    ensures Proper(x)
  {
    var profileText := Tokens(a, profileRole);
    CommonIsProper(profileText, roleText);
    var p, c := Normalized(a, profileRole), Normalized(a, candidateRole);
    if profileText == {} then Parts(0, 1)
    else if Contains(c, p) || Contains(p, c) then Parts(1, 1)
    else Parts(|profileText * roleText|, Larger(|profileText|, |roleText|))
  }

  /** The role that fits best, compared in whole numbers. */
  function BestParts(a: Alphabet, roles: seq<string>, candidateRole: string, roleText: set<string>): (x: Parts)
    ensures Proper(x)
  {
    if roles == [] then Parts(0, 1)
    else
      var before := BestParts(a, roles[..|roles| - 1], candidateRole, roleText);
      var fit := RoleParts(a, roles[|roles| - 1], candidateRole, roleText);
      if fit.m * before.n > before.m * fit.n then fit else before
  }

  function RolePartsOf(r: Rules, p: Profile, c: Candidate): (x: Parts)
    ensures Proper(x)
  {
    var mine, theirs := Family(r.a, r.families, Join(p.roles)), Family(r.a, r.families, c.role + " " + c.title);
    if mine != "" && theirs != "" then if mine == theirs then Parts(1, 1) else Parts(0, 1)
    else
      var roleText := Tokens(r.a, c.role + " " + c.title);
      if roleText == {} then Parts(0, 1) else BestParts(r.a, p.roles, c.role, roleText)
  }

  lemma CrossTimes(x: Parts, k: nat)
    requires x.n > 0
    ensures Share(1.0, x.m, x.n) * (x.n as real * k as real) == (x.m * k) as real
  {
    var s := Share(1.0, x.m, x.n);
    assert s * x.n as real == x.m as real;
    ProductAsReal(x.m, k);
    Associates(s, x.n as real, k as real);
  }

  lemma Associates(x: real, y: real, z: real)
    ensures x * (y * z) == (x * y) * z
  {
  }

  lemma PositiveProduct(x: real, y: real)
    requires x > 0.0 && y > 0.0
    ensures x * y > 0.0 && x * y == y * x
  {
  }

  /** Comparing shares is comparing cross products. */
  lemma SharesCompare(x: Parts, y: Parts)
    requires Proper(x) && Proper(y)
    ensures Share(1.0, x.m, x.n) > Share(1.0, y.m, y.n) <==> x.m * y.n > y.m * x.n
  {
    CrossTimes(x, y.n);
    CrossTimes(y, x.n);
    PositiveProduct(x.n as real, y.n as real);
    Ordered(Share(1.0, y.m, y.n), Share(1.0, x.m, x.n), x.n as real * y.n as real);
  }

  lemma RolePartsFit(a: Alphabet, profileRole: string, candidateRole: string, roleText: set<string>)
    ensures var x := RoleParts(a, profileRole, candidateRole, roleText);
            RoleFit(a, profileRole, candidateRole, roleText) == Share(1.0, x.m, x.n)
  {
    UnitShares(1);
  }

  lemma UnitShares(weight: nat)
    ensures Share(weight as real, 0, 1) == 0.0 && Share(weight as real, 1, 1) == weight as real
  {
  }

  lemma {:induction false} BestPartsFit(a: Alphabet, roles: seq<string>, candidateRole: string, roleText: set<string>)
    ensures var x := BestParts(a, roles, candidateRole, roleText);
            BestFit(a, roles, candidateRole, roleText) == Share(1.0, x.m, x.n)
  {
    if roles != [] {
      var front, last := roles[..|roles| - 1], roles[|roles| - 1];
      BestPartsFit(a, front, candidateRole, roleText);
      RolePartsFit(a, last, candidateRole, roleText);
      SharesCompare(RoleParts(a, last, candidateRole, roleText), BestParts(a, front, candidateRole, roleText));
    }
  }

  lemma WeighShare(x: Parts, weight: nat)
    requires Proper(x)
    ensures weight as real * Share(1.0, x.m, x.n) == Share(weight as real, x.m, x.n)
  {
    var s, t := Share(1.0, x.m, x.n), Share(weight as real, x.m, x.n);
    assert s * x.n as real == x.m as real && t * x.n as real == weight as real * x.m as real;
    assert weight as real * s * x.n as real == weight as real * (s * x.n as real);
    SameQuotient(weight as real * s, t, x.n as real);
  }

  lemma CappedShare(x: Parts, best: real)
    requires Proper(x) && best == Share(1.0, x.m, x.n) && best <= 1.0
    ensures 25.0 * (if best < 1.0 then best else 1.0) == Share(25.0, x.m, x.n)
  {
    WeighShare(x, 25);
  }

  lemma BestPointsOfParts(a: Alphabet, roles: seq<string>, candidateRole: string, roleText: set<string>)
    ensures var x, best := BestParts(a, roles, candidateRole, roleText), BestFit(a, roles, candidateRole, roleText);
            25.0 * (if best < 1.0 then best else 1.0) == Share(25.0, x.m, x.n)
  {
    BestPartsFit(a, roles, candidateRole, roleText);
    BestFitBounds(a, roles, candidateRole, roleText);
    CappedShare(BestParts(a, roles, candidateRole, roleText), BestFit(a, roles, candidateRole, roleText));
  }

  lemma RolePointsOfParts(r: Rules, p: Profile, c: Candidate)
    ensures var x := RolePartsOf(r, p, c); RolePoints(r, p, c) == Share(25.0, x.m, x.n)
  {
    UnitShares(25);
    BestPointsOfParts(r.a, p.roles, c.role, Tokens(r.a, c.role + " " + c.title));
  }

  lemma OverlapOfParts(targets: set<string>, have: set<string>, weight: nat)
    ensures var x := OverlapParts(targets, have); Overlap(targets, have, weight as real) == Share(weight as real, x.m, x.n)
  {
    UnitShares(weight);
  }

  // ---------- the condition ----------

  /** What a score is worked out from: three shares, and the years against the minimum. */
  datatype Counts = Counts(required: Parts, role: Parts, preferred: Parts, years: real, minimum: Option<real>)

  predicate ProperCounts(k: Counts) {
    Proper(k.required) && Proper(k.role) && Proper(k.preferred)
  }

  function CountsOf(r: Rules, p: Profile, c: Candidate): (k: Counts)
    ensures ProperCounts(k)
  {
    Counts(OverlapParts(NormalizedSet(r.a, c.required), NormalizedSet(r.a, p.skills)), RolePartsOf(r, p, c),
           OverlapParts(NormalizedSet(r.a, c.preferred + c.domains), NormalizedSet(r.a, p.skills + p.domains)),
           p.years, c.minimum)
  }

  /** Full experience, or none asked for, comes in whole points. */
  function ExperienceRemainder(years: real, minimum: Option<real>): real {
    if minimum.None? || minimum.value <= 0.0 || years >= minimum.value then 0.0 else OffNearest(1500.0 * (years / minimum.value))
  }

  /** The parts' own remainders, each between minus and plus half a hundredth, together. */
  function RemainderSum(k: Counts): real
    requires ProperCounts(k)
  {
    CentredRemainder(35, k.required.m, k.required.n) + CentredRemainder(25, k.role.m, k.role.n)
    + ExperienceRemainder(k.years, k.minimum) + CentredRemainder(10, k.preferred.m, k.preferred.n)
  }

  predicate RemaindersCancel(k: Counts)
    requires ProperCounts(k)
  {
    -0.5 <= RemainderSum(k) < 0.5
  }

  /** The unrounded points are these shares of the weights. */
  predicate Accounts(k: Counts, e: Exact) {
    && ProperCounts(k)
    && e.required == Share(35.0, k.required.m, k.required.n)
    && e.role == Share(25.0, k.role.m, k.role.n)
    && e.experience == ExperiencePoints(k.years, k.minimum)
    && e.preferred == Share(10.0, k.preferred.m, k.preferred.n)
  }

  lemma CountsAccount(r: Rules, p: Profile, c: Candidate)
    ensures Accounts(CountsOf(r, p, c), Points(r, p, c))
  {
    OverlapOfParts(NormalizedSet(r.a, c.required), NormalizedSet(r.a, p.skills), 35);
    RolePointsOfParts(r, p, c);
    OverlapOfParts(NormalizedSet(r.a, c.preferred + c.domains), NormalizedSet(r.a, p.skills + p.domains), 10);
  }

  lemma BelowMinimum(years: real, minimum: real)
    requires minimum > 0.0
    ensures years / minimum < 1.0 <==> years < minimum
  {
    var ratio := years / minimum;
    assert ratio * minimum == years;
    if ratio >= 1.0 { MulOrdered(minimum, 1.0, ratio); } else { MulStrict(minimum, ratio, 1.0); }
  }

  lemma ExperienceOff(years: real, minimum: Option<real>)
    requires years >= 0.0
    ensures OffNearest(100.0 * ExperiencePoints(years, minimum)) == ExperienceRemainder(years, minimum)
  {
    if minimum.Some? && minimum.value > 0.0 {
      ExperienceExtremes(years, years, minimum);
      BelowMinimum(years, minimum.value);
    }
  }

  lemma HundredthsOff(x: real)
    ensures 100.0 * x == Hundredths(x) as real + OffNearest(100.0 * x)
  {
    assert x * 100.0 == 100.0 * x;
  }

  lemma WholePoints(x: real)
    requires x == 0.0 || x == 15.0
    ensures OffNearest(100.0 * x) == 0.0
  {
  }

  /** The rounded parts leave over, of the exact total, what each of them leaves over. */
  lemma LeftOver(e: Exact, distance: Option<int>)
    requires InRange(e)
    ensures 100.0 * Total(e) - PartSum(Rounded(e, distance)) as real ==
              OffNearest(100.0 * e.required) + OffNearest(100.0 * e.role)
              + OffNearest(100.0 * e.experience) + OffNearest(100.0 * e.preferred)
  {
    HundredthsOff(e.required);
    HundredthsOff(e.role);
    HundredthsOff(e.experience);
    HundredthsOff(e.seniority);
    HundredthsOff(e.preferred);
    WholePoints(e.seniority);
  }

  lemma AcceptedWhenLeftOverIsSmall(e: Exact, distance: Option<int>)
    requires InRange(e) && (distance.Some? ==> distance.value >= 0)
    ensures var left := 100.0 * Total(e) - PartSum(Rounded(e, distance)) as real;
            ScanLifecycle.ScoreChecks(Rounded(e, distance)) <==> -0.5 <= left < 0.5
  {
    var s := Rounded(e, distance);
    PartsInRange(e, distance);
    PercentIsCloseToItsParts(e, distance);
    HundredthsBounds(Total(e));
    if -0.5 <= 100.0 * Total(e) - PartSum(s) as real < 0.5 {
      assert s.percent as real - PartSum(s) as real < 1.0 && s.percent as real - PartSum(s) as real > -1.0;
    }
  }

  lemma PartsInRange(e: Exact, distance: Option<int>)
    requires InRange(e)
    ensures var s := Rounded(e, distance);
            && 0 <= s.required <= 3500 && 0 <= s.role <= 2500 && 0 <= s.experience <= 1500
            && 0 <= s.seniority <= 1500 && 0 <= s.preferred <= 1000
  {
    HundredthsBounds(e.required);
    HundredthsBounds(e.role);
    HundredthsBounds(e.experience);
    HundredthsBounds(e.preferred);
  }

  lemma RemaindersOfParts(k: Counts, e: Exact)
    requires Accounts(k, e) && k.years >= 0.0
    ensures RemainderSum(k) ==
              OffNearest(100.0 * e.required) + OffNearest(100.0 * e.role)
              + OffNearest(100.0 * e.experience) + OffNearest(100.0 * e.preferred)
  {
    HundredthsOfShare(35, k.required.m, k.required.n);
    HundredthsOfShare(25, k.role.m, k.role.n);
    ExperienceOff(k.years, k.minimum);
    HundredthsOfShare(10, k.preferred.m, k.preferred.n);
  }

  lemma AcceptedWhenCountsCancel(k: Counts, e: Exact, distance: Option<int>)
    requires Accounts(k, e) && k.years >= 0.0 && InRange(e) && (distance.Some? ==> distance.value >= 0)
    ensures ScanLifecycle.ScoreChecks(Rounded(e, distance)) <==> RemaindersCancel(k)
  {
    RemaindersOfParts(k, e);
    LeftOver(e, distance);
    AcceptedWhenLeftOverIsSmall(e, distance);
  }

  /**
   The table accepts a candidate's score exactly when the remainders cancel: of
   m of n required values, k of l words of the best role, the years of the
   minimum, and m' of n' preferred values and domains.
   */
  lemma AcceptedExactlyWhenRemaindersCancel(r: Rules, p: Profile, c: Candidate)
    requires p.years >= 0.0 && (c.distance.Some? ==> c.distance.value >= 0)
    ensures ScanLifecycle.ScoreChecks(Rounded(Points(r, p, c), c.distance)) <==> RemaindersCancel(CountsOf(r, p, c))
  {
    CountsAccount(r, p, c);
    PointsInRange(r, p, c);
    AcceptedWhenCountsCancel(CountsOf(r, p, c), Points(r, p, c), c.distance);
  }

  /** How many of the four parts are not whole hundredths. */
  function FractionalParts(k: Counts): nat
    requires ProperCounts(k)
  {
    (if 3500 * k.required.m % k.required.n != 0 then 1 else 0) + (if 2500 * k.role.m % k.role.n != 0 then 1 else 0)
    + (if ExperienceRemainder(k.years, k.minimum) != 0.0 then 1 else 0) + (if 1000 * k.preferred.m % k.preferred.n != 0 then 1 else 0)
  }

  lemma OneRemainderCancels(k: Counts)
    requires ProperCounts(k) && FractionalParts(k) <= 1
    ensures RemaindersCancel(k)
  {
    CentredRemainderBounds(35, k.required.m, k.required.n);
    CentredRemainderBounds(25, k.role.m, k.role.n);
    CentredRemainderBounds(10, k.preferred.m, k.preferred.n);
  }

  /** One part that is not in whole hundredths does no harm: it takes two to be refused. */
  lemma OneFractionalPartIsAccepted(r: Rules, p: Profile, c: Candidate)
    requires p.years >= 0.0 && (c.distance.Some? ==> c.distance.value >= 0)
    requires FractionalParts(CountsOf(r, p, c)) <= 1
    ensures ScanLifecycle.ScoreChecks(Rounded(Points(r, p, c), c.distance))
  {
    OneRemainderCancels(CountsOf(r, p, c));
    AcceptedExactlyWhenRemaindersCancel(r, p, c);
  }

  /** One of six required and one of three preferred: 5.83 and 3.33 make 9.16, but the percentage is 9.17. */
  lemma OneSixthAndOneThirdAreRefused(distance: Option<int>)
    ensures var s := Rounded(Exact(Share(35.0, 1, 6), 0.0, 0.0, 0.0, Share(10.0, 1, 3)), distance);
            && s.required == 583 && s.preferred == 333 && s.percent == 917 && !ScanLifecycle.ScoreChecks(s)
  {
    var required, preferred := Share(35.0, 1, 6), Share(10.0, 1, 3);
    assert required * 6.0 == 35.0 && preferred * 3.0 == 10.0;
    assert 583.0 <= required * 100.0 + 0.5 < 584.0;
    assert 333.0 <= preferred * 100.0 + 0.5 < 334.0;
    assert 917.0 <= (required + preferred) * 100.0 + 0.5 < 918.0;
  }

  /** So is every candidate that matches one of its six required and one of its three preferred skills, and nothing else. */
  lemma OneOfSixAndOneOfThreeAreRefused(r: Rules, p: Profile, c: Candidate)
    requires Scorable(r, p, c) && RolePoints(r, p, c) == 0.0 && c.minimum.None? && SeniorityPoints(r, p.seniority, c.seniority) == 0.0
    requires |NormalizedSet(r.a, c.required)| == 6
    requires |NormalizedSet(r.a, c.required) * NormalizedSet(r.a, p.skills)| == 1
    requires |NormalizedSet(r.a, c.preferred + c.domains)| == 3
    requires |NormalizedSet(r.a, c.preferred + c.domains) * NormalizedSet(r.a, p.skills + p.domains)| == 1
    ensures !ScanLifecycle.ScoreChecks(Rounded(Points(r, p, c), c.distance))
  {
    OneSixthAndOneThirdAreRefused(c.distance);
  }
}
