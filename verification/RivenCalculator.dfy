/** Roll quality of riven attributes: the roll formula inverted, over the reals. */
module RivenCalculator {
  import opened Common
  import opened Market

  const NUM_BUFFS_ATTEN: seq<real> := [0.0, 1.0, 0.66000003, 0.5, 0.40000001, 0.34999999]

  const MELEE_RIVEN: string := "PlayerMeleeWeaponRandomModRare"

  const CATEGORY_TO_RIVEN_TYPE: map<string, string> := map[
    "Melee" := MELEE_RIVEN,
    "Swords" := MELEE_RIVEN,
    "Pistols" := "LotusPistolRandomModRare",
    "Primary" := "LotusRifleRandomModRare",
    "Shotguns" := "LotusShotgunRandomModRare",
    "Archguns" := "LotusArchgunRandomModRare",
    "Zaw" := "LotusModularMeleeRandomModRare",
    "Kitgun" := "LotusModularPistolRandomModRare"]

  datatype Score = Score(urlName: string, value: real, positive: bool, rollQuality: real, known: bool)

  // ---------- Arithmetic ----------

  function Abs(x: real): real {
    if x < 0.0 then -x else x
  }

  function Clamp(x: real): real {
    if x < 0.0 then 0.0 else if x > 100.0 then 100.0 else x
  }

  /** Conversion of a float to an int drops the fraction, towards zero. */
  function Truncate(x: real): int {
    if x >= 0.0 then x.Floor else -((-x).Floor)
  }

  /** 1.25 to the power n: the bonus every curse gives to the positive stats. */
  function CurseAtten(n: nat): (r: real)
    ensures r >= 1.0
  {
    if n == 0 then 1.0 else 1.25 * CurseAtten(n - 1)
  }

  lemma {:induction false} CurseAttenMonotone(m: nat, n: nat)
    requires m <= n
    ensures CurseAtten(m) <= CurseAtten(n)
  {
    if m < n { CurseAttenMonotone(m, n - 1); }
  }

  // ---------- The formula ----------

  function CountPositive(attrs: seq<Attribute>): nat {
    if attrs == [] then 0 else (if attrs[0].positive then 1 else 0) + CountPositive(attrs[1..])
  }

  function CountNegative(attrs: seq<Attribute>): nat {
    if attrs == [] then 0 else (if attrs[0].positive then 0 else 1) + CountNegative(attrs[1..])
  }

  function BuffsAtten(numPositive: nat): real {
    NUM_BUFFS_ATTEN[Min(numPositive, |NUM_BUFFS_ATTEN| - 1)]
  }

  /** What a lerp factor of one stands for, before curses: base value times the multipliers of weapon, buffs and
      rank. */
  function Multiplier(base: real, weapon: WeaponInfo, modRank: int, numPositive: nat): real {
    base * (1.5 * 10.0 * weapon.disposition * 100.0) * BuffsAtten(numPositive) * ((modRank + 1) as real)
  }

  function Denominator(base: real, weapon: WeaponInfo, modRank: int, numPositive: nat, numNegative: nat,
                       positive: bool): real
  {
    if positive then Multiplier(base, weapon, modRank, numPositive) * CurseAtten(numNegative)
    else Multiplier(base, weapon, modRank, numPositive)
  }

  function RollQuality(value: real, denominator: real): real {
    if denominator == 0.0 then 0.0 else Clamp((Abs(value) / denominator - 0.9) / 0.2 * 100.0)
  }

  /** The qualities that count: those of known positive stats. */
  function Counted(scores: seq<Score>): seq<real> {
    if scores == [] then []
    else (if scores[0].positive && scores[0].known then [scores[0].rollQuality] else []) + Counted(scores[1..])
  }

  function Total(q: seq<real>): real {
    if q == [] then 0.0 else q[0] + Total(q[1..])
  }

  function TruncatedMean(q: seq<real>): int {
    if q == [] then 0 else Truncate(Total(q) / |q| as real)
  }

  function AvgRollQuality(scores: seq<Score>): int {
    TruncatedMean(Counted(scores))
  }

  /** The calculator and its table of base values, riven type by riven type. */
  datatype Calculator = Calculator(bases: map<string, map<string, real>>) {

    function Bases(weapon: WeaponInfo): map<string, real> {
      var known := if weapon.category in CATEGORY_TO_RIVEN_TYPE then CATEGORY_TO_RIVEN_TYPE[weapon.category] else "";
      var rivenType := if known == "" then MELEE_RIVEN else known;
      if rivenType in bases then bases[rivenType] else map[]
    }

    function ScoreOf(attr: Attribute, weapon: WeaponInfo, modRank: int, numPositive: nat, numNegative: nat): Score {
      var b := Bases(weapon);
      if attr.urlName in b then
        var d := Denominator(b[attr.urlName], weapon, modRank, numPositive, numNegative, attr.positive);
        Score(attr.urlName, attr.value, attr.positive, RollQuality(attr.value, d), true)
      else
        Score(attr.urlName, attr.value, attr.positive, 0.0, false)
    }

    function ScoresWith(attrs: seq<Attribute>, weapon: WeaponInfo, modRank: int, numPositive: nat,
                        numNegative: nat): (r: seq<Score>)
      ensures |r| == |attrs|
      ensures forall i :: 0 <= i < |r| ==> r[i] == ScoreOf(attrs[i], weapon, modRank, numPositive, numNegative)
    {
      seq(|attrs|, i requires 0 <= i < |attrs| => ScoreOf(attrs[i], weapon, modRank, numPositive, numNegative))
    }

    function Scores(attrs: seq<Attribute>, modRank: int, weapon: Option<WeaponInfo>): seq<Score> {
      if weapon.None? then []
      else ScoresWith(attrs, weapon.value, modRank, CountPositive(attrs), CountNegative(attrs))
    }

    /** The number the watch compares with the minimum roll quality. */
    function Quality(attrs: seq<Attribute>, modRank: int, weapon: Option<WeaponInfo>): int {
      AvgRollQuality(Scores(attrs, modRank, weapon))
    }

    /** The body of the scoring loop. */
    method ScoreAttribute(attr: Attribute, w: WeaponInfo, modRank: int, ghost numPositive: nat, ghost numNegative: nat,
                          baseValues: map<string, real>, baseMult: real, nba: real, rankMult: real, curseAtten: real)
      returns (score: Score)
      requires baseValues == Bases(w) && baseMult == 1.5 * 10.0 * w.disposition * 100.0
      requires nba == BuffsAtten(numPositive) && rankMult == (modRank + 1) as real
        && curseAtten == CurseAtten(numNegative)
      ensures score == ScoreOf(attr, w, modRank, numPositive, numNegative)
    {
      hide Calculator.Bases, BuffsAtten, CurseAtten, Abs, Clamp;
      var ok := attr.urlName in baseValues;
      score := Score(attr.urlName, attr.value, attr.positive, 0.0, ok);
      if ok {
        var denominator := baseValues[attr.urlName] * baseMult * nba * rankMult;
        if attr.positive {
          denominator := denominator * curseAtten;
        }
        assert denominator
          == Denominator(baseValues[attr.urlName], w, modRank, numPositive, numNegative, attr.positive);
        if denominator != 0.0 {
          var lerpFactor := Abs(attr.value) / denominator;
          score := score.(rollQuality := (lerpFactor - 0.9) / 0.2 * 100.0);
          score := score.(rollQuality := Clamp(score.rollQuality));
        }
      }
    }

    method ScoreAuction(attrs: seq<Attribute>, modRank: int, weapon: Option<WeaponInfo>) returns (scores: seq<Score>)
      ensures scores == Scores(attrs, modRank, weapon)
    {
      if weapon.None? { return []; }
      var w := weapon.value;
      var rivenType := if w.category in CATEGORY_TO_RIVEN_TYPE then CATEGORY_TO_RIVEN_TYPE[w.category] else "";
      if rivenType == "" { rivenType := MELEE_RIVEN; }
      var baseValues := if rivenType in bases then bases[rivenType] else map[];

      var numPositive: nat, numNegative: nat := 0, 0;
      for i := 0 to |attrs|
        invariant numPositive + CountPositive(attrs[i..]) == CountPositive(attrs)
        invariant numNegative + CountNegative(attrs[i..]) == CountNegative(attrs)
      {
        assert attrs[i..][0] == attrs[i] && attrs[i..][1..] == attrs[i + 1..];
        if attrs[i].positive {
          numPositive := numPositive + 1;
        } else {
          numNegative := numNegative + 1;
        }
      }

      var curseAtten := CurseAtten(numNegative);
      var nba := NUM_BUFFS_ATTEN[Min(numPositive, |NUM_BUFFS_ATTEN| - 1)];
      var rankMult := (modRank + 1) as real;
      var baseMult := 1.5 * 10.0 * w.disposition * 100.0;

      scores := [];
      for i := 0 to |attrs|
        invariant |scores| == i
        invariant forall k :: 0 <= k < i ==> scores[k] == ScoreOf(attrs[k], w, modRank, numPositive, numNegative)
      {
        var score := ScoreAttribute(attrs[i], w, modRank, numPositive, numNegative, baseValues, baseMult, nba, rankMult,
          curseAtten);
        scores := scores + [score];
      }
    }
  }

  // ---------- Averaging ----------

  lemma CountedCons(s: Score, scores: seq<Score>)
    ensures Counted([s] + scores)
         == if s.positive && s.known then [s.rollQuality] + Counted(scores) else Counted(scores)
  {
    assert ([s] + scores)[1..] == scores;
  }

  lemma ScoresWithCons(c: Calculator, attrs: seq<Attribute>, weapon: WeaponInfo, modRank: int, p: nat, n: nat)
    requires attrs != []
    ensures c.ScoresWith(attrs, weapon, modRank, p, n)
         == [c.ScoreOf(attrs[0], weapon, modRank, p, n)] + c.ScoresWith(attrs[1..], weapon, modRank, p, n)
  {}

  lemma {:induction false} CountedSnoc(scores: seq<Score>, s: Score)
    ensures Counted(scores + [s])
         == if s.positive && s.known then Counted(scores) + [s.rollQuality] else Counted(scores)
  {
    if scores == [] {
      assert scores + [s] == [s];
    } else {
      assert (scores + [s])[1..] == scores[1..] + [s];
      CountedSnoc(scores[1..], s);
    }
  }

  lemma TotalCons(x: real, q: seq<real>)
    ensures Total([x] + q) == x + Total(q)
  {
    assert ([x] + q)[1..] == q;
  }

  lemma {:induction false} TotalSnoc(q: seq<real>, x: real)
    ensures Total(q + [x]) == Total(q) + x
  {
    if q == [] {
      assert q + [x] == [x];
    } else {
      assert (q + [x])[1..] == q[1..] + [x];
      TotalSnoc(q[1..], x);
    }
  }

  method AverageRollQuality(scores: seq<Score>) returns (avg: int)
    ensures avg == AvgRollQuality(scores)
  {
    if |scores| == 0 { return 0; }
    var sum, count := 0.0, 0;
    for i := 0 to |scores|
      invariant count == |Counted(scores[..i])| && sum == Total(Counted(scores[..i]))
    {
      var s := scores[i];
      assert scores[..i + 1] == scores[..i] + [s];
      CountedSnoc(scores[..i], s);
      if s.positive && s.known {
        TotalSnoc(Counted(scores[..i]), s.rollQuality);
        sum := sum + s.rollQuality;
        count := count + 1;
      }
    }
    assert scores[..|scores|] == scores;
    if count == 0 { return 0; }
    var mean := sum / count as real;
    assert mean == Total(Counted(scores)) / |Counted(scores)| as real;
    return Truncate(mean);
  }

  // ---------- Inverting the roll ----------

  /** The value the game shows for an attribute rolled at fraction r of its range: lerp(0.9, 1.1, r) of the
      denominator. */
  function Generated(r: real, denominator: real): real {
    denominator * (0.9 + 0.2 * r)
  }

  lemma ProductPositive(x: real, y: real)
    requires x > 0.0 && y > 0.0
    ensures x * y > 0.0
  {}

  /** All multipliers are positive once some stat is positive, so the zero guard is never taken for a known stat. */
  lemma DenominatorPositive(base: real, weapon: WeaponInfo, modRank: int, numPositive: nat, numNegative: nat,
                            positive: bool)
    requires base > 0.0 && weapon.disposition > 0.0 && modRank >= 0 && numPositive >= 1
    ensures Denominator(base, weapon, modRank, numPositive, numNegative, positive) > 0.0
  {
    var m := 1.5 * 10.0 * weapon.disposition * 100.0;
    assert m > 0.0;
    ProductPositive(base, m);
    assert BuffsAtten(numPositive) > 0.0;
    ProductPositive(base * m, BuffsAtten(numPositive));
    ProductPositive(base * m * BuffsAtten(numPositive), (modRank + 1) as real);
    ProductPositive(Multiplier(base, weapon, modRank, numPositive), CurseAtten(numNegative));
  }

  lemma ProductStrict(x: real, y: real, k: real)
    requires x < y && k > 0.0
    ensures k * x < k * y
  {
    ProductPositive(y - x, k);
  }

  lemma ProductMonotone(x: real, y: real, k: real)
    requires x <= y && k > 0.0
    ensures k * x <= k * y
  {
    if x < y { ProductStrict(x, y, k); }
  }

  lemma AbsScaled(d: real, x: real)
    requires d > 0.0
    ensures Abs(d * x) == d * Abs(x)
  {
    if x < 0.0 {
      ProductPositive(d, -x);
    } else if x > 0.0 {
      ProductPositive(d, x);
    }
  }

  lemma RollQualityScaled(v: real, d: real, u: real)
    requires d > 0.0 && Abs(v) == d * u
    ensures RollQuality(v, d) == Clamp((u - 0.9) * 500.0)
  {
    assert Abs(v) / d == u;
    assert (u - 0.9) / 0.2 * 100.0 == (u - 0.9) * 500.0;
  }

  /** Scoring undoes generating: 100 r inside the range, saturated outside it.  The absolute value in the
      formula breaks the saturation from below exactly when the lerp factor falls under -0.9, that is r < -9. */
  lemma RollInverted(r: real, d: real)
    requires d > 0.0
    ensures RollQuality(Generated(r, d), d) == Clamp(100.0 * r) <==> r >= -9.0
  {
    var lerp := 0.9 + 0.2 * r;
    AbsScaled(d, lerp);
    RollQualityScaled(Generated(r, d), d, Abs(lerp));
  }

  /** x to the power n. */
  function Power(x: real, n: nat): real {
    if n == 0 then 1.0 else x * Power(x, n - 1)
  }

  lemma {:induction false} PowerAdds(x: real, m: nat, n: nat)
    ensures Power(x, m + n) == Power(x, m) * Power(x, n) && Power(x, 1) == x
  {
    assert Power(x, 1) == x * Power(x, 0);
    if m == 0 {
    } else {
      PowerAdds(x, m - 1, n);
    }
  }

  lemma {:induction false} CurseAttenIsPower(n: nat)
    ensures CurseAtten(n) == Power(1.25, n)
  {
    if n == 0 {
    } else {
      CurseAttenIsPower(n - 1);
    }
  }

  /** The documented share of a stat among n positive ones. */
  function BuffShare(n: nat): real
    requires n >= 1
  {
    if n == 1 then 1.0
    else if n == 2 then 0.66000003
    else if n == 3 then 0.5
    else if n == 4 then 0.40000001
    else 0.34999999
  }

  /** The table holds these shares: smaller with every further positive stat up to five, the same from there on, and
      nothing for an auction without positive stats. */
  lemma BuffsAttenIsShare(n: nat)
    ensures n >= 1 ==> BuffsAtten(n) == BuffShare(n)
    ensures 1 <= n < 5 ==> BuffsAtten(n) > BuffsAtten(n + 1) > 0.0
    ensures n >= 5 ==> BuffsAtten(n) == BuffsAtten(5)
    ensures BuffsAtten(0) == 0.0
  {}

  /** The formula the scoring is meant to invert, in its documented order of factors: base value, riven drain,
      disposition, curse bonus, roll, buff attenuation and rank. */
  function ShownValue(base: real, disposition: real, numCurses: nat, r: real, numBuffs: nat, modRank: int): real
    requires numBuffs >= 1
  {
    base * 1.5 * 10.0 * disposition * Power(1.25, numCurses) * (0.9 + 0.2 * r) * BuffShare(numBuffs)
    * ((modRank + 1) as real) * 100.0
  }

  lemma Reassociate(base: real, disposition: real, curse: real, roll: real, buffs: real, rank: real)
    ensures base * 1.5 * 10.0 * disposition * curse * roll * buffs * rank * 100.0
         == base * (1.5 * 10.0 * disposition * 100.0) * buffs * rank * curse * roll
  {}

  lemma ShownValueIsGenerated(base: real, weapon: WeaponInfo, numCurses: nat, r: real, numBuffs: nat, modRank: int,
                              positive: bool)
    requires numBuffs >= 1
    ensures ShownValue(base, weapon.disposition, if positive then numCurses else 0, r, numBuffs, modRank)
         == Generated(r, Denominator(base, weapon, modRank, numBuffs, numCurses, positive))
  {
    hide CurseAtten, BuffsAtten, BuffShare;
    var n := if positive then numCurses else 0;
    CurseAttenIsPower(n);
    assert Power(1.25, 0) == 1.0;
    BuffsAttenIsShare(numBuffs);
    hide Power;
    Reassociate(base, weapon.disposition, Power(1.25, n), 0.9 + 0.2 * r, BuffsAtten(numBuffs), (modRank + 1) as real);
  }

  lemma {:induction false} CountsAppend(a: seq<Attribute>, b: seq<Attribute>)
    ensures CountPositive(a + b) == CountPositive(a) + CountPositive(b)
    ensures CountNegative(a + b) == CountNegative(a) + CountNegative(b)
  {
    if a == [] {
      assert a + b == b;
    } else {
      assert (a + b)[1..] == a[1..] + b;
      CountsAppend(a[1..], b);
    }
  }

  lemma CountsOfOne(a: Attribute)
    ensures CountPositive([a]) == (if a.positive then 1 else 0) && CountNegative([a]) == (if a.positive then 0 else 1)
  {}

  lemma CardinalityOfNext(before: set<nat>, after: set<nat>, n: nat, added: bool)
    requires n !in before
    requires forall i: nat :: i in after <==> i in before || (added && i == n)
    ensures |after| == |before| + (if added then 1 else 0)
  {
    assert after == if added then before + {n} else before;
  }

  /** The counters count positions. */
  lemma {:induction false} CountsAreCardinalities(attrs: seq<Attribute>, n: nat)
    requires n <= |attrs|
    ensures CountPositive(attrs[..n]) == |set i: nat | i < n && attrs[i].positive|
    ensures CountNegative(attrs[..n]) == |set i: nat | i < n && !attrs[i].positive|
  {
    if n == 0 {
    } else {
      var m, last := n - 1, attrs[n - 1];
      CountsAreCardinalities(attrs, m);
      assert attrs[..n] == attrs[..m] + [last];
      CountsAppend(attrs[..m], [last]);
      hide CountPositive, CountNegative;
      CardinalityOfNext(
        (set i: nat | i < m && attrs[i].positive), (set i: nat | i < n && attrs[i].positive), m, last.positive);
      CardinalityOfNext(
        (set i: nat | i < m && !attrs[i].positive), (set i: nat | i < n && !attrs[i].positive), m, !last.positive);
      CountsOfOne(last);
    }
  }

  /** Every score names its stat; a stat is known exactly if the weapon's table has it, and scores 0 otherwise, or when
      no stat at all is positive. */
  lemma ScoresDescribeStats(c: Calculator, attrs: seq<Attribute>, modRank: int, weapon: WeaponInfo, k: nat)
    requires k < |attrs|
    ensures var scores := c.Scores(attrs, modRank, Some(weapon)); var s := scores[k];
      && |scores| == |attrs|
      && s.urlName == attrs[k].urlName && s.value == attrs[k].value && s.positive == attrs[k].positive
      && (s.known <==> attrs[k].urlName in c.Bases(weapon))
      && (!s.known || (forall i :: 0 <= i < |attrs| ==> !attrs[i].positive) ==> s.rollQuality == 0.0)
  {
    if forall i :: 0 <= i < |attrs| ==> !attrs[i].positive {
      CountsAreCardinalities(attrs, |attrs|);
      assert attrs[..|attrs|] == attrs;
      assert (set i: nat | i < |attrs| && attrs[i].positive) == {};
      BuffsAttenIsShare(0);
    }
  }

  /** End to end: any known stat of an auction whose shown value was rolled at r, whatever its sign, scores exactly
      100 r in range and saturates at 0 and 100 outside.  Only positive stats are raised by curses. */
  lemma {:induction false} ScoreRecoversRoll(c: Calculator, attrs: seq<Attribute>, modRank: int, weapon: WeaponInfo,
                                             k: nat, r: real, buffs: nat, curses: nat)
    requires buffs == |set i: nat | i < |attrs| && attrs[i].positive| && buffs >= 1
    requires curses == |set i: nat | i < |attrs| && !attrs[i].positive|
    requires k < |attrs| && attrs[k].urlName in c.Bases(weapon)
    requires c.Bases(weapon)[attrs[k].urlName] > 0.0 && weapon.disposition > 0.0 && modRank >= 0
    requires Abs(attrs[k].value) ==
      Abs(ShownValue(c.Bases(weapon)[attrs[k].urlName], weapon.disposition, if attrs[k].positive then curses else 0, r,
        buffs, modRank))
    ensures c.Scores(attrs, modRank, Some(weapon))[k].known
    ensures c.Scores(attrs, modRank, Some(weapon))[k].rollQuality
         == (if r < 0.0 then 0.0 else if r > 1.0 then 100.0 else 100.0 * r)
      <==> r >= -9.0
  {
    CountsAreCardinalities(attrs, |attrs|);
    assert attrs[..|attrs|] == attrs;
    hide Power, BuffShare, Denominator;
    var base, positive := c.Bases(weapon)[attrs[k].urlName], attrs[k].positive;
    var d := Denominator(base, weapon, modRank, buffs, curses, positive);
    DenominatorPositive(base, weapon, modRank, buffs, curses, positive);
    ShownValueIsGenerated(base, weapon, curses, r, buffs, modRank, positive);
    RollInverted(r, d);
    assert RollQuality(attrs[k].value, d) == RollQuality(Generated(r, d), d);
  }

  /** The base values used for a weapon are those of the riven type of its category, a melee riven when the category is
      none of the known ones. */
  lemma BasesByCategory(c: Calculator, weapon: WeaponInfo)
    ensures
      var t :=
        if weapon.category == "Pistols" then "LotusPistolRandomModRare"
        else if weapon.category == "Primary" then "LotusRifleRandomModRare"
        else if weapon.category == "Shotguns" then "LotusShotgunRandomModRare"
        else if weapon.category == "Archguns" then "LotusArchgunRandomModRare"
        else if weapon.category == "Zaw" then "LotusModularMeleeRandomModRare"
        else if weapon.category == "Kitgun" then "LotusModularPistolRandomModRare"
        else "PlayerMeleeWeaponRandomModRare";
      c.Bases(weapon) == if t in c.bases then c.bases[t] else map[]
  {}

  // ---------- Bounds ----------

  lemma {:induction false} CountedBounds(scores: seq<Score>, lo: real, hi: real)
    requires forall s :: s in scores && s.positive && s.known ==> lo <= s.rollQuality <= hi
    ensures forall i :: 0 <= i < |Counted(scores)| ==> lo <= Counted(scores)[i] <= hi
  {
    if scores == [] {
    } else {
      assert scores[0] in scores;
      CountedBounds(scores[1..], lo, hi);
    }
  }

  lemma {:induction false} TotalBounds(q: seq<real>, lo: real, hi: real)
    requires forall i :: 0 <= i < |q| ==> lo <= q[i] <= hi
    ensures |q| as real * lo <= Total(q) <= |q| as real * hi
  {
    if q == [] {
    } else {
      TotalBounds(q[1..], lo, hi);
      assert |q| as real == |q[1..]| as real + 1.0;
    }
  }

  lemma MeanBetween(t: real, n: real, lo: real, hi: real)
    requires n > 0.0 && n * lo <= t <= n * hi
    ensures lo <= t / n <= hi
  {
    var m := t / n;
    assert n * m == t;
    if m < lo { ProductStrict(m, lo, n); }
    if m > hi { ProductStrict(hi, m, n); }
  }

  /** The reported average is the mean of the counted qualities rounded down, so it lies between the floor of
      any lower bound and any upper bound of them. */
  lemma MeanBounds(q: seq<real>, lo: real, hi: real)
    requires q != [] && 0.0 <= lo
    requires forall i :: 0 <= i < |q| ==> lo <= q[i] <= hi
    ensures var mean := Total(q) / |q| as real;
      mean - 1.0 < TruncatedMean(q) as real <= mean && lo.Floor <= TruncatedMean(q) && TruncatedMean(q) as real <= hi
  {
    var n := |q| as real;
    TotalBounds(q, lo, hi);
    MeanBetween(Total(q), n, lo, hi);
  }

  lemma ScoresInRange(c: Calculator, attrs: seq<Attribute>, modRank: int, weapon: Option<WeaponInfo>)
    ensures forall s :: s in c.Scores(attrs, modRank, weapon) ==> 0.0 <= s.rollQuality <= 100.0
  {}

  /** Every quality the watch compares or reports is a percentage; without a weapon, or when no positive stat is
      known, it is 0; otherwise it is the mean of the counted qualities rounded down. */
  lemma QualityIsPercentage(c: Calculator, attrs: seq<Attribute>, modRank: int, weapon: Option<WeaponInfo>)
    ensures 0 <= c.Quality(attrs, modRank, weapon) <= 100
    ensures weapon.None? ==> c.Quality(attrs, modRank, weapon) == 0
    ensures var q := Counted(c.Scores(attrs, modRank, weapon));
      q != [] ==>
        var mean := Total(q) / |q| as real;
        mean - 1.0 < c.Quality(attrs, modRank, weapon) as real <= mean
  {
    var scores := c.Scores(attrs, modRank, weapon);
    ScoresInRange(c, attrs, modRank, weapon);
    CountedBounds(scores, 0.0, 100.0);
    if Counted(scores) != [] {
      MeanBounds(Counted(scores), 0.0, 100.0);
    }
  }

  /** Whatever bounds the qualities of the known positive stats bounds the reported average, up to rounding down. */
  lemma QualityBetween(c: Calculator, attrs: seq<Attribute>, modRank: int, weapon: Option<WeaponInfo>, lo: real,
                       hi: real)
    requires Counted(c.Scores(attrs, modRank, weapon)) != [] && 0.0 <= lo
    requires forall s :: s in c.Scores(attrs, modRank, weapon) && s.positive && s.known ==> lo <= s.rollQuality <= hi
    ensures lo.Floor <= c.Quality(attrs, modRank, weapon) && c.Quality(attrs, modRank, weapon) as real <= hi
  {
    hide Calculator.Scores;
    CountedBounds(c.Scores(attrs, modRank, weapon), lo, hi);
    MeanBounds(Counted(c.Scores(attrs, modRank, weapon)), lo, hi);
  }

  /** The sum of the known positive qualities among the first n scores. */
  function KnownTotal(scores: seq<Score>, n: nat): real
    requires n <= |scores|
  {
    if n == 0 then 0.0
    else
      var s := scores[n - 1];
      KnownTotal(scores, n - 1) + (if s.positive && s.known then s.rollQuality else 0.0)
  }

  lemma {:induction false} CountedMeaning(scores: seq<Score>, n: nat)
    requires n <= |scores|
    ensures |Counted(scores[..n])| == |set i: nat | i < n && scores[i].positive && scores[i].known|
    ensures Total(Counted(scores[..n])) == KnownTotal(scores, n)
  {
    if n == 0 {
    } else {
      var m, last := n - 1, scores[n - 1];
      CountedMeaning(scores, m);
      assert scores[..n] == scores[..m] + [last];
      CountedSnoc(scores[..m], last);
      CardinalityOfNext(
        (set i: nat | i < m && scores[i].positive && scores[i].known),
        (set i: nat | i < n && scores[i].positive && scores[i].known),
        m, last.positive && last.known);
      hide Counted, Total;
      TotalSnoc(Counted(scores[..m]), last.rollQuality);
    }
  }

  lemma TruncateBounds(m: real)
    ensures var avg := Truncate(m) as real;
      && (m >= 0.0 ==> avg <= m < avg + 1.0)
      && (m <= 0.0 ==> avg - 1.0 < m <= avg)
  {}

  lemma BetweenMultiples(t: real, d: real, m: real, low: real, high: real)
    requires d > 0.0 && d * m == t
    ensures low <= m ==> d * low <= t
    ensures low < m ==> d * low < t
    ensures m <= high ==> t <= d * high
    ensures m < high ==> t < d * high
  {
    if low < m { ProductStrict(low, m, d); }
    if m < high { ProductStrict(m, high, d); }
  }

  lemma TruncatedQuotient(t: real, d: real, avg: real)
    requires d > 0.0 && avg == Truncate(t / d) as real
    ensures t >= 0.0 ==> d * avg <= t < d * (avg + 1.0)
    ensures t <= 0.0 ==> d * (avg - 1.0) < t <= d * avg
  {
    var m := t / d;
    assert d * m == t;
    TruncateBounds(m);
    hide Truncate;
    BetweenMultiples(t, d, m, 0.0, 0.0);
    BetweenMultiples(t, d, m, avg, avg + 1.0);
    BetweenMultiples(t, d, m, avg - 1.0, avg);
  }

  /** The average is the sum of the qualities of the known positive stats over their number, cut towards zero, and 0 if
      there are none. */
  lemma AverageMeaning(scores: seq<Score>)
    ensures
      var n := |set i: nat | i < |scores| && scores[i].positive && scores[i].known| as real;
      var t, avg := KnownTotal(scores, |scores|), AvgRollQuality(scores) as real;
      && (n == 0.0 ==> avg == 0.0)
      && (n > 0.0 && t >= 0.0 ==> n * avg <= t < n * (avg + 1.0))
      && (n > 0.0 && t <= 0.0 ==> n * (avg - 1.0) < t <= n * avg)
  {
    hide Counted, Total, KnownTotal, Truncate;
    CountedMeaning(scores, |scores|);
    assert scores[..|scores|] == scores;
    var q := Counted(scores);
    if q != [] { TruncatedQuotient(Total(q), |q| as real, TruncatedMean(q) as real); }
  }

  lemma {:induction false} UnknownNotCounted(scores: seq<Score>)
    requires forall s :: s in scores ==> !s.known
    ensures Counted(scores) == []
  {
    if scores == [] {
    } else {
      assert scores[0] in scores;
      UnknownNotCounted(scores[1..]);
    }
  }

  /** A category whose riven type has no base values scores nothing: every stat is unknown and the quality is 0. */
  lemma NoBasesNoQuality(c: Calculator, attrs: seq<Attribute>, modRank: int, weapon: WeaponInfo)
    requires c.Bases(weapon) == map[]
    ensures c.Quality(attrs, modRank, Some(weapon)) == 0
  {
    var scores := c.Scores(attrs, modRank, Some(weapon));
    forall s | s in scores ensures !s.known {}
    UnknownNotCounted(scores);
  }

  /** The shipped table has no entry for the kitgun riven type, so a kitgun auction always has quality 0. */
  lemma KitgunsAreNeverScored(c: Calculator, attrs: seq<Attribute>, modRank: int, weapon: WeaponInfo)
    requires weapon.category == "Kitgun" && "LotusModularPistolRandomModRare" !in c.bases
    ensures c.Quality(attrs, modRank, Some(weapon)) == 0
  {
    assert weapon.category in CATEGORY_TO_RIVEN_TYPE;
    assert CATEGORY_TO_RIVEN_TYPE[weapon.category] == "LotusModularPistolRandomModRare";
    NoBasesNoQuality(c, attrs, modRank, weapon);
  }

  // ---------- Permutations ----------

  lemma {:induction false} CountsPermutation(a: seq<Attribute>, b: seq<Attribute>)
    requires IsPermutation(a, b)
    ensures CountPositive(a) == CountPositive(b) && CountNegative(a) == CountNegative(b)
  {
    assert |multiset(a)| == |a| && |multiset(b)| == |b|;
    if a == [] {
    } else {
      var i := SplitPermutation(a, b);
      CountsPermutation(a[1..], RemoveAt(b, i));
      CountsAppend(b[..i], b[i + 1..]);
      CountsAppend(b[..i], [b[i]] + b[i + 1..]);
      assert b == b[..i] + ([b[i]] + b[i + 1..]);
      assert ([b[i]] + b[i + 1..])[1..] == b[i + 1..];
    }
  }

  lemma {:induction false} CountedAppend(a: seq<Score>, b: seq<Score>)
    ensures Counted(a + b) == Counted(a) + Counted(b)
  {
    if a == [] {
      assert a + b == b;
    } else {
      assert (a + b)[1..] == a[1..] + b;
      CountedAppend(a[1..], b);
    }
  }

  lemma {:induction false} TotalAppend(a: seq<real>, b: seq<real>)
    ensures Total(a + b) == Total(a) + Total(b)
  {
    if a == [] {
      assert a + b == b;
    } else {
      assert (a + b)[1..] == a[1..] + b;
      TotalAppend(a[1..], b);
    }
  }

  lemma {:induction false} CountedPermutation(a: seq<Score>, b: seq<Score>)
    requires IsPermutation(a, b)
    ensures |Counted(a)| == |Counted(b)| && Total(Counted(a)) == Total(Counted(b))
  {
    assert |multiset(a)| == |a| && |multiset(b)| == |b|;
    if a == [] {
    } else {
      var i := SplitPermutation(a, b);
      var head := if a[0].positive && a[0].known then [a[0].rollQuality] else [];
      CountedPermutation(a[1..], RemoveAt(b, i));
      CountedAppend(b[..i], b[i + 1..]);
      CountedAppend(b[..i], [b[i]] + b[i + 1..]);
      assert b == b[..i] + ([b[i]] + b[i + 1..]);
      assert ([b[i]] + b[i + 1..])[1..] == b[i + 1..];
      TotalAppend(head, Counted(a[1..]));
      TotalAppend(Counted(b[..i]), Counted(b[i + 1..]));
      TotalAppend(Counted(b[..i]), head + Counted(b[i + 1..]));
      TotalAppend(head, Counted(b[i + 1..]));
    }
  }

  lemma {:induction false} ScoresWithPermutation(c: Calculator, a: seq<Attribute>, b: seq<Attribute>,
                                                 weapon: WeaponInfo, modRank: int, p: nat, n: nat)
    requires IsPermutation(a, b)
    ensures IsPermutation(c.ScoresWith(a, weapon, modRank, p, n), c.ScoresWith(b, weapon, modRank, p, n))
  {
    hide Calculator.ScoreOf;
    assert |multiset(a)| == |a| && |multiset(b)| == |b|;
    if a == [] {
    } else {
      var i := SplitPermutation(a, b);
      var sa, sb := c.ScoresWith(a, weapon, modRank, p, n), c.ScoresWith(b, weapon, modRank, p, n);
      ScoresWithPermutation(c, a[1..], RemoveAt(b, i), weapon, modRank, p, n);
      assert sa[1..] == c.ScoresWith(a[1..], weapon, modRank, p, n);
      assert RemoveAt(sb, i) == c.ScoresWith(RemoveAt(b, i), weapon, modRank, p, n);
      JoinPermutation(sa, sb, i);
    }
  }

  /** Reordering the attributes of an auction reorders its scores and leaves its quality alone. */
  lemma QualityPermutation(c: Calculator, a: seq<Attribute>, b: seq<Attribute>, modRank: int,
                           weapon: Option<WeaponInfo>)
    requires IsPermutation(a, b)
    ensures IsPermutation(c.Scores(a, modRank, weapon), c.Scores(b, modRank, weapon))
    ensures c.Quality(a, modRank, weapon) == c.Quality(b, modRank, weapon)
  {
    if weapon.Some? {
      CountsPermutation(a, b);
      ScoresWithPermutation(c, a, b, weapon.value, modRank, CountPositive(a), CountNegative(a));
      CountedPermutation(c.Scores(a, modRank, weapon), c.Scores(b, modRank, weapon));
    }
  }

  // ---------- Monotonicity ----------

  function Positives(attrs: seq<Attribute>): seq<Attribute> {
    if attrs == [] then [] else (if attrs[0].positive then [attrs[0]] else []) + Positives(attrs[1..])
  }

  /** b has the positive stats of a, each at least as strong, and no more curses. */
  ghost predicate AtLeastAsGood(b: seq<Attribute>, a: seq<Attribute>) {
    var p, q := Positives(a), Positives(b);
    && |p| == |q|
    && (forall i :: 0 <= i < |p| ==> q[i].urlName == p[i].urlName && Abs(p[i].value) <= Abs(q[i].value))
    && CountNegative(b) <= CountNegative(a)
  }

  lemma {:induction false} CountPositiveIsLength(attrs: seq<Attribute>)
    ensures CountPositive(attrs) == |Positives(attrs)|
    ensures forall i :: 0 <= i < |Positives(attrs)| ==> Positives(attrs)[i].positive
  {
    if attrs == [] {
    } else {
      CountPositiveIsLength(attrs[1..]);
    }
  }

  /** Only positive attributes contribute to the average. */
  lemma {:induction false} CountedFromPositives(c: Calculator, attrs: seq<Attribute>, weapon: WeaponInfo, modRank: int,
                                                p: nat, n: nat)
    ensures Counted(c.ScoresWith(attrs, weapon, modRank, p, n))
      == Counted(c.ScoresWith(Positives(attrs), weapon, modRank, p, n))
  {
    if attrs == [] {
    } else {
      var head, rest := attrs[0], attrs[1..];
      CountedFromPositives(c, rest, weapon, modRank, p, n);
      var score := c.ScoreOf(head, weapon, modRank, p, n);
      ScoresWithCons(c, attrs, weapon, modRank, p, n);
      CountedCons(score, c.ScoresWith(rest, weapon, modRank, p, n));
      if head.positive {
        assert Positives(attrs) == [head] + Positives(rest);
        ScoresWithCons(c, Positives(attrs), weapon, modRank, p, n);
        CountedCons(score, c.ScoresWith(Positives(rest), weapon, modRank, p, n));
      } else {
        assert Positives(attrs) == Positives(rest);
      }
    }
  }

  lemma QuotientMonotone(x: real, y: real, d: real, e: real)
    requires 0.0 <= x <= y && 0.0 < e <= d
    ensures x / d <= y / e
  {
    var u, v := x / d, y / e;
    assert d * u == x && e * v == y;
    if v < 0.0 { ProductStrict(v, 0.0, e); }
    if v > 0.0 { ProductMonotone(e, d, v); }
    assert e * v <= d * v;
    if u > v { ProductStrict(v, u, d); }
  }

  lemma QuotientTimes(x: real, d: real)
    requires d > 0.0
    ensures d * (x / d) == x
  {}

  lemma RollQualityOverSmaller(x: real, y: real, d: real, e: real)
    requires Abs(x) <= Abs(y) && 0.0 < e <= d
    ensures RollQuality(x, d) <= RollQuality(y, e)
  {
    hide RollQuality;
    var u, v := Abs(x) / d, Abs(y) / e;
    QuotientTimes(Abs(x), d);
    QuotientTimes(Abs(y), e);
    QuotientMonotone(Abs(x), Abs(y), d, e);
    RollQualityScaled(x, d, u);
    RollQualityScaled(y, e, v);
  }

  lemma RollQualityRange(x: real, d: real)
    ensures 0.0 <= RollQuality(x, d) <= 100.0
  {}

  lemma NonPositiveScoresZero(x: real, d: real)
    requires d <= 0.0
    ensures RollQuality(x, d) == 0.0
  {
    if d < 0.0 {
      var u := Abs(x) / d;
      assert -d * u == -Abs(x);
      if u > 0.0 { ProductPositive(u, -d); }
      assert (u - 0.9) / 0.2 * 100.0 == (u - 0.9) * 500.0;
    }
  }

  /** A stronger value over a smaller multiplier never scores lower; non-positive multipliers all score 0. */
  lemma RollQualityMonotone(x: real, y: real, k: real, cx: real, cy: real, d: real, e: real)
    requires Abs(x) <= Abs(y) && 0.0 < cy <= cx && d == k * cx && e == k * cy
    ensures RollQuality(x, d) <= RollQuality(y, e)
  {
    hide RollQuality;
    if k > 0.0 {
      ProductPositive(k, cy);
      ProductMonotone(cy, cx, k);
      RollQualityOverSmaller(x, y, d, e);
    } else {
      if k < 0.0 { ProductPositive(-k, cx); }
      NonPositiveScoresZero(x, d);
      RollQualityRange(y, e);
    }
  }

  lemma ScoreOfMonotone(c: Calculator, a: Attribute, b: Attribute, weapon: WeaponInfo, modRank: int, p: nat, m: nat,
                        n: nat)
    requires m <= n && a.positive && b.positive && b.urlName == a.urlName && Abs(a.value) <= Abs(b.value)
    ensures var sa, sb := c.ScoreOf(a, weapon, modRank, p, n), c.ScoreOf(b, weapon, modRank, p, m);
      sa.positive && sb.positive && sa.known == sb.known && sa.rollQuality <= sb.rollQuality
  {
    hide RollQuality, Multiplier, CurseAtten, Abs, Calculator.Bases;
    if a.urlName in c.Bases(weapon) {
      var k := Multiplier(c.Bases(weapon)[a.urlName], weapon, modRank, p);
      CurseAttenMonotone(m, n);
      RollQualityMonotone(
        a.value, b.value, k, CurseAtten(n), CurseAtten(m),
        Denominator(c.Bases(weapon)[a.urlName], weapon, modRank, p, n, a.positive),
        Denominator(c.Bases(weapon)[b.urlName], weapon, modRank, p, m, b.positive));
    }
  }

  lemma {:induction false} CountedMonotone(c: Calculator, a: seq<Attribute>, b: seq<Attribute>, weapon: WeaponInfo,
                                           modRank: int, p: nat, m: nat, n: nat)
    requires |a| == |b| && m <= n
    requires forall i :: 0 <= i < |a| ==> a[i].positive && b[i].positive
    requires forall i :: 0 <= i < |a| ==> b[i].urlName == a[i].urlName && Abs(a[i].value) <= Abs(b[i].value)
    ensures
      var q := Counted(c.ScoresWith(a, weapon, modRank, p, n));
      var r := Counted(c.ScoresWith(b, weapon, modRank, p, m));
      |q| == |r| && Total(q) <= Total(r)
  {
    if a == [] {
    } else {
      var sa, sb := c.ScoreOf(a[0], weapon, modRank, p, n), c.ScoreOf(b[0], weapon, modRank, p, m);
      CountedMonotone(c, a[1..], b[1..], weapon, modRank, p, m, n);
      ScoresWithCons(c, a, weapon, modRank, p, n);
      ScoresWithCons(c, b, weapon, modRank, p, m);
      CountedCons(sa, c.ScoresWith(a[1..], weapon, modRank, p, n));
      CountedCons(sb, c.ScoresWith(b[1..], weapon, modRank, p, m));
      ScoreOfMonotone(c, a[0], b[0], weapon, modRank, p, m, n);
      TotalCons(sa.rollQuality, Counted(c.ScoresWith(a[1..], weapon, modRank, p, n)));
      TotalCons(sb.rollQuality, Counted(c.ScoresWith(b[1..], weapon, modRank, p, m)));
    }
  }

  /** Strengthening positive stats or dropping curses never lowers the quality, for any weapon and rank: an
      auction that met a minimum still meets it. */
  lemma QualityMonotone(c: Calculator, a: seq<Attribute>, b: seq<Attribute>, modRank: int, weapon: Option<WeaponInfo>)
    requires AtLeastAsGood(b, a)
    ensures c.Quality(a, modRank, weapon) <= c.Quality(b, modRank, weapon)
  {
    if weapon.Some? {
      var w := weapon.value;
      CountPositiveIsLength(a);
      CountPositiveIsLength(b);
      var p, m, n := CountPositive(a), CountNegative(b), CountNegative(a);
      CountedFromPositives(c, a, w, modRank, p, n);
      CountedFromPositives(c, b, w, modRank, p, m);
      CountedMonotone(c, Positives(a), Positives(b), w, modRank, p, m, n);
      var q, r := Counted(c.Scores(a, modRank, weapon)), Counted(c.Scores(b, modRank, weapon));
      ScoresInRange(c, a, modRank, weapon);
      CountedBounds(c.Scores(a, modRank, weapon), 0.0, 100.0);
      if q != [] {
        var k := |q| as real;
        TotalBounds(q, 0.0, 100.0);
        QuotientMonotone(Total(q), Total(r), k, k);
        MeanBetween(Total(q), k, 0.0, 100.0);
      }
    }
  }

  lemma Regroup(base: real, buffs: real, rank: real, curse: real)
    ensures base * buffs * rank * curse == base * rank * curse * buffs
  {}

  /** The share of the buffs as one factor of the denominator. */
  lemma DenominatorByShare(base: real, weapon: WeaponInfo, modRank: int, p: nat, n: nat, positive: bool)
    ensures var share := base * (1.5 * 10.0 * weapon.disposition * 100.0) * ((modRank + 1) as real)
        * (if positive then CurseAtten(n) else 1.0);
      Denominator(base, weapon, modRank, p, n, positive) == share * BuffsAtten(p)
  {
    hide BuffsAtten, CurseAtten;
    Regroup(base * (1.5 * 10.0 * weapon.disposition * 100.0), BuffsAtten(p), (modRank + 1) as real,
      if positive then CurseAtten(n) else 1.0);
  }

  lemma MoreBuffsScoreMore(value: real, base: real, weapon: WeaponInfo, modRank: int, p: nat, n: nat, positive: bool)
    ensures RollQuality(value, Denominator(base, weapon, modRank, p, n, positive))
         <= RollQuality(value, Denominator(base, weapon, modRank, p + 1, n, positive))
  {
    hide RollQuality, Denominator, CurseAtten, Multiplier;
    var d := Denominator(base, weapon, modRank, p, n, positive);
    var e := Denominator(base, weapon, modRank, p + 1, n, positive);
    DenominatorByShare(base, weapon, modRank, p, n, positive);
    DenominatorByShare(base, weapon, modRank, p + 1, n, positive);
    BuffsAttenIsShare(p);
    BuffsAttenIsShare(p + 1);
    hide BuffsAtten, BuffShare;
    if p == 0 {
      NonPositiveScoresZero(value, d);
      RollQualityRange(value, e);
    } else {
      var share := base * (1.5 * 10.0 * weapon.disposition * 100.0) * ((modRank + 1) as real)
        * (if positive then CurseAtten(n) else 1.0);
      RollQualityMonotone(value, value, share, BuffsAtten(p), BuffsAtten(p + 1), d, e);
    }
  }

  /** One more positive stat at unchanged values never lowers the score of another stat: its share shrinks. */
  lemma MoreBuffsNeverLower(c: Calculator, attrs: seq<Attribute>, extra: Attribute, modRank: int, weapon: WeaponInfo,
                            k: nat)
    requires extra.positive && k < |attrs|
    ensures c.Scores(attrs, modRank, Some(weapon))[k].rollQuality
         <= c.Scores(attrs + [extra], modRank, Some(weapon))[k].rollQuality
  {
    CountsAppend(attrs, [extra]);
    CountsOfOne(extra);
    hide RollQuality, Denominator, CountPositive, CountNegative;
    var a := attrs[k];
    assert (attrs + [extra])[k] == a;
    if a.urlName in c.Bases(weapon) {
      MoreBuffsScoreMore(
        a.value, c.Bases(weapon)[a.urlName], weapon, modRank, CountPositive(attrs), CountNegative(attrs), a.positive);
    }
  }
}
