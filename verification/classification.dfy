/**
 * Classification of a 0..100 score: the five-bucket level label and the
 * choice of the work-profile block (strengths, risks, recommendations,
 * suggested roles, roles to avoid) shown for a dimension.
 *
 * The Spanish texts are presentation data; here they are abstract tokens
 * that record where each text comes from.
 */
module Classification {
  import opened Questionnaire

  /** The level names, lowest first. */
  datatype Level = MuyBajo | Bajo | Promedio | Alto | MuyAlto

  /** The tag shown beside each level. */
  datatype Tag = Minimo | Suave | Moderado | Marcado | Dominante

  /** The level and tag of a score; each bucket is closed at its lower bound. */
  function LevelLabel(score: real): (r: (Level, Tag))
    ensures TagRank(r.1) == LevelRank(r.0)
  {
    if score >= 75.0 then (MuyAlto, Dominante)
    else if score >= 60.0 then (Alto, Marcado)
    else if score >= 40.0 then (Promedio, Moderado)
    else if score >= 25.0 then (Bajo, Suave)
    else (MuyBajo, Minimo)
  }

  function LevelRank(l: Level): nat {
    match l
    case MuyBajo => 0
    case Bajo => 1
    case Promedio => 2
    case Alto => 3
    case MuyAlto => 4
  }

  function TagRank(t: Tag): nat {
    match t
    case Minimo => 0
    case Suave => 1
    case Moderado => 2
    case Marcado => 3
    case Dominante => 4
  }

  /** The breakpoints between consecutive levels, ascending. */
  const Thresholds: seq<real> := [25.0, 40.0, 60.0, 75.0]

  /** How many of the breakpoints a score reaches. */
  function Reached(ts: seq<real>, score: real): nat {
    if ts == [] then 0 else (if score >= ts[0] then 1 else 0) + Reached(ts[1..], score)
  }

  // ---------------------------------------------------------------------
  // Level labels

  /**
   * The level of a score is the number of breakpoints it reaches, and the
   * tag always accompanies its own level.
   */
  lemma LevelIsBreakpointsReached(score: real)
    ensures LevelRank(LevelLabel(score).0) == Reached(Thresholds, score)
    ensures TagRank(LevelLabel(score).1) == LevelRank(LevelLabel(score).0)
  {
    var t1, t2, t3: seq<real> := [40.0, 60.0, 75.0], [60.0, 75.0], [75.0];
    assert Thresholds[1..] == t1 && t1[1..] == t2 && t2[1..] == t3 && t3[1..] == [];
    assert Reached(t3, score) == if score >= 75.0 then 1 else 0;
    assert Reached(t2, score) == (if score >= 60.0 then 1 else 0) + Reached(t3, score);
    assert Reached(t1, score) == (if score >= 40.0 then 1 else 0) + Reached(t2, score);
  }

  lemma {:induction false} ReachedMonotone(ts: seq<real>, s: real, t: real)
    requires s <= t
    ensures Reached(ts, s) <= Reached(ts, t)
  {
    if ts != [] {
      ReachedMonotone(ts[1..], s, t);
    }
  }

  /** A higher score never gets a lower level. */
  lemma LevelMonotone(s: real, t: real)
    requires s <= t
    ensures LevelRank(LevelLabel(s).0) <= LevelRank(LevelLabel(t).0)
  {
    LevelIsBreakpointsReached(s);
    LevelIsBreakpointsReached(t);
    ReachedMonotone(Thresholds, s, t);
  }

  /** Each bucket holds exactly the scores from its own breakpoint up to the next. */
  lemma LevelBuckets(score: real)
    ensures LevelLabel(score) == (MuyAlto, Dominante) <==> score >= 75.0
    ensures LevelLabel(score) == (Alto, Marcado) <==> 60.0 <= score < 75.0
    ensures LevelLabel(score) == (Promedio, Moderado) <==> 40.0 <= score < 60.0
    ensures LevelLabel(score) == (Bajo, Suave) <==> 25.0 <= score < 40.0
    ensures LevelLabel(score) == (MuyBajo, Minimo) <==> score < 25.0
  {
  }

  /** The breakpoints belong to the upper bucket. */
  lemma LevelBoundaries()
    ensures LevelLabel(75.0) == (MuyAlto, Dominante) && LevelLabel(74.9) == (Alto, Marcado)
    ensures LevelLabel(60.0) == (Alto, Marcado) && LevelLabel(59.9) == (Promedio, Moderado)
    ensures LevelLabel(40.0) == (Promedio, Moderado) && LevelLabel(39.9) == (Bajo, Suave)
    ensures LevelLabel(25.0) == (Bajo, Suave) && LevelLabel(24.9) == (MuyBajo, Minimo)
  {
  }

  // ---------------------------------------------------------------------
  // Work-profile blocks

  /** The per-dimension lists of the block catalog. */
  datatype Field = High | Low | RolesHigh | RolesLow | NotAptLow | Explain

  /** The fixed texts written directly into the block selection. */
  datatype Fixed =
    | AvoidOverload | AvoidOverResponsibility | HighRec(n: nat)
    | LowFocus | LowAutonomy | LowRealism | LowRec(n: nat)
    | BalancedStrength | BalancedRisk | BalancedRec(n: nat) | BalancedRole(n: nat)

  /** A text: entry n of a list of one dimension's catalog, or one of the fixed texts. */
  datatype Text = Entry(dim: Dim, field: Field, n: nat) | Fixed(fixed: Fixed)

  /** One dimension's entry in the block catalog. */
  datatype Profile = Profile(
    high: seq<Text>, low: seq<Text>,
    rolesHigh: seq<Text>, rolesLow: seq<Text>, notAptLow: seq<Text>,
    explain: Text)

  /** The entries 0 .. count-1 of one list of one dimension. */
  function Entries(d: Dim, f: Field, count: nat): seq<Text> {
    seq(count, n requires 0 <= n < count => Entry(d, f, n))
  }

  /** The block catalog; only the list lengths differ between dimensions. */
  function BaseProfile(d: Dim): (p: Profile)
    ensures |p.high| == 3 && |p.low| == 3 && |p.notAptLow| == 1
    ensures |p.rolesHigh| >= 3 && |p.rolesLow| >= 1
  {
    var (rolesHigh, rolesLow) := match d
      case Apertura => (5, 2)
      case Responsabilidad => (4, 2)
      case Extraversion => (3, 2)
      case Amabilidad => (4, 2)
      case Estabilidad => (3, 1);
    Profile(
      Entries(d, High, 3), Entries(d, Low, 3),
      Entries(d, RolesHigh, rolesHigh), Entries(d, RolesLow, rolesLow), Entries(d, NotAptLow, 1),
      Entry(d, Explain, 0))
  }

  /** What is shown for one dimension. */
  datatype Blocks = Blocks(
    strengths: seq<Text>, risks: seq<Text>, recommendations: seq<Text>,
    roles: seq<Text>, notApt: seq<Text>, explain: Text)

  /** The block for dimension d at a score: high from 60, low up to 40, balanced between. */
  function DimensionBlocks(d: Dim, score: real): (bl: Blocks)
    ensures bl.explain == BaseProfile(d).explain
    ensures bl.notApt != [] <==> score <= 40.0
    ensures bl.roles != [] && |bl.recommendations| >= 2
  {
    var b := BaseProfile(d);
    if score >= 60.0 then
      Blocks(
        b.high,
        b.low[..1] + [if d == Extraversion then Fixed(AvoidOverload) else Fixed(AvoidOverResponsibility)],
        [Fixed(HighRec(0)), Fixed(HighRec(1)), Fixed(HighRec(2))],
        b.rolesHigh, [], b.explain)
    else if score <= 40.0 then
      Blocks(
        (if d != Extraversion then [Fixed(LowFocus)] else [Fixed(LowAutonomy)])
          + (if d == Apertura then [Fixed(LowRealism)] else []),
        b.low,
        [Fixed(LowRec(0)), Fixed(LowRec(1)), Fixed(LowRec(2))],
        b.rolesLow, b.notAptLow, b.explain)
    else
      Blocks(
        [Fixed(BalancedStrength)], [Fixed(BalancedRisk)],
        [Fixed(BalancedRec(0)), Fixed(BalancedRec(1))],
        [Fixed(BalancedRole(0)), Fixed(BalancedRole(1))], [], b.explain)
  }

  /**
   * The three branches: a high score suggests the dimension's high roles and
   * rules nothing out; a low score (40 included) suggests its low roles and
   * lists what it is not suited for; in between the balanced block rules
   * nothing out. Every branch explains the dimension with its own text.
   */
  lemma DimensionBlocksBranches(d: Dim, score: real)
    ensures var bl, b := DimensionBlocks(d, score), BaseProfile(d);
      bl.explain == b.explain && bl.explain == Entry(d, Explain, 0)
    ensures var bl, b := DimensionBlocks(d, score), BaseProfile(d);
      score >= 60.0 ==> bl.strengths == b.high && bl.roles == b.rolesHigh && bl.notApt == []
    ensures var bl, b := DimensionBlocks(d, score), BaseProfile(d);
      score <= 40.0 ==> bl.risks == b.low && bl.roles == b.rolesLow && bl.notApt == b.notAptLow && bl.notApt != []
    ensures var bl := DimensionBlocks(d, score);
      40.0 < score < 60.0 ==> bl.notApt == [] && bl.roles == [Fixed(BalancedRole(0)), Fixed(BalancedRole(1))]
  {
  }

  /**
   * How the block follows the level: the high block goes with the two upper
   * levels, and a non-empty "not suited for" list with the two lower levels
   * and with a score of exactly 40, which is labelled average.
   */
  lemma BlocksFollowLevel(d: Dim, score: real)
    ensures DimensionBlocks(d, score).roles == BaseProfile(d).rolesHigh
      <==> LevelRank(LevelLabel(score).0) >= 3
    ensures DimensionBlocks(d, score).notApt != []
      <==> LevelRank(LevelLabel(score).0) <= 1 || score == 40.0
  {
    var b := BaseProfile(d);
    var rh := b.rolesHigh;
    assert rh[0] == Entry(d, RolesHigh, 0);
    assert b.rolesLow[0] == Entry(d, RolesLow, 0);
  }
}
