/** The slice of Praat's TextGrid object the plugin reads: tiers addressed by
    1-based index, interval tiers addressed interval by interval (also 1-based),
    and the two lookups `TextGridAnnotator` performs on them. Times are
    integers; the source's doubles are only copied and compared. */
module TextGrids {
  import opened Base

  /** `TextInterval`: bounds and label. */
  datatype Interval = Interval(xmin: int, xmax: int, text: string)

  /** A tier is either an interval tier or a point (text) tier; only the
      former can be a companion tier. */
  datatype Tier = IntervalTier(name: string, intervals: seq<Interval>) | PointTier(name: string)

  type TextGrid = seq<Tier>

  /** `IntervalTier.interval(i)`, 1-based. */
  function IntervalAt(ivs: seq<Interval>, i: int): Interval
    requires 1 <= i <= |ivs|
  {
    ivs[i - 1]
  }

  /** The comparison `findIntervalForText` makes: trimmed label equals the text exactly. */
  predicate LabelMatches(ivs: seq<Interval>, i: int, txt: string)
    requires 1 <= i <= |ivs|
  {
    Trim(IntervalAt(ivs, i).text) == txt
  }

  /** Interval tier invariant of a TextGrid: every interval is non-empty and
      each one ends where the next begins. */
  ghost predicate WellFormedTier(ivs: seq<Interval>) {
    && (forall i :: 0 <= i < |ivs| ==> ivs[i].xmin < ivs[i].xmax)
    && (forall i :: 0 < i < |ivs| ==> ivs[i - 1].xmax == ivs[i].xmin)
  }

  /** `findIntervalForText`: the least index `i` with `from <= i <= |ivs|`
      whose trimmed label equals `txt`, or -1 when there is none. */
  function FindIntervalForText(ivs: seq<Interval>, txt: string, from: int): (r: int)
    requires from >= 1
    ensures r == -1 || from <= r <= |ivs|
    ensures r != -1 ==> LabelMatches(ivs, r, txt)
    ensures forall i :: from <= i <= |ivs| && (r == -1 || i < r) ==> !LabelMatches(ivs, i, txt)
    decreases |ivs| - from
  {
    if from > |ivs| then -1
    else if LabelMatches(ivs, from, txt) then from
    else FindIntervalForText(ivs, txt, from + 1)
  }

  /** Name of the companion tier for a session tier and a level. */
  function CompanionName(tierName: string, classifier: string): string {
    tierName + ": " + classifier
  }

  predicate IsIntervalTierNamed(tg: TextGrid, i: int, name: string)
    requires 1 <= i <= |tg|
  {
    tg[i - 1].IntervalTier? && tg[i - 1].name == name
  }

  /** Scan of `findTextGridIntervalTier` from tier `from` on; point tiers are
      passed over as the source's caught `PraatException` does. */
  function FindIntervalTierFrom(tg: TextGrid, name: string, from: int): (r: Option<nat>)
    requires from >= 1
    ensures r.Some? ==> from <= r.value <= |tg| && IsIntervalTierNamed(tg, r.value, name)
    ensures forall i :: from <= i <= |tg| && (r.None? || i < r.value) ==> !IsIntervalTierNamed(tg, i, name)
    decreases |tg| - from
  {
    if from > |tg| then None
    else if IsIntervalTierNamed(tg, from, name) then Some(from)
    else FindIntervalTierFrom(tg, name, from + 1)
  }

  /** `findTextGridIntervalTier`: the intervals of the first interval tier
      named `"<tierName>: <classifier>"`, or None. */
  function FindTextGridIntervalTier(tg: TextGrid, tierName: string, classifier: string): (r: Option<seq<Interval>>)
    ensures r.Some? <==> exists i :: 1 <= i <= |tg| && IsIntervalTierNamed(tg, i, CompanionName(tierName, classifier))
    ensures r.Some? ==> exists i :: 1 <= i <= |tg| && IsIntervalTierNamed(tg, i, CompanionName(tierName, classifier))
                                    && r.value == tg[i - 1].intervals
                                    && forall j :: 1 <= j < i ==> !IsIntervalTierNamed(tg, j, CompanionName(tierName, classifier))
  {
    match FindIntervalTierFrom(tg, CompanionName(tierName, classifier), 1)
    case None => None
    case Some(i) => Some(tg[i - 1].intervals)
  }

  /** In a well-formed tier, a later interval starts no earlier than an
      earlier one ends, so start times strictly increase with the index. */
  lemma {:induction false} LaterIntervalStartsAfter(ivs: seq<Interval>, i: int, j: int)
    requires WellFormedTier(ivs)
    requires 1 <= i < j <= |ivs|
    ensures IntervalAt(ivs, i).xmax <= IntervalAt(ivs, j).xmin
    ensures IntervalAt(ivs, i).xmin < IntervalAt(ivs, j).xmin
    decreases j - i
  {
    if j > i + 1 {
      LaterIntervalStartsAfter(ivs, i, j - 1);
      assert ivs[j - 2].xmax == ivs[j - 1].xmin;
    } else {
      assert ivs[i - 1].xmax == ivs[i].xmin;
    }
  }
}
