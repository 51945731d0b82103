/** The cursor scan every level of `TextGridAnnotator` performs: walk units in
    session order, match each to the first interval after the last match
    whose trimmed label equals the unit's text, and on a miss either stop
    the level (groups, and the phones of one group) or skip the unit
    (words, syllables). Matches are 1-based interval indices. */
module Alignment {
  import opened Base
  import opened TextGrids

  datatype MissPolicy = StopOnMiss | SkipOnMiss

  /** Outcome of one walk: the match of each unit, and the cursor after it
      (the last matched index, or the starting cursor if nothing matched). */
  datatype Run = Run(matches: seq<Option<nat>>, cursor: nat)

  /** Same, for a walk over units nested in groups with one shared cursor. */
  datatype GroupsRun = GroupsRun(matches: seq<seq<Option<nat>>>, cursor: nat)

  ghost predicate StrictlyIncreasing(m: seq<Option<nat>>) {
    forall i, j :: 0 <= i < j < |m| && m[i].Some? && m[j].Some? ==> m[i].value < m[j].value
  }

  /** Matches of different groups are ordered like the groups, and matches
      within a group like its units. */
  ghost predicate GroupsIncreasing(m: seq<seq<Option<nat>>>) {
    && (forall g :: 0 <= g < |m| ==> StrictlyIncreasing(m[g]))
    && (forall g1, g2, i1, i2 ::
          0 <= g1 < g2 < |m| && 0 <= i1 < |m[g1]| && 0 <= i2 < |m[g2]|
          && m[g1][i1].Some? && m[g2][i2].Some?
          ==> m[g1][i1].value < m[g2][i2].value)
  }

  /** The cursor after a prefix of matches: the last match, else `c`. */
  function LastMatch(m: seq<Option<nat>>, c: nat): nat {
    if m == [] then c else LastMatch(m[1..], if m[0].Some? then m[0].value else c)
  }

  /** Under StopOnMiss, a miss among the earlier units ends the level. */
  ghost predicate Stopped(policy: MissPolicy, prefix: seq<Option<nat>>) {
    policy == StopOnMiss && exists j :: 0 <= j < |prefix| && prefix[j].None?
  }

  /** One level walk, as the loops over groups/words/syllables/phones do it:
      each search starts at the last match + 1. */
  function AlignUnits(ivs: seq<Interval>, texts: seq<string>, cursor: nat, policy: MissPolicy): (r: Run)
    ensures |r.matches| == |texts|
    ensures cursor <= r.cursor
    decreases |texts|
  {
    if texts == [] then Run([], cursor)
    else
      var k := FindIntervalForText(ivs, texts[0], cursor + 1);
      if k != -1 then
        var rest := AlignUnits(ivs, texts[1..], k, policy);
        Run([Some(k)] + rest.matches, rest.cursor)
      else if policy == StopOnMiss then
        Run(Nones(|texts|), cursor)
      else
        var rest := AlignUnits(ivs, texts[1..], cursor, policy);
        Run([None] + rest.matches, rest.cursor)
  }

  /** Every match in `m` lies in `(lo, hi]`, names an existing interval,
      and that interval's trimmed label is the unit's text. */
  ghost predicate MatchesSound(ivs: seq<Interval>, texts: seq<string>, m: seq<Option<nat>>, lo: nat, hi: nat)
    requires |m| == |texts|
  {
    forall i :: 0 <= i < |m| && m[i].Some? ==>
      && lo < m[i].value <= hi
      && m[i].value <= |ivs|
      && LabelMatches(ivs, m[i].value, texts[i])
  }

  lemma MatchesSoundCons(ivs: seq<Interval>, texts: seq<string>, head: Option<nat>, rest: seq<Option<nat>>,
                         lo: nat, c': nat, hi: nat)
    requires |texts| == |rest| + 1
    requires MatchesSound(ivs, texts[1..], rest, c', hi)
    requires lo <= c' <= hi
    requires head.Some? ==> head.value == c' && lo < c' && c' <= |ivs| && LabelMatches(ivs, c', texts[0])
    ensures MatchesSound(ivs, texts, [head] + rest, lo, hi)
  {
    var m := [head] + rest;
    forall i | 0 < i < |m| ensures m[i] == rest[i - 1] && texts[i] == texts[1..][i - 1] {
    }
  }

  /** Every match lies after the starting cursor and at or before the final
      one, names an existing interval, and that interval's trimmed label is
      the unit's text. */
  lemma {:induction false} AlignUnitsMatchesLabels(ivs: seq<Interval>, texts: seq<string>, cursor: nat, policy: MissPolicy)
    ensures var r := AlignUnits(ivs, texts, cursor, policy);
            MatchesSound(ivs, texts, r.matches, cursor, r.cursor)
    decreases |texts|
  {
    if texts != [] {
      var k := FindIntervalForText(ivs, texts[0], cursor + 1);
      if k != -1 || policy == SkipOnMiss {
        var c' := if k != -1 then k else cursor;
        var head: Option<nat> := if k != -1 then Some(k) else None;
        var rest := AlignUnits(ivs, texts[1..], c', policy);
        AlignUnitsMatchesLabels(ivs, texts[1..], c', policy);
        WalkStep(ivs, texts, cursor, policy);
        MatchesSoundCons(ivs, texts, head, rest.matches, cursor, c', rest.cursor);
      } else {
        var m := AlignUnits(ivs, texts, cursor, policy).matches;
        assert forall i :: 0 <= i < |m| ==> m[i].None?;
      }
    }
  }

  /** Every match in `m` names an interval after `c`. */
  ghost predicate AllAfter(m: seq<Option<nat>>, c: nat) {
    forall i :: 0 <= i < |m| && m[i].Some? ==> c < m[i].value
  }

  lemma IncreasingCons(head: Option<nat>, rest: seq<Option<nat>>, c': nat)
    requires StrictlyIncreasing(rest) && AllAfter(rest, c')
    requires head.Some? ==> head.value == c'
    ensures StrictlyIncreasing([head] + rest)
  {
    var m := [head] + rest;
    forall i, j | 0 <= i < j < |m| && m[i].Some? && m[j].Some? ensures m[i].value < m[j].value {
      assert m[j] == rest[j - 1];
      if i > 0 {
        assert m[i] == rest[i - 1];
      }
    }
  }

  /** Matched interval indices strictly increase in unit order, so a label
      repeated in the tier binds its later occurrence to the later unit. */
  lemma {:induction false} AlignUnitsIncreasing(ivs: seq<Interval>, texts: seq<string>, cursor: nat, policy: MissPolicy)
    ensures StrictlyIncreasing(AlignUnits(ivs, texts, cursor, policy).matches)
    decreases |texts|
  {
    if texts != [] {
      var k := FindIntervalForText(ivs, texts[0], cursor + 1);
      if k != -1 || policy == SkipOnMiss {
        var c' := if k != -1 then k else cursor;
        var head: Option<nat> := if k != -1 then Some(k) else None;
        var rest := AlignUnits(ivs, texts[1..], c', policy);
        AlignUnitsIncreasing(ivs, texts[1..], c', policy);
        assert AllAfter(rest.matches, c') by {
          AlignUnitsMatchesLabels(ivs, texts[1..], c', policy);
          assert MatchesSound(ivs, texts[1..], rest.matches, c', rest.cursor);
        }
        WalkStep(ivs, texts, cursor, policy);
        IncreasingCons(head, rest.matches, c');
      } else {
        var m := AlignUnits(ivs, texts, cursor, policy).matches;
        assert forall i :: 0 <= i < |m| ==> m[i].None?;
      }
    }
  }

  /** One step of a walk that does not stop at its first unit. */
  lemma WalkStep(ivs: seq<Interval>, t: seq<string>, cursor: nat, policy: MissPolicy)
    requires t != []
    requires policy == SkipOnMiss || FindIntervalForText(ivs, t[0], cursor + 1) != -1
    ensures var k := FindIntervalForText(ivs, t[0], cursor + 1);
            var c' := if k != -1 then k else cursor;
            var rest := AlignUnits(ivs, t[1..], c', policy);
            AlignUnits(ivs, t, cursor, policy)
            == Run([if k != -1 then Some(k) else None] + rest.matches, rest.cursor)
  {
  }

  lemma PrefixOfCons<T>(head: T, rest: seq<T>, i: int)
    requires 0 < i <= |rest| + 1
    ensures ([head] + rest)[..i] == [head] + rest[..i - 1]
  {
  }

  lemma LastMatchCons(head: Option<nat>, s: seq<Option<nat>>, c: nat)
    ensures LastMatch([head] + s, c) == LastMatch(s, if head.Some? then head.value else c)
  {
    assert ([head] + s)[1..] == s;
  }

  /** A matched head, or a skipping walk, never stops the level. */
  lemma StoppedCons(policy: MissPolicy, head: Option<nat>, s: seq<Option<nat>>)
    requires head.Some? || policy == SkipOnMiss
    ensures Stopped(policy, [head] + s) <==> Stopped(policy, s)
  {
    var hs := [head] + s;
    if Stopped(policy, s) {
      var j :| 0 <= j < |s| && s[j].None?;
      assert hs[j + 1].None?;
    }
    if Stopped(policy, hs) {
      var j :| 0 <= j < |hs| && hs[j].None?;
      assert s[j - 1].None?;
    }
  }

  /** Unit `i` of walk result `m` is matched to the first interval after
      the previous match (or the start cursor) whose label equals its text,
      unless an earlier miss stopped the level; with no such interval it
      stays unmatched. */
  ghost predicate GreedyAt(ivs: seq<Interval>, texts: seq<string>, m: seq<Option<nat>>, cursor: nat, policy: MissPolicy, i: int)
    requires 0 <= i < |texts| == |m|
  {
    var k := FindIntervalForText(ivs, texts[i], LastMatch(m[..i], cursor) + 1);
    if Stopped(policy, m[..i]) then m[i].None?
    else m[i] == (if k == -1 then None else Some(k))
  }

  /** Moves the unit-by-unit reading across one matched (or skipped) head. */
  lemma GreedyAtCons(ivs: seq<Interval>, texts: seq<string>, head: Option<nat>, rest: seq<Option<nat>>,
                     cursor: nat, c': nat, policy: MissPolicy, i: int)
    requires 0 < i < |texts| == |rest| + 1
    requires head.Some? || policy == SkipOnMiss
    requires c' == if head.Some? then head.value else cursor
    requires GreedyAt(ivs, texts[1..], rest, c', policy, i - 1)
    ensures GreedyAt(ivs, texts, [head] + rest, cursor, policy, i)
  {
    var m := [head] + rest;
    var pre' := rest[..i - 1];
    PrefixOfCons(head, rest, i);
    LastMatchCons(head, pre', cursor);
    StoppedCons(policy, head, pre');
    assert m[i] == rest[i - 1];
    assert texts[i] == texts[1..][i - 1];
  }

  /** The first unit is matched to the first fitting interval after the cursor. */
  lemma GreedyAtFirst(ivs: seq<Interval>, texts: seq<string>, cursor: nat, policy: MissPolicy)
    requires texts != []
    ensures GreedyAt(ivs, texts, AlignUnits(ivs, texts, cursor, policy).matches, cursor, policy, 0)
  {
    var m := AlignUnits(ivs, texts, cursor, policy).matches;
    assert m[..0] == [];
    assert !Stopped(policy, m[..0]);
  }

  /** A walk stopped at its first unit leaves every unit unmatched. */
  lemma GreedyAtStoppedHead(ivs: seq<Interval>, texts: seq<string>, cursor: nat, i: int)
    requires 0 < i < |texts|
    requires FindIntervalForText(ivs, texts[0], cursor + 1) == -1
    ensures GreedyAt(ivs, texts, AlignUnits(ivs, texts, cursor, StopOnMiss).matches, cursor, StopOnMiss, i)
  {
    var m := AlignUnits(ivs, texts, cursor, StopOnMiss).matches;
    assert m == Nones(|texts|);
    assert m[..i][0].None?;
  }

  /** Reference reading of a level walk, unit by unit (see `GreedyAt`). */
  lemma {:induction false} AlignUnitsPointwise(ivs: seq<Interval>, texts: seq<string>, cursor: nat, policy: MissPolicy, i: int)
    requires 0 <= i < |texts|
    ensures GreedyAt(ivs, texts, AlignUnits(ivs, texts, cursor, policy).matches, cursor, policy, i)
    decreases i
  {
    var k0 := FindIntervalForText(ivs, texts[0], cursor + 1);
    if i == 0 {
      GreedyAtFirst(ivs, texts, cursor, policy);
    } else if k0 == -1 && policy == StopOnMiss {
      GreedyAtStoppedHead(ivs, texts, cursor, i);
    } else {
      var c' := if k0 != -1 then k0 else cursor;
      var head: Option<nat> := if k0 != -1 then Some(k0) else None;
      var rest := AlignUnits(ivs, texts[1..], c', policy).matches;
      WalkStep(ivs, texts, cursor, policy);
      AlignUnitsPointwise(ivs, texts[1..], c', policy, i - 1);
      GreedyAtCons(ivs, texts, head, rest, cursor, c', policy, i);
    }
  }

  /** Under StopOnMiss a miss leaves every later unit of the walk unmatched. */
  lemma {:induction false} StopMissEndsLevel(ivs: seq<Interval>, texts: seq<string>, cursor: nat, i: int, j: int)
    requires 0 <= i < j < |texts|
    requires AlignUnits(ivs, texts, cursor, StopOnMiss).matches[i].None?
    ensures AlignUnits(ivs, texts, cursor, StopOnMiss).matches[j].None?
  {
    var m := AlignUnits(ivs, texts, cursor, StopOnMiss).matches;
    AlignUnitsPointwise(ivs, texts, cursor, StopOnMiss, j);
    assert GreedyAt(ivs, texts, m, cursor, StopOnMiss, j);
    assert m[..j][i].None?;
    assert Stopped(StopOnMiss, m[..j]);
  }

  /** Walk of nested units with one cursor across groups (the source's
      `pidx`/`widx`/`sidx` outlive the group loop). */
  function AlignGroups(ivs: seq<Interval>, texts: seq<seq<string>>, cursor: nat, policy: MissPolicy): (r: GroupsRun)
    ensures |r.matches| == |texts|
    ensures forall g :: 0 <= g < |texts| ==> |r.matches[g]| == |texts[g]|
    ensures cursor <= r.cursor
    decreases |texts|
  {
    if texts == [] then GroupsRun([], cursor)
    else
      var first := AlignUnits(ivs, texts[0], cursor, policy);
      var rest := AlignGroups(ivs, texts[1..], first.cursor, policy);
      var m := [first.matches] + rest.matches;
      assert forall g :: 1 <= g < |m| ==> m[g] == rest.matches[g - 1] && texts[g] == texts[1..][g - 1];
      GroupsRun(m, rest.cursor)
  }

  /** One step of a nested walk over a non-empty list of groups. */
  lemma GroupsStep(ivs: seq<Interval>, texts: seq<seq<string>>, cursor: nat, policy: MissPolicy)
    requires texts != []
    ensures var first := AlignUnits(ivs, texts[0], cursor, policy);
            var rest := AlignGroups(ivs, texts[1..], first.cursor, policy);
            AlignGroups(ivs, texts, cursor, policy) == GroupsRun([first.matches] + rest.matches, rest.cursor)
  {
  }

  /** Every match of the nested walk lies after the starting cursor and at
      or before the final one and names an interval labelled with the
      unit's text. */
  lemma {:induction false} AlignGroupsMatchesLabels(ivs: seq<Interval>, texts: seq<seq<string>>, cursor: nat, policy: MissPolicy)
    ensures var r := AlignGroups(ivs, texts, cursor, policy);
            forall g, i :: 0 <= g < |texts| && 0 <= i < |texts[g]| && r.matches[g][i].Some? ==>
              && cursor < r.matches[g][i].value <= r.cursor
              && r.matches[g][i].value <= |ivs|
              && LabelMatches(ivs, r.matches[g][i].value, texts[g][i])
    decreases |texts|
  {
    if texts != [] {
      var first := AlignUnits(ivs, texts[0], cursor, policy);
      var rest := AlignGroups(ivs, texts[1..], first.cursor, policy);
      GroupsStep(ivs, texts, cursor, policy);
      AlignUnitsMatchesLabels(ivs, texts[0], cursor, policy);
      AlignGroupsMatchesLabels(ivs, texts[1..], first.cursor, policy);
      var m: seq<seq<Option<nat>>> := [first.matches] + rest.matches;
      forall g | 0 < g < |m| ensures m[g] == rest.matches[g - 1] && texts[g] == texts[1..][g - 1] {
      }
    }
  }

  /** The nested walk is ordered: within a group like its units, and a match
      in an earlier group names an earlier interval than any match in a
      later group. */
  lemma {:induction false} AlignGroupsIncreasing(ivs: seq<Interval>, texts: seq<seq<string>>, cursor: nat, policy: MissPolicy)
    ensures GroupsIncreasing(AlignGroups(ivs, texts, cursor, policy).matches)
    decreases |texts|
  {
    if texts != [] {
      var first := AlignUnits(ivs, texts[0], cursor, policy);
      var rest := AlignGroups(ivs, texts[1..], first.cursor, policy);
      GroupsStep(ivs, texts, cursor, policy);
      AlignUnitsMatchesLabels(ivs, texts[0], cursor, policy);
      AlignUnitsIncreasing(ivs, texts[0], cursor, policy);
      AlignGroupsMatchesLabels(ivs, texts[1..], first.cursor, policy);
      AlignGroupsIncreasing(ivs, texts[1..], first.cursor, policy);
      var m: seq<seq<Option<nat>>> := [first.matches] + rest.matches;
      forall g | 0 < g < |m| ensures m[g] == rest.matches[g - 1] && texts[g] == texts[1..][g - 1] {
      }
    }
  }

  function Flatten<T>(xss: seq<seq<T>>): (r: seq<T>)
  {
    if xss == [] then [] else xss[0] + Flatten(xss[1..])
  }

  /** Skipping walks compose: walking `a + b` is walking `a`, then walking
      `b` from where `a` left the cursor. */
  lemma {:induction false} SkipWalkAppend(ivs: seq<Interval>, a: seq<string>, b: seq<string>, cursor: nat)
    ensures var ra := AlignUnits(ivs, a, cursor, SkipOnMiss);
            var rb := AlignUnits(ivs, b, ra.cursor, SkipOnMiss);
            AlignUnits(ivs, a + b, cursor, SkipOnMiss) == Run(ra.matches + rb.matches, rb.cursor)
    decreases |a|
  {
    if a == [] {
      assert a + b == b;
    } else {
      var k := FindIntervalForText(ivs, a[0], cursor + 1);
      var c' := if k != -1 then k else cursor;
      var head: Option<nat> := if k != -1 then Some(k) else None;
      var ra' := AlignUnits(ivs, a[1..], c', SkipOnMiss);
      var rb := AlignUnits(ivs, b, ra'.cursor, SkipOnMiss);
      var rab := AlignUnits(ivs, a[1..] + b, c', SkipOnMiss);
      assert AlignUnits(ivs, a + b, cursor, SkipOnMiss) == Run([head] + rab.matches, rab.cursor) by {
        var ab := a + b;
        assert ab[0] == a[0] && ab[1..] == a[1..] + b;
        WalkStep(ivs, ab, cursor, SkipOnMiss);
      }
      assert AlignUnits(ivs, a, cursor, SkipOnMiss) == Run([head] + ra'.matches, ra'.cursor) by {
        WalkStep(ivs, a, cursor, SkipOnMiss);
      }
      assert rab == Run(ra'.matches + rb.matches, rb.cursor) by {
        SkipWalkAppend(ivs, a[1..], b, c');
      }
      assert [head] + (ra'.matches + rb.matches) == ([head] + ra'.matches) + rb.matches;
    }
  }

  /** Words and syllables: the per-group walk with a carried cursor is one
      walk over all units of the tier in order. */
  lemma {:induction false} SkipGroupsIsOneWalk(ivs: seq<Interval>, texts: seq<seq<string>>, cursor: nat)
    ensures Flatten(AlignGroups(ivs, texts, cursor, SkipOnMiss).matches)
            == AlignUnits(ivs, Flatten(texts), cursor, SkipOnMiss).matches
    decreases |texts|
  {
    if texts != [] {
      var first := AlignUnits(ivs, texts[0], cursor, SkipOnMiss);
      var rest := AlignGroups(ivs, texts[1..], first.cursor, SkipOnMiss);
      SkipGroupsIsOneWalk(ivs, texts[1..], first.cursor);
      SkipWalkAppend(ivs, texts[0], Flatten(texts[1..]), cursor);
      assert ([first.matches] + rest.matches)[1..] == rest.matches;
    }
  }

  /** Monotone times: in a well-formed tier, of two matched units the
      earlier one's interval starts strictly earlier. */
  lemma MatchedStartsIncrease(ivs: seq<Interval>, texts: seq<string>, cursor: nat, policy: MissPolicy, i: int, j: int)
    requires WellFormedTier(ivs)
    requires 0 <= i < j < |texts|
    requires AlignUnits(ivs, texts, cursor, policy).matches[i].Some?
    requires AlignUnits(ivs, texts, cursor, policy).matches[j].Some?
    ensures var m := AlignUnits(ivs, texts, cursor, policy).matches;
            && 1 <= m[i].value < m[j].value <= |ivs|
            && IntervalAt(ivs, m[i].value).xmin < IntervalAt(ivs, m[j].value).xmin
  {
    var m := AlignUnits(ivs, texts, cursor, policy).matches;
    AlignUnitsMatchesLabels(ivs, texts, cursor, policy);
    AlignUnitsIncreasing(ivs, texts, cursor, policy);
    LaterIntervalStartsAfter(ivs, m[i].value, m[j].value);
  }

  /** A label that occurs twice binds its second occurrence to the later unit. */
  lemma RepeatedLabelBindsLaterOccurrence()
    ensures var ivs := [Interval(0, 10, "kæt"), Interval(10, 20, "dɑg"), Interval(20, 30, " kæt ")];
            AlignUnits(ivs, ["kæt", "kæt"], 0, SkipOnMiss).matches == [Some(1), Some(3)]
  {
    var ivs := [Interval(0, 10, "kæt"), Interval(10, 20, "dɑg"), Interval(20, 30, " kæt ")];
    assert Trim(" kæt ") == "kæt";
    assert LabelMatches(ivs, 1, "kæt");
    assert !LabelMatches(ivs, 2, "kæt");
    assert LabelMatches(ivs, 3, "kæt");
    assert FindIntervalForText(ivs, "kæt", 2) == 3;
  }
}
