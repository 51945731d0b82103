/** `TextGridAnnotator`: attaches TextGrid intervals to the parts of a session
    record. Each session tier is matched against its companion tiers
    `"<tier>: Tier"`, `"<tier>: Group"`, `"<tier>: Word"` and, for IPA tiers,
    `"<tier>: Phone"` and `"<tier>: Syllable"`. The annotation a pass
    produces is returned as data: one optional interval per annotated object,
    `None` where the pass attaches nothing. */
module Annotator {
  import opened Base
  import opened TextGrids
  import opened Alignment

  // ---------------------------------------------------------------------------
  // Session data, reduced to what the annotator reads.

  /** An orthography or free-text group: its `toString()` and the
      `toString()` of each of its words, in order. */
  datatype TextGroup = TextGroup(text: string, words: seq<string>)

  /** An orthography tier or a `TierString` tier; `text` is the tier's
      `toString()`. */
  datatype TextLikeTier = TextLikeTier(name: string, text: string, groups: seq<TextGroup>)

  /** The syllable-constituent classes the annotator tells apart. */
  datatype ElementKind = Phone | StressMarker | WordBoundary | SyllableBoundary

  datatype Element = Element(kind: ElementKind, text: string)

  /** A word or syllable of a group: the half-open element range it covers. */
  datatype Span = Span(start: nat, end: nat)

  datatype IpaGroup = IpaGroup(elements: seq<Element>, words: seq<Span>, syllables: seq<Span>)

  datatype IpaTier = IpaTier(name: string, text: string, groups: seq<IpaGroup>)

  /** A tier of a record, by declared type. */
  datatype SessionTier =
    | OrthographyTier(textLike: TextLikeTier)
    | IpaTranscriptTier(ipa: IpaTier)
    | TierStringTier(textLike: TextLikeTier)
    | OtherTier(otherName: string)

  datatype Record = Record(orthography: TextLikeTier, ipaActual: IpaTier, ipaTarget: IpaTier, extra: seq<SessionTier>)

  ghost predicate ValidSpans(n: nat, spans: seq<Span>) {
    forall k :: 0 <= k < |spans| ==> spans[k].start <= spans[k].end <= n
  }

  /** `spans[g]` are sub-ranges of the elements of group `g`. */
  ghost predicate SpansWithin(t: IpaTier, spans: seq<seq<Span>>) {
    && |spans| == |t.groups|
    && forall g, k :: 0 <= g < |spans| && 0 <= k < |spans[g]| ==> spans[g][k].start <= spans[g][k].end <= |t.groups[g].elements|
  }

  /** Words and syllables are sub-ranges of their group's elements. */
  ghost predicate WellFormedIpaTier(t: IpaTier) {
    SpansWithin(t, WordSpans(t)) && SpansWithin(t, SyllableSpans(t))
  }

  // ---------------------------------------------------------------------------
  // Annotation results.

  datatype TextLikeAnnotation = TextLikeAnnotation(
    tier: Option<Interval>,
    groups: seq<Option<Interval>>,
    words: seq<seq<Option<Interval>>>)

  /** `phones[g]` has one entry per element of group `g` (markers included). */
  datatype IpaAnnotation = IpaAnnotation(
    tier: Option<Interval>,
    groups: seq<Option<Interval>>,
    phones: seq<seq<Option<Interval>>>,
    words: seq<seq<Option<Interval>>>,
    syllables: seq<seq<Option<Interval>>>)

  datatype TierAnnotation = TextLike(text: TextLikeAnnotation) | Ipa(ipaAnn: IpaAnnotation) | NotAnnotated

  datatype RecordAnnotation = RecordAnnotation(
    orthography: TierAnnotation,
    ipaActual: TierAnnotation,
    ipaTarget: TierAnnotation,
    extra: seq<TierAnnotation>)

  // ---------------------------------------------------------------------------
  // From match indices to intervals.

  /** The interval a match names, if it names one of the tier. */
  function StampOne(ivs: seq<Interval>, o: Option<nat>): Option<Interval> {
    if o.Some? && 1 <= o.value <= |ivs| then Some(IntervalAt(ivs, o.value)) else None
  }

  function Stamp(ivs: seq<Interval>, m: seq<Option<nat>>): (r: seq<Option<Interval>>)
    ensures |r| == |m|
    ensures forall i :: 0 <= i < |m| ==> r[i] == StampOne(ivs, m[i])
  {
    seq(|m|, i requires 0 <= i < |m| => StampOne(ivs, m[i]))
  }

  function StampGroups(ivs: seq<Interval>, m: seq<seq<Option<nat>>>): (r: seq<seq<Option<Interval>>>)
    ensures |r| == |m|
    ensures forall g :: 0 <= g < |m| ==> r[g] == Stamp(ivs, m[g])
  {
    seq(|m|, g requires 0 <= g < |m| => Stamp(ivs, m[g]))
  }

  function UnsetGroups(shape: seq<nat>): (r: seq<seq<Option<Interval>>>)
    ensures |r| == |shape| && forall g :: 0 <= g < |shape| ==> r[g] == Nones(shape[g])
  {
    seq(|shape|, g requires 0 <= g < |shape| => Nones(shape[g]))
  }

  // ---------------------------------------------------------------------------
  // The levels, each against its own companion tier.

  /** Full-tier level: the first interval of `"<name>: Tier"` whose trimmed
      label is the tier's text. */
  function FullTierInterval(tg: TextGrid, name: string, text: string): (r: Option<Interval>)
    ensures r.Some? <==> (var c := FindTextGridIntervalTier(tg, name, "Tier");
                          c.Some? && exists i :: 1 <= i <= |c.value| && LabelMatches(c.value, i, text))
    ensures r.Some? ==> Trim(r.value.text) == text
  {
    match FindTextGridIntervalTier(tg, name, "Tier")
    case None => None
    case Some(ivs) =>
      var k := FindIntervalForText(ivs, text, 1);
      if k >= 1 then Some(IntervalAt(ivs, k)) else None
  }

  /** A level walked once over its units, stopping at the first miss
      (groups). Without the companion tier nothing is attached. */
  function StopLevel(tg: TextGrid, name: string, classifier: string, texts: seq<string>): (r: seq<Option<Interval>>)
    ensures |r| == |texts|
    ensures FindTextGridIntervalTier(tg, name, classifier).None? ==> forall i :: 0 <= i < |r| ==> r[i].None?
    ensures forall i :: 0 <= i < |r| && r[i].Some? ==> Trim(r[i].value.text) == texts[i]
  {
    match FindTextGridIntervalTier(tg, name, classifier)
    case None => Nones(|texts|)
    case Some(ivs) =>
      AlignUnitsMatchesLabels(ivs, texts, 0, StopOnMiss);
      Stamp(ivs, AlignUnits(ivs, texts, 0, StopOnMiss).matches)
  }

  /** A level of units nested in groups, walked with one cursor across the
      groups. Without the companion tier nothing is attached. */
  function NestedLevel(tg: TextGrid, name: string, classifier: string, texts: seq<seq<string>>, policy: MissPolicy)
    : (r: seq<seq<Option<Interval>>>)
    ensures |r| == |texts| && forall g :: 0 <= g < |r| ==> |r[g]| == |texts[g]|
    ensures FindTextGridIntervalTier(tg, name, classifier).None? ==>
              forall g, i :: 0 <= g < |r| && 0 <= i < |r[g]| ==> r[g][i].None?
    ensures forall g, i :: 0 <= g < |r| && 0 <= i < |r[g]| && r[g][i].Some? ==> Trim(r[g][i].value.text) == texts[g][i]
  {
    match FindTextGridIntervalTier(tg, name, classifier)
    case None => UnsetGroups(seq(|texts|, g requires 0 <= g < |texts| => |texts[g]|))
    case Some(ivs) =>
      AlignGroupsMatchesLabels(ivs, texts, 0, policy);
      StampGroups(ivs, AlignGroups(ivs, texts, 0, policy).matches)
  }

  // ---------------------------------------------------------------------------
  // Orthography and TierString tiers.

  function GroupTexts(t: TextLikeTier): (r: seq<string>)
    ensures |r| == |t.groups| && forall g :: 0 <= g < |r| ==> r[g] == t.groups[g].text
  {
    seq(|t.groups|, g requires 0 <= g < |t.groups| => t.groups[g].text)
  }

  function WordTexts(t: TextLikeTier): (r: seq<seq<string>>)
    ensures |r| == |t.groups| && forall g :: 0 <= g < |r| ==> r[g] == t.groups[g].words
  {
    seq(|t.groups|, g requires 0 <= g < |t.groups| => t.groups[g].words)
  }

  /** `annotateOrthographyTier` and `annotateTextTier` (the same three
      levels): full tier, groups stopping at the first miss, words skipping
      misses. Every attached interval carries the object's text as its
      trimmed label. */
  function AnnotateTextLikeTier(tg: TextGrid, t: TextLikeTier): (r: TextLikeAnnotation)
    ensures r.tier.Some? ==> Trim(r.tier.value.text) == t.text
    ensures |r.groups| == |t.groups|
    ensures forall g :: 0 <= g < |r.groups| && r.groups[g].Some? ==> Trim(r.groups[g].value.text) == t.groups[g].text
    ensures |r.words| == |t.groups|
    ensures forall g :: 0 <= g < |r.words| ==> |r.words[g]| == |t.groups[g].words|
    ensures forall g, w :: 0 <= g < |r.words| && 0 <= w < |r.words[g]| && r.words[g][w].Some? ==>
              Trim(r.words[g][w].value.text) == t.groups[g].words[w]
  {
    TextLikeAnnotation(
      FullTierInterval(tg, t.name, t.text),
      StopLevel(tg, t.name, "Group", GroupTexts(t)),
      NestedLevel(tg, t.name, "Word", WordTexts(t), SkipOnMiss))
  }

  // ---------------------------------------------------------------------------
  // IPA tiers: phones.

  predicate IsMarker(e: Element) {
    e.kind != Phone
  }

  /** `toString()` of a run of elements. */
  function Render(es: seq<Element>): string {
    if es == [] then "" else es[0].text + Render(es[1..])
  }

  /** The text a phone is searched under: its own text, prefixed by the
      text of a stress marker right before it. */
  function PhoneText(es: seq<Element>, p: nat): string
    requires p < |es|
  {
    if p > 0 && es[p - 1].kind == StressMarker then es[p - 1].text + es[p].text else es[p].text
  }

  /** Search texts of the phones at positions `p` and later; markers are
      passed over. */
  function PhoneTexts(es: seq<Element>, p: nat): (r: seq<string>)
    requires p <= |es|
    ensures |r| <= |es| - p
    decreases |es| - p
  {
    if p == |es| then []
    else if IsMarker(es[p]) then PhoneTexts(es, p + 1)
    else [PhoneText(es, p)] + PhoneTexts(es, p + 1)
  }

  /** Spreads the matches of the phones at positions `p` and later back over
      the elements: each phone takes the next match, each marker none. */
  function Scatter(es: seq<Element>, m: seq<Option<nat>>, p: nat): (r: seq<Option<nat>>)
    requires p <= |es| && |m| == |PhoneTexts(es, p)|
    ensures |r| == |es| - p
    ensures forall q :: 0 <= q < |r| && IsMarker(es[p + q]) ==> r[q].None?
    decreases |es| - p
  {
    if p == |es| then []
    else if IsMarker(es[p]) then [None] + Scatter(es, m, p + 1)
    else [m[0]] + Scatter(es, m[1..], p + 1)
  }

  /** Each matched element of `r` (elements from `p` on) is a phone, and its
      match lies in `(lo, hi]` and names an interval labelled with the
      phone's stress-prefixed text. */
  ghost predicate PhonesSound(ivs: seq<Interval>, es: seq<Element>, r: seq<Option<nat>>, p: nat, lo: nat, hi: nat)
    requires p + |r| == |es|
  {
    forall q :: 0 <= q < |r| && r[q].Some? ==>
      lo < r[q].value <= hi && r[q].value <= |ivs| && LabelMatches(ivs, r[q].value, PhoneText(es, p + q))
  }

  lemma PhonesSoundCons(ivs: seq<Interval>, es: seq<Element>, head: Option<nat>, r': seq<Option<nat>>, p: nat, lo: nat, hi: nat)
    requires p < |es| && p + 1 + |r'| == |es|
    requires PhonesSound(ivs, es, r', p + 1, lo, hi)
    requires head.Some? ==> lo < head.value <= hi && head.value <= |ivs| && LabelMatches(ivs, head.value, PhoneText(es, p))
    ensures PhonesSound(ivs, es, [head] + r', p, lo, hi)
  {
    var r := [head] + r';
    forall q | 0 < q < |r| ensures r[q] == r'[q - 1] {
    }
  }

  lemma MatchesSoundTail(ivs: seq<Interval>, texts: seq<string>, m: seq<Option<nat>>, lo: nat, hi: nat)
    requires |m| == |texts| > 0
    requires MatchesSound(ivs, texts, m, lo, hi)
    ensures MatchesSound(ivs, texts[1..], m[1..], lo, hi)
    ensures m[0].Some? ==> lo < m[0].value <= hi && m[0].value <= |ivs| && LabelMatches(ivs, m[0].value, texts[0])
  {
    forall i | 0 <= i < |m[1..]| ensures m[1..][i] == m[i + 1] && texts[1..][i] == texts[i + 1] {
    }
  }

  /** Every phone that receives a match receives one sound for its own
      (stress-prefixed) text. */
  lemma {:induction false} ScatterSound(ivs: seq<Interval>, es: seq<Element>, m: seq<Option<nat>>, p: nat, lo: nat, hi: nat)
    requires p <= |es| && |m| == |PhoneTexts(es, p)|
    requires MatchesSound(ivs, PhoneTexts(es, p), m, lo, hi)
    ensures PhonesSound(ivs, es, Scatter(es, m, p), p, lo, hi)
    decreases |es| - p
  {
    if p < |es| {
      if IsMarker(es[p]) {
        ScatterSound(ivs, es, m, p + 1, lo, hi);
        PhonesSoundCons(ivs, es, None, Scatter(es, m, p + 1), p, lo, hi);
      } else {
        var texts := PhoneTexts(es, p);
        assert texts == [PhoneText(es, p)] + PhoneTexts(es, p + 1);
        assert texts[1..] == PhoneTexts(es, p + 1);
        MatchesSoundTail(ivs, texts, m, lo, hi);
        ScatterSound(ivs, es, m[1..], p + 1, lo, hi);
        PhonesSoundCons(ivs, es, m[0], Scatter(es, m[1..], p + 1), p, lo, hi);
      }
    }
  }

  /** Every match scattered over the elements is one of the phone matches. */
  lemma {:induction false} ScatterFromMatches(es: seq<Element>, m: seq<Option<nat>>, p: nat)
    requires p <= |es| && |m| == |PhoneTexts(es, p)|
    ensures forall q :: 0 <= q < |Scatter(es, m, p)| && Scatter(es, m, p)[q].Some? ==>
              exists i :: 0 <= i < |m| && m[i] == Scatter(es, m, p)[q]
    decreases |es| - p
  {
    if p < |es| {
      var r := Scatter(es, m, p);
      if IsMarker(es[p]) {
        ScatterFromMatches(es, m, p + 1);
        assert forall q :: 0 < q < |r| ==> r[q] == Scatter(es, m, p + 1)[q - 1];
      } else {
        var m' := m[1..];
        ScatterFromMatches(es, m', p + 1);
        var r' := Scatter(es, m', p + 1);
        forall q | 0 < q < |r| && r[q].Some? ensures exists i :: 0 <= i < |m| && m[i] == r[q] {
          assert r[q] == r'[q - 1];
          var i :| 0 <= i < |m'| && m'[i] == r'[q - 1];
          assert m[i + 1] == r[q];
        }
        assert r[0] == m[0];
      }
    }
  }

  /** Scattering keeps the order of the phone matches. */
  lemma {:induction false} ScatterIncreasing(es: seq<Element>, m: seq<Option<nat>>, p: nat)
    requires p <= |es| && |m| == |PhoneTexts(es, p)|
    requires StrictlyIncreasing(m)
    ensures StrictlyIncreasing(Scatter(es, m, p))
    decreases |es| - p
  {
    if p < |es| {
      var r := Scatter(es, m, p);
      if IsMarker(es[p]) {
        ScatterIncreasing(es, m, p + 1);
        assert forall q :: 0 < q < |r| ==> r[q] == Scatter(es, m, p + 1)[q - 1];
      } else {
        var m' := m[1..];
        assert StrictlyIncreasing(m');
        ScatterIncreasing(es, m', p + 1);
        ScatterFromMatches(es, m', p + 1);
        var r' := Scatter(es, m', p + 1);
        assert forall q :: 0 < q < |r| ==> r[q] == r'[q - 1];
        forall q | 0 < q < |r| && r[0].Some? && r[q].Some? ensures r[0].value < r[q].value {
          var i :| 0 <= i < |m'| && m'[i] == r'[q - 1];
          assert m[i + 1] == r[q];
        }
      }
    }
  }

  /** Per-element matches of every group's phones, walked with one cursor
      across the groups and stopping inside a group at its first miss. */
  function PhoneUnitTexts(t: IpaTier): (r: seq<seq<string>>)
    ensures |r| == |t.groups| && forall g :: 0 <= g < |r| ==> r[g] == PhoneTexts(t.groups[g].elements, 0)
  {
    seq(|t.groups|, g requires 0 <= g < |t.groups| => PhoneTexts(t.groups[g].elements, 0))
  }

  function ElementMatches(ivs: seq<Interval>, t: IpaTier): (r: seq<seq<Option<nat>>>)
    ensures |r| == |t.groups|
    ensures forall g :: 0 <= g < |r| ==> |r[g]| == |t.groups[g].elements|
    ensures forall g, q :: 0 <= g < |r| && 0 <= q < |r[g]| && IsMarker(t.groups[g].elements[q]) ==> r[g][q].None?
  {
    var m := AlignGroups(ivs, PhoneUnitTexts(t), 0, StopOnMiss).matches;
    seq(|t.groups|, g requires 0 <= g < |t.groups| => Scatter(t.groups[g].elements, m[g], 0))
  }

  /** The element matches of a group are ordered and name intervals of the
      tier labelled with the phone's stress-prefixed text. */
  lemma ElementMatchesSound(ivs: seq<Interval>, t: IpaTier, g: nat)
    requires g < |t.groups|
    ensures var e := ElementMatches(ivs, t)[g];
            && StrictlyIncreasing(e)
            && forall q :: 0 <= q < |e| && e[q].Some? ==>
                 1 <= e[q].value <= |ivs| && LabelMatches(ivs, e[q].value, PhoneText(t.groups[g].elements, q))
  {
    var texts := PhoneUnitTexts(t);
    var run := AlignGroups(ivs, texts, 0, StopOnMiss);
    var es := t.groups[g].elements;
    AlignGroupsIncreasing(ivs, texts, 0, StopOnMiss);
    assert StrictlyIncreasing(run.matches[g]);
    ScatterIncreasing(es, run.matches[g], 0);
    AlignGroupsMatchesLabels(ivs, texts, 0, StopOnMiss);
    assert MatchesSound(ivs, texts[g], run.matches[g], 0, run.cursor) by {
      forall i | 0 <= i < |texts[g]| && run.matches[g][i].Some?
        ensures 0 < run.matches[g][i].value <= run.cursor && LabelMatches(ivs, run.matches[g][i].value, texts[g][i])
      {
      }
    }
    ScatterSound(ivs, es, run.matches[g], 0, 0, run.cursor);
  }

  function ElementShape(t: IpaTier): (r: seq<nat>)
    ensures |r| == |t.groups| && forall g :: 0 <= g < |r| ==> r[g] == |t.groups[g].elements|
  {
    seq(|t.groups|, g requires 0 <= g < |t.groups| => |t.groups[g].elements|)
  }

  /** Phone level: every phone element of every group, markers left out. */
  function PhoneLevel(tg: TextGrid, t: IpaTier): (r: seq<seq<Option<Interval>>>)
    ensures |r| == |t.groups| && forall g :: 0 <= g < |r| ==> |r[g]| == |t.groups[g].elements|
    ensures forall g, q :: 0 <= g < |r| && 0 <= q < |r[g]| && IsMarker(t.groups[g].elements[q]) ==> r[g][q].None?
    ensures FindTextGridIntervalTier(tg, t.name, "Phone").None? ==>
              forall g, q :: 0 <= g < |r| && 0 <= q < |r[g]| ==> r[g][q].None?
  {
    match FindTextGridIntervalTier(tg, t.name, "Phone")
    case None => UnsetGroups(ElementShape(t))
    case Some(ivs) => StampGroups(ivs, ElementMatches(ivs, t))
  }

  /** Position of the first element `inferInterval` looks at: a leading
      stress marker is passed over. */
  function FirstInferred(es: seq<Element>): nat
    requires es != []
  {
    if es[0].kind == StressMarker then 1 else 0
  }

  /** `inferInterval`: from the start of the first element's interval to the
      end of the last one's, labelled with the whole text; nothing when
      either end carries no interval. */
  function InferInterval(es: seq<Element>, ann: seq<Option<Interval>>): (r: Option<Interval>)
    requires |ann| == |es|
    ensures r.Some? ==> r.value.text == Render(es)
    ensures r.Some? <==> |es| > 0 && FirstInferred(es) < |es| && ann[FirstInferred(es)].Some? && ann[|es| - 1].Some?
    ensures r.Some? ==> r.value.xmin == ann[FirstInferred(es)].value.xmin && r.value.xmax == ann[|es| - 1].value.xmax
  {
    if |es| == 0 then None
    else
      var first := FirstInferred(es);
      if first >= |es| then None
      else match (ann[first], ann[|es| - 1])
        case (Some(i1), Some(i2)) => Some(Interval(i1.xmin, i2.xmax, Render(es)))
        case _ => None
  }

  /** Element matches as a well-formed phone tier yields them: ordered,
      naming intervals of the tier, and none on a marker. */
  ghost predicate OrderedPhoneMatches(ivs: seq<Interval>, es: seq<Element>, e: seq<Option<nat>>) {
    && |e| == |es|
    && StrictlyIncreasing(e)
    && (forall k :: 0 <= k < |e| && e[k].Some? ==> 1 <= e[k].value <= |ivs|)
    && (forall k :: 0 <= k < |e| && IsMarker(es[k]) ==> e[k].None?)
  }

  /** An inferred interval over phones aligned to a well-formed tier is
      non-empty and covers the interval of every annotated phone in it. */
  /** `r`, when present, is non-empty and contains every interval of `ann`. */
  ghost predicate CoversAll(r: Option<Interval>, ann: seq<Option<Interval>>) {
    r.Some? ==>
      && r.value.xmin < r.value.xmax
      && forall k :: 0 <= k < |ann| && ann[k].Some? ==> r.value.xmin <= ann[k].value.xmin && ann[k].value.xmax <= r.value.xmax
  }

  /** Covering a slice is covering the matching positions of the whole. */
  lemma CoversSlice(r: Option<Interval>, ann: seq<Option<Interval>>, sp: Span)
    requires sp.start <= sp.end <= |ann|
    requires CoversAll(r, ann[sp.start..sp.end])
    ensures r.Some? ==>
              && r.value.xmin < r.value.xmax
              && forall q :: sp.start <= q < sp.end && ann[q].Some? ==>
                   r.value.xmin <= ann[q].value.xmin && ann[q].value.xmax <= r.value.xmax
  {
    if r.Some? {
      forall q | sp.start <= q < sp.end && ann[q].Some?
        ensures r.value.xmin <= ann[q].value.xmin && ann[q].value.xmax <= r.value.xmax
      {
        assert ann[sp.start..sp.end][q - sp.start] == ann[q];
      }
    }
  }

  lemma InferredCoversPhones(ivs: seq<Interval>, es: seq<Element>, e: seq<Option<nat>>)
    requires WellFormedTier(ivs)
    requires OrderedPhoneMatches(ivs, es, e)
    ensures CoversAll(InferInterval(es, Stamp(ivs, e)), Stamp(ivs, e))
  {
    var ann := Stamp(ivs, e);
    var r := InferInterval(es, ann);
    if r.Some? {
      var f := FirstInferred(es);
      var l := |es| - 1;
      assert e[f].Some? && e[l].Some?;
      if f < l {
        LaterIntervalStartsAfter(ivs, e[f].value, e[l].value);
      }
      forall k | 0 <= k < |es| && ann[k].Some?
        ensures r.value.xmin <= ann[k].value.xmin && ann[k].value.xmax <= r.value.xmax
      {
        assert e[k].Some?;
        if f < k {
          LaterIntervalStartsAfter(ivs, e[f].value, e[k].value);
        }
        if k < l {
          LaterIntervalStartsAfter(ivs, e[k].value, e[l].value);
        }
      }
    }
  }

  /** A word or a syllable inherits the ordering of its group's elements. */
  lemma OrderedPhoneMatchesSlice(ivs: seq<Interval>, es: seq<Element>, e: seq<Option<nat>>, sp: Span)
    requires OrderedPhoneMatches(ivs, es, e)
    requires sp.start <= sp.end <= |es|
    ensures OrderedPhoneMatches(ivs, es[sp.start..sp.end], e[sp.start..sp.end])
    ensures Stamp(ivs, e)[sp.start..sp.end] == Stamp(ivs, e[sp.start..sp.end])
  {
  }

  // ---------------------------------------------------------------------------
  // IPA tiers: groups, words, syllables.

  function IpaGroupTexts(t: IpaTier): (r: seq<string>)
    ensures |r| == |t.groups| && forall g :: 0 <= g < |r| ==> r[g] == Render(t.groups[g].elements)
  {
    seq(|t.groups|, g requires 0 <= g < |t.groups| => Render(t.groups[g].elements))
  }

  function SpanTexts(es: seq<Element>, spans: seq<Span>): (r: seq<string>)
    requires ValidSpans(|es|, spans)
    ensures |r| == |spans| && forall k :: 0 <= k < |r| ==> r[k] == Render(es[spans[k].start..spans[k].end])
  {
    seq(|spans|, k requires 0 <= k < |spans| => Render(es[spans[k].start..spans[k].end]))
  }

  /** Intervals inferred for the words (or syllables) of one group. */
  function InferSpans(es: seq<Element>, ann: seq<Option<Interval>>, spans: seq<Span>): (r: seq<Option<Interval>>)
    requires |ann| == |es| && ValidSpans(|es|, spans)
    ensures |r| == |spans|
    ensures forall k :: 0 <= k < |r| ==> r[k] == InferInterval(es[spans[k].start..spans[k].end], ann[spans[k].start..spans[k].end])
  {
    seq(|spans|, k requires 0 <= k < |spans| =>
      InferInterval(es[spans[k].start..spans[k].end], ann[spans[k].start..spans[k].end]))
  }

  /** What the group level promises: with a `"Group"` tier, an attached
      interval carries the group's text as trimmed label; without one, each
      group gets the interval inferred from its phones. */
  ghost predicate GroupLevelAgrees(tg: TextGrid, t: IpaTier, phones: seq<seq<Option<Interval>>>, r: seq<Option<Interval>>)
    requires |phones| == |t.groups| && forall g :: 0 <= g < |phones| ==> |phones[g]| == |t.groups[g].elements|
    requires |r| == |t.groups|
  {
    && (forall g :: 0 <= g < |r| && r[g].Some? ==>
          if FindTextGridIntervalTier(tg, t.name, "Group").Some? then Trim(r[g].value.text) == Render(t.groups[g].elements)
          else r[g].value.text == Render(t.groups[g].elements))
    && (FindTextGridIntervalTier(tg, t.name, "Group").None? ==>
          forall g :: 0 <= g < |r| ==> r[g] == InferInterval(t.groups[g].elements, phones[g]))
  }

  /** What a word or syllable level promises: with the companion tier, an
      attached interval carries the span's text as trimmed label; without
      it, each span gets the interval inferred from the phones it covers. */
  ghost predicate SpanLevelAgrees(tg: TextGrid, t: IpaTier, phones: seq<seq<Option<Interval>>>, classifier: string,
                                  spans: seq<seq<Span>>, r: seq<seq<Option<Interval>>>)
    requires |phones| == |t.groups| && forall g :: 0 <= g < |t.groups| ==> |phones[g]| == |t.groups[g].elements|
    requires SpansWithin(t, spans)
    requires |r| == |t.groups| && forall g :: 0 <= g < |r| ==> |r[g]| == |spans[g]|
  {
    && (forall g, k :: 0 <= g < |r| && 0 <= k < |r[g]| && r[g][k].Some? ==>
          var text := Render(t.groups[g].elements[spans[g][k].start..spans[g][k].end]);
          if FindTextGridIntervalTier(tg, t.name, classifier).Some? then Trim(r[g][k].value.text) == text
          else r[g][k].value.text == text)
    && (FindTextGridIntervalTier(tg, t.name, classifier).None? ==>
          forall g, k :: 0 <= g < |r| && 0 <= k < |r[g]| ==>
            var sp := spans[g][k];
            r[g][k] == InferInterval(t.groups[g].elements[sp.start..sp.end], phones[g][sp.start..sp.end]))
  }

  /** Groups: against `"<name>: Group"` when present, else inferred from the
      phones just annotated. */
  function IpaGroupLevel(tg: TextGrid, t: IpaTier, phones: seq<seq<Option<Interval>>>): (r: seq<Option<Interval>>)
    requires |phones| == |t.groups| && forall g :: 0 <= g < |phones| ==> |phones[g]| == |t.groups[g].elements|
    ensures |r| == |t.groups|
    ensures GroupLevelAgrees(tg, t, phones, r)
  {
    if FindTextGridIntervalTier(tg, t.name, "Group").Some? then StopLevel(tg, t.name, "Group", IpaGroupTexts(t))
    else seq(|t.groups|, g requires 0 <= g < |t.groups| => InferInterval(t.groups[g].elements, phones[g]))
  }

  /** Words (`Word`) or syllables (`Syllable`): against the companion tier
      when present, skipping misses, else inferred span by span. */
  function IpaSpanLevel(tg: TextGrid, t: IpaTier, phones: seq<seq<Option<Interval>>>, classifier: string, spans: seq<seq<Span>>)
    : (r: seq<seq<Option<Interval>>>)
    requires |phones| == |t.groups| && forall g :: 0 <= g < |t.groups| ==> |phones[g]| == |t.groups[g].elements|
    requires SpansWithin(t, spans)
    ensures |r| == |t.groups| && forall g :: 0 <= g < |r| ==> |r[g]| == |spans[g]|
    ensures SpanLevelAgrees(tg, t, phones, classifier, spans, r)
  {
    if FindTextGridIntervalTier(tg, t.name, classifier).Some? then
      NestedLevel(tg, t.name, classifier,
                  seq(|t.groups|, g requires 0 <= g < |t.groups| => SpanTexts(t.groups[g].elements, spans[g])), SkipOnMiss)
    else
      seq(|t.groups|, g requires 0 <= g < |t.groups| => InferSpans(t.groups[g].elements, phones[g], spans[g]))
  }

  function WordSpans(t: IpaTier): (r: seq<seq<Span>>)
    ensures |r| == |t.groups| && forall g :: 0 <= g < |r| ==> r[g] == t.groups[g].words
  {
    seq(|t.groups|, g requires 0 <= g < |t.groups| => t.groups[g].words)
  }

  function SyllableSpans(t: IpaTier): (r: seq<seq<Span>>)
    ensures |r| == |t.groups| && forall g :: 0 <= g < |r| ==> r[g] == t.groups[g].syllables
  {
    seq(|t.groups|, g requires 0 <= g < |t.groups| => t.groups[g].syllables)
  }

  /** `annotateIPATier`: full tier, then phones, then groups, words and
      syllables, each inferred from the phones when its companion tier is
      missing. */
  function AnnotateIpaTier(tg: TextGrid, t: IpaTier): (r: IpaAnnotation)
    requires WellFormedIpaTier(t)
    ensures r.tier.Some? ==> Trim(r.tier.value.text) == t.text
    ensures |r.phones| == |t.groups| && |r.groups| == |t.groups| && |r.words| == |t.groups| && |r.syllables| == |t.groups|
    ensures forall g :: 0 <= g < |t.groups| ==>
              && |r.phones[g]| == |t.groups[g].elements|
              && |r.words[g]| == |t.groups[g].words|
              && |r.syllables[g]| == |t.groups[g].syllables|
    ensures forall g, q :: 0 <= g < |t.groups| && 0 <= q < |r.phones[g]| && IsMarker(t.groups[g].elements[q]) ==> r.phones[g][q].None?
    ensures r.phones == PhoneLevel(tg, t)
    ensures GroupLevelAgrees(tg, t, r.phones, r.groups)
    ensures SpanLevelAgrees(tg, t, r.phones, "Word", WordSpans(t), r.words)
    ensures SpanLevelAgrees(tg, t, r.phones, "Syllable", SyllableSpans(t), r.syllables)
  {
    var phones := PhoneLevel(tg, t);
    IpaAnnotation(
      FullTierInterval(tg, t.name, t.text),
      IpaGroupLevel(tg, t, phones),
      phones,
      IpaSpanLevel(tg, t, phones, "Word", WordSpans(t)),
      IpaSpanLevel(tg, t, phones, "Syllable", SyllableSpans(t)))
  }

  // ---------------------------------------------------------------------------
  // Dispatch.

  ghost predicate WellFormedSessionTier(tier: SessionTier) {
    tier.IpaTranscriptTier? ==> WellFormedIpaTier(tier.ipa)
  }

  /** `annotateTier`: by declared type; any other type is left alone. */
  function AnnotateTier(tg: TextGrid, tier: SessionTier): (r: TierAnnotation)
    requires WellFormedSessionTier(tier)
    ensures r.NotAnnotated? <==> tier.OtherTier?
    ensures r.TextLike? <==> tier.OrthographyTier? || tier.TierStringTier?
    ensures r.Ipa? <==> tier.IpaTranscriptTier?
    ensures r.TextLike? ==> |r.text.groups| == |tier.textLike.groups|
    ensures r.Ipa? ==> |r.ipaAnn.groups| == |tier.ipa.groups|
    ensures tier.OrthographyTier? || tier.TierStringTier? ==> r == TextLike(AnnotateTextLikeTier(tg, tier.textLike))
    ensures tier.IpaTranscriptTier? ==> r == Ipa(AnnotateIpaTier(tg, tier.ipa))
  {
    match tier
    case OrthographyTier(t) => TextLike(AnnotateTextLikeTier(tg, t))
    case IpaTranscriptTier(t) => Ipa(AnnotateIpaTier(tg, t))
    case TierStringTier(t) => TextLike(AnnotateTextLikeTier(tg, t))
    case OtherTier(_) => NotAnnotated
  }

  /** `annotateRecord`: orthography, IPA actual, IPA target, then each extra
      tier whose declared type is `TierString`; other extra tiers are not
      touched. */
  function AnnotateRecord(tg: TextGrid, rec: Record): (r: RecordAnnotation)
    requires WellFormedIpaTier(rec.ipaActual) && WellFormedIpaTier(rec.ipaTarget)
    ensures r.orthography.TextLike? && r.ipaActual.Ipa? && r.ipaTarget.Ipa?
    ensures r.orthography == TextLike(AnnotateTextLikeTier(tg, rec.orthography))
    ensures r.ipaActual == Ipa(AnnotateIpaTier(tg, rec.ipaActual))
    ensures r.ipaTarget == Ipa(AnnotateIpaTier(tg, rec.ipaTarget))
    ensures |r.extra| == |rec.extra|
    ensures forall i :: 0 <= i < |rec.extra| ==> (r.extra[i].NotAnnotated? <==> !rec.extra[i].TierStringTier?)
    ensures forall i :: 0 <= i < |rec.extra| && rec.extra[i].TierStringTier? ==>
              r.extra[i] == AnnotateTier(tg, rec.extra[i])
  {
    RecordAnnotation(
      AnnotateTier(tg, OrthographyTier(rec.orthography)),
      AnnotateTier(tg, IpaTranscriptTier(rec.ipaActual)),
      AnnotateTier(tg, IpaTranscriptTier(rec.ipaTarget)),
      AnnotateExtraTiers(tg, rec.extra))
  }

  /** The extra tiers of a record, each annotated or left alone. */
  function AnnotateExtraTiers(tg: TextGrid, extra: seq<SessionTier>): (r: seq<TierAnnotation>)
    ensures |r| == |extra|
    ensures forall i :: 0 <= i < |extra| ==> (r[i].NotAnnotated? <==> !extra[i].TierStringTier?)
    ensures forall i :: 0 <= i < |extra| && extra[i].TierStringTier? ==> r[i] == AnnotateTier(tg, extra[i])
  {
    seq(|extra|, i requires 0 <= i < |extra| => AnnotateExtraTier(tg, extra[i]))
  }

  /** An extra tier is annotated only when its declared type is `TierString`. */
  function AnnotateExtraTier(tg: TextGrid, tier: SessionTier): (r: TierAnnotation)
    ensures r.NotAnnotated? <==> !tier.TierStringTier?
    ensures tier.TierStringTier? ==> r == AnnotateTier(tg, tier)
  {
    if tier.TierStringTier? then AnnotateTier(tg, tier) else NotAnnotated
  }

  // ---------------------------------------------------------------------------
  // Properties of the annotation.

  /** Groups: once one group finds no interval, no later group gets one. */
  lemma StopLevelStopsAtFirstMiss(tg: TextGrid, name: string, classifier: string, texts: seq<string>, i: nat, j: nat)
    requires i < j < |texts|
    requires StopLevel(tg, name, classifier, texts)[i].None?
    ensures StopLevel(tg, name, classifier, texts)[j].None?
  {
    match FindTextGridIntervalTier(tg, name, classifier)
    case None =>
    case Some(ivs) =>
      AlignUnitsMatchesLabels(ivs, texts, 0, StopOnMiss);
      var m := AlignUnits(ivs, texts, 0, StopOnMiss).matches;
      assert m[i].None?;
      StopMissEndsLevel(ivs, texts, 0, i, j);
  }

  /** In a well-formed companion tier, the intervals attached to the units
      of a level start strictly later for later units. */
  lemma StopLevelInOrder(tg: TextGrid, name: string, classifier: string, texts: seq<string>, i: nat, j: nat)
    requires i < j < |texts|
    requires var c := FindTextGridIntervalTier(tg, name, classifier); c.Some? && WellFormedTier(c.value)
    requires StopLevel(tg, name, classifier, texts)[i].Some? && StopLevel(tg, name, classifier, texts)[j].Some?
    ensures StopLevel(tg, name, classifier, texts)[i].value.xmin < StopLevel(tg, name, classifier, texts)[j].value.xmin
  {
    var ivs := FindTextGridIntervalTier(tg, name, classifier).value;
    MatchedStartsIncrease(ivs, texts, 0, StopOnMiss, i, j);
  }

  /** Same for nested units: a unit of an earlier group, or an earlier unit
      of the same group, gets an interval that starts earlier. */
  lemma NestedLevelInOrder(tg: TextGrid, name: string, classifier: string, texts: seq<seq<string>>, policy: MissPolicy,
                           g1: nat, i1: nat, g2: nat, i2: nat)
    requires g1 < |texts| && i1 < |texts[g1]| && g2 < |texts| && i2 < |texts[g2]|
    requires g1 < g2 || (g1 == g2 && i1 < i2)
    requires var c := FindTextGridIntervalTier(tg, name, classifier); c.Some? && WellFormedTier(c.value)
    requires NestedLevel(tg, name, classifier, texts, policy)[g1][i1].Some?
    requires NestedLevel(tg, name, classifier, texts, policy)[g2][i2].Some?
    ensures NestedLevel(tg, name, classifier, texts, policy)[g1][i1].value.xmin
            < NestedLevel(tg, name, classifier, texts, policy)[g2][i2].value.xmin
  {
    var ivs := FindTextGridIntervalTier(tg, name, classifier).value;
    var m: seq<seq<Option<nat>>> := AlignGroups(ivs, texts, 0, policy).matches;
    AlignGroupsIncreasing(ivs, texts, 0, policy);
    AlignGroupsMatchesLabels(ivs, texts, 0, policy);
    assert m[g1][i1].Some? && m[g2][i2].Some?;
    if g1 == g2 {
      assert StrictlyIncreasing(m[g1]);
    }
    LaterIntervalStartsAfter(ivs, m[g1][i1].value, m[g2][i2].value);
  }

  /** Every phone interval carries the phone's text, prefixed by a stress
      marker right before it, as its trimmed label; phones of one group get
      intervals that start strictly later for later phones when the phone
      tier is well-formed. */
  lemma PhoneLevelSound(tg: TextGrid, t: IpaTier, g: nat, q1: nat, q2: nat)
    requires g < |t.groups| && q1 < q2 < |t.groups[g].elements|
    ensures var r := PhoneLevel(tg, t)[g];
            && (r[q1].Some? ==> Trim(r[q1].value.text) == PhoneText(t.groups[g].elements, q1))
            && (r[q2].Some? ==> Trim(r[q2].value.text) == PhoneText(t.groups[g].elements, q2))
            && (var c := FindTextGridIntervalTier(tg, t.name, "Phone");
                c.Some? && WellFormedTier(c.value) && r[q1].Some? && r[q2].Some? ==> r[q1].value.xmin < r[q2].value.xmin)
  {
    match FindTextGridIntervalTier(tg, t.name, "Phone")
    case None =>
    case Some(ivs) =>
      ElementMatchesSound(ivs, t, g);
      var e := ElementMatches(ivs, t)[g];
      if e[q1].Some? && e[q2].Some? && WellFormedTier(ivs) {
        LaterIntervalStartsAfter(ivs, e[q1].value, e[q2].value);
      }
  }

  /** The element matches of a phone tier, as the inference sees them. */
  lemma PhoneLevelOrdered(tg: TextGrid, t: IpaTier, ivs: seq<Interval>, g: nat)
    requires g < |t.groups|
    requires FindTextGridIntervalTier(tg, t.name, "Phone") == Some(ivs)
    ensures OrderedPhoneMatches(ivs, t.groups[g].elements, ElementMatches(ivs, t)[g])
    ensures PhoneLevel(tg, t)[g] == Stamp(ivs, ElementMatches(ivs, t)[g])
  {
    ElementMatchesSound(ivs, t, g);
  }

  /** Without a group tier, each group's inferred interval is non-empty and
      covers the interval of every phone annotated in it, when the phone
      tier is well-formed. */
  lemma InferredGroupsCoverPhones(tg: TextGrid, t: IpaTier, ivs: seq<Interval>, g: nat)
    requires WellFormedIpaTier(t) && g < |t.groups|
    requires FindTextGridIntervalTier(tg, t.name, "Phone") == Some(ivs) && WellFormedTier(ivs)
    requires FindTextGridIntervalTier(tg, t.name, "Group").None?
    ensures var r := AnnotateIpaTier(tg, t);
            r.groups[g].Some? ==>
              && r.groups[g].value.xmin < r.groups[g].value.xmax
              && forall q :: 0 <= q < |r.phones[g]| && r.phones[g][q].Some? ==>
                   r.groups[g].value.xmin <= r.phones[g][q].value.xmin && r.phones[g][q].value.xmax <= r.groups[g].value.xmax
  {
    PhoneLevelOrdered(tg, t, ivs, g);
    InferredCoversPhones(ivs, t.groups[g].elements, ElementMatches(ivs, t)[g]);
  }

  /** Without a word (syllable) tier, each inferred word (syllable) interval
      is non-empty and covers the interval of every phone annotated inside
      it, when the phone tier is well-formed. */
  lemma InferredSpansCoverPhones(tg: TextGrid, t: IpaTier, ivs: seq<Interval>, classifier: string, spans: seq<seq<Span>>, g: nat, k: nat)
    requires SpansWithin(t, spans) && g < |t.groups| && k < |spans[g]|
    requires FindTextGridIntervalTier(tg, t.name, "Phone") == Some(ivs) && WellFormedTier(ivs)
    requires FindTextGridIntervalTier(tg, t.name, classifier).None?
    ensures var phones := PhoneLevel(tg, t);
            var r := IpaSpanLevel(tg, t, phones, classifier, spans)[g][k];
            var sp := spans[g][k];
            r.Some? ==>
              && r.value.xmin < r.value.xmax
              && forall q :: sp.start <= q < sp.end && phones[g][q].Some? ==>
                   r.value.xmin <= phones[g][q].value.xmin && phones[g][q].value.xmax <= r.value.xmax
  {
    var es := t.groups[g].elements;
    var e := ElementMatches(ivs, t)[g];
    var sp := spans[g][k];
    var phones := PhoneLevel(tg, t);
    PhoneLevelOrdered(tg, t, ivs, g);
    SliceInferenceCovers(ivs, es, e, sp);
    assert IpaSpanLevel(tg, t, phones, classifier, spans)[g] == InferSpans(es, phones[g], spans[g]);
  }

  /** The inference over a slice of ordered phone matches covers every
      phone interval of the slice. */
  lemma SliceInferenceCovers(ivs: seq<Interval>, es: seq<Element>, e: seq<Option<nat>>, sp: Span)
    requires WellFormedTier(ivs) && OrderedPhoneMatches(ivs, es, e)
    requires sp.start <= sp.end <= |es|
    ensures var ann := Stamp(ivs, e);
            var r := InferInterval(es[sp.start..sp.end], ann[sp.start..sp.end]);
            r.Some? ==>
              && r.value.xmin < r.value.xmax
              && forall q :: sp.start <= q < sp.end && ann[q].Some? ==>
                   r.value.xmin <= ann[q].value.xmin && ann[q].value.xmax <= r.value.xmax
  {
    var ann := Stamp(ivs, e);
    var sub := e[sp.start..sp.end];
    OrderedPhoneMatchesSlice(ivs, es, e, sp);
    InferredCoversPhones(ivs, es[sp.start..sp.end], sub);
    assert ann[sp.start..sp.end] == Stamp(ivs, sub);
    CoversSlice(InferInterval(es[sp.start..sp.end], ann[sp.start..sp.end]), ann, sp);
  }

}
