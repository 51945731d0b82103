/** `PraatNode`: the analysis node's choice of the interval each result row
    is analysed over, and its settings. Sound files, the TextGrid store,
    the query-result table and the subclass's row writer are outside the
    model; what they supply arrives as data. */
module PraatNodes {
  import opened Base
  import opened TextGrids
  import Annotator

  // ---------------------------------------------------------------------------
  // Media file name.

  const WavExt: string := ".wav"

  /** `getMediaFile`, name part: a name not ending in `.wav` has its last
      extension replaced by `.wav`, provided its last dot is not the first
      character. */
  function MediaName(name: string): (r: string)
    ensures EndsWith(r, WavExt) || r == name
    ensures r == name <==> EndsWith(name, WavExt) || LastIndexOf(name, '.') <= 0
    ensures r != name ==>
              && 5 <= |r| < |name| + 4
              && r[..|r| - 4] == name[..|r| - 4]
              && name[|r| - 4] == '.'
              && forall i :: |r| - 4 < i < |name| ==> name[i] != '.'
  {
    if EndsWith(name, WavExt) then name
    else
      var lastDot := LastIndexOf(name, '.');
      if lastDot > 0 then name[..lastDot] + WavExt else name
  }

  /** Rewriting a rewritten name changes nothing. */
  lemma MediaNameIdempotent(name: string)
    ensures MediaName(MediaName(name)) == MediaName(name)
  {
  }

  // ---------------------------------------------------------------------------
  // Settings.

  datatype Settings = Settings(
    useRecordInterval: bool,
    useTextGridInterval: bool,
    textGridTier: string,
    intervalFilter: string,
    useColumnInterval: bool,
    column: string)

  /** Field initialisers of a new node. */
  const DefaultSettings := Settings(false, false, "", "", true, "IPA Actual")

  type Properties = map<string, string>

  /** `Boolean.toString` */
  function BoolToString(b: bool): string {
    if b then "true" else "false"
  }

  /** `Boolean.parseBoolean`: true exactly for "true" in any letter case. */
  function ParseBoolean(s: string): (r: bool)
    ensures r <==> |s| == 4 && LowerAscii(s[0]) == 't' && LowerAscii(s[1]) == 'r' && LowerAscii(s[2]) == 'u' && LowerAscii(s[3]) == 'e'
  {
    EqualsIgnoreCaseAscii(s, "true")
  }

  lemma ParseBooleanRoundTrip(b: bool)
    ensures ParseBoolean(BoolToString(b)) == b
  {
    if !b {
      assert LowerAscii(BoolToString(b)[0]) != 't';
    }
  }

  /** `Properties.getProperty(key, default)` */
  function GetProperty(p: Properties, key: string, default: string): string {
    if key in p then p[key] else default
  }

  const SettingKeys: set<string> :=
    {"useRecordInterval", "useTextGridInterval", "textGridTier", "intervalFilter", "useColumnInterval", "column"}

  /** `getSettings` (with no settings panel): one property per setting. */
  function GetSettings(s: Settings): (r: Properties)
    ensures r.Keys == SettingKeys
  {
    map[
      "useRecordInterval" := BoolToString(s.useRecordInterval),
      "useTextGridInterval" := BoolToString(s.useTextGridInterval),
      "textGridTier" := s.textGridTier,
      "intervalFilter" := s.intervalFilter,
      "useColumnInterval" := BoolToString(s.useColumnInterval),
      "column" := s.column]
  }

  /** `loadSettings`: each setting from its property, a missing property
      giving the setting's initial value. */
  function LoadSettings(p: Properties): (r: Settings)
    ensures "useRecordInterval" !in p ==> r.useRecordInterval == DefaultSettings.useRecordInterval
    ensures "useTextGridInterval" !in p ==> r.useTextGridInterval == DefaultSettings.useTextGridInterval
    ensures "textGridTier" !in p ==> r.textGridTier == DefaultSettings.textGridTier
    ensures "intervalFilter" !in p ==> r.intervalFilter == DefaultSettings.intervalFilter
    ensures "useColumnInterval" !in p ==> r.useColumnInterval == DefaultSettings.useColumnInterval
    ensures "column" !in p ==> r.column == DefaultSettings.column
    ensures "textGridTier" in p ==> r.textGridTier == p["textGridTier"]
    ensures "intervalFilter" in p ==> r.intervalFilter == p["intervalFilter"]
    ensures "column" in p ==> r.column == p["column"]
  {
    Settings(
      ParseBoolean(GetProperty(p, "useRecordInterval", "false")),
      ParseBoolean(GetProperty(p, "useTextGridInterval", "false")),
      GetProperty(p, "textGridTier", ""),
      GetProperty(p, "intervalFilter", ""),
      ParseBoolean(GetProperty(p, "useColumnInterval", "true")),
      GetProperty(p, "column", "IPA Actual"))
  }

  /** Saving and loading the settings restores all six of them. */
  lemma SettingsRoundTrip(s: Settings)
    ensures LoadSettings(GetSettings(s)) == s
  {
    ParseBooleanRoundTrip(s.useRecordInterval);
    ParseBooleanRoundTrip(s.useTextGridInterval);
    ParseBooleanRoundTrip(s.useColumnInterval);
  }

  /** Loading from empty properties gives a new node's settings. */
  lemma EmptyPropertiesGiveDefaults()
    ensures LoadSettings(map[]) == DefaultSettings
  {
    ParseBooleanRoundTrip(false);
    ParseBooleanRoundTrip(true);
  }

  /** How `operate` picks the interval of each row. */
  datatype Mode = RecordMode | TextGridTierMode | ColumnMode

  function SelectMode(s: Settings): (r: Mode)
    ensures r == RecordMode <==> s.useRecordInterval
    ensures r == TextGridTierMode <==> !s.useRecordInterval && s.useTextGridInterval
  {
    if s.useRecordInterval then RecordMode
    else if s.useTextGridInterval then TextGridTierMode
    else ColumnMode
  }

  /** `useColumnInterval` is stored and restored but never decides the mode. */
  lemma ModeIgnoresUseColumnInterval(s: Settings, b: bool)
    ensures SelectMode(s.(useColumnInterval := b)) == SelectMode(s)
  {
  }

  // ---------------------------------------------------------------------------
  // Interval filter.

  /** `checkFilter`: a filter that trims to nothing accepts every interval;
      otherwise the label must match it (`matches` is the regex library). */
  function CheckFilter(filter: string, txt: string, matches: (string, string) -> bool): (r: bool)
    ensures |Trim(filter)| > 0 ==> (r <==> matches(txt, filter))
  {
    if |Trim(filter)| > 0 then matches(txt, filter) else true
  }

  lemma {:induction false} TrimStartOfBlank(s: string)
    requires forall i :: 0 <= i < |s| ==> IsTrimmed(s[i])
    ensures TrimStart(s) == []
  {
    if s != [] {
      TrimStartOfBlank(s[1..]);
    }
  }

  /** An empty or whitespace-only filter accepts every interval. */
  lemma BlankFilterAcceptsAll(filter: string, txt: string, matches: (string, string) -> bool)
    requires forall i :: 0 <= i < |filter| ==> IsTrimmed(filter[i])
    ensures CheckFilter(filter, txt, matches)
  {
    TrimStartOfBlank(filter);
  }

  // ---------------------------------------------------------------------------
  // Interval of a selected value.

  datatype IpaChild = IpaChild(kind: Annotator.ElementKind, interval: Option<Interval>)

  /** The value a result row selects, with the intervals attached to it and
      to its parts. */
  datatype Value =
    | OrthographyValue(own: Option<Interval>, elements: seq<Option<Interval>>)
    | IpaValue(own: Option<Interval>, children: seq<IpaChild>)
    | TierStringValue(own: Option<Interval>, words: seq<Option<Interval>>)

  /** `removePunctuation`: the phones of a transcript, markers dropped. */
  function PhoneIntervals(cs: seq<IpaChild>): (r: seq<Option<Interval>>)
    ensures |r| <= |cs|
  {
    if cs == [] then []
    else if cs[0].kind == Annotator.Phone then [cs[0].interval] + PhoneIntervals(cs[1..])
    else PhoneIntervals(cs[1..])
  }

  /** From the first part's start to the last part's end, unlabelled. */
  function PartsSpan(parts: seq<Option<Interval>>): Option<Interval> {
    if |parts| > 0 && parts[0].Some? && parts[|parts| - 1].Some? then
      Some(Interval(parts[0].value.xmin, parts[|parts| - 1].value.xmax, ""))
    else None
  }

  function Parts(v: Value): seq<Option<Interval>> {
    match v
    case OrthographyValue(_, es) => es
    case IpaValue(_, cs) => PhoneIntervals(cs)
    case TierStringValue(_, ws) => ws
  }

  /** `getTextInterval`: the attached interval if there is one; else, from
      the first part's start to the last part's end with an empty label,
      when both ends carry intervals; else nothing. */
  function GetTextInterval(v: Value): (r: Option<Interval>)
    ensures v.own.Some? ==> r == v.own
    ensures v.own.None? ==>
              (r.Some? <==> |Parts(v)| > 0 && Parts(v)[0].Some? && Parts(v)[|Parts(v)| - 1].Some?)
    ensures v.own.None? && r.Some? ==>
              && r.value.text == ""
              && r.value.xmin == Parts(v)[0].value.xmin
              && r.value.xmax == Parts(v)[|Parts(v)| - 1].value.xmax
  {
    if v.own.Some? then v.own else PartsSpan(Parts(v))
  }

  // ---------------------------------------------------------------------------
  // Character range to whole elements.

  /** Start offset of element `i` in the elements joined by single spaces. */
  function Offset(texts: seq<string>, i: nat): (r: nat)
    requires i <= |texts|
  {
    if i == 0 then 0 else Offset(texts, i - 1) + |texts[i - 1]| + 1
  }

  /** Elements joined by single spaces: the orthography's `toString()`. */
  function Join(texts: seq<string>): string {
    if texts == [] then ""
    else if |texts| == 1 then texts[0]
    else texts[0] + " " + Join(texts[1..])
  }

  lemma {:induction false} OffsetIncreasing(texts: seq<string>, i: nat, j: nat)
    requires i < j <= |texts|
    ensures Offset(texts, i) + |texts[i]| < Offset(texts, j)
    decreases j - i
  {
    if j > i + 1 {
      OffsetIncreasing(texts, i, j - 1);
    }
  }

  /** First loop of `operate`'s orthography branch: walking the elements
      with a running offset, the element starting exactly at `first`; the
      walk gives up at the first element that reaches past `first`. */
  method OrthographyStartElement(texts: seq<string>, first: int) returns (startEle: int)
    ensures -1 <= startEle < |texts|
    ensures startEle >= 0 ==> Offset(texts, startEle) == first
    ensures startEle >= 0 <==> exists k :: 0 <= k < |texts| && Offset(texts, k) == first
    ensures forall k :: 0 <= k < |texts| && Offset(texts, k) == first ==> k == startEle
  {
    startEle := -1;
    var startIdx := 0;
    var i := 0;
    while i < |texts|
      invariant 0 <= i <= |texts|
      invariant startIdx == Offset(texts, i)
      invariant i > 0 ==> Offset(texts, i - 1) + |texts[i - 1]| < first
    {
      if startIdx == first {
        startEle := i;
        forall k | 0 <= k < |texts| && k != i ensures Offset(texts, k) != first {
          if k < i { OffsetIncreasing(texts, k, i); } else { OffsetIncreasing(texts, i, k); }
        }
        return;
      } else if first > startIdx + |texts[i]| {
        startIdx := startIdx + |texts[i]| + 1;
      } else {
        break;
      }
      i := i + 1;
    }
    forall k | 0 <= k < |texts| ensures Offset(texts, k) != first {
      if k > i {
        OffsetIncreasing(texts, i, k);
      } else if k < i - 1 {
        OffsetIncreasing(texts, k, i - 1);
      }
    }
  }

  /** Second loop: from the start element on, the element ending exactly at
      `last`. */
  method OrthographyEndElement(texts: seq<string>, startEle: nat, last: int) returns (endEle: int)
    requires startEle < |texts|
    ensures -1 <= endEle < |texts|
    ensures endEle >= 0 ==> startEle <= endEle && Offset(texts, endEle) + |texts[endEle]| == last
    ensures endEle >= 0 <==> exists j :: startEle <= j < |texts| && Offset(texts, j) + |texts[j]| == last
    ensures forall j :: startEle <= j < |texts| && Offset(texts, j) + |texts[j]| == last ==> j == endEle
  {
    endEle := -1;
    var startIdx := Offset(texts, startEle);
    var i := startEle;
    while i < |texts|
      invariant startEle <= i <= |texts|
      invariant startIdx == Offset(texts, i)
      invariant forall j :: startEle <= j < i ==> Offset(texts, j) + |texts[j]| < last
    {
      if last == startIdx + |texts[i]| {
        endEle := i;
        forall j | startEle <= j < |texts| && j != i ensures Offset(texts, j) + |texts[j]| != last {
          if j < i { OffsetIncreasing(texts, j, i); } else { OffsetIncreasing(texts, i, j); }
        }
        return;
      } else if last > startIdx + |texts[i]| {
        startIdx := startIdx + |texts[i]| + 1;
      } else {
        break;
      }
      i := i + 1;
    }
    forall j | startEle <= j < |texts| ensures Offset(texts, j) + |texts[j]| != last {
      if j > i {
        OffsetIncreasing(texts, i, j);
      }
    }
  }

  lemma {:induction false} OffsetCons(texts: seq<string>, i: nat)
    requires 1 <= i <= |texts|
    ensures Offset(texts, i) == |texts[0]| + 1 + Offset(texts[1..], i - 1)
  {
    if i > 1 {
      OffsetCons(texts, i - 1);
    }
  }

  /** The elements up to `j` spell the joined text up to `j`'s end. */
  lemma {:induction false} JoinPrefix(texts: seq<string>, j: nat)
    requires j < |texts|
    ensures Offset(texts, j) + |texts[j]| <= |Join(texts)|
    ensures Join(texts)[..Offset(texts, j) + |texts[j]|] == Join(texts[..j + 1])
  {
    if j > 0 {
      var rest := texts[1..];
      JoinPrefix(rest, j - 1);
      OffsetCons(texts, j);
      assert rest[j - 1] == texts[j];
      assert texts[..j + 1] == [texts[0]] + rest[..j];
      assert texts[..j + 1][1..] == rest[..j];
    } else if |texts| > 1 {
      assert texts[..1][0] == texts[0];
    }
  }

  /** The elements `k..j` spell the joined text between `k`'s start and
      `j`'s end: copying whole elements keeps exactly the range's text. */
  lemma {:induction false} JoinRange(texts: seq<string>, k: nat, j: nat)
    requires k <= j < |texts|
    ensures Offset(texts, k) <= Offset(texts, j) + |texts[j]| <= |Join(texts)|
    ensures Join(texts)[Offset(texts, k)..Offset(texts, j) + |texts[j]|] == Join(texts[k..j + 1])
  {
    if k == 0 {
      JoinPrefix(texts, j);
      assert texts[0..j + 1] == texts[..j + 1];
    } else {
      JoinRange(texts[1..], k - 1, j - 1);
      JoinRangeStep(texts, k, j);
    }
  }

  /** The step of `JoinRange`: a range past the first element is the same
      range of the tail's text, shifted by the first element and its space. */
  lemma JoinRangeStep(texts: seq<string>, k: nat, j: nat)
    requires 1 <= k <= j < |texts|
    requires var rest := texts[1..];
             && Offset(rest, k - 1) <= Offset(rest, j - 1) + |rest[j - 1]| <= |Join(rest)|
             && Join(rest)[Offset(rest, k - 1)..Offset(rest, j - 1) + |rest[j - 1]|] == Join(rest[k - 1..j])
    ensures Offset(texts, k) <= Offset(texts, j) + |texts[j]| <= |Join(texts)|
    ensures Join(texts)[Offset(texts, k)..Offset(texts, j) + |texts[j]|] == Join(texts[k..j + 1])
  {
    var rest := texts[1..];
    OffsetCons(texts, k);
    OffsetCons(texts, j);
    assert rest[j - 1] == texts[j];
    var head := texts[0] + " ";
    assert Join(texts) == head + Join(rest);
    var p, q := Offset(rest, k - 1), Offset(rest, j - 1) + |rest[j - 1]|;
    assert Offset(texts, k) == |head| + p && Offset(texts, j) + |texts[j]| == |head| + q;
    SliceAfterPrefix(head, Join(rest), p, q);
    SliceOfTail(texts, k, j);
  }

  lemma SliceAfterPrefix<T>(a: seq<T>, b: seq<T>, p: nat, q: nat)
    requires p <= q <= |b|
    ensures (a + b)[|a| + p..|a| + q] == b[p..q]
  {
  }

  lemma SliceOfTail<T>(s: seq<T>, k: nat, j: nat)
    requires 1 <= k <= j < |s|
    ensures s[1..][k - 1..j] == s[k..j + 1]
  {
  }

  /** Elements `k..j` cover exactly the characters from `first` to `last`. */
  ghost predicate AlignedRange(texts: seq<string>, first: int, last: int, k: int, j: int) {
    0 <= k <= j < |texts| && Offset(texts, k) == first && Offset(texts, j) + |texts[j]| == last
  }

  /** At most one run of elements covers a given range. */
  lemma AlignedRangeUnique(texts: seq<string>, first: int, last: int, k: int, j: int, k': int, j': int)
    requires AlignedRange(texts, first, last, k, j) && AlignedRange(texts, first, last, k', j')
    ensures k == k' && j == j'
  {
    if k < k' { OffsetIncreasing(texts, k, k'); }
    if k' < k { OffsetIncreasing(texts, k', k); }
    if j < j' { OffsetIncreasing(texts, j, j'); }
    if j' < j { OffsetIncreasing(texts, j', j); }
  }

  /** The text handed to the orthography parser when the range does not fall
      on element boundaries, as written: Java's `substring` throws (None
      here) when the begin index passes the clamped end, that is when the
      range starts beyond the text. */
  function FallbackTextAsWritten(text: string, first: int, last: int): (r: Option<string>)
    ensures r.None? <==> 0 <= first && first <= last && first > |text|
  {
    if first >= 0 && last >= first then
      var b := first;
      var e := if last < |text| then last else |text|;
      if b <= e then Some(text[b..e]) else None
    else Some("")
  }

  /** A range past the end of the text makes the fallback throw. */
  lemma FallbackPastEndThrows()
    ensures FallbackTextAsWritten("a", 2, 2).None?
  {
  }

  /** The fallback with its begin index clamped like its end index: never
      throws, and agrees with the code wherever the code does not throw. */
  function FallbackText(text: string, first: int, last: int): (r: string)
    ensures |r| <= |text|
    ensures FallbackTextAsWritten(text, first, last).Some? ==> Some(r) == FallbackTextAsWritten(text, first, last)
    ensures 0 <= first <= last <= |text| ==> r == text[first..last]
  {
    if first >= 0 && last >= first then
      var e := if last < |text| then last else |text|;
      var b := if first < e then first else e;
      text[b..e]
    else ""
  }

  /** What a result row yields in column mode: a row over an interval, no
      row, or an exception that ends the whole analysis. */
  datatype RowOutcome = Emit(interval: Interval) | Skip | Fails

  function OutcomeOf(r: Option<Interval>): RowOutcome {
    if r.Some? then Emit(r.value) else Skip
  }

  /** Interval of a subsection copied from parts `k..j`: the copy has no
      interval of its own, so it spans the two end parts. */
  function SubsectionInterval(parts: seq<Option<Interval>>, k: nat, j: nat): (r: Option<Interval>)
    requires k <= j < |parts|
    ensures r.Some? <==> parts[k].Some? && parts[j].Some?
    ensures r.Some? ==> r.value == Interval(parts[k].value.xmin, parts[j].value.xmax, "")
  {
    var sub := parts[k..j + 1];
    assert sub[0] == parts[k] && sub[|sub| - 1] == parts[j];
    GetTextInterval(OrthographyValue(None, sub))
  }

  /** Both searches of the range mapping: the elements `k..j` that cover
      the range exactly, or `-1` for either when there are none. */
  method FindAlignedRange(texts: seq<string>, first: int, last: int) returns (startEle: int, endEle: int)
    ensures startEle >= 0 && endEle >= 0 ==> AlignedRange(texts, first, last, startEle, endEle)
    ensures forall k, j :: AlignedRange(texts, first, last, k, j) ==> k == startEle && j == endEle
  {
    startEle := OrthographyStartElement(texts, first);
    endEle := -1;
    if startEle >= 0 {
      endEle := OrthographyEndElement(texts, startEle, last);
    }
    forall k, j | AlignedRange(texts, first, last, k, j) ensures k == startEle && j == endEle {
      assert Offset(texts, k) == first;
      assert startEle <= j && Offset(texts, j) + |texts[j]| == last;
    }
  }

  ghost predicate WholeRange(first: int, last: int, len: int) {
    first == 0 && last - first == len
  }

  /** Column mode on an orthography group, as written: the whole group for
      the whole range; the whole elements from `first` to `last` when the
      range falls on element boundaries; otherwise a freshly parsed
      orthography, which carries no interval, unless cutting its text out
      throws first. */
  method OrthographyRowIntervalAsWritten(own: Option<Interval>, texts: seq<string>, ivs: seq<Option<Interval>>, first: int, last: int)
    returns (r: RowOutcome)
    requires |texts| == |ivs|
    ensures r == Fails <==>
              && !WholeRange(first, last, |Join(texts)|)
              && (forall k, j :: !AlignedRange(texts, first, last, k, j))
              && FallbackTextAsWritten(Join(texts), first, last).None?
    ensures WholeRange(first, last, |Join(texts)|) ==> r == OutcomeOf(GetTextInterval(OrthographyValue(own, ivs)))
    ensures !WholeRange(first, last, |Join(texts)|) && r.Emit? ==>
              exists k, j :: AlignedRange(texts, first, last, k, j) && ivs[k].Some? && ivs[j].Some?
                             && r.interval == Interval(ivs[k].value.xmin, ivs[j].value.xmax, "")
    ensures !WholeRange(first, last, |Join(texts)|) ==>
              forall k, j :: (AlignedRange(texts, first, last, k, j) && ivs[k].Some? && ivs[j].Some?) ==>
                             r == Emit(Interval(ivs[k].value.xmin, ivs[j].value.xmax, ""))
  {
    if first == 0 && last - first == |Join(texts)| {
      return OutcomeOf(GetTextInterval(OrthographyValue(own, ivs)));
    }
    var startEle, endEle := FindAlignedRange(texts, first, last);
    if startEle >= 0 && endEle >= 0 {
      return OutcomeOf(SubsectionInterval(ivs, startEle, endEle));
    }
    if FallbackTextAsWritten(Join(texts), first, last).None? {
      return Fails;
    }
    return Skip;
  }

  /** The one-element group "a" with the range 2..2 reaches the throwing
      fallback: the range is not the whole group, no elements cover it, and
      it starts past the text. */
  lemma OrthographyPastEndFails()
    ensures var texts := ["a"];
            && !WholeRange(2, 2, |Join(texts)|)
            && (forall k, j :: !AlignedRange(texts, 2, 2, k, j))
            && FallbackTextAsWritten(Join(texts), 2, 2).None?
  {
    var texts := ["a"];
    assert Join(texts) == "a";
    forall k, j ensures !AlignedRange(texts, 2, 2, k, j) {
      if 0 <= k < |texts| {
        assert Offset(texts, k) == 0;
      }
    }
  }

  /** Column mode on an orthography group with the corrected fallback:
      the same outcomes, except that a range the code cannot cut out yields
      no row instead of an exception. */
  method OrthographyRowInterval(own: Option<Interval>, texts: seq<string>, ivs: seq<Option<Interval>>, first: int, last: int)
    returns (r: RowOutcome)
    requires |texts| == |ivs|
    ensures r != Fails
    ensures WholeRange(first, last, |Join(texts)|) ==> r == OutcomeOf(GetTextInterval(OrthographyValue(own, ivs)))
    ensures !WholeRange(first, last, |Join(texts)|) && r.Emit? ==>
              exists k, j :: AlignedRange(texts, first, last, k, j) && ivs[k].Some? && ivs[j].Some?
                             && r.interval == Interval(ivs[k].value.xmin, ivs[j].value.xmax, "")
    ensures !WholeRange(first, last, |Join(texts)|) ==>
              forall k, j :: (AlignedRange(texts, first, last, k, j) && ivs[k].Some? && ivs[j].Some?) ==>
                             r == Emit(Interval(ivs[k].value.xmin, ivs[j].value.xmax, ""))
  {
    if first == 0 && last - first == |Join(texts)| {
      return OutcomeOf(GetTextInterval(OrthographyValue(own, ivs)));
    }
    var startEle, endEle := FindAlignedRange(texts, first, last);
    if startEle >= 0 && endEle >= 0 {
      return OutcomeOf(SubsectionInterval(ivs, startEle, endEle));
    }
    var _ := FallbackText(Join(texts), first, last);
    return Skip;
  }

  // ---------------------------------------------------------------------------
  // IPA groups.

  /** Column mode on an IPA group: the whole group for the whole range;
      for any other non-empty range the elements from the one holding the
      range's first character to the one holding its last (`ipaIndexOf`, a
      library lookup, is a parameter); an empty range yields no row. A
      subsection outside the transcript throws. */
  function IpaRowInterval(own: Option<Interval>, cs: seq<IpaChild>, textLen: nat, first: int, last: int, ipaIndexOf: int -> int)
    : (r: RowOutcome)
    ensures WholeRange(first, last, textLen) ==> r == OutcomeOf(GetTextInterval(IpaValue(own, cs)))
    ensures !WholeRange(first, last, textLen) && last <= first ==> r == Skip
    ensures r == Fails <==>
              !WholeRange(first, last, textLen) && last > first
              && !(0 <= ipaIndexOf(first) <= ipaIndexOf(last - 1) + 1 <= |cs|)
    ensures !WholeRange(first, last, textLen) && r.Emit? ==>
              var sel := PhoneIntervals(cs[ipaIndexOf(first)..ipaIndexOf(last - 1) + 1]);
              |sel| > 0 && sel[0].Some? && r.interval.xmin == sel[0].value.xmin
              && sel[|sel| - 1].Some? && r.interval.xmax == sel[|sel| - 1].value.xmax && r.interval.text == ""
  {
    if first == 0 && last - first == textLen then OutcomeOf(GetTextInterval(IpaValue(own, cs)))
    else if last - first > 0 then
      var s, e := ipaIndexOf(first), ipaIndexOf(last - 1);
      if 0 <= s <= e + 1 <= |cs| then OutcomeOf(GetTextInterval(IpaValue(None, cs[s..e + 1])))
      else Fails
    else Skip
  }

  /** Elements paired with the intervals the annotator attached to them. */
  function Children(es: seq<Annotator.Element>, ann: seq<Option<Interval>>): (r: seq<IpaChild>)
    requires |ann| == |es|
    ensures |r| == |es|
    ensures forall i :: 0 <= i < |es| ==> r[i] == IpaChild(es[i].kind, ann[i])
  {
    seq(|es|, i requires 0 <= i < |es| => IpaChild(es[i].kind, ann[i]))
  }

  lemma {:induction false} PhoneIntervalsLast(cs: seq<IpaChild>)
    requires cs != [] && cs[|cs| - 1].kind == Annotator.Phone
    ensures PhoneIntervals(cs) != [] && PhoneIntervals(cs)[|PhoneIntervals(cs)| - 1] == cs[|cs| - 1].interval
  {
    if |cs| > 1 {
      PhoneIntervalsLast(cs[1..]);
    }
  }

  /** For a transcript whose markers carry no interval, the node's interval
      and the annotator's inferred one agree on both ends: dropping the
      markers leaves the same first and last phone. */
  lemma TextIntervalAgreesWithInference(es: seq<Annotator.Element>, ann: seq<Option<Interval>>)
    requires |ann| == |es|
    requires forall i :: 0 <= i < |es| && ann[i].Some? ==> es[i].kind == Annotator.Phone
    requires Annotator.InferInterval(es, ann).Some?
    ensures GetTextInterval(IpaValue(None, Children(es, ann))).Some?
    ensures GetTextInterval(IpaValue(None, Children(es, ann))).value.xmin == Annotator.InferInterval(es, ann).value.xmin
    ensures GetTextInterval(IpaValue(None, Children(es, ann))).value.xmax == Annotator.InferInterval(es, ann).value.xmax
  {
    var cs := Children(es, ann);
    var f := Annotator.FirstInferred(es);
    PhoneIntervalsLast(cs);
    if f == 1 {
      assert PhoneIntervals(cs) == PhoneIntervals(cs[1..]);
      assert PhoneIntervals(cs[1..]) == [cs[1].interval] + PhoneIntervals(cs[2..]);
    }
  }

  // ---------------------------------------------------------------------------
  // Tier strings.

  /** Words lie left to right, each ending before the next begins. */
  ghost predicate WordsOrdered(offsets: seq<int>, lens: seq<nat>)
    requires |offsets| == |lens|
  {
    forall i, j :: 0 <= i < j < |offsets| ==> offsets[i] + lens[i] < offsets[j]
  }

  /** First loop of the tier-string branch: the word whose offset is
      `first`, the walk stopping at the first word that reaches `first`. */
  method TierStringStartWord(offsets: seq<int>, lens: seq<nat>, first: int) returns (startWord: int)
    requires |offsets| == |lens|
    ensures -1 <= startWord < |offsets|
    ensures startWord >= 0 ==> offsets[startWord] == first
    ensures WordsOrdered(offsets, lens) ==> forall k :: 0 <= k < |offsets| && offsets[k] == first ==> k == startWord
  {
    startWord := -1;
    var i := 0;
    while i < |offsets|
      invariant 0 <= i <= |offsets|
      invariant forall k :: 0 <= k < i ==> offsets[k] + lens[k] < first
    {
      if first == offsets[i] {
        startWord := i;
        return;
      } else if first > offsets[i] + lens[i] {
        i := i + 1;
        continue;
      } else {
        break;
      }
    }
  }

  /** Second loop: from the start word on, the word ending at `last`. */
  method TierStringEndWord(offsets: seq<int>, lens: seq<nat>, startWord: nat, last: int) returns (endWord: int)
    requires |offsets| == |lens| && startWord < |offsets|
    ensures -1 <= endWord < |offsets|
    ensures endWord >= 0 ==> startWord <= endWord && offsets[endWord] + lens[endWord] == last
    ensures WordsOrdered(offsets, lens) ==>
              forall j :: startWord <= j < |offsets| && offsets[j] + lens[j] == last ==> j == endWord
  {
    endWord := -1;
    var i := startWord;
    while i < |offsets|
      invariant startWord <= i <= |offsets|
      invariant forall j :: startWord <= j < i ==> offsets[j] + lens[j] < last
    {
      if last == offsets[i] + lens[i] {
        endWord := i;
        return;
      } else if last > offsets[i] + lens[i] {
        i := i + 1;
        continue;
      } else {
        break;
      }
    }
  }

  /** Words `k..j` cover exactly the characters from `first` to `last`. */
  ghost predicate WordAligned(offsets: seq<int>, lens: seq<nat>, first: int, last: int, k: int, j: int)
    requires |offsets| == |lens|
  {
    0 <= k <= j < |offsets| && offsets[k] == first && offsets[j] + lens[j] == last
  }

  /** Intervals of the new tier string's `n` words: word `w` takes the
      interval of word `start + w` while the covered words last. */
  function CopiedWordIntervals(wordIvs: seq<Option<Interval>>, startWord: int, endWord: int, n: nat)
    : (r: seq<Option<Interval>>)
    ensures |r| == n
    ensures forall w :: 0 <= w < n ==>
              r[w] == (if 0 <= startWord <= endWord < |wordIvs| && w <= endWord - startWord then wordIvs[startWord + w] else None)
  {
    seq(n, w requires 0 <= w < n =>
      if 0 <= startWord <= endWord < |wordIvs| && w <= endWord - startWord then wordIvs[startWord + w] else None)
  }

  /** Column mode on a tier string: the whole value for the whole range;
      otherwise a new tier string of the range's text (`n` words, as the
      library splits it), whose words take over the intervals of the words
      the range covers when it falls on word boundaries. A range outside
      the text makes `substring` throw. */
  method TierStringRowInterval(own: Option<Interval>, text: string, offsets: seq<int>, lens: seq<nat>,
                               wordIvs: seq<Option<Interval>>, first: int, last: int, n: nat)
    returns (r: RowOutcome)
    requires |offsets| == |lens| == |wordIvs|
    ensures WholeRange(first, last, |text|) ==> r == OutcomeOf(GetTextInterval(TierStringValue(own, wordIvs)))
    ensures r == Fails <==> !WholeRange(first, last, |text|) && !(0 <= first <= last <= |text|)
    ensures !WholeRange(first, last, |text|) && r.Emit? ==>
              exists k, j :: WordAligned(offsets, lens, first, last, k, j) && wordIvs[k].Some?
                             && r.interval.xmin == wordIvs[k].value.xmin && r.interval.text == ""
    ensures !WholeRange(first, last, |text|) && 0 <= first <= last <= |text| && WordsOrdered(offsets, lens) ==>
              forall k, j :: (WordAligned(offsets, lens, first, last, k, j) && n == j - k + 1
                              && wordIvs[k].Some? && wordIvs[j].Some?) ==>
                             r == Emit(Interval(wordIvs[k].value.xmin, wordIvs[j].value.xmax, ""))
  {
    if first == 0 && last - first == |text| {
      return OutcomeOf(GetTextInterval(TierStringValue(own, wordIvs)));
    }
    var startWord := TierStringStartWord(offsets, lens, first);
    var endWord := -1;
    if startWord >= 0 {
      endWord := TierStringEndWord(offsets, lens, startWord, last);
    }
    if !(0 <= first <= last <= |text|) {
      return Fails;
    }
    var copied := CopiedWordIntervals(wordIvs, startWord, endWord, n);
    if startWord >= 0 && endWord >= 0 && n > 0 {
      assert copied[0] == wordIvs[startWord];
      assert WordAligned(offsets, lens, first, last, startWord, endWord);
    }
    r := OutcomeOf(GetTextInterval(TierStringValue(None, copied)));
  }

  // ---------------------------------------------------------------------------
  // The row loop of `operate`: which session's record, TextGrid and sound a
  // row is analysed with.

  datatype SessionPath = SessionPath(corpus: string, session: string)

  /** How far reopening a session gets: opening the session, loading its
      TextGrid, opening its sound; each step throws when it fails, and the
      exception is logged. `NoMedia` is a session for which no media file is
      found: `getMediaFile` gives null, and dereferencing it throws an
      exception the loop does not catch. */
  datatype LoadOutcome = OpenFails | TextGridFails | NoMedia | SoundFails | LoadsAll

  /** Loop state: the last row's session and the session that each of the
      `session`, `textGrid` and `longSound` variables was last loaded for. */
  datatype Loader = Loader(last: Option<SessionPath>, record: Option<SessionPath>,
                           grid: Option<SessionPath>, sound: Option<SessionPath>)

  const NothingLoaded := Loader(None, None, None, None)

  /** The sessions a row's record, TextGrid and sound come from. */
  datatype Context = Context(record: SessionPath, grid: SessionPath, sound: SessionPath)

  /** A variable loaded for `name` when the load gets past step `step`. */
  function Loaded(prior: Option<SessionPath>, name: SessionPath, outcome: LoadOutcome, step: nat): Option<SessionPath> {
    var reached := match outcome
      case OpenFails => 0
      case TextGridFails => 1
      case NoMedia => 2
      case SoundFails => 2
      case LoadsAll => 3;
    if step < reached then Some(name) else prior
  }

  /** A row reopens its session on a change of session, or while no session
      is open. */
  predicate Reloads(st: Loader, name: SessionPath) {
    st.record.None? || st.last != Some(name)
  }

  /** One row's reload, as written: every variable whose load throws keeps
      the previous session's value. */
  function LoadStepAsWritten(st: Loader, name: SessionPath, load: SessionPath -> LoadOutcome): (r: Loader)
    ensures r.last == Some(name)
  {
    if Reloads(st, name) then
      var o := load(name);
      Loader(Some(name), Loaded(st.record, name, o, 0), Loaded(st.grid, name, o, 1), Loaded(st.sound, name, o, 2))
    else st.(last := Some(name))
  }

  /** The row proceeds only with a TextGrid and a sound. */
  function ContextOf(st: Loader): Option<Context> {
    if st.record.Some? && st.grid.Some? && st.sound.Some? then
      Some(Context(st.record.value, st.grid.value, st.sound.value))
    else None
  }

  function ContextsAsWritten(names: seq<SessionPath>, load: SessionPath -> LoadOutcome, st: Loader)
    : (r: seq<Option<Context>>)
    ensures |r| == |names|
  {
    if names == [] then []
    else
      var next := LoadStepAsWritten(st, names[0], load);
      [ContextOf(next)] + ContextsAsWritten(names[1..], load, next)
  }

  /** A session whose TextGrid file cannot be read is analysed with the
      previous session's TextGrid and sound. */
  lemma StaleTextGridUsed()
    ensures var a, b := SessionPath("c", "a"), SessionPath("c", "b");
            var load := (p: SessionPath) => if p == a then LoadsAll else TextGridFails;
            ContextsAsWritten([a, b], load, NothingLoaded)[1] == Some(Context(b, a, a))
  {
    var a, b := SessionPath("c", "a"), SessionPath("c", "b");
    var load := (p: SessionPath) => if p == a then LoadsAll else TextGridFails;
    var s1 := LoadStepAsWritten(NothingLoaded, a, load);
    assert s1 == Loader(Some(a), Some(a), Some(a), Some(a));
    var s2 := LoadStepAsWritten(s1, b, load);
    assert s2 == Loader(Some(b), Some(b), Some(a), Some(a));
    assert ContextsAsWritten([a, b], load, NothingLoaded)[1] == ContextsAsWritten([b], load, s1)[0];
  }

  /** One row's reload with the previous session's values dropped first. */
  function LoadStep(st: Loader, name: SessionPath, load: SessionPath -> LoadOutcome): (r: Loader)
    ensures r.last == Some(name)
  {
    if Reloads(st, name) then
      var o := load(name);
      Loader(Some(name), Loaded(None, name, o, 0), Loaded(None, name, o, 1), Loaded(None, name, o, 2))
    else st.(last := Some(name))
  }

  /** Every loaded variable belongs to the last session, and holds exactly
      what loading it gives. */
  ghost predicate LoaderConsistent(st: Loader, load: SessionPath -> LoadOutcome) {
    st.record.Some? ==>
      && st.last.Some?
      && var o := load(st.last.value);
         st.record == Loaded(None, st.last.value, o, 0)
         && st.grid == Loaded(None, st.last.value, o, 1)
         && st.sound == Loaded(None, st.last.value, o, 2)
  }

  function Contexts(names: seq<SessionPath>, load: SessionPath -> LoadOutcome, st: Loader)
    : (r: seq<Option<Context>>)
    ensures |r| == |names|
  {
    if names == [] then []
    else
      var next := LoadStep(st, names[0], load);
      [ContextOf(next)] + Contexts(names[1..], load, next)
  }

  lemma LoadStepConsistent(st: Loader, name: SessionPath, load: SessionPath -> LoadOutcome)
    requires LoaderConsistent(st, load)
    ensures LoaderConsistent(LoadStep(st, name, load), load)
    ensures ContextOf(LoadStep(st, name, load)).Some? <==> load(name) == LoadsAll
    ensures ContextOf(LoadStep(st, name, load)).Some? ==> ContextOf(LoadStep(st, name, load)).value == Context(name, name, name)
  {
  }

  /** With the reset, a row proceeds exactly when its own session loads in
      full, and then uses that session's record, TextGrid and sound. */
  lemma {:induction false} ContextsUseOwnSession(names: seq<SessionPath>, load: SessionPath -> LoadOutcome, st: Loader)
    requires LoaderConsistent(st, load)
    ensures forall i :: 0 <= i < |names| ==>
              (Contexts(names, load, st)[i].Some? <==> load(names[i]) == LoadsAll)
    ensures forall i :: 0 <= i < |names| && Contexts(names, load, st)[i].Some? ==>
              Contexts(names, load, st)[i].value == Context(names[i], names[i], names[i])
  {
    if names != [] {
      var next := LoadStep(st, names[0], load);
      LoadStepConsistent(st, names[0], load);
      ContextsUseOwnSession(names[1..], load, next);
      var r := Contexts(names, load, st);
      assert r == [ContextOf(next)] + Contexts(names[1..], load, next);
      forall i | 1 <= i < |names| ensures r[i] == Contexts(names[1..], load, next)[i - 1] && names[i] == names[1..][i - 1] {
      }
    }
  }

  /** The reload of either loop: with the previous session's values dropped
      (`reset`) or kept, as written. */
  function Step(reset: bool, st: Loader, name: SessionPath, load: SessionPath -> LoadOutcome): (r: Loader)
    ensures r.last == Some(name)
  {
    if reset then LoadStep(st, name, load) else LoadStepAsWritten(st, name, load)
  }

  /** Whether some row reopens a session for which no media file is found,
      which ends `operate` with an exception. */
  function MediaMissing(reset: bool, names: seq<SessionPath>, load: SessionPath -> LoadOutcome, st: Loader): bool
    decreases |names|
  {
    if names == [] then false
    else (Reloads(st, names[0]) && load(names[0]) == NoMedia)
         || MediaMissing(reset, names[1..], load, Step(reset, st, names[0], load))
  }

  /** The exception is raised exactly when some row's session has no media
      file: the first such row always reopens its session, because the row
      before it is of another session or there is none. */
  lemma {:induction false} MediaMissingIff(reset: bool, names: seq<SessionPath>, load: SessionPath -> LoadOutcome, st: Loader)
    requires st.last.Some? ==> load(st.last.value) != NoMedia
    ensures MediaMissing(reset, names, load, st) <==> exists i :: 0 <= i < |names| && load(names[i]) == NoMedia
    decreases |names|
  {
    if names != [] {
      var next := Step(reset, st, names[0], load);
      if load(names[0]) != NoMedia {
        MediaMissingIff(reset, names[1..], load, next);
        if exists i :: 0 <= i < |names| && load(names[i]) == NoMedia {
          var i :| 0 <= i < |names| && load(names[i]) == NoMedia;
          assert names[1..][i - 1] == names[i];
        }
        if exists i :: 0 <= i < |names| - 1 && load(names[1..][i]) == NoMedia {
          var i :| 0 <= i < |names| - 1 && load(names[1..][i]) == NoMedia;
          assert names[i + 1] == names[1..][i];
        }
      } else {
        assert Reloads(st, names[0]);
      }
    }
  }

  // ---------------------------------------------------------------------------
  // Rows of the output table and the `recordList` guard.

  /** A row of the query-result table: its session and the result's record. */
  datatype RowIn = RowIn(session: SessionPath, recordIndex: nat)

  /** A row handed to the analysis: the input row's position, the row, the
      sessions it is analysed with and the interval analysed. */
  datatype OutRow = OutRow(pos: nat, row: RowIn, context: Context, interval: Interval)

  function Block(pos: nat, row: RowIn, c: Context, ivs: seq<Interval>): (r: seq<OutRow>)
    ensures |r| == |ivs|
    ensures forall a :: 0 <= a < |r| ==> r[a] == OutRow(pos, row, c, ivs[a])
  {
    seq(|ivs|, a requires 0 <= a < |ivs| => OutRow(pos, row, c, ivs[a]))
  }

  /** What `recordList` holds for a row: as written, the record index
      alone; keyed by session as well, records of different sessions no
      longer collide. */
  datatype KeyKind = ByRecordIndex | BySessionAndRecord

  datatype RowKey = RowKey(session: Option<SessionPath>, recordIndex: nat)

  function KeyOf(kind: KeyKind, row: RowIn): RowKey {
    match kind
    case ByRecordIndex => RowKey(None, row.recordIndex)
    case BySessionAndRecord => RowKey(Some(row.session), row.recordIndex)
  }

  /** Whether a row of record-interval or TextGrid-tier mode is listed:
      rows without a context or a segment are skipped, and so is a row whose
      key is already listed; otherwise `emit` gives the row's intervals, or
      `None` when the mode gives up on the row before listing it. */
  function Listing(row: RowIn, ctx: Option<Context>, kind: KeyKind,
                          segmentOf: (SessionPath, nat) -> Option<Interval>,
                          emit: (Context, RowIn, Interval) -> Option<seq<Interval>>,
                          seen: seq<RowKey>): (r: Option<(Context, seq<Interval>)>)
    ensures r.Some? ==> ctx == Some(r.value.0) && KeyOf(kind, row) !in seen
  {
    if ctx.None? then None
    else
      var seg := segmentOf(ctx.value.record, row.recordIndex);
      if seg.None? || KeyOf(kind, row) in seen then None
      else match emit(ctx.value, row, seg.value)
        case None => None
        case Some(ivs) => Some((ctx.value, ivs))
  }

  /** The rows of record-interval and TextGrid-tier modes; a listed row's
      key joins `seen`. */
  function ListedRows(rows: seq<RowIn>, ctxs: seq<Option<Context>>, kind: KeyKind,
                             segmentOf: (SessionPath, nat) -> Option<Interval>,
                             emit: (Context, RowIn, Interval) -> Option<seq<Interval>>,
                             seen: seq<RowKey>, pos: nat): (r: seq<OutRow>)
    requires |ctxs| == |rows|
    decreases |rows|
  {
    if rows == [] then []
    else match Listing(rows[0], ctxs[0], kind, segmentOf, emit, seen)
      case None => ListedRows(rows[1..], ctxs[1..], kind, segmentOf, emit, seen, pos + 1)
      case Some((c, ivs)) =>
        Block(pos, rows[0], c, ivs) + ListedRows(rows[1..], ctxs[1..], kind, segmentOf, emit, seen + [KeyOf(kind, rows[0])], pos + 1)
  }

  /** Every output row comes from the input row at its position, with that
      row's context. */
  ghost predicate FromInput(r: seq<OutRow>, rows: seq<RowIn>, ctxs: seq<Option<Context>>, pos: nat)
    requires |ctxs| == |rows|
  {
    forall a :: 0 <= a < |r| ==> RowFrom(r[a], rows, ctxs, pos)
  }

  ghost predicate RowFrom(o: OutRow, rows: seq<RowIn>, ctxs: seq<Option<Context>>, pos: nat)
    requires |ctxs| == |rows|
  {
    pos <= o.pos < pos + |rows| && o.row == rows[o.pos - pos] && ctxs[o.pos - pos] == Some(o.context)
  }

  lemma RowFromTail(o: OutRow, rows: seq<RowIn>, ctxs: seq<Option<Context>>, pos: nat)
    requires |ctxs| == |rows| > 0
    requires RowFrom(o, rows[1..], ctxs[1..], pos + 1)
    ensures RowFrom(o, rows, ctxs, pos)
  {
    assert rows[1..][o.pos - (pos + 1)] == rows[o.pos - pos];
    assert ctxs[1..][o.pos - (pos + 1)] == ctxs[o.pos - pos];
  }

  /** No output row has a key listed beforehand. */
  ghost predicate KeysUnseen(r: seq<OutRow>, kind: KeyKind, seen: seq<RowKey>) {
    forall a :: 0 <= a < |r| ==> KeyOf(kind, r[a].row) !in seen
  }

  /** Rows sharing a key all come from one input row. */
  ghost predicate OnePositionPerKey(r: seq<OutRow>, kind: KeyKind) {
    forall a, b :: 0 <= a < |r| && 0 <= b < |r| && KeyOf(kind, r[a].row) == KeyOf(kind, r[b].row) ==> r[a].pos == r[b].pos
  }

  /** The keys listed after the first row. */
  function SeenAfter(rows: seq<RowIn>, ctxs: seq<Option<Context>>, kind: KeyKind,
                     segmentOf: (SessionPath, nat) -> Option<Interval>,
                     emit: (Context, RowIn, Interval) -> Option<seq<Interval>>,
                     seen: seq<RowKey>): seq<RowKey>
    requires |ctxs| == |rows| > 0
  {
    if Listing(rows[0], ctxs[0], kind, segmentOf, emit, seen).Some? then seen + [KeyOf(kind, rows[0])] else seen
  }

  /** The output rows of the first row. */
  function HeadRows(rows: seq<RowIn>, ctxs: seq<Option<Context>>, kind: KeyKind,
                    segmentOf: (SessionPath, nat) -> Option<Interval>,
                    emit: (Context, RowIn, Interval) -> Option<seq<Interval>>,
                    seen: seq<RowKey>, pos: nat): seq<OutRow>
    requires |ctxs| == |rows| > 0
  {
    match Listing(rows[0], ctxs[0], kind, segmentOf, emit, seen)
    case None => []
    case Some((c, ivs)) => Block(pos, rows[0], c, ivs)
  }

  lemma ListedRowsUnfold(rows: seq<RowIn>, ctxs: seq<Option<Context>>, kind: KeyKind,
                         segmentOf: (SessionPath, nat) -> Option<Interval>,
                         emit: (Context, RowIn, Interval) -> Option<seq<Interval>>,
                         seen: seq<RowKey>, pos: nat)
    requires |ctxs| == |rows| > 0
    ensures ListedRows(rows, ctxs, kind, segmentOf, emit, seen, pos)
            == HeadRows(rows, ctxs, kind, segmentOf, emit, seen, pos)
               + ListedRows(rows[1..], ctxs[1..], kind, segmentOf, emit, SeenAfter(rows, ctxs, kind, segmentOf, emit, seen), pos + 1)
    ensures var h := HeadRows(rows, ctxs, kind, segmentOf, emit, seen, pos);
            forall a :: 0 <= a < |h| ==> h[a].pos == pos && h[a].row == rows[0] && ctxs[0] == Some(h[a].context)
                                         && KeyOf(kind, rows[0]) !in seen
    ensures |HeadRows(rows, ctxs, kind, segmentOf, emit, seen, pos)| > 0 ==>
              SeenAfter(rows, ctxs, kind, segmentOf, emit, seen) == seen + [KeyOf(kind, rows[0])]
  {
  }

  lemma {:induction false} ListedRowsFromInput(rows: seq<RowIn>, ctxs: seq<Option<Context>>, kind: KeyKind,
                                               segmentOf: (SessionPath, nat) -> Option<Interval>,
                                               emit: (Context, RowIn, Interval) -> Option<seq<Interval>>,
                                               seen: seq<RowKey>, pos: nat)
    requires |ctxs| == |rows|
    ensures FromInput(ListedRows(rows, ctxs, kind, segmentOf, emit, seen, pos), rows, ctxs, pos)
    decreases |rows|
  {
    if rows != [] {
      var r := ListedRows(rows, ctxs, kind, segmentOf, emit, seen, pos);
      var head := HeadRows(rows, ctxs, kind, segmentOf, emit, seen, pos);
      var seen' := SeenAfter(rows, ctxs, kind, segmentOf, emit, seen);
      var rest := ListedRows(rows[1..], ctxs[1..], kind, segmentOf, emit, seen', pos + 1);
      ListedRowsUnfold(rows, ctxs, kind, segmentOf, emit, seen, pos);
      ListedRowsFromInput(rows[1..], ctxs[1..], kind, segmentOf, emit, seen', pos + 1);
      forall a | 0 <= a < |r| ensures RowFrom(r[a], rows, ctxs, pos) {
        if a >= |head| {
          assert r[a] == rest[a - |head|];
          RowFromTail(r[a], rows, ctxs, pos);
        } else {
          assert r[a] == head[a];
        }
      }
    }
  }

  lemma {:induction false} ListedRowsKeysUnseen(rows: seq<RowIn>, ctxs: seq<Option<Context>>, kind: KeyKind,
                                                segmentOf: (SessionPath, nat) -> Option<Interval>,
                                                emit: (Context, RowIn, Interval) -> Option<seq<Interval>>,
                                                seen: seq<RowKey>, pos: nat)
    requires |ctxs| == |rows|
    ensures KeysUnseen(ListedRows(rows, ctxs, kind, segmentOf, emit, seen, pos), kind, seen)
    decreases |rows|
  {
    if rows != [] {
      var r := ListedRows(rows, ctxs, kind, segmentOf, emit, seen, pos);
      var head := HeadRows(rows, ctxs, kind, segmentOf, emit, seen, pos);
      var seen' := SeenAfter(rows, ctxs, kind, segmentOf, emit, seen);
      var rest := ListedRows(rows[1..], ctxs[1..], kind, segmentOf, emit, seen', pos + 1);
      ListedRowsUnfold(rows, ctxs, kind, segmentOf, emit, seen, pos);
      ListedRowsKeysUnseen(rows[1..], ctxs[1..], kind, segmentOf, emit, seen', pos + 1);
      forall a | 0 <= a < |r| ensures KeyOf(kind, r[a].row) !in seen {
        if a >= |head| {
          assert r[a] == rest[a - |head|];
          assert KeyOf(kind, rest[a - |head|].row) !in seen';
        } else {
          assert r[a] == head[a];
        }
      }
    }
  }

  lemma OnePositionConcat(head: seq<OutRow>, rest: seq<OutRow>, kind: KeyKind, seen: seq<RowKey>)
    requires forall a, b :: 0 <= a < |head| && 0 <= b < |head| ==> head[a].pos == head[b].pos
    requires forall a :: 0 <= a < |head| ==> KeyOf(kind, head[a].row) in seen
    requires KeysUnseen(rest, kind, seen)
    requires OnePositionPerKey(rest, kind)
    ensures OnePositionPerKey(head + rest, kind)
  {
    var r := head + rest;
    forall a, b | 0 <= a < |head| && |head| <= b < |r| ensures KeyOf(kind, r[a].row) != KeyOf(kind, r[b].row) {
      assert r[b] == rest[b - |head|];
    }
    forall a, b | 0 <= a < |r| && 0 <= b < |r| && KeyOf(kind, r[a].row) == KeyOf(kind, r[b].row)
      ensures r[a].pos == r[b].pos
    {
      if a >= |head| && b >= |head| {
        assert r[a] == rest[a - |head|] && r[b] == rest[b - |head|];
      }
    }
  }

  /** In both modes, all rows sharing a key come from one input row. */
  lemma {:induction false} ListedRowsOnePositionPerKey(rows: seq<RowIn>, ctxs: seq<Option<Context>>, kind: KeyKind,
                                                       segmentOf: (SessionPath, nat) -> Option<Interval>,
                                                       emit: (Context, RowIn, Interval) -> Option<seq<Interval>>,
                                                       seen: seq<RowKey>, pos: nat)
    requires |ctxs| == |rows|
    ensures OnePositionPerKey(ListedRows(rows, ctxs, kind, segmentOf, emit, seen, pos), kind)
    decreases |rows|
  {
    if rows != [] {
      var head := HeadRows(rows, ctxs, kind, segmentOf, emit, seen, pos);
      var seen' := SeenAfter(rows, ctxs, kind, segmentOf, emit, seen);
      var rest := ListedRows(rows[1..], ctxs[1..], kind, segmentOf, emit, seen', pos + 1);
      ListedRowsUnfold(rows, ctxs, kind, segmentOf, emit, seen, pos);
      ListedRowsOnePositionPerKey(rows[1..], ctxs[1..], kind, segmentOf, emit, seen', pos + 1);
      ListedRowsKeysUnseen(rows[1..], ctxs[1..], kind, segmentOf, emit, seen', pos + 1);
      OnePositionConcat(head, rest, kind, seen');
    }
  }

  /** Record mode: one row per listed row, over the record's segment. */
  function RecordEmit(c: Context, row: RowIn, segment: Interval): Option<seq<Interval>> {
    Some([segment])
  }

  /** Whether a row gets as far as the key check: its session loaded and
      its record has a segment. */
  predicate Usable(row: RowIn, ctx: Option<Context>, segmentOf: (SessionPath, nat) -> Option<Interval>) {
    ctx.Some? && segmentOf(ctx.value.record, row.recordIndex).Some?
  }

  lemma RecordHeadRows(rows: seq<RowIn>, ctxs: seq<Option<Context>>, kind: KeyKind,
                       segmentOf: (SessionPath, nat) -> Option<Interval>, seen: seq<RowKey>, pos: nat)
    requires |ctxs| == |rows| > 0
    ensures |HeadRows(rows, ctxs, kind, segmentOf, RecordEmit, seen, pos)| <= 1
    ensures Usable(rows[0], ctxs[0], segmentOf) && KeyOf(kind, rows[0]) !in seen ==>
              |HeadRows(rows, ctxs, kind, segmentOf, RecordEmit, seen, pos)| == 1
  {
  }

  /** No two rows share a key. */
  ghost predicate KeysDistinct(r: seq<OutRow>, kind: KeyKind) {
    forall a, b :: 0 <= a < b < |r| ==> KeyOf(kind, r[a].row) != KeyOf(kind, r[b].row)
  }

  lemma KeysDistinctConcat(head: seq<OutRow>, rest: seq<OutRow>, kind: KeyKind, seen: seq<RowKey>)
    requires |head| <= 1
    requires forall a :: 0 <= a < |head| ==> KeyOf(kind, head[a].row) in seen
    requires KeysUnseen(rest, kind, seen)
    requires KeysDistinct(rest, kind)
    ensures KeysDistinct(head + rest, kind)
  {
    var r := head + rest;
    forall a, b | 0 <= a < b < |r| ensures KeyOf(kind, r[a].row) != KeyOf(kind, r[b].row) {
      assert r[b] == rest[b - |head|];
      if a >= |head| {
        assert r[a] == rest[a - |head|];
      } else {
        assert KeyOf(kind, rest[b - |head|].row) !in seen;
      }
    }
  }

  /** In record mode no key is given two rows. */
  lemma {:induction false} RecordRowsKeysDistinct(rows: seq<RowIn>, ctxs: seq<Option<Context>>, kind: KeyKind,
                                                  segmentOf: (SessionPath, nat) -> Option<Interval>,
                                                  seen: seq<RowKey>, pos: nat)
    requires |ctxs| == |rows|
    ensures KeysDistinct(ListedRows(rows, ctxs, kind, segmentOf, RecordEmit, seen, pos), kind)
    decreases |rows|
  {
    if rows != [] {
      var head := HeadRows(rows, ctxs, kind, segmentOf, RecordEmit, seen, pos);
      var seen' := SeenAfter(rows, ctxs, kind, segmentOf, RecordEmit, seen);
      var rest := ListedRows(rows[1..], ctxs[1..], kind, segmentOf, RecordEmit, seen', pos + 1);
      ListedRowsUnfold(rows, ctxs, kind, segmentOf, RecordEmit, seen, pos);
      RecordRowsKeysDistinct(rows[1..], ctxs[1..], kind, segmentOf, seen', pos + 1);
      ListedRowsKeysUnseen(rows[1..], ctxs[1..], kind, segmentOf, RecordEmit, seen', pos + 1);
      RecordHeadRows(rows, ctxs, kind, segmentOf, seen, pos);
      KeysDistinctConcat(head, rest, kind, seen');
    }
  }

  /** In record mode every row with a context and a segment has its key
      given a row, unless the key was listed beforehand. */
  lemma {:induction false} RecordRowsComplete(rows: seq<RowIn>, ctxs: seq<Option<Context>>, kind: KeyKind,
                                              segmentOf: (SessionPath, nat) -> Option<Interval>,
                                              seen: seq<RowKey>, pos: nat)
    requires |ctxs| == |rows|
    ensures var r := ListedRows(rows, ctxs, kind, segmentOf, RecordEmit, seen, pos);
            forall i :: 0 <= i < |rows| && Usable(rows[i], ctxs[i], segmentOf) ==>
              KeyOf(kind, rows[i]) in seen || exists a :: 0 <= a < |r| && KeyOf(kind, r[a].row) == KeyOf(kind, rows[i])
    decreases |rows|
  {
    if rows != [] {
      var r := ListedRows(rows, ctxs, kind, segmentOf, RecordEmit, seen, pos);
      var head := HeadRows(rows, ctxs, kind, segmentOf, RecordEmit, seen, pos);
      var seen' := SeenAfter(rows, ctxs, kind, segmentOf, RecordEmit, seen);
      var rest := ListedRows(rows[1..], ctxs[1..], kind, segmentOf, RecordEmit, seen', pos + 1);
      ListedRowsUnfold(rows, ctxs, kind, segmentOf, RecordEmit, seen, pos);
      RecordRowsComplete(rows[1..], ctxs[1..], kind, segmentOf, seen', pos + 1);
      forall i | 0 <= i < |rows| && Usable(rows[i], ctxs[i], segmentOf)
        ensures KeyOf(kind, rows[i]) in seen || exists a :: 0 <= a < |r| && KeyOf(kind, r[a].row) == KeyOf(kind, rows[i])
      {
        if i == 0 {
          if KeyOf(kind, rows[0]) !in seen {
            assert r[0] == head[0];
          }
        } else {
          assert rows[1..][i - 1] == rows[i] && ctxs[1..][i - 1] == ctxs[i];
          if KeyOf(kind, rows[i]) !in seen' {
            var a :| 0 <= a < |rest| && KeyOf(kind, rest[a].row) == KeyOf(kind, rows[i]);
            assert r[a + |head|] == rest[a];
          } else if KeyOf(kind, rows[i]) !in seen {
            assert r[0] == head[0];
          }
        }
      }
    }
  }

  /** As written, record 0 of a second session is skipped once record 0 of
      a first session has its row. */
  lemma SecondSessionRecordSkipped()
    ensures var a, b := SessionPath("c", "a"), SessionPath("c", "b");
            var seg := (p: SessionPath, i: nat) => Some(Interval(0, 1, ""));
            var r := ListedRows([RowIn(a, 0), RowIn(b, 0)], [Some(Context(a, a, a)), Some(Context(b, b, b))],
                                ByRecordIndex, seg, RecordEmit, [], 0);
            |r| == 1 && r[0].row.session == a
  {
    var a, b := SessionPath("c", "a"), SessionPath("c", "b");
    var seg := (p: SessionPath, i: nat) => Some(Interval(0, 1, ""));
    var rows, ctxs := [RowIn(a, 0), RowIn(b, 0)], [Some(Context(a, a, a)), Some(Context(b, b, b))];
    ListedRowsUnfold(rows, ctxs, ByRecordIndex, seg, RecordEmit, [], 0);
    var seen := [RowKey(None, 0)];
    assert Listing(rows[1], ctxs[1], ByRecordIndex, seg, RecordEmit, seen).None?;
    ListedRowsUnfold(rows[1..], ctxs[1..], ByRecordIndex, seg, RecordEmit, seen, 1);
  }

  /** Keyed by session and record, every row with a context and a segment
      has a row of its own. */
  lemma RecordModeCoversEveryRecord(rows: seq<RowIn>, ctxs: seq<Option<Context>>,
                                    segmentOf: (SessionPath, nat) -> Option<Interval>)
    requires |ctxs| == |rows|
    ensures var r := ListedRows(rows, ctxs, BySessionAndRecord, segmentOf, RecordEmit, [], 0);
            forall i :: 0 <= i < |rows| && Usable(rows[i], ctxs[i], segmentOf) ==>
              exists a :: 0 <= a < |r| && r[a].row == rows[i]
  {
    var r := ListedRows(rows, ctxs, BySessionAndRecord, segmentOf, RecordEmit, [], 0);
    RecordRowsComplete(rows, ctxs, BySessionAndRecord, segmentOf, [], 0);
    forall i | 0 <= i < |rows| && Usable(rows[i], ctxs[i], segmentOf) ensures exists a :: 0 <= a < |r| && r[a].row == rows[i] {
      var a :| 0 <= a < |r| && KeyOf(BySessionAndRecord, r[a].row) == KeyOf(BySessionAndRecord, rows[i]);
      assert r[a].row == rows[i];
    }
  }

  // ---------------------------------------------------------------------------
  // TextGrid-tier mode.

  /** The named tier of a row's TextGrid: absent (`tierNumberFromName` gives
      no positive number), not an interval tier (`checkSpecifiedTierIsIntervalTier`
      throws), or its intervals. */
  datatype TierLookup = NoSuchTier | NotAnIntervalTier | IntervalsOf(intervals: seq<Interval>)

  /** The intervals whose label passes the filter, in tier order. */
  function FilterIntervals(ivs: seq<Interval>, filter: string, matches: (string, string) -> bool): (r: seq<Interval>)
    ensures |r| <= |ivs|
    ensures forall x :: x in r <==> x in ivs && CheckFilter(filter, x.text, matches)
  {
    if ivs == [] then []
    else if CheckFilter(filter, ivs[0].text, matches) then [ivs[0]] + FilterIntervals(ivs[1..], filter, matches)
    else FilterIntervals(ivs[1..], filter, matches)
  }

  /** TextGrid-tier mode: a row is listed once its tier is found to be an
      interval tier, and yields a row per interval passing the filter. */
  function TierEmit(tierOf: (Context, RowIn) -> TierLookup, filter: string, matches: (string, string) -> bool)
    : (Context, RowIn, Interval) -> Option<seq<Interval>>
  {
    (c: Context, row: RowIn, segment: Interval) =>
      match tierOf(c, row)
      case IntervalsOf(ivs) => Some(FilterIntervals(ivs, filter, matches))
      case _ => None
  }

  // ---------------------------------------------------------------------------
  // Column mode.

  /** Column mode: each row with a context and a segment is turned into a
      row over the interval its selected value yields; an exception on any
      row ends the analysis with no table. */
  function ColumnRows(rows: seq<RowIn>, ctxs: seq<Option<Context>>,
                      segmentOf: (SessionPath, nat) -> Option<Interval>,
                      outcome: (Context, RowIn) -> RowOutcome, pos: nat): (r: Option<seq<OutRow>>)
    requires |ctxs| == |rows|
    ensures r.None? <==> exists i :: 0 <= i < |rows| && Usable(rows[i], ctxs[i], segmentOf) && outcome(ctxs[i].value, rows[i]) == Fails
    ensures r.Some? ==> |r.value| <= |rows|
    decreases |rows|
  {
    if rows == [] then Some([])
    else
      var rest := ColumnRows(rows[1..], ctxs[1..], segmentOf, outcome, pos + 1);
      ColumnRowsTail(rows, ctxs, segmentOf, outcome);
      if rest.Some? then
        if !Usable(rows[0], ctxs[0], segmentOf) then rest
        else match outcome(ctxs[0].value, rows[0])
          case Fails => None
          case Skip => rest
          case Emit(iv) => Some([OutRow(pos, rows[0], ctxs[0].value, iv)] + rest.value)
      else None
  }

  lemma {:induction false} ColumnRowsFromInput(rows: seq<RowIn>, ctxs: seq<Option<Context>>,
                                              segmentOf: (SessionPath, nat) -> Option<Interval>,
                                              outcome: (Context, RowIn) -> RowOutcome, pos: nat)
    requires |ctxs| == |rows|
    ensures var r := ColumnRows(rows, ctxs, segmentOf, outcome, pos);
            r.Some? ==> FromInput(r.value, rows, ctxs, pos)
    decreases |rows|
  {
    if rows != [] {
      var r := ColumnRows(rows, ctxs, segmentOf, outcome, pos);
      var rest := ColumnRows(rows[1..], ctxs[1..], segmentOf, outcome, pos + 1);
      ColumnRowsFromInput(rows[1..], ctxs[1..], segmentOf, outcome, pos + 1);
      if r.Some? {
        assert rest.Some?;
        forall a | 0 <= a < |r.value| ensures RowFrom(r.value[a], rows, ctxs, pos) {
          if r.value[a] in rest.value {
            var b :| 0 <= b < |rest.value| && rest.value[b] == r.value[a];
            RowFromTail(r.value[a], rows, ctxs, pos);
          }
        }
      }
    }
  }

  lemma ColumnRowsTail(rows: seq<RowIn>, ctxs: seq<Option<Context>>,
                       segmentOf: (SessionPath, nat) -> Option<Interval>, outcome: (Context, RowIn) -> RowOutcome)
    requires |ctxs| == |rows| > 0
    ensures (exists i :: 0 <= i < |rows| && Usable(rows[i], ctxs[i], segmentOf) && outcome(ctxs[i].value, rows[i]) == Fails)
            <==> (Usable(rows[0], ctxs[0], segmentOf) && outcome(ctxs[0].value, rows[0]) == Fails)
                 || (exists i :: 0 <= i < |rows| - 1 && Usable(rows[1..][i], ctxs[1..][i], segmentOf) && outcome(ctxs[1..][i].value, rows[1..][i]) == Fails)
  {
    if exists i :: 0 <= i < |rows| && Usable(rows[i], ctxs[i], segmentOf) && outcome(ctxs[i].value, rows[i]) == Fails {
      var i :| 0 <= i < |rows| && Usable(rows[i], ctxs[i], segmentOf) && outcome(ctxs[i].value, rows[i]) == Fails;
      if i > 0 {
        assert rows[1..][i - 1] == rows[i] && ctxs[1..][i - 1] == ctxs[i];
      }
    }
    if exists i :: 0 <= i < |rows| - 1 && Usable(rows[1..][i], ctxs[1..][i], segmentOf) && outcome(ctxs[1..][i].value, rows[1..][i]) == Fails {
      var i :| 0 <= i < |rows| - 1 && Usable(rows[1..][i], ctxs[1..][i], segmentOf) && outcome(ctxs[1..][i].value, rows[1..][i]) == Fails;
      assert rows[1..][i] == rows[i + 1] && ctxs[1..][i] == ctxs[i + 1];
    }
  }

  // ---------------------------------------------------------------------------
  // The whole row loop.

  function Sessions(rows: seq<RowIn>): (r: seq<SessionPath>)
    ensures |r| == |rows| && forall i :: 0 <= i < |rows| ==> r[i] == rows[i].session
  {
    seq(|rows|, i requires 0 <= i < |rows| => rows[i].session)
  }

  /** `operate`'s row loop, as written: a failed reload keeps the previous
      session's values, and `recordList` holds record indices alone.
      `load`, `segmentOf`, `tierOf`, `outcome` and `matches` stand for the
      project, the records, the TextGrid tier lookup, the column-mode
      selection and the regex library; `None` is an exception that ends the
      analysis. */
  function OperateAsWritten(s: Settings, rows: seq<RowIn>, load: SessionPath -> LoadOutcome,
                            segmentOf: (SessionPath, nat) -> Option<Interval>, tierOf: (Context, RowIn) -> TierLookup,
                            outcome: (Context, RowIn) -> RowOutcome, matches: (string, string) -> bool): (r: Option<seq<OutRow>>)
    ensures (exists i :: 0 <= i < |rows| && load(rows[i].session) == NoMedia) ==> r.None?
    ensures SelectMode(s) != ColumnMode ==> (r.Some? <==> forall i :: 0 <= i < |rows| ==> load(rows[i].session) != NoMedia)
  {
    var ctxs := ContextsAsWritten(Sessions(rows), load, NothingLoaded);
    MediaMissingIff(false, Sessions(rows), load, NothingLoaded);
    if MediaMissing(false, Sessions(rows), load, NothingLoaded) then None
    else match SelectMode(s)
    case RecordMode => Some(ListedRows(rows, ctxs, ByRecordIndex, segmentOf, RecordEmit, [], 0))
    case TextGridTierMode =>
      Some(ListedRows(rows, ctxs, ByRecordIndex, segmentOf, TierEmit(tierOf, s.intervalFilter, matches), [], 0))
    case ColumnMode => ColumnRows(rows, ctxs, segmentOf, outcome, 0)
  }

  /** As written, record mode gives at most one row per record index, over
      all sessions of the table. */
  lemma OperateAsWrittenOnePerRecordIndex(s: Settings, rows: seq<RowIn>, load: SessionPath -> LoadOutcome,
                                          segmentOf: (SessionPath, nat) -> Option<Interval>, tierOf: (Context, RowIn) -> TierLookup,
                                          outcome: (Context, RowIn) -> RowOutcome, matches: (string, string) -> bool)
    requires s.useRecordInterval
    ensures var r := OperateAsWritten(s, rows, load, segmentOf, tierOf, outcome, matches);
            r.Some? ==> forall a, b :: 0 <= a < b < |r.value| ==> r.value[a].row.recordIndex != r.value[b].row.recordIndex
  {
    var ctxs := ContextsAsWritten(Sessions(rows), load, NothingLoaded);
    RecordRowsKeysDistinct(rows, ctxs, ByRecordIndex, segmentOf, [], 0);
  }

  /** As written, two sessions that both load in full and both have a
      record 0 with a segment give a single row, for the first session. */
  lemma OperateAsWrittenSkipsSecondSession(s: Settings, tierOf: (Context, RowIn) -> TierLookup,
                                           outcome: (Context, RowIn) -> RowOutcome, matches: (string, string) -> bool)
    requires s.useRecordInterval
    ensures var a, b := SessionPath("c", "a"), SessionPath("c", "b");
            var load := (p: SessionPath) => LoadsAll;
            var seg := (p: SessionPath, i: nat) => Some(Interval(0, 1, ""));
            var r := OperateAsWritten(s, [RowIn(a, 0), RowIn(b, 0)], load, seg, tierOf, outcome, matches);
            r.Some? && |r.value| == 1 && r.value[0].row.session == a
  {
    var a, b := SessionPath("c", "a"), SessionPath("c", "b");
    var load := (p: SessionPath) => LoadsAll;
    var seg := (p: SessionPath, i: nat) => Some(Interval(0, 1, ""));
    var rows := [RowIn(a, 0), RowIn(b, 0)];
    var s1 := LoadStepAsWritten(NothingLoaded, a, load);
    assert s1 == Loader(Some(a), Some(a), Some(a), Some(a));
    var s2 := LoadStepAsWritten(s1, b, load);
    assert s2 == Loader(Some(b), Some(b), Some(b), Some(b));
    var ctxs := ContextsAsWritten(Sessions(rows), load, NothingLoaded);
    assert Sessions(rows) == [a, b];
    assert ContextsAsWritten([a, b], load, NothingLoaded)[1] == ContextsAsWritten([b], load, s1)[0];
    assert ctxs == [Some(Context(a, a, a)), Some(Context(b, b, b))];
    MediaMissingIff(false, Sessions(rows), load, NothingLoaded);
    SecondSessionRecordSkipped();
  }

  /** `operate`'s row loop with the session state reset on every reload and
      `recordList` keyed by session and record; the missing media file still
      ends the analysis. */
  function Operate(s: Settings, rows: seq<RowIn>, load: SessionPath -> LoadOutcome,
                   segmentOf: (SessionPath, nat) -> Option<Interval>, tierOf: (Context, RowIn) -> TierLookup,
                   outcome: (Context, RowIn) -> RowOutcome, matches: (string, string) -> bool): (r: Option<seq<OutRow>>)
    ensures (exists i :: 0 <= i < |rows| && load(rows[i].session) == NoMedia) ==> r.None?
    ensures SelectMode(s) != ColumnMode ==> (r.Some? <==> forall i :: 0 <= i < |rows| ==> load(rows[i].session) != NoMedia)
  {
    var ctxs := Contexts(Sessions(rows), load, NothingLoaded);
    MediaMissingIff(true, Sessions(rows), load, NothingLoaded);
    if MediaMissing(true, Sessions(rows), load, NothingLoaded) then None
    else match SelectMode(s)
    case RecordMode => Some(ListedRows(rows, ctxs, BySessionAndRecord, segmentOf, RecordEmit, [], 0))
    case TextGridTierMode =>
      Some(ListedRows(rows, ctxs, BySessionAndRecord, segmentOf, TierEmit(tierOf, s.intervalFilter, matches), [], 0))
    case ColumnMode => ColumnRows(rows, ctxs, segmentOf, outcome, 0)
  }

  /** Every row the loop produces is analysed with its own session's record,
      TextGrid and sound. */
  lemma OperateUsesOwnSession(s: Settings, rows: seq<RowIn>, load: SessionPath -> LoadOutcome,
                              segmentOf: (SessionPath, nat) -> Option<Interval>, tierOf: (Context, RowIn) -> TierLookup,
                              outcome: (Context, RowIn) -> RowOutcome, matches: (string, string) -> bool)
    ensures var r := Operate(s, rows, load, segmentOf, tierOf, outcome, matches);
            r.Some? ==> forall a :: 0 <= a < |r.value| ==>
              var o := r.value[a];
              load(o.row.session) == LoadsAll && o.context == Context(o.row.session, o.row.session, o.row.session)
  {
    var ctxs := Contexts(Sessions(rows), load, NothingLoaded);
    ContextsUseOwnSession(Sessions(rows), load, NothingLoaded);
    var r := Operate(s, rows, load, segmentOf, tierOf, outcome, matches);
    match SelectMode(s)
    case RecordMode => ListedRowsFromInput(rows, ctxs, BySessionAndRecord, segmentOf, RecordEmit, [], 0);
    case TextGridTierMode =>
      ListedRowsFromInput(rows, ctxs, BySessionAndRecord, segmentOf, TierEmit(tierOf, s.intervalFilter, matches), [], 0);
    case ColumnMode => ColumnRowsFromInput(rows, ctxs, segmentOf, outcome, 0);
    if r.Some? {
      forall a | 0 <= a < |r.value|
        ensures var o := r.value[a]; load(o.row.session) == LoadsAll && o.context == Context(o.row.session, o.row.session, o.row.session)
      {
        var o := r.value[a];
        assert RowFrom(o, rows, ctxs, 0);
        assert Sessions(rows)[o.pos] == o.row.session;
      }
    }
  }

  /** In record mode every record of every session that loads in full and
      has a segment gets exactly one row. */
  lemma OperateRecordModeOnePerRecord(s: Settings, rows: seq<RowIn>, load: SessionPath -> LoadOutcome,
                                      segmentOf: (SessionPath, nat) -> Option<Interval>, tierOf: (Context, RowIn) -> TierLookup,
                                      outcome: (Context, RowIn) -> RowOutcome, matches: (string, string) -> bool)
    requires s.useRecordInterval
    ensures var o := Operate(s, rows, load, segmentOf, tierOf, outcome, matches);
            var r := if o.Some? then o.value else [];
            o.Some? ==>
            && (forall a, b :: 0 <= a < b < |r| ==> r[a].row != r[b].row)
            && (forall i :: 0 <= i < |rows| && load(rows[i].session) == LoadsAll
                             && segmentOf(rows[i].session, rows[i].recordIndex).Some? ==>
                  exists a :: 0 <= a < |r| && r[a].row == rows[i])
  {
    var ctxs := Contexts(Sessions(rows), load, NothingLoaded);
    ContextsUseOwnSession(Sessions(rows), load, NothingLoaded);
    var r := ListedRows(rows, ctxs, BySessionAndRecord, segmentOf, RecordEmit, [], 0);
    RecordRowsKeysDistinct(rows, ctxs, BySessionAndRecord, segmentOf, [], 0);
    RecordModeCoversEveryRecord(rows, ctxs, segmentOf);
    forall i | 0 <= i < |rows| && load(rows[i].session) == LoadsAll && segmentOf(rows[i].session, rows[i].recordIndex).Some?
      ensures Usable(rows[i], ctxs[i], segmentOf)
    {
      assert Sessions(rows)[i] == rows[i].session;
    }
  }

  /** An output row's interval is one its mode gave for its row. */
  ghost predicate Emitted(o: OutRow, segmentOf: (SessionPath, nat) -> Option<Interval>,
                          emit: (Context, RowIn, Interval) -> Option<seq<Interval>>) {
    var seg := segmentOf(o.context.record, o.row.recordIndex);
    seg.Some? && emit(o.context, o.row, seg.value).Some? && o.interval in emit(o.context, o.row, seg.value).value
  }

  ghost predicate AllEmitted(r: seq<OutRow>, segmentOf: (SessionPath, nat) -> Option<Interval>,
                             emit: (Context, RowIn, Interval) -> Option<seq<Interval>>) {
    forall a :: 0 <= a < |r| ==> Emitted(r[a], segmentOf, emit)
  }

  lemma {:induction false} ListedRowsEmitted(rows: seq<RowIn>, ctxs: seq<Option<Context>>, kind: KeyKind,
                                             segmentOf: (SessionPath, nat) -> Option<Interval>,
                                             emit: (Context, RowIn, Interval) -> Option<seq<Interval>>,
                                             seen: seq<RowKey>, pos: nat)
    requires |ctxs| == |rows|
    ensures AllEmitted(ListedRows(rows, ctxs, kind, segmentOf, emit, seen, pos), segmentOf, emit)
    decreases |rows|
  {
    if rows != [] {
      var r := ListedRows(rows, ctxs, kind, segmentOf, emit, seen, pos);
      var head := HeadRows(rows, ctxs, kind, segmentOf, emit, seen, pos);
      var seen' := SeenAfter(rows, ctxs, kind, segmentOf, emit, seen);
      var rest := ListedRows(rows[1..], ctxs[1..], kind, segmentOf, emit, seen', pos + 1);
      ListedRowsUnfold(rows, ctxs, kind, segmentOf, emit, seen, pos);
      ListedRowsEmitted(rows[1..], ctxs[1..], kind, segmentOf, emit, seen', pos + 1);
      forall a | 0 <= a < |r| ensures Emitted(r[a], segmentOf, emit) {
        if a >= |head| {
          assert r[a] == rest[a - |head|];
        } else {
          assert r[a] == head[a];
        }
      }
    }
  }

  /** In TextGrid-tier mode every row is an interval of its record's named
      tier whose label passes the filter, and all rows of one record of one
      session come from a single result row. */
  lemma OperateTierModeRows(s: Settings, rows: seq<RowIn>, load: SessionPath -> LoadOutcome,
                            segmentOf: (SessionPath, nat) -> Option<Interval>, tierOf: (Context, RowIn) -> TierLookup,
                            outcome: (Context, RowIn) -> RowOutcome, matches: (string, string) -> bool)
    requires !s.useRecordInterval && s.useTextGridInterval
    ensures var o := Operate(s, rows, load, segmentOf, tierOf, outcome, matches);
            var r := if o.Some? then o.value else [];
            o.Some? ==>
            && (forall a :: 0 <= a < |r| ==>
                  tierOf(r[a].context, r[a].row).IntervalsOf?
                  && r[a].interval in tierOf(r[a].context, r[a].row).intervals
                  && CheckFilter(s.intervalFilter, r[a].interval.text, matches))
            && (forall a, b :: 0 <= a < |r| && 0 <= b < |r| && r[a].row == r[b].row ==> r[a].pos == r[b].pos)
  {
    var ctxs := Contexts(Sessions(rows), load, NothingLoaded);
    var emit := TierEmit(tierOf, s.intervalFilter, matches);
    var r := ListedRows(rows, ctxs, BySessionAndRecord, segmentOf, emit, [], 0);
    ListedRowsEmitted(rows, ctxs, BySessionAndRecord, segmentOf, emit, [], 0);
    ListedRowsOnePositionPerKey(rows, ctxs, BySessionAndRecord, segmentOf, emit, [], 0);
    assert Operate(s, rows, load, segmentOf, tierOf, outcome, matches).Some? ==>
             Operate(s, rows, load, segmentOf, tierOf, outcome, matches) == Some(r);
    assert AllEmitted(r, segmentOf, emit);
    forall a | 0 <= a < |r|
      ensures tierOf(r[a].context, r[a].row).IntervalsOf?
              && r[a].interval in tierOf(r[a].context, r[a].row).intervals
              && CheckFilter(s.intervalFilter, r[a].interval.text, matches)
    {
      var o := r[a];
      assert Emitted(o, segmentOf, emit);
      var seg := segmentOf(o.context.record, o.row.recordIndex).value;
      var t := tierOf(o.context, o.row);
      assert emit(o.context, o.row, seg) == if t.IntervalsOf? then Some(FilterIntervals(t.intervals, s.intervalFilter, matches)) else None;
    }
  }
}
