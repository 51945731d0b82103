# phon-praat-plugin core, modelled in Dafny

This project models the parts of the Phon–Praat plugin that decide which TextGrid intervals belong to which parts of a
Phon session, where TextGrids live and how changes to them are reported, which interval an analysis row is measured
over, and when the TextGrid viewer lets a TextGrid be edited while Praat has it.

- `textgrid.dfy` (module `TextGrids`): the part of Praat's TextGrid object the plugin reads. Tiers are numbered from 1,
  and interval tiers hold labelled intervals. It also holds the two lookups `findIntervalForText` and
  `findTextGridIntervalTier`.
- `alignment.dfy` (module `Alignment`): the cursor walk that `TextGridAnnotator` repeats at every level:
  - each unit takes the first interval after the cursor whose trimmed label is the unit's text;
  - the cursor moves to that interval;
  - a miss either ends the level or is skipped.
- `annotator.dfy` (module `Annotator`): `annotateRecord`, `annotateTier` and the per-type tier annotators.
  - Orthography, IPA and free-text tiers are sequences of groups, words, syllables and elements. Each element has a
    kind: phone, stress marker, word boundary or syllable boundary.
  - The result is the interval attached to each part.
  - `inferInterval` fills in levels whose companion tier is missing.
- `manager.dfy` (module `Manager`): the `TextGridManager` file layout and the watcher's file-name decoding and
  event classification. It also covers the listener list, the event fan-out and how loading and saving report
  failures.
- `praatnode.dfy` (module `PraatNodes`): the analysis node.
  - the media-name rewrite and the settings round trip;
  - the choice of mode and the interval filter;
  - `getTextInterval` and the mapping from a result's character range to whole elements or words;
  - the per-row session state and the "each record once" list;
  - the whole row loop of `operate`, as pure functions, both as written and with the findings below corrected.
- `viewer.dfy` (module `Viewer`): the TextGrid viewer's lock protocol with Praat.
  - The state is the server map, the running servers, the content pane's enabled flag, the current TextGrid name
    and the force-unlock buttons.
  - Opening, showing, force unlock and Praat's reply are events.
- `base.dfy` (module `Base`): `Option`, Java's `trim`, `lastIndexOf`, ASCII case folding and counting helpers.

Interval times are integers, since the code only copies and compares them. Praat, the file system, the regex
library, the TCP servers and the session store are parameters of the functions that use them.

## Model

| member | source | states |
|---|---|---|
| TextGrids.FindIntervalForText | src/main/java/ca/phon/plugins/praat/TextGridAnnotator.java:303-311 | the result is -1 or an index from `fromIndex` to the interval count; a returned index's trimmed label equals the text; no earlier index in range matches, and none at all when -1 |
| TextGrids.FindIntervalTierFrom | src/main/java/ca/phon/plugins/praat/TextGridAnnotator.java:290-300 | the first interval tier, at or after the start, that has the given name; point tiers are passed over |
| TextGrids.FindTextGridIntervalTier | src/main/java/ca/phon/plugins/praat/TextGridAnnotator.java:288-301 | found exactly when some interval tier is named `"<tier>: <classifier>"` |
| Alignment.AlignUnitsMatchesLabels | src/main/java/ca/phon/plugins/praat/TextGridAnnotator.java:72-78 | every match of a level walk lies after the start cursor and at or before the final cursor, names an existing interval, and that interval's trimmed label is the unit's text |
| Alignment.AlignUnitsIncreasing | src/main/java/ca/phon/plugins/praat/TextGridAnnotator.java:90-99 | matched interval indices strictly increase in unit order |
| Alignment.AlignUnitsPointwise | src/main/java/ca/phon/plugins/praat/TextGridAnnotator.java:72-83 | each unit gets exactly the first interval after the last match (else the start) whose trimmed label is its text; when the level stops on a miss, every later unit gets nothing |
| Alignment.StopMissEndsLevel | src/main/java/ca/phon/plugins/praat/TextGridAnnotator.java:79-83 | when the level stops on a miss, a unit without a match is followed only by units without one |
| Alignment.AlignGroupsMatchesLabels | src/main/java/ca/phon/plugins/praat/TextGridAnnotator.java:90-105 | nested walk (one cursor across groups): every match lies after the start cursor and at or before the final cursor, and names an interval labelled with the unit's text |
| Alignment.AlignGroupsIncreasing | src/main/java/ca/phon/plugins/praat/TextGridAnnotator.java:90-105 | nested walk: matches strictly increase within a group, and every match of an earlier group precedes every match of a later one |
| Alignment.SkipWalkAppend | src/main/java/ca/phon/plugins/praat/TextGridAnnotator.java:95-104 | a skipping walk over `a + b` is the walk over `a` followed by the walk over `b` from where it ended |
| Alignment.SkipGroupsIsOneWalk | src/main/java/ca/phon/plugins/praat/TextGridAnnotator.java:89-106 | the per-group word (or syllable) walk with its carried cursor matches exactly like one walk over all units in order |
| Alignment.MatchedStartsIncrease | src/main/java/ca/phon/plugins/praat/TextGridAnnotator.java:72-78 | in a well-formed tier, a unit matched earlier gets an interval that starts strictly earlier |
| Alignment.RepeatedLabelBindsLaterOccurrence | src/main/java/ca/phon/plugins/praat/TextGridAnnotator.java:96-99 | two units with the same label take the first and the second interval that carries it |
| Annotator.FullTierInterval | src/main/java/ca/phon/plugins/praat/TextGridAnnotator.java:61-67 | found exactly when the `"Tier"` companion exists and some interval's trimmed label equals the whole tier text; the interval carries that label |
| Annotator.StopLevel | src/main/java/ca/phon/plugins/praat/TextGridAnnotator.java:70-85 | one entry per group; nothing without the companion tier; an attached interval's trimmed label is the group's text |
| Annotator.StopLevelStopsAtFirstMiss | src/main/java/ca/phon/plugins/praat/TextGridAnnotator.java:79-83 | once a group gets no interval, no later group gets one |
| Annotator.StopLevelInOrder | src/main/java/ca/phon/plugins/praat/TextGridAnnotator.java:72-78 | in a well-formed companion tier, a later group's interval starts strictly later |
| Annotator.NestedLevel | src/main/java/ca/phon/plugins/praat/TextGridAnnotator.java:88-106 | one entry per word of every group; nothing without the companion tier; an attached interval's trimmed label is the unit's text |
| Annotator.NestedLevelInOrder | src/main/java/ca/phon/plugins/praat/TextGridAnnotator.java:90-99 | a unit of an earlier group, or an earlier unit of the same group, gets an interval that starts strictly earlier |
| Annotator.AnnotateTextLikeTier | src/main/java/ca/phon/plugins/praat/TextGridAnnotator.java:59-107 | orthography and free-text tiers: the whole-tier, group and word intervals carry, as trimmed labels, the tier, group and word texts; the result has the tier's group and word shape |
| Annotator.ElementMatches | src/main/java/ca/phon/plugins/praat/TextGridAnnotator.java:123-143 | one match slot per element of every group; stress, word-boundary and syllable-boundary markers are never matched |
| Annotator.ElementMatchesSound | src/main/java/ca/phon/plugins/praat/TextGridAnnotator.java:129-137 | a group's element matches strictly increase and name intervals labelled with the phone's text, prefixed by the stress marker just before it |
| Annotator.ScatterIncreasing | src/main/java/ca/phon/plugins/praat/TextGridAnnotator.java:129-137 | spreading strictly increasing phone matches over a group's elements keeps them strictly increasing |
| Annotator.ScatterFromMatches | src/main/java/ca/phon/plugins/praat/TextGridAnnotator.java:129-137 | spreading a group's phone matches over its elements, markers included, introduces no interval that was not matched |
| Annotator.PhoneLevel | src/main/java/ca/phon/plugins/praat/TextGridAnnotator.java:119-144 | one slot per element; markers get nothing; nothing without the `"Phone"` companion tier |
| Annotator.PhoneLevelSound | src/main/java/ca/phon/plugins/praat/TextGridAnnotator.java:129-137 | a phone's interval carries its stress-prefixed text as trimmed label, and a later phone of the group starts strictly later in a well-formed tier |
| Annotator.PhoneLevelOrdered | src/main/java/ca/phon/plugins/praat/TextGridAnnotator.java:134-141 | the phone intervals of a group are the stamped element matches, which are ordered and never on a marker |
| Annotator.InferInterval | src/main/java/ca/phon/plugins/praat/TextGridAnnotator.java:269-286 | an interval is inferred exactly when the transcript is non-empty, is not just a stress marker, and its first element (past a leading stress marker) and last element carry intervals; it runs from the first one's start to the last one's end and is labelled with the transcript text |
| Annotator.InferredCoversPhones | src/main/java/ca/phon/plugins/praat/TextGridAnnotator.java:269-286 | over phones aligned to a well-formed tier, an inferred interval is non-empty and contains the interval of every annotated element |
| Annotator.SliceInferenceCovers | src/main/java/ca/phon/plugins/praat/TextGridAnnotator.java:185-192 | an interval inferred over a word or syllable slice of a group is non-empty and contains the interval of every phone of the slice |
| Annotator.IpaGroupLevel | src/main/java/ca/phon/plugins/praat/TextGridAnnotator.java:146-166 | with a `"Group"` tier, group intervals carry the group text as trimmed label; without one, each group's entry is the interval inferred from that group's phone intervals |
| Annotator.IpaSpanLevel | src/main/java/ca/phon/plugins/praat/TextGridAnnotator.java:168-218 | words and syllables: one entry per span; matched against the companion tier when present, with the span's text as trimmed label; without it, each entry is the interval inferred from the phone intervals of that span |
| Annotator.InferredGroupsCoverPhones | src/main/java/ca/phon/plugins/praat/TextGridAnnotator.java:162-166 | without a group tier, an inferred group interval is non-empty and contains every phone interval of the group |
| Annotator.InferredSpansCoverPhones | src/main/java/ca/phon/plugins/praat/TextGridAnnotator.java:185-192 | without a word (syllable) tier, an inferred word (syllable) interval is non-empty and contains every phone interval inside it |
| Annotator.AnnotateIpaTier | src/main/java/ca/phon/plugins/praat/TextGridAnnotator.java:109-219 | IPA tiers: the whole-tier interval carries the tier text; the result has the tier's group, element, word and syllable shape; markers never get a phone interval; the phones are the phone level; groups, words and syllables carry their own text as label when matched against their companion tier, and without that tier each is the interval inferred from the phone intervals it spans |
| Annotator.AnnotateTier | src/main/java/ca/phon/plugins/praat/TextGridAnnotator.java:47-57 | orthography and free-text tiers get exactly the text annotator's result and IPA tiers exactly the IPA annotator's; any other declared type is left alone |
| Annotator.AnnotateRecord | src/main/java/ca/phon/plugins/praat/TextGridAnnotator.java:34-44 | orthography gets the text annotator's result, IPA actual and IPA target the IPA annotator's; of the extra tiers, exactly the free-text ones are annotated, each as the tier dispatch does |
| Annotator.AnnotateExtraTier | src/main/java/ca/phon/plugins/praat/TextGridAnnotator.java:39-43 | an extra tier is annotated exactly when its declared type is free text, and then as any tier of that type |
| Annotator.AnnotateExtraTiers | src/main/java/ca/phon/plugins/praat/TextGridAnnotator.java:39-43 | every extra tier keeps its position; exactly the free-text ones are annotated |
| Manager.TextGridPath | src/main/java/ca/phon/plugins/praat/TextGridManager.java:177-191 | the path starts with the project location and ends with `corpus_session_recordId.TextGrid` |
| Manager.DecodeFileName | src/main/java/ca/phon/plugins/praat/TextGridManager.java:281-288 | a decoded key has an underscore-free, non-empty corpus and session and a record id `u` followed by digits |
| Manager.DecodeFileNameSound | src/main/java/ca/phon/plugins/praat/TextGridManager.java:281-288 | a decoded key rebuilds exactly the file name it was decoded from |
| Manager.DecodeFileNameComplete | src/main/java/ca/phon/plugins/praat/TextGridManager.java:281-288 | the file name of every well-formed key decodes back to that key |
| Manager.DecodeFileNameIff | src/main/java/ca/phon/plugins/praat/TextGridManager.java:281-288 | a name decodes to a key exactly when the key is well-formed and names that file |
| Manager.UnderscoreCorpusIsNotReported | src/main/java/ca/phon/plugins/praat/TextGridManager.java:281-285 | a TextGrid saved for a corpus whose name holds `_` is not recognised by the watcher |
| Manager.LastComponent | src/main/java/ca/phon/plugins/praat/TextGridManager.java:276-277 | the file name is a separator-free suffix of the path |
| Manager.LastComponentOfPath | src/main/java/ca/phon/plugins/praat/TextGridManager.java:177-191 | the file name of a TextGrid path is the key's file name |
| Manager.SavedFileIsReported | src/main/java/ca/phon/plugins/praat/TextGridManager.java:177-191 | for a well-formed key and a separator absent from corpus and session, the watcher decodes the saved path's file name back to the key |
| Manager.ClassifyKind | src/main/java/ca/phon/plugins/praat/TextGridManager.java:290-296 | created means added and deleted means removed; everything else is changed |
| Manager.DecodeWatchEvent | src/main/java/ca/phon/plugins/praat/TextGridManager.java:268-300 | an event is reported exactly when it is not an overflow, has a path context and the file name decodes; the report carries the decoded key and the classified kind |
| Manager.DecodeWatchEvents | src/main/java/ca/phon/plugins/praat/TextGridManager.java:268-307 | every reported event comes from some polled event, and every polled event that decodes is reported |
| Manager.DecodeWatchEventsAppend | src/main/java/ca/phon/plugins/praat/TextGridManager.java:274-305 | events are reported in the order they were polled: a batch's report is its first part's report followed by the rest's |
| Manager.DecodeWatchEventsSingle | src/main/java/ca/phon/plugins/praat/TextGridManager.java:274-305 | one polled event is reported exactly when it decodes, as what it decodes to |
| Manager.AddListener | src/main/java/ca/phon/plugins/praat/TextGridManager.java:198-206 | a listener already present changes nothing; a new one is appended, and the watcher starts when it is the first |
| Manager.RemoveFirst | src/main/java/ca/phon/plugins/praat/TextGridManager.java:209 | `List.remove` drops one occurrence if there is one and keeps the rest |
| Manager.RemoveListener | src/main/java/ca/phon/plugins/praat/TextGridManager.java:208-213 | the first occurrence of the listener is removed from the list, and the watcher is asked to stop exactly when the list becomes empty |
| Manager.AddListenerKeepsInvariant | src/main/java/ca/phon/plugins/praat/TextGridManager.java:198-206 | adding keeps the list duplicate-free and the watcher running exactly while the list is non-empty |
| Manager.RemoveListenerKeepsInvariant | src/main/java/ca/phon/plugins/praat/TextGridManager.java:208-213 | removing keeps that invariant, and the listener is gone afterwards |
| Manager.AddThenRemove | src/main/java/ca/phon/plugins/praat/TextGridManager.java:198-213 | adding a new listener and removing it again restores the state |
| Manager.Fire | src/main/java/ca/phon/plugins/praat/TextGridManager.java:219-223 | listeners receive the event in list order, one delivery per list entry |
| Manager.FireDeliversOnce | src/main/java/ca/phon/plugins/praat/TextGridManager.java:198-223 | with the add/remove invariant, each registered listener receives the event exactly once and others never |
| Manager.LoadFile | src/main/java/ca/phon/plugins/praat/TextGridManager.java:152-166 | a file loads exactly when it reads and parses; read and parse failures are both I/O failures |
| Manager.LoadRecordGrid | src/main/java/ca/phon/plugins/praat/TextGridManager.java:84-96 | a record's TextGrid is the parsed content of its path, and null on any failure |
| Manager.SaveRecordGrid | src/main/java/ca/phon/plugins/praat/TextGridManager.java:109-122 | saving reports true exactly when writing to the record's path succeeds |
| PraatNodes.MediaName | src/main/java/ca/phon/plugins/praat/opgraph/PraatNode.java:74-81 | a name is kept exactly when it ends in `.wav` or has no dot past its first character; otherwise its last extension is replaced by `.wav`, keeping everything before the last dot |
| PraatNodes.MediaNameIdempotent | src/main/java/ca/phon/plugins/praat/opgraph/PraatNode.java:74-81 | rewriting twice gives the same name as rewriting once |
| PraatNodes.ParseBoolean | src/main/java/ca/phon/plugins/praat/opgraph/PraatNode.java:589-593 | true exactly for "true" in any letter case |
| PraatNodes.ParseBooleanRoundTrip | src/main/java/ca/phon/plugins/praat/opgraph/PraatNode.java:578-593 | parsing `Boolean.toString(b)` gives `b` |
| PraatNodes.GetSettings | src/main/java/ca/phon/plugins/praat/opgraph/PraatNode.java:575-585 | the properties hold exactly the six setting keys |
| PraatNodes.LoadSettings | src/main/java/ca/phon/plugins/praat/opgraph/PraatNode.java:587-595 | a missing key gives its default (false, false, "", "", true, "IPA Actual"); present string keys are copied |
| PraatNodes.SettingsRoundTrip | src/main/java/ca/phon/plugins/praat/opgraph/PraatNode.java:575-595 | loading saved settings restores them |
| PraatNodes.EmptyPropertiesGiveDefaults | src/main/java/ca/phon/plugins/praat/opgraph/PraatNode.java:587-595 | empty properties give the default settings |
| PraatNodes.SelectMode | src/main/java/ca/phon/plugins/praat/opgraph/PraatNode.java:202-233 | record mode exactly when `useRecordInterval`; TextGrid-tier mode exactly when only `useTextGridInterval`; column mode otherwise |
| PraatNodes.ModeIgnoresUseColumnInterval | src/main/java/ca/phon/plugins/praat/opgraph/PraatNode.java:202-233 | the `useColumnInterval` setting never changes the mode |
| PraatNodes.CheckFilter | src/main/java/ca/phon/plugins/praat/opgraph/PraatNode.java:406-413 | with a non-blank filter, an interval passes exactly when its label matches the filter |
| PraatNodes.BlankFilterAcceptsAll | src/main/java/ca/phon/plugins/praat/opgraph/PraatNode.java:406-413 | a filter made only of characters `trim` removes accepts every label |
| PraatNodes.GetTextInterval | src/main/java/ca/phon/plugins/praat/opgraph/PraatNode.java:88-144 | an attached interval wins; otherwise there is one exactly when the first and last parts (elements, phones or words) carry intervals, and it spans from the first's start to the last's end, unlabelled |
| PraatNodes.OrthographyStartElement | src/main/java/ca/phon/plugins/praat/opgraph/PraatNode.java:281-297 | the start element is found exactly when some element begins at the range's first character, and it is that element |
| PraatNodes.OrthographyEndElement | src/main/java/ca/phon/plugins/praat/opgraph/PraatNode.java:298-311 | the end element is found exactly when some element from the start element on ends at the range's last character, and it is that element |
| PraatNodes.FindAlignedRange | src/main/java/ca/phon/plugins/praat/opgraph/PraatNode.java:281-311 | the elements found are the unique pair starting at the range's first character and ending at its last, whenever such a pair exists |
| PraatNodes.OrthographyRowIntervalAsWritten | src/main/java/ca/phon/plugins/praat/opgraph/PraatNode.java:273-328 | the whole range gives the group's interval; otherwise a row is emitted exactly when the range starts and ends on element boundaries whose elements carry intervals, spanning those elements; the analysis throws exactly when no elements cover the range and the fallback `substring` throws |
| PraatNodes.OrthographyPastEndFails | src/main/java/ca/phon/plugins/praat/opgraph/PraatNode.java:273-328 | the group "a" with the range 2..2 meets every condition under which the orthography row throws |
| PraatNodes.JoinRange | src/main/java/ca/phon/plugins/praat/opgraph/PraatNode.java:312-313 | the characters from element k's start to element j's end are exactly the text of the elements k..j |
| PraatNodes.AlignedRangeUnique | src/main/java/ca/phon/plugins/praat/opgraph/PraatNode.java:281-311 | at most one pair of elements starts and ends a character range |
| PraatNodes.FallbackTextAsWritten | src/main/java/ca/phon/plugins/praat/opgraph/PraatNode.java:315-321 | as written, the fallback text throws exactly for a forward range that starts past the end of the text |
| PraatNodes.FallbackPastEndThrows | src/main/java/ca/phon/plugins/praat/opgraph/PraatNode.java:315-321 | the range 2..2 of "a" throws |
| PraatNodes.FallbackText | src/main/java/ca/phon/plugins/praat/opgraph/PraatNode.java:315-321 | with the begin clamped too, the fallback never throws, equals the code's result wherever the code does not throw, and is the plain substring for an in-bounds range |
| PraatNodes.SubsectionInterval | src/main/java/ca/phon/plugins/praat/opgraph/PraatNode.java:312-313 | a subsection of elements k..j has an interval exactly when elements k and j do, spanning from k's start to j's end |
| PraatNodes.OrthographyRowInterval | src/main/java/ca/phon/plugins/praat/opgraph/PraatNode.java:273-328 | corrected: with the begin index of the fallback clamped, the outcomes are those of the code except that a range starting past the text yields no row; orthography never throws |
| PraatNodes.IpaRowInterval | src/main/java/ca/phon/plugins/praat/opgraph/PraatNode.java:329-340 | the whole range gives the transcript's interval; an empty range gives no row; a range whose phone indices fall outside the transcript throws; otherwise the row spans the selected phones |
| PraatNodes.TextIntervalAgreesWithInference | src/main/java/ca/phon/plugins/praat/opgraph/PraatNode.java:106-121 | when only phones carry intervals, the node's interval for a transcript spans exactly what the annotator's inference gives |
| PraatNodes.TierStringStartWord | src/main/java/ca/phon/plugins/praat/opgraph/PraatNode.java:347-359 | a found start word begins at the range's first character and, for ordered words, is the only one that does |
| PraatNodes.TierStringEndWord | src/main/java/ca/phon/plugins/praat/opgraph/PraatNode.java:360-372 | a found end word ends at the range's last character and, for ordered words, is the only one from the start word on that does |
| PraatNodes.CopiedWordIntervals | src/main/java/ca/phon/plugins/praat/opgraph/PraatNode.java:374-382 | word w of the new text gets the interval of source word start+w while both exist, and nothing otherwise |
| PraatNodes.TierStringRowInterval | src/main/java/ca/phon/plugins/praat/opgraph/PraatNode.java:341-384 | the whole range gives the value's interval; an out-of-bounds range throws; an emitted row starts at an aligned word's start; for ordered words, an aligned word range whose copy has matching word count emits that span |
| PraatNodes.LoadStepAsWritten | src/main/java/ca/phon/plugins/praat/opgraph/PraatNode.java:171-183 | as written, the session name is always recorded, and a failing load leaves the previous session's values in place |
| PraatNodes.ContextsAsWritten | src/main/java/ca/phon/plugins/praat/opgraph/PraatNode.java:168-184 | one context per row |
| PraatNodes.StaleTextGridUsed | src/main/java/ca/phon/plugins/praat/opgraph/PraatNode.java:171-184 | when session b's TextGrid fails to load after session a loaded, b's rows are measured with a's TextGrid and sound |
| PraatNodes.LoadStep | src/main/java/ca/phon/plugins/praat/opgraph/PraatNode.java:171-183 | with values reset on reload, the session name is always recorded |
| PraatNodes.LoadStepConsistent | src/main/java/ca/phon/plugins/praat/opgraph/PraatNode.java:171-184 | a row proceeds exactly when its session loaded completely, and then with that session's record, TextGrid and sound |
| PraatNodes.ContextsUseOwnSession | src/main/java/ca/phon/plugins/praat/opgraph/PraatNode.java:168-184 | the same for every row of the table |
| PraatNodes.Listing | src/main/java/ca/phon/plugins/praat/opgraph/PraatNode.java:184-219 | a listed row has a context and a key not listed before |
| PraatNodes.ListedRowsFromInput | src/main/java/ca/phon/plugins/praat/opgraph/PraatNode.java:168-231 | every output row comes from the input row at its position, with that row's context |
| PraatNodes.ListedRowsKeysUnseen | src/main/java/ca/phon/plugins/praat/opgraph/PraatNode.java:203-219 | no output row has a key that was already listed |
| PraatNodes.ListedRowsOnePositionPerKey | src/main/java/ca/phon/plugins/praat/opgraph/PraatNode.java:211-231 | all output rows with one key come from a single input row |
| PraatNodes.RecordRowsKeysDistinct | src/main/java/ca/phon/plugins/praat/opgraph/PraatNode.java:202-210 | record mode lists each key at most once |
| PraatNodes.RecordRowsComplete | src/main/java/ca/phon/plugins/praat/opgraph/PraatNode.java:202-210 | record mode lists the key of every row with a context and a segment |
| PraatNodes.SecondSessionRecordSkipped | src/main/java/ca/phon/plugins/praat/opgraph/PraatNode.java:203-207 | keyed by record index alone, record 0 of session b is dropped after record 0 of session a |
| PraatNodes.RecordModeCoversEveryRecord | src/main/java/ca/phon/plugins/praat/opgraph/PraatNode.java:202-210 | keyed by session and record, every row with a context and a segment has an output row |
| PraatNodes.FilterIntervals | src/main/java/ca/phon/plugins/praat/opgraph/PraatNode.java:221-228 | exactly the tier's intervals that pass the filter |
| PraatNodes.ColumnRows | src/main/java/ca/phon/plugins/praat/opgraph/PraatNode.java:233-395 | column mode fails exactly when some row with a context and a segment throws; otherwise at most one output row per input row |
| PraatNodes.ColumnRowsFromInput | src/main/java/ca/phon/plugins/praat/opgraph/PraatNode.java:233-395 | every column-mode output row comes from its input row, with that row's context |
| PraatNodes.Operate | src/main/java/ca/phon/plugins/praat/opgraph/PraatNode.java:147-404 | corrected: the row loop with the session state reset on reload and `recordList` keyed by session and record; a missing media file still ends it, so, for a blank or valid filter and no cancel, record and TextGrid-tier modes produce a table exactly when every row's session has a media file |
| PraatNodes.OperateAsWritten | src/main/java/ca/phon/plugins/praat/opgraph/PraatNode.java:147-404 | as written: the row loop with stale session values and record-index keys; a session with no media file throws the uncaught exception of line 178, so no mode produces a table then; for a blank or valid filter, no cancel, and record indices valid in whichever session the loop holds, record and TextGrid-tier modes produce one otherwise |
| PraatNodes.MediaMissingIff | src/main/java/ca/phon/plugins/praat/opgraph/PraatNode.java:168-183 | the reload that meets a missing media file happens exactly when some row's session has none, in both loops |
| PraatNodes.OperateAsWrittenOnePerRecordIndex | src/main/java/ca/phon/plugins/praat/opgraph/PraatNode.java:202-210 | as written, record mode gives at most one row per record index across all sessions |
| PraatNodes.OperateAsWrittenSkipsSecondSession | src/main/java/ca/phon/plugins/praat/opgraph/PraatNode.java:202-210 | as written, record 0 of a second session gets no row once record 0 of the first has one |
| PraatNodes.OperateUsesOwnSession | src/main/java/ca/phon/plugins/praat/opgraph/PraatNode.java:168-395 | corrected: every output row's session loaded completely, and the row is measured with that session's record, TextGrid and sound |
| PraatNodes.OperateRecordModeOnePerRecord | src/main/java/ca/phon/plugins/praat/opgraph/PraatNode.java:202-210 | corrected: when it produces a table, record mode gives each record of each session at most one row, and one for every row whose session loaded and whose record has a segment |
| PraatNodes.OperateTierModeRows | src/main/java/ca/phon/plugins/praat/opgraph/PraatNode.java:211-231 | corrected: when a table is produced, TextGrid-tier mode rows are intervals of the named interval tier that pass the filter, and all rows of one record come from one result row |
| Viewer.Initial | src/main/java/ca/phon/plugins/praat/TextGridViewer.java:163-178 | a new viewer is unlocked with no servers, and has a current TextGrid exactly when the default one loaded |
| Viewer.Lock | src/main/java/ca/phon/plugins/praat/TextGridViewer.java:459-473 | locking disables the pane and adds one force-unlock button for the TextGrid |
| Viewer.Unlock | src/main/java/ca/phon/plugins/praat/TextGridViewer.java:494-500 | unlocking enables the pane and removes every button |
| Viewer.Show | src/main/java/ca/phon/plugins/praat/TextGridViewer.java:378-398 | a TextGrid that does not load changes nothing; one that loads is displayed and made current, and the pane is locked exactly when a server waits for it |
| Viewer.Open | src/main/java/ca/phon/plugins/praat/TextGridViewer.java:405-457 | without audio, while locked, or without a segment nothing changes; the current name (else the default) is sent; success locks and registers the server under it; failure unlocks and drops the name |
| Viewer.StopServer | src/main/java/ca/phon/plugins/praat/TextGridViewer.java:480-486 | the name's server, if any, is stopped and forgotten; a missing server is no error |
| Viewer.ForceUnlockAsWritten | src/main/java/ca/phon/plugins/praat/TextGridViewer.java:475-492 | as written, force unlock always enables the pane, stops and forgets the server of the button's TextGrid, removes that button, and keeps every other server, the current TextGrid, the display and the store |
| Viewer.ScriptFinishedAsWritten | src/main/java/ca/phon/plugins/praat/TextGridViewer.java:890-916 | as written, the reply drops its TextGrid and unlocks whatever else is true; only a saved hand-off changes the store; the display changes only for the current TextGrid; it throws exactly when a saved hand-off meets no current TextGrid |
| Viewer.ForceUnlock | src/main/java/ca/phon/plugins/praat/TextGridViewer.java:475-492 | corrected: the button's server is stopped and forgotten and every other server kept, and the pane is enabled exactly when the displayed TextGrid has no waiting server |
| Viewer.ScriptFinished | src/main/java/ca/phon/plugins/praat/TextGridViewer.java:890-916 | corrected: the server and its TextGrid are dropped; the pane is enabled exactly when the displayed TextGrid has no waiting server; a saved hand-off is stored, and displayed exactly when its TextGrid is current |
| Viewer.InitialInv | src/main/java/ca/phon/plugins/praat/TextGridViewer.java:163-178 | a new viewer satisfies the lock invariant |
| Viewer.ShowKeepsInv | src/main/java/ca/phon/plugins/praat/TextGridViewer.java:383-392 | showing keeps the lock invariant |
| Viewer.OpenNeverReplacesServer | src/main/java/ca/phon/plugins/praat/TextGridViewer.java:439-452 | under the invariant, sending keeps every waiting server's entry and keeps the invariant |
| Viewer.ForceUnlockKeepsInv | src/main/java/ca/phon/plugins/praat/TextGridViewer.java:475-486 | corrected force unlock keeps the invariant |
| Viewer.ScriptFinishedKeepsInv | src/main/java/ca/phon/plugins/praat/TextGridViewer.java:891-892 | the corrected reply keeps the invariant |
| Viewer.TwoSentLocked | src/main/java/ca/phon/plugins/praat/TextGridViewer.java:378-457 | showing and sending x, then y, then showing x again leaves x locked with both servers registered |
| Viewer.ReplyForOtherGridUnlocksAndReplaces | src/main/java/ca/phon/plugins/praat/TextGridViewer.java:891-892 | as written, y's reply in that run enables the pane while x waits, and sending x again replaces x's running server |
| Viewer.ForceUnlockOtherGridUnlocks | src/main/java/ca/phon/plugins/praat/TextGridViewer.java:475-476 | as written, y's force-unlock button in that run enables the pane while x waits |
| Viewer.CorrectedReplyKeepsLock | src/main/java/ca/phon/plugins/praat/TextGridViewer.java:891-892 | with the corrected events, x stays locked in that run |
| Viewer.ReplyWithoutCurrentGridThrows | src/main/java/ca/phon/plugins/praat/TextGridViewer.java:905 | with no current TextGrid, a saved reply throws as written, and the corrected reply stores it |

## Left out

- Reading and writing TextGrid files (`TextGridReader`, `TextGridWriter`, UTF-16), `Data.readFromFile`,
  `SendPraat`, the TCP script servers, `LongSound`, `MediaLocator` and `TextGrid.extractPart`. These are library
  calls; their outcomes are parameters.
- The watcher thread (`WatchService.take`, `PhonWorker`, `key.reset()` and leaving the loop when a key becomes
  invalid). Only the decoding of one batch of events is modelled.
- Painting, menus, toasts, dialogs, the settings panel, mouse geometry, `update()`, and the conversion of
  milliseconds to seconds. Interval times are integers.
- `addRowToTable` and `getColumnNames`, which are abstract in the node. Output rows are records of position, input
  row, context and interval.
- In column mode, finding the result value by column name (`equalsIgnoreCase`), the system-tier switch and
  `Tier.getGroup` are one outcome function per row. The modelled parts are the orthography, IPA and free-text range
  logic and `getTextInterval`. For any other value type, `substring` over the value's text may throw for a range
  outside it (the outcome is then `Fails`), and otherwise the value is not `IExtendable` and yields no row; which
  of the two happens is left to the outcome function.
- `TextGridUtils.tierNumberFromName` and `checkSpecifiedTierIsIntervalTier` in TextGrid-tier mode are one lookup
  parameter. TextGridUtils is not part of this model.
- The `TextGridManager` methods the viewer and the node call but the manager shown here does not define: the
  4-argument `saveTextGrid`, `openTextGrid`, `defaultTextGridFile` and `defaultTextGridName`. Their results are
  parameters.
- Thread safety of the synchronized listener list and server map.
- Annotator.InferInterval, PraatNodes.GetTextInterval: assume `TextInterval.create` succeeds, so a `PraatException`
  for an inverted interval is not modelled.
- PraatNodes.RecordEmit: assumes `TextInterval.create` over the segment succeeds. When it throws, the source skips
  the row without adding its record index to `recordList`; the model always lists the row.
- Annotator.PhoneLevel: `ipaGrp.indexOf(ele)` is taken to be the element's own position (identity equality of
  elements).
- Annotator.AnnotateRecord: each pass is modelled as if nothing had been attached before it. The source calls
  `putExtension` only on a match and never clears an extension. A unit a later pass misses therefore keeps an
  earlier pass's interval, and `inferInterval` (TextGridAnnotator.java:275-276) may read such a stale phone interval.
  The model returns `None` for every miss and infers only from this pass's phones.
- Annotator.AnnotateIpaTier: the text of an IPA transcript is the concatenation of its elements' texts. Words and
  syllables are given as element ranges, since `words()` and `syllables()` are library calls.
- PraatNodes.GetTextInterval: `removePunctuation` is taken to keep exactly the phone elements.
- PraatNodes.CheckFilter: regex matching (`String.matches`) is a parameter. Only the blank-filter case is decided
  here. The parameter is total, so the `PatternSyntaxException` an invalid non-blank filter raises is not modelled.
- PraatNodes.OperateAsWritten: an invalid non-blank filter makes `String.matches` (PraatNode.java:408) throw a
  `PatternSyntaxException`, which the `PraatException` handler of lines 217-231 does not catch. A cancel ends the
  loop with `BreakpointEncountered` (line 169). Neither exit is modelled, so "a table exactly when no row's session
  lacks media" holds only for a blank or valid filter and a run that is not cancelled. A third exit is not modelled
  either. When `openSession` (line 174) throws for a new session, the catch at 179-181 only logs, and `session`
  still holds the previous session. Line 187 then looks up the new row's record index in that session, and nothing
  in 168-395 catches the exception when the index is out of range. The model's record lookup is total, so for
  such a row it returns a table built from the previous session's record, where the source produces none.
- PraatNodes.Operate: the same two exits, the invalid filter and the cancel, are not modelled. Its table-exists
  clause is promised only for a blank or valid filter and a run that is not cancelled.
- PraatNodes.ParseBoolean: case folding covers ASCII letters only, where Java's `equalsIgnoreCase` compares by
  Unicode case mapping.
- PraatNodes.OrthographyRowInterval: orthography elements are joined by one space, and a range's length is
  `last - first`. Text re-parsed from the fallback carries no intervals, so it yields no row.
- PraatNodes.IpaRowInterval: `ipaIndexOf` is a parameter.
- PraatNodes.TierStringRowInterval: the number of words in the new `TierString` is a parameter. An emitted row's
  start is tied to an aligned word, but its end is not.
- Manager.SavedFileIsReported: `File.separator` is taken to be one character that occurs in neither the corpus nor the session
  name, and is not `_`, `u`, a digit or a letter of `.TextGrid`.
- Viewer.ScriptFinishedAsWritten: after the throw, the state is the one at the point of the throw; `update()` is
  not modelled.
- Viewer.Inv: the invariant is shown to hold only across the events modelled here. Two other handlers set
  `currentTextGridName` without calling `lock()` or `unlock()`: `onTextGridChanged` (TextGridViewer.java:511-530)
  and `mergeOldTextGrids` (283-298). They are not modelled, so the invariant is not claimed across them.

## Findings

| source | as written | input that shows it | evidently intended | confidence | as-written member | corrected member |
|---|---|---|---|---|---|---|
| src/main/java/ca/phon/plugins/praat/TextGridViewer.java:891-892 | Praat's reply re-enables the pane whichever TextGrid is displayed | show x, send x, show y, send y, show x; Praat replies for y; then send x again | keep the pane locked while the displayed TextGrid still has a waiting server | medium, not executed | Viewer.ScriptFinishedAsWritten, Viewer.ReplyForOtherGridUnlocksAndReplaces | Viewer.ScriptFinished, Viewer.ScriptFinishedKeepsInv, Viewer.OpenNeverReplacesServer |
| src/main/java/ca/phon/plugins/praat/TextGridViewer.java:475-476 | force unlock re-enables the pane whichever TextGrid's button was clicked | the same run, then click y's button | the same | medium, not executed | Viewer.ForceUnlockAsWritten, Viewer.ForceUnlockOtherGridUnlocks | Viewer.ForceUnlock, Viewer.ForceUnlockKeepsInv |
| src/main/java/ca/phon/plugins/praat/TextGridViewer.java:905 | `currentTextGridName.equals(...)` throws when no TextGrid is current | a session without a default TextGrid file; send; Praat hands back a TextGrid that saves | compare without dereferencing a missing name | high, not executed | Viewer.ScriptFinishedAsWritten, Viewer.ReplyWithoutCurrentGridThrows | Viewer.ScriptFinished |
| src/main/java/ca/phon/plugins/praat/opgraph/PraatNode.java:318-321 | `substring(max(0, first), max(0, min(last, length)))` throws when the range starts past the end | text "a", range 2..2 | clamp the begin index like the end index | medium, not executed | PraatNodes.FallbackTextAsWritten, PraatNodes.FallbackPastEndThrows, PraatNodes.OrthographyRowIntervalAsWritten, PraatNodes.OrthographyPastEndFails | PraatNodes.FallbackText, PraatNodes.OrthographyRowInterval |
| src/main/java/ca/phon/plugins/praat/opgraph/PraatNode.java:172-183 | when loading a new session fails part-way, the previous session's record source, TextGrid and sound stay in use | rows of sessions a then b; b's TextGrid fails to load | skip the new session's rows | high, not executed | PraatNodes.ContextsAsWritten, PraatNodes.StaleTextGridUsed, PraatNodes.OperateAsWritten | PraatNodes.Contexts, PraatNodes.ContextsUseOwnSession, PraatNodes.Operate, PraatNodes.OperateUsesOwnSession |
| src/main/java/ca/phon/plugins/praat/opgraph/PraatNode.java:203-207 | `recordList` holds record indices only, so equal indices of different sessions collide | record mode, rows (a, record 0) and (b, record 0) | one row per record of each session | high, not executed | PraatNodes.SecondSessionRecordSkipped, PraatNodes.OperateAsWritten, PraatNodes.OperateAsWrittenSkipsSecondSession, PraatNodes.OperateAsWrittenOnePerRecordIndex | PraatNodes.RecordModeCoversEveryRecord, PraatNodes.Operate, PraatNodes.OperateRecordModeOnePerRecord |
