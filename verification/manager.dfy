/** `TextGridManager`: where a record's TextGrid lives on disk, how a file
    name seen by the directory watcher is read back as a record, the
    listener list that starts and stops the watcher, and how load and save
    failures reach the caller. The file system and the watcher thread are
    parameters or left out. */
module Manager {
  import opened Base
  import opened TextGrids

  /** Folder of the TextGrid files, below the project location. */
  const TextGridFolder: string := "__res/plugin_data/textgrid/data"

  const TextGridExt: string := ".TextGrid"

  /** The record a TextGrid file belongs to. */
  datatype FileKey = FileKey(corpus: string, session: string, recordId: string)

  /** `<corpus>_<session>_<recordId>.TextGrid` */
  function FileName(k: FileKey): string {
    k.corpus + "_" + k.session + "_" + k.recordId + TextGridExt
  }

  /** `textGridPath`: project location, separator, folder, separator, file name. */
  function TextGridPath(location: string, separator: string, k: FileKey): (r: string)
    ensures EndsWith(r, FileName(k))
    ensures |location| <= |r| && r[..|location|] == location
  {
    location + separator + TextGridFolder + separator + FileName(k)
  }

  predicate IsDigit(c: char) {
    '0' <= c <= '9'
  }

  predicate NoUnderscore(s: string) {
    forall i :: 0 <= i < |s| ==> s[i] != '_'
  }

  /** `u[0-9]+` */
  predicate IsRecordId(r: string) {
    |r| >= 2 && r[0] == 'u' && forall i :: 1 <= i < |r| ==> IsDigit(r[i])
  }

  /** The parts the watcher's pattern `([^_]+)_([^_]+)_(u[0-9]+)\.TextGrid`
      accepts as groups 1, 2 and 3. */
  predicate ValidKey(k: FileKey) {
    && |k.corpus| > 0 && NoUnderscore(k.corpus)
    && |k.session| > 0 && NoUnderscore(k.session)
    && IsRecordId(k.recordId)
  }

  /** Whole-name match of the watcher's pattern, returning its three groups. */
  function DecodeFileName(f: string): (r: Option<FileKey>)
    ensures r.Some? ==> ValidKey(r.value)
  {
    if !EndsWith(f, TextGridExt) then None
    else
      var body := f[..|f| - |TextGridExt|];
      match IndexOf(body, '_')
      case None => None
      case Some(i) =>
        var rest := body[i + 1..];
        match IndexOf(rest, '_')
        case None => None
        case Some(j) =>
          var k := FileKey(body[..i], rest[..j], rest[j + 1..]);
          if ValidKey(k) then Some(k) else None
  }

  /** Decoding reads back exactly the name it came from. */
  lemma DecodeFileNameSound(f: string)
    requires DecodeFileName(f).Some?
    ensures FileName(DecodeFileName(f).value) == f
  {
    var body := f[..|f| - |TextGridExt|];
    var i := IndexOf(body, '_').value;
    var rest := body[i + 1..];
    var j := IndexOf(rest, '_').value;
    assert body == body[..i] + "_" + rest[..j] + "_" + rest[j + 1..];
    assert f == body + TextGridExt;
  }

  /** Every name built from a valid key decodes to that key. */
  lemma DecodeFileNameComplete(k: FileKey)
    requires ValidKey(k)
    ensures DecodeFileName(FileName(k)) == Some(k)
  {
    var f := FileName(k);
    var body := k.corpus + "_" + k.session + "_" + k.recordId;
    assert f == body + TextGridExt;
    assert f[..|f| - |TextGridExt|] == body;
    assert body[|k.corpus|] == '_';
    var rest := body[|k.corpus| + 1..];
    assert rest == k.session + "_" + k.recordId;
    assert rest[|k.session|] == '_';
    assert IndexOf(body, '_') == Some(|k.corpus|);
    assert IndexOf(rest, '_') == Some(|k.session|);
    assert body[..|k.corpus|] == k.corpus;
    assert rest[..|k.session|] == k.session;
    assert rest[|k.session| + 1..] == k.recordId;
  }

  /** The pattern matches a file name exactly when the name is built from a
      valid key. */
  lemma DecodeFileNameIff(f: string, k: FileKey)
    ensures DecodeFileName(f) == Some(k) <==> ValidKey(k) && FileName(k) == f
  {
    if DecodeFileName(f) == Some(k) {
      DecodeFileNameSound(f);
    }
    if ValidKey(k) && FileName(k) == f {
      DecodeFileNameComplete(k);
    }
  }

  /** A corpus name with an underscore is written by `textGridPath` but the
      watcher's pattern never reports the file. */
  lemma UnderscoreCorpusIsNotReported()
    ensures DecodeFileName(FileName(FileKey("a_b", "c", "u1"))).None?
  {
    var f := FileName(FileKey("a_b", "c", "u1"));
    var body := f[..|f| - |TextGridExt|];
    assert body == "a_b_c_u1";
    assert IndexOf(body, '_') == Some(1);
    var rest := body[2..];
    assert rest == "b_c_u1";
    assert IndexOf(rest, '_') == Some(1);
    assert rest[2..] == "c_u1";
    assert !IsRecordId("c_u1");
  }

  /** The part after the last separator character. */
  function LastComponent(path: string, sep: char): (r: string)
    ensures |r| <= |path| && EndsWith(path, r)
    ensures forall i :: 0 <= i < |r| ==> r[i] != sep
  {
    path[LastIndexOf(path, sep) + 1..]
  }

  /** The file name the watcher sees for a path `textGridPath` built is the
      record's file name, when the separator does not occur in it. */
  lemma LastComponentOfPath(location: string, sep: char, k: FileKey)
    requires forall i :: 0 <= i < |FileName(k)| ==> FileName(k)[i] != sep
    ensures LastComponent(TextGridPath(location, [sep], k), sep) == FileName(k)
  {
    var path := TextGridPath(location, [sep], k);
    var f := FileName(k);
    var n := |path| - |f|;
    assert path[n - 1] == sep;
    assert path[n..] == f;
    var l := LastIndexOf(path, sep);
    assert l >= n - 1;
    forall i | n <= i < |path| ensures path[i] != sep {
      assert path[i] == f[i - n];
    }
  }

  /** Files saved for a valid key are reported back for that key. */
  lemma SavedFileIsReported(location: string, sep: char, k: FileKey)
    requires ValidKey(k) && sep !in "_u" + TextGridExt && !IsDigit(sep)
    requires forall i :: 0 <= i < |k.corpus| ==> k.corpus[i] != sep
    requires forall i :: 0 <= i < |k.session| ==> k.session[i] != sep
    ensures DecodeFileName(LastComponent(TextGridPath(location, [sep], k), sep)) == Some(k)
  {
    var f := FileName(k);
    forall i | 0 <= i < |f| ensures f[i] != sep {
      var a := |k.corpus|;
      var b := a + 1 + |k.session|;
      var c := b + 1 + |k.recordId|;
      if i < a {
        assert f[i] == k.corpus[i];
      } else if i == a || i == b {
        assert f[i] == '_';
      } else if i < b {
        assert f[i] == k.session[i - a - 1];
      } else if i < c {
        assert f[i] == k.recordId[i - b - 1];
      } else {
        assert f[i] == TextGridExt[i - c];
      }
    }
    LastComponentOfPath(location, sep, k);
    DecodeFileNameComplete(k);
  }

  // ---------------------------------------------------------------------------
  // Watch events.

  datatype WatchKind = EntryCreate | EntryDelete | EntryModify | Overflow

  /** A raw event: its kind and, when its context is a path, the file name. */
  datatype WatchEvent = WatchEvent(kind: WatchKind, context: Option<string>)

  datatype TextGridEventType = TextGridAdded | TextGridRemoved | TextGridChanged

  datatype TextGridEvent = TextGridEvent(key: FileKey, eventType: TextGridEventType)

  /** Create is an addition, delete a removal, anything else a change. */
  function ClassifyKind(kind: WatchKind): (r: TextGridEventType)
    ensures r == TextGridAdded <==> kind == EntryCreate
    ensures r == TextGridRemoved <==> kind == EntryDelete
  {
    if kind == EntryCreate then TextGridAdded
    else if kind == EntryDelete then TextGridRemoved
    else TextGridChanged
  }

  /** The watcher's handling of one event: overflows, events without a path
      and names the pattern rejects are dropped. */
  function DecodeWatchEvent(evt: WatchEvent): (r: Option<TextGridEvent>)
    ensures r.Some? <==> evt.kind != Overflow && evt.context.Some? && DecodeFileName(evt.context.value).Some?
    ensures r.Some? ==> FileName(r.value.key) == evt.context.value && ValidKey(r.value.key)
    ensures r.Some? ==> r.value.eventType == ClassifyKind(evt.kind)
  {
    if evt.kind == Overflow || evt.context.None? then None
    else
      var f := evt.context.value;
      match DecodeFileName(f)
      case None => None
      case Some(k) =>
        DecodeFileNameSound(f);
        Some(TextGridEvent(k, ClassifyKind(evt.kind)))
  }

  /** What one polled event contributes to the report. */
  function Reported(evt: WatchEvent): (r: seq<TextGridEvent>)
    ensures |r| <= 1
    ensures forall e :: e in r <==> DecodeWatchEvent(evt) == Some(e)
  {
    match DecodeWatchEvent(evt)
    case None => []
    case Some(e) => [e]
  }

  /** `r` reports exactly the events of `evts` that decode: each reported
      event comes from a polled one, and each polled event that decodes is
      reported. */
  ghost predicate ReportsExactly(evts: seq<WatchEvent>, r: seq<TextGridEvent>) {
    && (forall e :: e in r ==> exists i :: 0 <= i < |evts| && DecodeWatchEvent(evts[i]) == Some(e))
    && (forall i :: 0 <= i < |evts| && DecodeWatchEvent(evts[i]).Some? ==> DecodeWatchEvent(evts[i]).value in r)
  }

  lemma ReportsExactlyCons(evts: seq<WatchEvent>, rest: seq<TextGridEvent>)
    requires evts != [] && ReportsExactly(evts[1..], rest)
    ensures ReportsExactly(evts, Reported(evts[0]) + rest)
  {
    var r := Reported(evts[0]) + rest;
    forall e | e in r ensures exists i :: 0 <= i < |evts| && DecodeWatchEvent(evts[i]) == Some(e) {
      if e !in Reported(evts[0]) {
        var i :| 0 <= i < |evts[1..]| && DecodeWatchEvent(evts[1..][i]) == Some(e);
        assert evts[i + 1] == evts[1..][i];
      }
    }
    forall i | 0 <= i < |evts| && DecodeWatchEvent(evts[i]).Some? ensures DecodeWatchEvent(evts[i]).value in r {
      if i > 0 {
        assert evts[1..][i - 1] == evts[i];
      }
    }
  }

  /** Events reported for a batch, in order: exactly the polled events that
      decode. */
  function DecodeWatchEvents(evts: seq<WatchEvent>): (r: seq<TextGridEvent>)
    ensures |r| <= |evts|
    ensures ReportsExactly(evts, r)
  {
    if evts == [] then []
    else
      var rest := DecodeWatchEvents(evts[1..]);
      ReportsExactlyCons(evts, rest);
      Reported(evts[0]) + rest
  }

  /** Events are reported in arrival order: a batch's report is the report
      of its first part followed by that of the rest. */
  lemma {:induction false} DecodeWatchEventsAppend(a: seq<WatchEvent>, b: seq<WatchEvent>)
    ensures DecodeWatchEvents(a + b) == DecodeWatchEvents(a) + DecodeWatchEvents(b)
  {
    if a != [] {
      assert (a + b)[1..] == a[1..] + b;
      DecodeWatchEventsAppend(a[1..], b);
    } else {
      assert a + b == b;
    }
  }

  /** A single event is reported exactly when it decodes, as what it decodes to. */
  lemma DecodeWatchEventsSingle(evt: WatchEvent)
    ensures DecodeWatchEvents([evt]) == if DecodeWatchEvent(evt).Some? then [DecodeWatchEvent(evt).value] else []
  {
    assert [evt][1..] == [];
  }

  // ---------------------------------------------------------------------------
  // Listeners.

  /** The listener list and whether a watcher has been asked to run. */
  datatype Listeners<L> = Listeners(list: seq<L>, watching: bool)

  /** `addTextGridListener`: appended unless present; the first listener
      starts the watcher. */
  function AddListener<L(==)>(s: Listeners<L>, l: L): (r: Listeners<L>)
    ensures l in r.list
    ensures l in s.list ==> r == s
    ensures l !in s.list ==> r.list == s.list + [l] && (r.watching <==> s.watching || |r.list| == 1)
  {
    if l in s.list then s
    else
      var list := s.list + [l];
      Listeners(list, s.watching || |list| == 1)
  }

  /** `List.remove(Object)`: drops the first occurrence only. */
  function RemoveFirst<L(==)>(s: seq<L>, l: L): (r: seq<L>)
    ensures l in s ==> |r| == |s| - 1
    ensures l !in s ==> r == s
    ensures Count(r, l) == if l in s then Count(s, l) - 1 else 0
    ensures forall x :: x in r ==> x in s
  {
    if s == [] then []
    else if s[0] == l then
      assert s == [s[0]] + s[1..];
      s[1..]
    else
      var rest := RemoveFirst(s[1..], l);
      assert ([s[0]] + rest)[1..] == rest;
      [s[0]] + rest
  }

  /** `removeTextGridListener`: an empty list afterwards shuts the watcher
      down. */
  function RemoveListener<L(==)>(s: Listeners<L>, l: L): (r: Listeners<L>)
    ensures r.list == RemoveFirst(s.list, l)
    ensures r.watching <==> s.watching && |r.list| > 0
  {
    var list := RemoveFirst(s.list, l);
    Listeners(list, s.watching && |list| > 0)
  }

  lemma CountZeroNotIn<L>(s: seq<L>, x: L)
    ensures Count(s, x) == 0 <==> x !in s
  {
    if s != [] {
      CountZeroNotIn(s[1..], x);
      assert s == [s[0]] + s[1..];
    }
  }

  lemma {:induction false} NoDupCountOne<L>(s: seq<L>, x: L)
    requires NoDup(s) && x in s
    ensures Count(s, x) == 1
  {
    if s[0] == x {
      forall j | 0 <= j < |s[1..]| ensures s[1..][j] != x {
        assert s[1..][j] == s[j + 1];
      }
      CountZeroNotIn(s[1..], x);
    } else {
      assert x in s[1..] by {
        var j :| 0 <= j < |s| && s[j] == x;
        assert s[1..][j - 1] == x;
      }
      NoDupCountOne(s[1..], x);
    }
  }

  /** Listener set invariant: no listener twice, and a watcher is asked to
      run exactly while someone listens. */
  ghost predicate ListenersInvariant<L>(s: Listeners<L>) {
    NoDup(s.list) && (s.watching <==> |s.list| > 0)
  }

  lemma AddListenerKeepsInvariant<L>(s: Listeners<L>, l: L)
    requires ListenersInvariant(s)
    ensures ListenersInvariant(AddListener(s, l))
  {
  }

  lemma {:induction false} RemoveFirstNoDup<L>(s: seq<L>, l: L)
    requires NoDup(s)
    ensures NoDup(RemoveFirst(s, l))
  {
    if s != [] && s[0] != l {
      var rest := RemoveFirst(s[1..], l);
      RemoveFirstNoDup(s[1..], l);
      var r := [s[0]] + rest;
      forall i, j | 0 <= i < j < |r| ensures r[i] != r[j] {
        if i == 0 {
          assert r[j] == rest[j - 1];
          assert rest[j - 1] in rest;
          var k :| 0 <= k < |s[1..]| && s[1..][k] == rest[j - 1];
          assert s[k + 1] == rest[j - 1];
        } else {
          assert r[i] == rest[i - 1] && r[j] == rest[j - 1];
        }
      }
    }
  }

  lemma RemoveListenerKeepsInvariant<L>(s: Listeners<L>, l: L)
    requires ListenersInvariant(s)
    ensures ListenersInvariant(RemoveListener(s, l))
    ensures l !in RemoveListener(s, l).list
  {
    var r := RemoveListener(s, l);
    RemoveFirstNoDup(s.list, l);
    if l in s.list {
      NoDupCountOne(s.list, l);
      CountZeroNotIn(r.list, l);
    }
  }

  /** Registering then unregistering a new listener restores the list. */
  lemma AddThenRemove<L>(s: Listeners<L>, l: L)
    requires ListenersInvariant(s) && l !in s.list
    ensures RemoveListener(AddListener(s, l), l) == s
  {
    var list := s.list + [l];
    RemoveFirstAppend(s.list, l);
  }

  lemma {:induction false} RemoveFirstAppend<L>(s: seq<L>, l: L)
    requires l !in s
    ensures RemoveFirst(s + [l], l) == s
  {
    if s != [] {
      assert (s + [l])[1..] == s[1..] + [l];
      RemoveFirstAppend(s[1..], l);
      assert s == [s[0]] + s[1..];
    }
  }

  /** `fireTextGridEvent`: each registered listener receives the event once. */
  function Fire<L>(s: Listeners<L>, evt: TextGridEvent): (r: seq<(L, TextGridEvent)>)
    ensures |r| == |s.list|
    ensures forall i :: 0 <= i < |r| ==> r[i].1 == evt
    ensures forall i :: 0 <= i < |r| ==> r[i].0 == s.list[i]
  {
    seq(|s.list|, i requires 0 <= i < |s.list| => (s.list[i], evt))
  }

  lemma FireDeliversOnce<L>(s: Listeners<L>, evt: TextGridEvent, l: L)
    requires ListenersInvariant(s)
    ensures Count(Fire(s, evt), (l, evt)) == if l in s.list then 1 else 0
  {
    var r := Fire(s, evt);
    FireCount(s.list, evt, l);
    if l in s.list {
      NoDupCountOne(s.list, l);
    } else {
      CountZeroNotIn(s.list, l);
    }
  }

  lemma {:induction false} FireCount<L>(list: seq<L>, evt: TextGridEvent, l: L)
    ensures Count(Fire(Listeners(list, true), evt), (l, evt)) == Count(list, l)
  {
    if list != [] {
      FireCount(list[1..], evt, l);
      var r := Fire(Listeners(list, true), evt);
      assert r[1..] == Fire(Listeners(list[1..], true), evt);
    }
  }

  // ---------------------------------------------------------------------------
  // Loading and saving.

  /** What reading a file can come to. */
  datatype ReadOutcome = Parsed(grid: TextGrid) | ParseFailed | ReadFailed

  datatype LoadResult = Loaded(grid: TextGrid) | IoFailure

  /** Static `loadTextGrid(file)`: a parser error surfaces as an I/O error. */
  function LoadFile(read: string -> ReadOutcome, path: string): (r: LoadResult)
    ensures r.Loaded? <==> read(path).Parsed?
    ensures r.Loaded? ==> r.grid == read(path).grid
  {
    match read(path)
    case Parsed(tg) => Loaded(tg)
    case ParseFailed => IoFailure
    case ReadFailed => IoFailure
  }

  /** Instance `loadTextGrid(corpus, session, recordId)`: null on any failure. */
  function LoadRecordGrid(read: string -> ReadOutcome, location: string, separator: string, k: FileKey): (r: Option<TextGrid>)
    ensures r.Some? <==> read(TextGridPath(location, separator, k)).Parsed?
    ensures r.Some? ==> r.value == read(TextGridPath(location, separator, k)).grid
  {
    match LoadFile(read, TextGridPath(location, separator, k))
    case Loaded(tg) => Some(tg)
    case IoFailure => None
  }

  /** Instance `saveTextGrid`: true exactly when writing the record's file
      succeeded. */
  function SaveRecordGrid(write: (string, TextGrid) -> bool, location: string, separator: string, k: FileKey, tg: TextGrid)
    : (r: bool)
    ensures r <==> write(TextGridPath(location, separator, k), tg)
  {
    write(TextGridPath(location, separator, k), tg)
  }
}
