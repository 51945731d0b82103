/** The TextGrid viewer's hand-off to Praat: which TextGrids have a script
    server waiting for Praat's reply, whether the viewer's pane accepts
    edits, its force-unlock buttons, and what a reply does. Servers, Praat
    and the file system are events and parameters. */
module Viewer {
  import opened Base
  import opened TextGrids

  /** `serverMap` (TextGrid name to the server waiting for it), the servers
      still running with the TextGrid their handler was made for, whether
      the content pane is enabled, `currentTextGridName`, the session's
      default TextGrid name, the force-unlock buttons (each for one
      TextGrid), the TextGrid on display and the saved TextGrids. */
  datatype ViewerState = ViewerState(
    servers: map<string, nat>,
    running: map<nat, string>,
    enabled: bool,
    current: Option<string>,
    defaultName: string,
    buttons: seq<string>,
    shown: Option<TextGrid>,
    store: map<string, TextGrid>)

  /** A viewer opened on a session, with or without a default TextGrid. */
  function Initial(defaultName: string, defaultGrid: Option<TextGrid>): (r: ViewerState)
    ensures r.enabled && r.servers == map[] && r.running == map[]
    ensures r.current.Some? <==> defaultGrid.Some?
  {
    ViewerState(map[], map[], true, if defaultGrid.Some? then Some(defaultName) else None,
                defaultName, [], defaultGrid, map[])
  }

  /** The TextGrid `openTextGrid` sends: the current one, else the default. */
  function EffectiveName(st: ViewerState): string {
    st.current.GetOr(st.defaultName)
  }

  /** `lock`: the pane is disabled and gets a force-unlock button for the
      TextGrid. */
  function Lock(st: ViewerState, name: string): (r: ViewerState)
    ensures !r.enabled && r.buttons == st.buttons + [name]
    ensures r.servers == st.servers && r.running == st.running && r.current == st.current
  {
    st.(enabled := false, buttons := st.buttons + [name])
  }

  /** `unlock`: the pane is enabled and every force-unlock button removed. */
  function Unlock(st: ViewerState): (r: ViewerState)
    ensures r.enabled && r.buttons == []
    ensures r.servers == st.servers && r.running == st.running && r.current == st.current
  {
    st.(enabled := true, buttons := [])
  }

  /** `showTextGrid`: when the TextGrid loads, it is displayed and made
      current, and the pane is locked exactly when a server waits for it;
      a TextGrid that does not load changes nothing. */
  function Show(st: ViewerState, name: string, loaded: Option<TextGrid>): (r: ViewerState)
    ensures loaded.None? ==> r == st
    ensures loaded.Some? ==> r.current == Some(name) && r.shown == loaded
    ensures loaded.Some? ==> (r.enabled <==> name !in st.servers)
    ensures r.servers == st.servers && r.running == st.running
  {
    if loaded.None? then st
    else
      var st' := st.(current := Some(name), shown := loaded);
      if name in st.servers then Lock(st', name) else Unlock(st')
  }

  /** How far sending a TextGrid to Praat gets: the server does not start,
      Praat reports an error (or `sendpraat` fails), or the script is sent. */
  datatype SendOutcome = StartFails | SendFails | Sent

  /** `openTextGrid`: nothing happens without an audio file, while the pane
      is disabled, or when the record has no segment. Otherwise a new server
      (`newId`) is started for the effective TextGrid; once sent, the pane
      is locked and the server registered; on a failure the server is
      stopped, the pane unlocked and the name dropped. */
  function Open(st: ViewerState, hasAudio: bool, hasSegment: bool, newId: nat, outcome: SendOutcome): (r: ViewerState)
    requires newId !in st.running
    ensures !hasAudio || !st.enabled || !hasSegment ==> r == st
    ensures hasAudio && st.enabled && hasSegment && outcome == Sent ==>
              && !r.enabled
              && r.servers == st.servers[EffectiveName(st) := newId]
              && r.running == st.running[newId := EffectiveName(st)]
    ensures hasAudio && st.enabled && hasSegment && outcome != Sent ==>
              && r.enabled
              && r.servers == st.servers - {EffectiveName(st)}
              && r.running == st.running
    ensures r.current == st.current && r.defaultName == st.defaultName
  {
    if !hasAudio || !st.enabled || !hasSegment then st
    else
      var name := EffectiveName(st);
      match outcome
      case StartFails => Unlock(st).(servers := st.servers - {name})
      case SendFails =>
        var locked := Lock(st, name).(servers := st.servers[name := newId]);
        Unlock(locked).(servers := st.servers - {name})
      case Sent =>
        Lock(st, name).(servers := st.servers[name := newId], running := st.running[newId := name])
  }

  /** The buttons with the one at `b` removed. */
  function RemoveAt(s: seq<string>, b: nat): (r: seq<string>)
    requires b < |s|
    ensures |r| == |s| - 1
    ensures forall i :: 0 <= i < b ==> r[i] == s[i]
    ensures forall i :: b <= i < |r| ==> r[i] == s[i + 1]
  {
    s[..b] + s[b + 1..]
  }

  /** Stops and forgets the server waiting for `name`, if there is one. */
  function StopServer(st: ViewerState, name: string): (r: ViewerState)
    ensures name !in r.servers && r.servers == st.servers - {name}
    ensures name in st.servers ==> r.running == st.running - {st.servers[name]}
    ensures name !in st.servers ==> r.running == st.running
  {
    if name in st.servers then
      st.(servers := st.servers - {name}, running := st.running - {st.servers[name]})
    else st
  }

  /** `onForceUnlock`, as written: clicking button `b` enables the pane,
      stops the server of the button's TextGrid if any, and removes the
      button. */
  function ForceUnlockAsWritten(st: ViewerState, b: nat): (r: ViewerState)
    requires b < |st.buttons|
    ensures r.enabled
    ensures r.servers == st.servers - {st.buttons[b]}
    ensures st.buttons[b] in st.servers ==> r.running == st.running - {st.servers[st.buttons[b]]}
    ensures st.buttons[b] !in st.servers ==> r.running == st.running
    ensures r.buttons == RemoveAt(st.buttons, b)
    ensures r.current == st.current && r.shown == st.shown && r.store == st.store
  {
    StopServer(st, st.buttons[b]).(enabled := true, buttons := RemoveAt(st.buttons, b))
  }

  /** What Praat hands back: no hand-off file, a file that does not read as
      a TextGrid, or a TextGrid, whose saving succeeds or not. */
  datatype Handoff = NoHandoff | Unreadable | Returned(grid: TextGrid, saved: bool)

  /** `praatScriptFinished`, as written, for the handler of server `s`: the
      handler's TextGrid is dropped from `serverMap` and the pane unlocked;
      a returned TextGrid is saved under that name and displayed when it is
      the current one. The second component is true when the comparison with
      `currentTextGridName` throws because no TextGrid is current. */
  function ScriptFinishedAsWritten(st: ViewerState, s: nat, h: Handoff): (r: (ViewerState, bool))
    requires s in st.running
    ensures r.0.enabled && r.0.buttons == []
    ensures st.running[s] !in r.0.servers && s !in r.0.running
    ensures r.1 <==> h.Returned? && h.saved && st.current.None?
    ensures h.Returned? && h.saved ==> r.0.store == st.store[st.running[s] := h.grid]
    ensures !(h.Returned? && h.saved) ==> r.0.store == st.store && r.0.shown == st.shown
    ensures r.0.shown != st.shown ==> h.Returned? && h.saved && st.current == Some(st.running[s])
  {
    var name := st.running[s];
    var st' := Unlock(st).(servers := st.servers - {name}, running := st.running - {s});
    match h
    case Returned(g, true) =>
      var saved := st'.(store := st'.store[name := g]);
      if st.current.None? then (saved, true)
      else if st.current.value == name then (saved.(shown := Some(g)), false)
      else (saved, false)
    case _ => (st', false)
  }

  // ---------------------------------------------------------------------------
  // The lock invariant and the corrected events.

  /** `serverMap` and the running servers describe the same servers. */
  ghost predicate Tracked(st: ViewerState) {
    && (forall n :: n in st.servers ==> st.servers[n] in st.running && st.running[st.servers[n]] == n)
    && (forall s :: s in st.running ==> st.running[s] in st.servers && st.servers[st.running[s]] == s)
  }

  /** The pane accepts edits exactly when no server waits for the TextGrid
      it would send. */
  ghost predicate LockedWhileSent(st: ViewerState) {
    st.enabled <==> EffectiveName(st) !in st.servers
  }

  ghost predicate Inv(st: ViewerState) {
    Tracked(st) && LockedWhileSent(st)
  }

  /** After a server stops, the pane is enabled only if the TextGrid it
      would send has no server; its buttons go with it when it is enabled. */
  function Relock(st: ViewerState, buttons: seq<string>): (r: ViewerState)
    ensures LockedWhileSent(r)
    ensures r.servers == st.servers && r.running == st.running && r.current == st.current
  {
    if EffectiveName(st) in st.servers then st.(enabled := false, buttons := buttons)
    else Unlock(st)
  }

  /** Force unlock that keeps the pane locked while the TextGrid on display
      is still in Praat. */
  function ForceUnlock(st: ViewerState, b: nat): (r: ViewerState)
    requires b < |st.buttons|
    ensures r.servers == st.servers - {st.buttons[b]}
    ensures st.buttons[b] in st.servers ==> r.running == st.running - {st.servers[st.buttons[b]]}
    ensures st.buttons[b] !in st.servers ==> r.running == st.running
    ensures r.current == st.current
    ensures r.enabled <==> EffectiveName(st) !in r.servers
    ensures EffectiveName(st) == st.buttons[b] ==> r.enabled
  {
    var stopped := StopServer(st, st.buttons[b]);
    Relock(stopped, RemoveAt(st.buttons, b))
  }

  /** The reply handler, with the pane re-locked as for force unlock and
      the current TextGrid compared without dereferencing a missing name. */
  function ScriptFinished(st: ViewerState, s: nat, h: Handoff): (r: ViewerState)
    requires s in st.running
    ensures st.running[s] !in r.servers && s !in r.running
    ensures r.enabled <==> EffectiveName(st) !in r.servers
    ensures h.Returned? && h.saved ==> r.store == st.store[st.running[s] := h.grid]
    ensures h.Returned? && h.saved && st.current == Some(st.running[s]) ==> r.shown == Some(h.grid)
    ensures !(h.Returned? && h.saved && st.current == Some(st.running[s])) ==> r.shown == st.shown
  {
    var name := st.running[s];
    var st' := Relock(st.(servers := st.servers - {name}, running := st.running - {s}), st.buttons);
    match h
    case Returned(g, true) =>
      var saved := st'.(store := st'.store[name := g]);
      if st.current == Some(name) then saved.(shown := Some(g)) else saved
    case _ => st'
  }

  lemma InitialInv(defaultName: string, defaultGrid: Option<TextGrid>)
    ensures Inv(Initial(defaultName, defaultGrid))
  {
  }

  lemma ShowKeepsInv(st: ViewerState, name: string, loaded: Option<TextGrid>)
    requires Inv(st)
    ensures Inv(Show(st, name, loaded))
  {
  }

  /** With the invariant, sending never replaces a server that is still
      waiting: every TextGrid already in Praat keeps its server. */
  lemma OpenNeverReplacesServer(st: ViewerState, hasAudio: bool, hasSegment: bool, newId: nat, outcome: SendOutcome)
    requires Inv(st) && newId !in st.running
    ensures var r := Open(st, hasAudio, hasSegment, newId, outcome);
            forall n :: n in st.servers ==> n in r.servers && r.servers[n] == st.servers[n]
    ensures Inv(Open(st, hasAudio, hasSegment, newId, outcome))
  {
    var r := Open(st, hasAudio, hasSegment, newId, outcome);
    if hasAudio && st.enabled && hasSegment && outcome == Sent {
      var name := EffectiveName(st);
      forall s | s in r.running ensures r.running[s] in r.servers && r.servers[r.running[s]] == s {
        if s != newId {
          assert st.running[s] != name;
        }
      }
    }
  }

  lemma StopServerTracked(st: ViewerState, name: string)
    requires Tracked(st)
    ensures Tracked(StopServer(st, name))
  {
    var r := StopServer(st, name);
    if name in st.servers {
      forall s | s in r.running ensures r.running[s] in r.servers && r.servers[r.running[s]] == s {
        assert st.running[s] != name;
      }
    }
  }

  lemma ForceUnlockKeepsInv(st: ViewerState, b: nat)
    requires Inv(st) && b < |st.buttons|
    ensures Inv(ForceUnlock(st, b))
  {
    StopServerTracked(st, st.buttons[b]);
  }

  lemma ScriptFinishedKeepsInv(st: ViewerState, s: nat, h: Handoff)
    requires Inv(st) && s in st.running
    ensures Inv(ScriptFinished(st, s, h))
  {
    var name := st.running[s];
    assert StopServer(st, name) == st.(servers := st.servers - {name}, running := st.running - {s});
    StopServerTracked(st, name);
  }

  // ---------------------------------------------------------------------------
  // What the code as written allows.

  /** Show x, send it, show y, send it, show x again: x is locked. */
  function TwoSent(): ViewerState {
    var st0 := Initial("d", None);
    var st1 := Show(st0, "x", Some([]));
    var st2 := Open(st1, true, true, 1, Sent);
    var st3 := Show(st2, "y", Some([]));
    var st4 := Open(st3, true, true, 2, Sent);
    Show(st4, "x", Some([]))
  }

  lemma TwoSentLocked()
    ensures var st := TwoSent();
            && st.servers == map["x" := 1, "y" := 2] && st.running == map[1 := "x", 2 := "y"]
            && st.current == Some("x") && !st.enabled && st.buttons == ["y", "x"]
            && Inv(st)
  {
  }

  /** Praat's reply for y re-enables the pane while x is still in Praat, and
      sending x again replaces x's waiting server, which keeps running
      without an entry. */
  lemma ReplyForOtherGridUnlocksAndReplaces()
    ensures var st := ScriptFinishedAsWritten(TwoSent(), 2, NoHandoff).0;
            && st.enabled && "x" in st.servers
            && !Inv(st)
            && var again := Open(st, true, true, 3, Sent);
               again.servers["x"] == 3 && 1 in again.running && !Tracked(again)
  {
    TwoSentLocked();
    var st := ScriptFinishedAsWritten(TwoSent(), 2, NoHandoff).0;
    assert st.servers == map["x" := 1];
    assert st.running == map[1 := "x"];
    var again := Open(st, true, true, 3, Sent);
    assert again.running == map[1 := "x", 3 := "x"];
    assert again.servers["x"] == 3;
  }

  /** The same through y's force-unlock button. */
  lemma ForceUnlockOtherGridUnlocks()
    ensures var st := ForceUnlockAsWritten(TwoSent(), 0);
            st.enabled && "x" in st.servers && !Inv(st)
  {
    TwoSentLocked();
  }

  /** The corrected events keep x locked in the same run. */
  lemma CorrectedReplyKeepsLock()
    ensures !ScriptFinished(TwoSent(), 2, NoHandoff).enabled
    ensures !ForceUnlock(TwoSent(), 0).enabled
  {
    TwoSentLocked();
  }

  /** With no TextGrid current, sending uses the default name and a
      successfully saved reply throws before the display is refreshed. */
  lemma ReplyWithoutCurrentGridThrows()
    ensures var st := Open(Initial("d", None), true, true, 1, Sent);
            && st.servers == map["d" := 1]
            && ScriptFinishedAsWritten(st, 1, Returned([], true)).1
            && ScriptFinished(st, 1, Returned([], true)).store == map["d" := []]
  {
  }
}
