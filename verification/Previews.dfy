/**
 The preview of each session (src/kernel/preview.ts): the live address that its run last announced, and the durable
 snapshot, which outlives it. The run's pump writes it, and the browser hears of the same events.
 */
module Previews {
  import opened Text
  import opened Events
  import opened Translator

  datatype PreviewState = PreviewState(url: string, port: int, snapshotId: Option<string>)

  type Entries = map<string, PreviewState>

  function EntryOf(entries: Entries, sessionId: string): Option<PreviewState> {
    if sessionId in entries then Some(entries[sessionId]) else None
  }

  function SnapshotOf(entry: Option<PreviewState>): Option<string> {
    if entry.Some? then entry.value.snapshotId else None
  }

  class PreviewRegistry {
    var bySession: Entries

    constructor ()
      ensures bySession == map[]
    {
      bySession := map[];
    }

    /** A state without a snapshot keeps the one on record. */
    method Set(sessionId: string, state: PreviewState)
      modifies this
      ensures bySession == old(bySession)[sessionId :=
                             if state.snapshotId.Some? then state
                             else state.(snapshotId := SnapshotOf(EntryOf(old(bySession), sessionId)))]
    {
      var snapshotId := state.snapshotId;
      if snapshotId.None? && sessionId in bySession {
        snapshotId := bySession[sessionId].snapshotId;
      }
      bySession := bySession[sessionId := PreviewState(state.url, state.port, snapshotId)];
    }

    /** Records the snapshot and leaves the live address alone. */
    method SetSnapshot(sessionId: string, snapshotId: string)
      modifies this
      ensures bySession == old(bySession)[sessionId :=
                             if sessionId in old(bySession)
                             then old(bySession)[sessionId].(snapshotId := Some(snapshotId))
                             else PreviewState("", 0, Some(snapshotId))]
    {
      var url, port := "", 0;
      if sessionId in bySession {
        url, port := bySession[sessionId].url, bySession[sessionId].port;
      }
      bySession := bySession[sessionId := PreviewState(url, port, Some(snapshotId))];
    }

    /** What the pump of a run does with one event of its session's stream. */
    method Note(sessionId: string, ev: EngineEvent)
      modifies this
      ensures EntryOf(bySession, sessionId) == Noted(EntryOf(old(bySession), sessionId), ev)
      ensures bySession - {sessionId} == old(bySession) - {sessionId}
    {
      if ev.PreviewReady? {
        Set(sessionId, PreviewState(ev.url, ev.port, None));
      }
      if ev.PreviewSnapshotReady? {
        SetSnapshot(sessionId, ev.snapshotId);
      }
    }
  }

  // ----- The entry of a session -----

  /** What an event of the session's stream makes of its entry. */
  function Noted(entry: Option<PreviewState>, ev: EngineEvent): Option<PreviewState> {
    match ev
    case PreviewReady(url, port) => Some(PreviewState(url, port, SnapshotOf(entry)))
    case PreviewSnapshotReady(id) =>
      if entry.Some? then Some(entry.value.(snapshotId := Some(id))) else Some(PreviewState("", 0, Some(id)))
    case _ => entry
  }

  function NotedAll(entry: Option<PreviewState>, evs: seq<EngineEvent>): Option<PreviewState> {
    if evs == [] then entry else Noted(NotedAll(entry, evs[..|evs| - 1]), evs[|evs| - 1])
  }

  lemma NotedOneMore(entry: Option<PreviewState>, evs: seq<EngineEvent>, ev: EngineEvent)
    ensures NotedAll(entry, evs + [ev]) == Noted(NotedAll(entry, evs), ev)
  {
    assert (evs + [ev])[..|evs|] == evs;
  }

  lemma {:induction false} NotedOfAppend(entry: Option<PreviewState>, a: seq<EngineEvent>, b: seq<EngineEvent>)
    ensures NotedAll(entry, a + b) == NotedAll(NotedAll(entry, a), b)
  {
    if b == [] {
      assert a + b == a;
    } else {
      assert (a + b)[..|a + b| - 1] == a + b[..|b| - 1];
      NotedOfAppend(entry, a, b[..|b| - 1]);
    }
  }

  /** The last live address that a stream announces, with its port. */
  function LastReady(evs: seq<EngineEvent>): Option<(string, int)> {
    if evs == [] then None
    else if evs[|evs| - 1].PreviewReady? then Some((evs[|evs| - 1].url, evs[|evs| - 1].port))
    else LastReady(evs[..|evs| - 1])
  }

  function LastSnapshot(evs: seq<EngineEvent>): Option<string> {
    if evs == [] then None
    else if evs[|evs| - 1].PreviewSnapshotReady? then Some(evs[|evs| - 1].snapshotId)
    else LastSnapshot(evs[..|evs| - 1])
  }

  /** A new session's entry is the last live address and the last snapshot of its stream, whichever came later. */
  lemma {:induction false} EntryIsLast(evs: seq<EngineEvent>)
    ensures var live, snapshot := LastReady(evs), LastSnapshot(evs);
            NotedAll(None, evs) ==
              if live.None? && snapshot.None? then None
              else if live.None? then Some(PreviewState("", 0, snapshot))
              else Some(PreviewState(live.value.0, live.value.1, snapshot))
  {
    if evs != [] {
      EntryIsLast(evs[..|evs| - 1]);
    }
  }

  /** A snapshot on record is never lost, whatever live addresses come and go. */
  lemma {:induction false} SnapshotStays(entry: Option<PreviewState>, evs: seq<EngineEvent>)
    ensures SnapshotOf(NotedAll(entry, evs)) ==
              if LastSnapshot(evs).Some? then LastSnapshot(evs) else SnapshotOf(entry)
  {
    if evs != [] {
      SnapshotStays(entry, evs[..|evs| - 1]);
    }
  }

  // ----- What the browser hears -----

  /** The last live address among the preview calls of the translator. */
  function LastLive(calls: seq<PreviewCall>): Option<string> {
    if calls == [] then None
    else if calls[|calls| - 1].Live? then Some(calls[|calls| - 1].url)
    else LastLive(calls[..|calls| - 1])
  }

  lemma LastLiveOneMore(calls: seq<PreviewCall>, call: PreviewCall)
    ensures LastLive(calls + [call]) == if call.Live? then Some(call.url) else LastLive(calls)
  {
    assert (calls + [call])[..|calls|] == calls;
  }

  lemma {:induction false} BrowserHears(evs: seq<EngineEvent>)
    ensures var calls := AfterAll(INITIAL, evs).previews;
            && LastLive(calls) != Some("")
            && (match LastReady(evs)
                case Some(live) => live.0 != "" ==> LastLive(calls) == Some(live.0)
                case None => LastLive(calls) == None)
            && (Durable in calls <==> LastSnapshot(evs).Some?)
  {
    if evs != [] {
      var before, ev := evs[..|evs| - 1], evs[|evs| - 1];
      var calls := AfterAll(INITIAL, before).previews;
      BrowserHears(before);
      if ev.PreviewReady? && ev.url != "" {
        LastLiveOneMore(calls, Live(ev.url));
      } else if ev.PreviewSnapshotReady? {
        LastLiveOneMore(calls, Durable);
      }
    }
  }

  /**
   The browser, fed the stream of a new session, last heard of the live address on record exactly when that is not
   empty, and was sent to the durable preview exactly when a snapshot is on record.
   */
  lemma BrowserAgrees(evs: seq<EngineEvent>)
    ensures var calls, entry := AfterAll(INITIAL, evs).previews, NotedAll(None, evs);
            && (entry.Some? ==> (LastLive(calls) == Some(entry.value.url) <==> entry.value.url != ""))
            && (entry.None? ==> calls == [])
            && (Durable in calls <==> SnapshotOf(entry).Some?)
  {
    EntryIsLast(evs);
    BrowserHears(evs);
    if NotedAll(None, evs).None? {
      NoPreviewCalls(evs);
    }
  }

  lemma {:induction false} NoPreviewCalls(evs: seq<EngineEvent>)
    requires LastReady(evs).None? && LastSnapshot(evs).None?
    ensures AfterAll(INITIAL, evs).previews == []
  {
    if evs != [] {
      NoPreviewCalls(evs[..|evs| - 1]);
    }
  }
}
