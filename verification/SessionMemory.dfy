/** The memory carried from one turn of a session to the next (src/server/sessionMemory.ts). Timestamps are left out. */
module SessionMemory {
  import opened Text
  import opened Events

  const MAX_TURNS := 6
  const MAX_FIELD := 700
  const MAX_PROMPT_CONTEXT := 2400

  datatype TurnMemory = TurnMemory(runId: string, prompt: string, outcome: string, finalText: Option<string>)

  datatype Memory = Memory(sessionId: string, ownerId: string, turns: seq<TurnMemory>, summary: string)

  type Store = map<string, Memory>

  datatype Update = Update(ownerId: string, sessionId: string, runId: string, prompt: string, result: RunResult)

  function Key(ownerId: string, sessionId: string): string {
    ownerId + ":" + sessionId
  }

  // ----- Clipping -----

  predicate EndsInSpace(s: string) {
    s != "" && s[|s| - 1] == ' '
  }

  /** Each run of white space becomes one space. */
  function Collapse(s: string): string {
    if s == "" then ""
    else
      var front, c := Collapse(s[..|s| - 1]), s[|s| - 1];
      if !IsSpace(c) then front + [c]
      else if EndsInSpace(front) then front
      else front + " "
  }

  function Clip(value: string, limit: nat): string
    requires limit >= 3
  {
    var text := Trim(Collapse(value));
    if |text| <= limit then text else TrimEnd(text[..limit - 3]) + "..."
  }

  /** No white space but single spaces. */
  predicate Collapsed(s: string) {
    && (forall i | 0 <= i < |s| && IsSpace(s[i]) :: s[i] == ' ')
    && (forall i | 0 < i < |s| && IsSpace(s[i]) :: !IsSpace(s[i - 1]))
  }

  lemma {:induction false} CollapseCollapses(s: string)
    ensures Collapsed(Collapse(s))
  {
    if s != "" {
      CollapseCollapses(s[..|s| - 1]);
    }
  }

  lemma {:induction false} CollapsedStays(s: string)
    requires Collapsed(s)
    ensures Collapse(s) == s
  {
    if s != "" {
      CollapsedStays(s[..|s| - 1]);
      assert s == s[..|s| - 1] + [s[|s| - 1]];
    }
  }

  lemma {:induction false} TrimStartCuts(s: string)
    requires Collapsed(s)
    ensures Collapsed(TrimStart(s)) && |TrimStart(s)| <= |s| && (TrimStart(s) != "" ==> !IsSpace(TrimStart(s)[0]))
  {
    if s != "" && IsSpace(s[0]) {
      TrimStartCuts(s[1..]);
    }
  }

  lemma {:induction false} TrimEndCuts(s: string)
    requires Collapsed(s)
    ensures Collapsed(TrimEnd(s)) && TrimEnd(s) <= s
    ensures TrimEnd(s) != "" ==> !IsSpace(TrimEnd(s)[|TrimEnd(s)| - 1])
  {
    if s != "" && IsSpace(s[|s| - 1]) {
      TrimEndCuts(s[..|s| - 1]);
    }
  }

  lemma TrimTidies(s: string)
    requires Collapsed(s)
    ensures Collapsed(Trim(s)) && Trimmed(Trim(s))
  {
    TrimStartCuts(s);
    TrimEndCuts(TrimStart(s));
  }

  lemma CutIsTidy(text: string, n: nat)
    requires Collapsed(text) && Trimmed(text) && n <= |text|
    ensures var cut := TrimEnd(text[..n]) + "...";
            |cut| <= n + 3 && Collapsed(cut) && Trimmed(cut)
  {
    var front := TrimEnd(text[..n]);
    TrimEndCuts(text[..n]);
    assert front != "" ==> front[0] == text[0];
  }

  /** A clipped text is tidy and fits. */
  lemma ClipFits(value: string, limit: nat)
    requires limit >= 3
    ensures var c := Clip(value, limit);
            |c| <= limit && Collapsed(c) && Trimmed(c)
  {
    CollapseCollapses(value);
    TrimTidies(Collapse(value));
    var text := Trim(Collapse(value));
    if |text| > limit {
      CutIsTidy(text, limit - 3);
    }
  }

  /** Clipping leaves exactly the tidy texts that fit as they are. */
  lemma ClipFixes(s: string, limit: nat)
    requires limit >= 3
    ensures Clip(s, limit) == s <==> |s| <= limit && Collapsed(s) && Trimmed(s)
  {
    if |s| <= limit && Collapsed(s) && Trimmed(s) {
      CollapsedStays(s);
      assert TrimStart(s) == s && TrimEnd(s) == s;
    } else {
      ClipFits(s, limit);
    }
  }

  lemma ClipIsIdempotent(value: string, limit: nat)
    requires limit >= 3
    ensures Clip(Clip(value, limit), limit) == Clip(value, limit)
  {
    ClipFits(value, limit);
    ClipFixes(Clip(value, limit), limit);
  }

  /** The characters that are not white space. */
  function Inked(s: string): string {
    if s == "" then "" else Inked(s[..|s| - 1]) + if IsSpace(s[|s| - 1]) then "" else [s[|s| - 1]]
  }

  lemma {:induction false} InkedOfAppend(a: string, b: string)
    ensures Inked(a + b) == Inked(a) + Inked(b)
  {
    if b == "" {
      assert a + b == a;
    } else {
      var front, last := b[..|b| - 1], b[|b| - 1];
      assert (a + b)[..|a + b| - 1] == a + front;
      InkedOfAppend(a, front);
      AppendAssociates(Inked(a), Inked(front), if IsSpace(last) then "" else [last]);
    }
  }

  lemma InkedOne(c: char)
    ensures Inked([c]) == if IsSpace(c) then "" else [c]
  {
    assert [c][..0] == "";
  }

  lemma {:induction false} CollapseKeepsInk(s: string)
    ensures Inked(Collapse(s)) == Inked(s)
  {
    if s != "" {
      var front, c := Collapse(s[..|s| - 1]), s[|s| - 1];
      CollapseKeepsInk(s[..|s| - 1]);
      InkedOfAppend(front, [c]);
      InkedOfAppend(front, " ");
      InkedOne(c);
      InkedOne(' ');
    }
  }

  lemma {:induction false} TrimStartKeepsInk(s: string)
    ensures Inked(TrimStart(s)) == Inked(s)
  {
    if s != "" && IsSpace(s[0]) {
      TrimStartKeepsInk(s[1..]);
      InkedOfAppend([s[0]], s[1..]);
      InkedOne(s[0]);
      assert s == [s[0]] + s[1..];
    }
  }

  lemma {:induction false} TrimEndKeepsInk(s: string)
    ensures Inked(TrimEnd(s)) == Inked(s)
  {
    if s != "" && IsSpace(s[|s| - 1]) {
      TrimEndKeepsInk(s[..|s| - 1]);
    }
  }

  /**
   Clipping only loses white space while the text fits, and otherwise keeps the ink of the first part of the tidied
   text, to the character.
   */
  lemma ClipKeepsInk(value: string, limit: nat)
    requires limit >= 3
    ensures var text := Trim(Collapse(value));
            && Inked(text) == Inked(value)
            && (|text| <= limit ==> Inked(Clip(value, limit)) == Inked(value))
            && (|text| > limit ==> Inked(Clip(value, limit)) == Inked(text[..limit - 3]) + Inked("..."))
  {
    var text := Trim(Collapse(value));
    CollapseKeepsInk(value);
    TrimStartKeepsInk(Collapse(value));
    TrimEndKeepsInk(TrimStart(Collapse(value)));
    if |text| > limit {
      TrimEndKeepsInk(text[..limit - 3]);
      InkedOfAppend(TrimEnd(text[..limit - 3]), "...");
    }
  }

  // ----- The store -----

  function CauseName(cause: Cause): string {
    match cause case Done => "done" case Failed => "error" case Cancelled => "cancelled"
  }

  function Outcome(result: RunResult): string {
    if result.cause.Failed? && result.error.Some? && result.error.value.code != ""
    then "error:" + result.error.value.code
    else CauseName(result.cause)
  }

  function TurnOf(u: Update): TurnMemory {
    TurnMemory(u.runId, Clip(u.prompt, MAX_FIELD), Outcome(u.result),
               if u.result.finalText != "" then Some(Clip(u.result.finalText, MAX_FIELD)) else None)
  }

  function Newest<T>(s: seq<T>, n: nat): seq<T> {
    if |s| <= n then s else s[|s| - n..]
  }

  function Bits(turn: TurnMemory, index: nat): seq<string> {
    [Decimal(index + 1) + ". User: " + turn.prompt, "Outcome: " + turn.outcome]
    + if turn.finalText.Some? && turn.finalText.value != "" then ["Assistant: " + turn.finalText.value] else []
  }

  function Line(turn: TurnMemory, index: nat): string {
    Join(Bits(turn, index), " | ")
  }

  function Lines(turns: seq<TurnMemory>): seq<string> {
    if turns == [] then [] else Lines(turns[..|turns| - 1]) + [Line(turns[|turns| - 1], |turns| - 1)]
  }

  function BuildSummary(turns: seq<TurnMemory>): string {
    Join(Lines(turns), "\n")
  }

  function TurnsOf(store: Store, key: string): seq<TurnMemory> {
    if key in store then store[key].turns else []
  }

  class MemoryFile {
    var sessions: Store

    constructor ()
      ensures sessions == map[]
    {
      sessions := map[];
    }

    /** The turn that an update records. */
    method NewTurn(u: Update) returns (turn: TurnMemory)
      ensures turn == TurnOf(u) && Remembers(turn, u)
    {
      TurnRemembers(u);
      var finalText := None;
      if u.result.finalText != "" {
        finalText := Some(Clip(u.result.finalText, MAX_FIELD));
      }
      turn := TurnMemory(u.runId, Clip(u.prompt, MAX_FIELD), Outcome(u.result), finalText);
    }

    method UpdateSessionMemory(u: Update) returns (memory: Memory)
      modifies this
      ensures sessions == Updated(old(sessions), u)
      ensures Key(u.ownerId, u.sessionId) in sessions && memory == sessions[Key(u.ownerId, u.sessionId)]
      ensures memory.turns != [] && Remembers(memory.turns[|memory.turns| - 1], u)
    {
      var key := Key(u.ownerId, u.sessionId);
      var turn := NewTurn(u);
      var turns := (if key in sessions then sessions[key].turns else []) + [turn];
      if |turns| > MAX_TURNS {
        turns := turns[|turns| - MAX_TURNS..];
      }
      memory := Memory(u.sessionId, u.ownerId, turns, BuildSummary(turns));
      sessions := sessions[key := memory];
    }
  }

  function Updated(store: Store, u: Update): Store {
    var key := Key(u.ownerId, u.sessionId);
    var turns := Newest(TurnsOf(store, key) + [TurnOf(u)], MAX_TURNS);
    store[key := Memory(u.sessionId, u.ownerId, turns, BuildSummary(turns))]
  }

  function AfterAll(updates: seq<Update>): Store {
    if updates == [] then map[] else Updated(AfterAll(updates[..|updates| - 1]), updates[|updates| - 1])
  }

  /** The turns of one session, over all its updates. */
  function Turns(updates: seq<Update>, ownerId: string, sessionId: string): seq<TurnMemory> {
    if updates == [] then []
    else
      var u := updates[|updates| - 1];
      Turns(updates[..|updates| - 1], ownerId, sessionId)
      + if u.ownerId == ownerId && u.sessionId == sessionId then [TurnOf(u)] else []
  }

  /** Two owners can share a key exactly when one of them, with a colon after it, begins the other. */
  lemma OwnersCollide(o: string, p: string)
    requires o != p
    ensures (exists s: string, t: string :: Key(o, s) == Key(p, t)) <==> o + ":" <= p || p + ":" <= o
  {
    if o + ":" <= p {
      var s, t := SharesKey(o, p);
    }
    if p + ":" <= o {
      var t, s := SharesKey(p, o);
    }
    if s: string, t: string :| Key(o, s) == Key(p, t) {
      SharedKeyPrefix(o, s, p, t);
    }
  }

  lemma SharesKey(o: string, p: string) returns (s: string, t: string)
    requires o + ":" <= p
    ensures Key(o, s) == Key(p, t)
  {
    var tail := p[|o| + 1..];
    s, t := tail + ":", "";
    assert p == o + ":" + tail;
    AppendAssociates(o + ":", tail, ":");
    assert Key(p, t) == p + ":";
  }

  lemma SharedKeyPrefix(o: string, s: string, p: string, t: string)
    requires o != p && Key(o, s) == Key(p, t)
    ensures o + ":" <= p || p + ":" <= o
  {
    var key := Key(o, s);
    assert key[..|o|] == o && key[|o|] == ':' && key[..|p|] == p && key[|p|] == ':';
    if |o| < |p| {
      assert p[..|o|] == key[..|o|] && p[|o|] == key[|o|];
      assert p[..|o| + 1] == o + ":";
    } else if |p| < |o| {
      assert o[..|p|] == key[..|p|] && o[|p|] == key[|p|];
      assert o[..|p| + 1] == p + ":";
    }
  }

  /** Any other two owners keep their sessions apart. */
  lemma KeysIdentify(o: string, s: string, p: string, t: string)
    requires o == p || (!(o + ":" <= p) && !(p + ":" <= o))
    ensures Key(o, s) == Key(p, t) <==> o == p && s == t
  {
    if Key(o, s) == Key(p, t) {
      if o != p {
        SharedKeyPrefix(o, s, p, t);
      }
      assert Key(o, s)[|o| + 1..] == s && Key(p, t)[|p| + 1..] == t;
    }
  }

  /** No other session of the history is filed under this session's key. */
  predicate KeyIsItsOwn(updates: seq<Update>, ownerId: string, sessionId: string) {
    forall u | u in updates && Key(u.ownerId, u.sessionId) == Key(ownerId, sessionId) ::
      u.ownerId == ownerId && u.sessionId == sessionId
  }

  /** The updates filed under one key. */
  function Filed(updates: seq<Update>, key: string): seq<Update> {
    if updates == [] then []
    else
      var u := updates[|updates| - 1];
      Filed(updates[..|updates| - 1], key) + if Key(u.ownerId, u.sessionId) == key then [u] else []
  }

  /** The turns that updates leave behind. */
  function Recorded(updates: seq<Update>): seq<TurnMemory> {
    if updates == [] then [] else Recorded(updates[..|updates| - 1]) + [TurnOf(updates[|updates| - 1])]
  }

  predicate Belongs(u: Update, ownerId: string, sessionId: string) {
    u.ownerId == ownerId && u.sessionId == sessionId
  }

  lemma NewestOfNewest<T>(s: seq<T>, x: T, n: nat)
    ensures Newest(Newest(s, n) + [x], n) == Newest(s + [x], n)
  {
  }

  lemma RecordedOneMore(updates: seq<Update>, u: Update)
    ensures Recorded(updates + [u]) == Recorded(updates) + [TurnOf(u)]
  {
    assert (updates + [u])[..|updates|] == updates;
  }

  /** After any updates, whatever the owners, a key remembers exactly the last six turns filed under it. */
  lemma {:induction false} KeyRemembersLastSix(updates: seq<Update>, key: string)
    ensures TurnsOf(AfterAll(updates), key) == Newest(Recorded(Filed(updates, key)), MAX_TURNS)
  {
    if updates != [] {
      var before, u := updates[..|updates| - 1], updates[|updates| - 1];
      KeyRemembersLastSix(before, key);
      if Key(u.ownerId, u.sessionId) == key {
        NewestOfNewest(Recorded(Filed(before, key)), TurnOf(u), MAX_TURNS);
        RecordedOneMore(Filed(before, key), u);
      } else {
        assert Filed(before, key) + [] == Filed(before, key);
      }
    }
  }

  // ----- What a turn remembers -----

  /** A text that fits and has nothing to tidy is stored as it is, and any other is clipped. */
  predicate StoredAs(stored: string, text: string) {
    stored == if |text| <= 700 && Trimmed(text) && Collapsed(text) then text else Clip(text, 700)
  }

  /** The outcome names the cause, and the code of an error that has one. */
  predicate Tells(outcome: string, result: RunResult) {
    match result.cause
    case Done => outcome == "done"
    case Cancelled => outcome == "cancelled"
    case Failed =>
      if result.error.Some? && result.error.value.code != "" then outcome == "error:" + result.error.value.code
      else outcome == "error"
  }

  /** A stored turn has the run, the prompt, the outcome and the answer of an update, each in its own place. */
  predicate Remembers(t: TurnMemory, u: Update) {
    && t.runId == u.runId && StoredAs(t.prompt, u.prompt) && Tells(t.outcome, u.result)
    && (t.finalText.None? <==> u.result.finalText == "")
    && (t.finalText.Some? ==> StoredAs(t.finalText.value, u.result.finalText))
  }

  lemma TurnRemembers(u: Update)
    ensures Remembers(TurnOf(u), u)
  {
    ClipFixes(u.prompt, MAX_FIELD);
    ClipFixes(u.result.finalText, MAX_FIELD);
  }

  lemma {:induction false} RecordedAt(updates: seq<Update>, i: nat)
    requires i < |updates|
    ensures |Recorded(updates)| == |updates| && Recorded(updates)[i] == TurnOf(updates[i])
  {
    var before := updates[..|updates| - 1];
    if before != [] {
      RecordedAt(before, if i < |before| then i else 0);
    }
  }

  /** A key holds one turn for each of the last six updates filed under it, in order, with all that they said. */
  lemma KeyRemembersUpdates(updates: seq<Update>, key: string)
    ensures var turns, filed := TurnsOf(AfterAll(updates), key), Newest(Filed(updates, key), 6);
            |turns| == |filed| && forall i | 0 <= i < |turns| :: Remembers(turns[i], filed[i])
  {
    var filed := Newest(Filed(updates, key), 6);
    KeyRemembersLastSix(updates, key);
    RecordedNewest(Filed(updates, key), 6);
    RecordedLength(filed);
    forall i | 0 <= i < |filed|
      ensures Remembers(Recorded(filed)[i], filed[i])
    {
      RecordedAt(filed, i);
      TurnRemembers(filed[i]);
    }
  }

  lemma RecordedLength(updates: seq<Update>)
    ensures |Recorded(updates)| == |updates|
  {
    RecordedOfAppend([], updates);
  }

  lemma NewestEndsWith<T>(s: seq<T>, x: T, n: nat)
    requires n > 0
    ensures var newest := Newest(s + [x], n);
            newest != [] && newest[|newest| - 1] == x
  {
  }

  /** The newest turn under a key is that of the update just made. */
  lemma NewestTurn(updates: seq<Update>, u: Update)
    ensures var turns := TurnsOf(AfterAll(updates + [u]), Key(u.ownerId, u.sessionId));
            turns != [] && Remembers(turns[|turns| - 1], u)
  {
    var key := Key(u.ownerId, u.sessionId);
    FiledOneMore(updates, u);
    NewestEndsWith(Filed(updates, key), u, 6);
    KeyRemembersUpdates(updates + [u], key);
  }

  lemma FiledOneMore(updates: seq<Update>, u: Update)
    ensures var key := Key(u.ownerId, u.sessionId);
            Filed(updates + [u], key) == Filed(updates, key) + [u]
  {
    assert (updates + [u])[..|updates|] == updates;
  }

  // ----- When that is the session's own memory -----

  /** The updates of one session among others. */
  function OwnPart(updates: seq<Update>, ownerId: string, sessionId: string): seq<Update> {
    if updates == [] then []
    else
      var u := updates[|updates| - 1];
      OwnPart(updates[..|updates| - 1], ownerId, sessionId) + if Belongs(u, ownerId, sessionId) then [u] else []
  }

  lemma {:induction false} OwnPartOfAppend(a: seq<Update>, b: seq<Update>, ownerId: string, sessionId: string)
    ensures OwnPart(a + b, ownerId, sessionId) == OwnPart(a, ownerId, sessionId) + OwnPart(b, ownerId, sessionId)
  {
    if b == [] {
      assert a + b == a;
    } else {
      var front, u := b[..|b| - 1], b[|b| - 1];
      assert (a + b)[..|a + b| - 1] == a + front;
      OwnPartOfAppend(a, front, ownerId, sessionId);
      AppendAssociates(OwnPart(a, ownerId, sessionId), OwnPart(front, ownerId, sessionId),
                       if Belongs(u, ownerId, sessionId) then [u] else []);
    }
  }

  lemma {:induction false} OwnPartOfOwn(updates: seq<Update>, ownerId: string, sessionId: string)
    requires forall u | u in updates :: Belongs(u, ownerId, sessionId)
    ensures OwnPart(updates, ownerId, sessionId) == updates
  {
    if updates != [] {
      var front, u := updates[..|updates| - 1], updates[|updates| - 1];
      assert updates == front + [u];
      OwnPartOfOwn(front, ownerId, sessionId);
    }
  }

  lemma {:induction false} OwnPartMembers(updates: seq<Update>, ownerId: string, sessionId: string, u: Update)
    requires u in OwnPart(updates, ownerId, sessionId)
    ensures u in updates && Belongs(u, ownerId, sessionId)
  {
    var front := updates[..|updates| - 1];
    if u in OwnPart(front, ownerId, sessionId) {
      OwnPartMembers(front, ownerId, sessionId, u);
    }
  }

  lemma {:induction false} FiledMembers(updates: seq<Update>, key: string, u: Update)
    ensures u in Filed(updates, key) <==> u in updates && Key(u.ownerId, u.sessionId) == key
  {
    if updates != [] {
      FiledMembers(updates[..|updates| - 1], key, u);
      assert updates == updates[..|updates| - 1] + [updates[|updates| - 1]];
    }
  }

  /** A session's own turns are those of its updates among the ones filed under its key. */
  lemma {:induction false} TurnsAreOwnPart(updates: seq<Update>, ownerId: string, sessionId: string)
    ensures Turns(updates, ownerId, sessionId) ==
              Recorded(OwnPart(Filed(updates, Key(ownerId, sessionId)), ownerId, sessionId))
  {
    if updates != [] {
      var before, u := updates[..|updates| - 1], updates[|updates| - 1];
      var key := Key(ownerId, sessionId);
      TurnsAreOwnPart(before, ownerId, sessionId);
      OwnPartOneMore(Filed(before, key), u, ownerId, sessionId);
      if Belongs(u, ownerId, sessionId) {
        RecordedOneMore(OwnPart(Filed(before, key), ownerId, sessionId), u);
      } else {
        assert Turns(before, ownerId, sessionId) + [] == Turns(before, ownerId, sessionId);
        assert Filed(before, key) + [] == Filed(before, key);
      }
    }
  }

  lemma OwnPartOneMore(updates: seq<Update>, u: Update, ownerId: string, sessionId: string)
    ensures OwnPart(updates + [u], ownerId, sessionId) ==
              OwnPart(updates, ownerId, sessionId) + if Belongs(u, ownerId, sessionId) then [u] else []
    ensures !Belongs(u, ownerId, sessionId) ==>
              OwnPart(updates + [u], ownerId, sessionId) == OwnPart(updates, ownerId, sessionId)
  {
    assert (updates + [u])[..|updates|] == updates;
  }

  lemma {:induction false} RecordedOfAppend(a: seq<Update>, b: seq<Update>)
    ensures Recorded(a + b) == Recorded(a) + Recorded(b) && |Recorded(b)| == |b|
  {
    if b == [] {
      assert a + b == a;
    } else {
      var front, u := b[..|b| - 1], b[|b| - 1];
      assert (a + b)[..|a + b| - 1] == a + front;
      RecordedOfAppend(a, front);
      AppendAssociates(Recorded(a), Recorded(front), [TurnOf(u)]);
    }
  }

  lemma RecordedNewest(updates: seq<Update>, n: nat)
    ensures Newest(Recorded(updates), n) == Recorded(Newest(updates, n))
  {
    if |updates| <= n {
      RecordedOfAppend([], updates);
    } else {
      var front, tail := updates[..|updates| - n], updates[|updates| - n..];
      assert updates == front + tail;
      RecordedOfAppend(front, tail);
      RecordedOfAppend([], front);
    }
  }

  lemma {:induction false} RecordedMembers(updates: seq<Update>, t: TurnMemory)
    ensures t in Recorded(updates) <==> exists u :: u in updates && TurnOf(u) == t
  {
    if updates != [] {
      var front, last := updates[..|updates| - 1], updates[|updates| - 1];
      assert updates == front + [last];
      RecordedMembers(front, t);
    }
  }

  /** If the newest are all the session's own, they are its own newest. */
  lemma OwnNewest(updates: seq<Update>, ownerId: string, sessionId: string, n: nat)
    requires forall u | u in Newest(updates, n) :: Belongs(u, ownerId, sessionId)
    ensures Newest(OwnPart(updates, ownerId, sessionId), n) == Newest(updates, n)
  {
    if |updates| <= n {
      OwnPartOfOwn(updates, ownerId, sessionId);
    } else {
      var front, tail := updates[..|updates| - n], updates[|updates| - n..];
      assert updates == front + tail;
      OwnPartOfAppend(front, tail, ownerId, sessionId);
      OwnPartOfOwn(tail, ownerId, sessionId);
    }
  }

  /** Run ids tell updates apart. */
  predicate DistinctRuns(updates: seq<Update>) {
    forall u, v | u in updates && v in updates && u.runId == v.runId :: u == v
  }

  /** A turn of another session among the newest is not among the session's own. */
  lemma ForeignTurnShows(filed: seq<Update>, ownerId: string, sessionId: string, u: Update, n: nat)
    requires DistinctRuns(filed) && u in Newest(filed, n) && !Belongs(u, ownerId, sessionId)
    ensures Recorded(Newest(filed, n)) != Recorded(Newest(OwnPart(filed, ownerId, sessionId), n))
  {
    var own := Newest(OwnPart(filed, ownerId, sessionId), n);
    RecordedMembers(Newest(filed, n), TurnOf(u));
    RecordedMembers(own, TurnOf(u));
    forall v | v in own
      ensures TurnOf(v) != TurnOf(u)
    {
      OwnPartMembers(filed, ownerId, sessionId, v);
    }
  }

  /**
   A session remembers exactly its own last six turns whenever the last six updates filed under its key are its own;
   where run ids tell the updates apart, exactly then.
   */
  lemma RemembersLastSix(updates: seq<Update>, ownerId: string, sessionId: string)
    ensures var key := Key(ownerId, sessionId);
            var own := forall u | u in Newest(Filed(updates, key), MAX_TURNS) :: Belongs(u, ownerId, sessionId);
            var remembered := TurnsOf(AfterAll(updates), key) == Newest(Turns(updates, ownerId, sessionId), MAX_TURNS);
            && (own ==> remembered)
            && (DistinctRuns(updates) ==> (remembered <==> own))
  {
    var key := Key(ownerId, sessionId);
    var filed := Filed(updates, key);
    KeyRemembersLastSix(updates, key);
    TurnsAreOwnPart(updates, ownerId, sessionId);
    RecordedNewest(filed, MAX_TURNS);
    RecordedNewest(OwnPart(filed, ownerId, sessionId), MAX_TURNS);
    if forall u | u in Newest(filed, MAX_TURNS) :: Belongs(u, ownerId, sessionId) {
      OwnNewest(filed, ownerId, sessionId, MAX_TURNS);
    } else if DistinctRuns(updates) {
      var u :| u in Newest(filed, MAX_TURNS) && !Belongs(u, ownerId, sessionId);
      FiledDistinct(updates, key);
      ForeignTurnShows(filed, ownerId, sessionId, u, MAX_TURNS);
    }
  }

  lemma FiledDistinct(updates: seq<Update>, key: string)
    requires DistinctRuns(updates)
    ensures DistinctRuns(Filed(updates, key))
  {
    forall u | u in Filed(updates, key)
      ensures u in updates
    {
      FiledMembers(updates, key, u);
    }
  }

  /** So it does in every history in which no other session uses its key. */
  lemma OwnKeyRemembers(updates: seq<Update>, ownerId: string, sessionId: string)
    requires KeyIsItsOwn(updates, ownerId, sessionId)
    ensures TurnsOf(AfterAll(updates), Key(ownerId, sessionId)) == Newest(Turns(updates, ownerId, sessionId), MAX_TURNS)
  {
    var key := Key(ownerId, sessionId);
    forall u | u in Newest(Filed(updates, key), MAX_TURNS)
      ensures Belongs(u, ownerId, sessionId)
    {
      FiledMembers(updates, key, u);
    }
    RemembersLastSix(updates, ownerId, sessionId);
  }

  /** That is so whenever no other owner of the history begins with this one and a colon, or the other way round. */
  lemma SeparateOwners(updates: seq<Update>, ownerId: string, sessionId: string)
    requires forall u | u in updates && u.ownerId != ownerId ::
               !(u.ownerId + ":" <= ownerId) && !(ownerId + ":" <= u.ownerId)
    ensures KeyIsItsOwn(updates, ownerId, sessionId)
  {
    forall u | u in updates && Key(u.ownerId, u.sessionId) == Key(ownerId, sessionId)
      ensures u.ownerId == ownerId && u.sessionId == sessionId
    {
      KeysIdentify(u.ownerId, u.sessionId, ownerId, sessionId);
    }
  }

  // ----- What is stored and injected -----

  /** A stored turn keeps its texts within bounds and on one line, when its outcome is on one line. */
  predicate Tidy(turn: TurnMemory) {
    && |turn.prompt| <= MAX_FIELD && '\n' !in turn.prompt
    && (turn.finalText.Some? ==> |turn.finalText.value| <= MAX_FIELD && '\n' !in turn.finalText.value)
  }

  lemma TurnIsTidy(u: Update)
    ensures Tidy(TurnOf(u))
  {
    ClipFits(u.prompt, MAX_FIELD);
    ClipFits(u.result.finalText, MAX_FIELD);
    OneLine(TurnOf(u).prompt);
    OneLine(Clip(u.result.finalText, MAX_FIELD));
  }

  lemma OneLine(s: string)
    requires Collapsed(s)
    ensures '\n' !in s
  {
    assert IsSpace('\n');
  }

  /** Every stored field is within its bound, and every stored memory belongs to the session of its key. */
  lemma {:induction false} StoredFieldsAreBounded(updates: seq<Update>, key: string)
    requires key in AfterAll(updates)
    ensures var m := AfterAll(updates)[key];
            && key == Key(m.ownerId, m.sessionId) && 0 < |m.turns| <= MAX_TURNS
            && m.summary == BuildSummary(m.turns) && forall t | t in m.turns :: Tidy(t)
  {
    var before, u := updates[..|updates| - 1], updates[|updates| - 1];
    if key in AfterAll(before) {
      StoredFieldsAreBounded(before, key);
    }
    TurnIsTidy(u);
    NewestMembers(TurnsOf(AfterAll(before), key), TurnOf(u), MAX_TURNS);
  }

  lemma NewestMembers<T>(s: seq<T>, x: T, n: nat)
    requires n > 0
    ensures 0 < |Newest(s + [x], n)| <= n && forall t | t in Newest(s + [x], n) :: t in s || t == x
  {
  }

  /** A line of the summary has the user's text behind `User:`, and the answer, if there is one, behind `Assistant:`. */
  lemma LineTells(t: TurnMemory, index: nat)
    ensures Line(t, index) ==
              Decimal(index + 1) + ". User: " + t.prompt + " | " + ("Outcome: " + t.outcome)
              + if t.finalText.Some? && t.finalText.value != "" then " | " + ("Assistant: " + t.finalText.value) else ""
  {
    var bits := Bits(t, index);
    var outcome := "Outcome: " + t.outcome;
    assert bits[1..][0] == outcome;
    if t.finalText.Some? && t.finalText.value != "" {
      var answer := "Assistant: " + t.finalText.value;
      assert bits[1..] == [outcome, answer] && bits[1..][1..] == [answer];
      assert Join([answer], " | ") == answer;
      assert Join(bits[1..], " | ") == outcome + " | " + answer;
      JoinThree(bits[0], outcome, answer);
    } else {
      assert bits[1..] == [outcome];
      assert Join([outcome], " | ") == outcome;
    }
  }

  lemma JoinThree(a: string, b: string, c: string)
    ensures a + " | " + (b + " | " + c) == a + " | " + b + (" | " + c)
  {
    AppendAssociates(a + " | ", b, " | " + c);
    AppendAssociates(b, " | ", c);
  }

  lemma {:induction false} LinesAt(turns: seq<TurnMemory>, i: nat)
    requires i < |turns|
    ensures |Lines(turns)| == |turns| && Lines(turns)[i] == Line(turns[i], i)
  {
    var front := turns[..|turns| - 1];
    if front != [] {
      LinesAt(front, if i < |front| then i else 0);
    }
  }

  const HEADING: string := "Previous context for this session:"
  const REQUEST: string := "Current user request:"

  function PromptWithSessionMemory(prompt: string, memory: Option<Memory>): string {
    if memory.None? || memory.value.turns == [] then prompt
    else Join([HEADING, Clip(memory.value.summary, MAX_PROMPT_CONTEXT), "", REQUEST, prompt], "\n")
  }

  lemma JoinFive(a: string, b: string, c: string, d: string, e: string, sep: string)
    ensures Join([a, b, c, d, e], sep) == a + sep + (b + sep + (c + sep + (d + sep + e)))
  {
    var s := [a, b, c, d, e];
    assert s[1..] == [b, c, d, e] && s[1..][1..] == [c, d, e] && s[1..][1..][1..] == [d, e];
    assert [d, e][1..] == [e] && Join([e], sep) == e && Join([d, e], sep) == d + sep + e;
    assert Join([c, d, e], sep) == c + sep + Join([d, e], sep);
    assert Join([b, c, d, e], sep) == b + sep + Join([c, d, e], sep);
  }

  /** A prompt with context in front of it. */
  function Injected(context: string, prompt: string): string {
    "Previous context for this session:\n" + context + "\n\nCurrent user request:\n" + prompt
  }

  lemma InjectedIsJoined(context: string, prompt: string)
    ensures Injected(context, prompt) == HEADING + "\n" + (context + "\n" + ("" + "\n" + (REQUEST + "\n" + prompt)))
    ensures Injected(context, prompt) != prompt
  {
    var front, back := "Previous context for this session:\n", "\n\nCurrent user request:\n";
    assert front == HEADING + "\n" && back == "\n" + ("\n" + (REQUEST + "\n"));
    AppendAssociates(front, context, back + prompt);
    assert Injected(context, prompt) == front + context + (back + prompt);
    assert |Injected(context, prompt)| > |prompt|;
  }

  /** With turns to remember, and only then, a tidy context of at most 2400 characters precedes the prompt. */
  lemma ContextIsInjected(prompt: string, memory: Option<Memory>)
    ensures memory.None? || memory.value.turns == [] <==> PromptWithSessionMemory(prompt, memory) == prompt
    ensures memory.Some? && memory.value.turns != [] ==>
              var context := Clip(memory.value.summary, MAX_PROMPT_CONTEXT);
              && PromptWithSessionMemory(prompt, memory) == Injected(context, prompt)
              && |context| <= 2400 && Collapsed(context) && Trimmed(context)
              && (|memory.value.summary| <= MAX_PROMPT_CONTEXT ==> Inked(context) == Inked(memory.value.summary))
  {
    if memory.Some? && memory.value.turns != [] {
      var summary := memory.value.summary;
      ClipFits(summary, MAX_PROMPT_CONTEXT);
      ClipKeepsInk(summary, MAX_PROMPT_CONTEXT);
      TidyIsShorter(summary);
      var context := Clip(summary, MAX_PROMPT_CONTEXT);
      JoinFive(HEADING, context, "", REQUEST, prompt, "\n");
      InjectedIsJoined(context, prompt);
    }
  }

  lemma {:induction false} CollapseShortens(s: string)
    ensures |Collapse(s)| <= |s|
  {
    if s != "" {
      CollapseShortens(s[..|s| - 1]);
    }
  }

  lemma TidyIsShorter(s: string)
    ensures |Trim(Collapse(s))| <= |s|
  {
    CollapseShortens(s);
    CollapseCollapses(s);
    TrimStartCuts(Collapse(s));
    TrimEndCuts(TrimStart(Collapse(s)));
  }

  /** The summary has one line a turn, exactly when no error code breaks the line. */
  lemma SummaryLines(turns: seq<TurnMemory>)
    requires turns != [] && forall t | t in turns :: Tidy(t)
    ensures Split(BuildSummary(turns), '\n') == Lines(turns) <==> forall t | t in turns :: '\n' !in t.outcome
  {
    if forall t | t in turns :: '\n' !in t.outcome {
      LinesAreLines(turns);
      SplitJoin(Lines(turns), '\n');
    } else {
      var t :| t in turns && '\n' in t.outcome;
      BrokenLine(turns, t);
    }
  }

  lemma {:induction false} BrokenLine(turns: seq<TurnMemory>, t: TurnMemory)
    requires t in turns && '\n' in t.outcome
    ensures exists l :: l in Lines(turns) && '\n' in l
  {
    var last := turns[|turns| - 1];
    if last == t {
      OutcomeInLine(t, |turns| - 1);
      assert Line(t, |turns| - 1) in Lines(turns);
    } else {
      BrokenLine(turns[..|turns| - 1], t);
      var l :| l in Lines(turns[..|turns| - 1]) && '\n' in l;
      assert l in Lines(turns);
    }
  }

  lemma OutcomeInLine(t: TurnMemory, index: nat)
    requires '\n' in t.outcome
    ensures '\n' in Line(t, index)
  {
    var bits := Bits(t, index);
    assert '\n' in bits[1];
    InJoin(bits, 1, " | ", '\n');
  }

  lemma {:induction false} InJoin(parts: seq<string>, i: nat, sep: string, c: char)
    requires i < |parts| && c in parts[i]
    ensures c in Join(parts, sep)
  {
    if |parts| > 1 && i > 0 {
      InJoin(parts[1..], i - 1, sep, c);
    }
  }

  lemma {:induction false} LinesAreLines(turns: seq<TurnMemory>)
    requires forall t | t in turns :: Tidy(t) && '\n' !in t.outcome
    ensures |Lines(turns)| == |turns| && forall l | l in Lines(turns) :: '\n' !in l
  {
    if turns != [] {
      LinesAreLines(turns[..|turns| - 1]);
      LineIsLine(turns[|turns| - 1], |turns| - 1);
    }
  }

  lemma {:induction false} DecimalIsLine(n: nat)
    ensures '\n' !in Decimal(n)
  {
    if n >= 10 {
      DecimalIsLine(n / 10);
    }
  }

  lemma {:induction false} NotInJoin(parts: seq<string>, sep: string, c: char)
    requires c !in sep && forall p | p in parts :: c !in p
    ensures c !in Join(parts, sep)
  {
    if |parts| > 1 {
      NotInJoin(parts[1..], sep, c);
    }
  }

  lemma LineIsLine(t: TurnMemory, index: nat)
    requires Tidy(t) && '\n' !in t.outcome
    ensures '\n' !in Line(t, index)
  {
    DecimalIsLine(index + 1);
    forall p | p in Bits(t, index)
      ensures '\n' !in p
    {
    }
    NotInJoin(Bits(t, index), " | ", '\n');
  }
}
