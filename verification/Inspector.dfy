/**
 The inspector ring of a page (apps/next/src/core/inspector.ts) and the devtools panel that polls it by cursor
 (apps/next/devtools-extension/panel.js).
 */
module Inspector {
  import opened Text

  const RING_MAX := 2000
  const SINCE_LIMIT := 800
  const PANEL_MAX := 4000

  /** `load` stands for the time stamp: it tells the records of one page load from those of another. */
  datatype Rec = Rec(seqNo: nat, data: string, load: nat)

  datatype Page = Page(ring: seq<Rec>, seqNo: nat, load: nat)

  datatype Panel = Panel(records: seq<Rec>, cursor: nat, connected: bool)

  function Tail<T>(s: seq<T>, n: nat): seq<T> {
    if |s| <= n then s else s[|s| - n..]
  }

  // ----- The page -----

  function Emitted(p: Page, data: string): Page {
    var all := p.ring + [Rec(p.seqNo + 1, data, p.load)];
    Page(if |all| > RING_MAX then all[1..] else all, p.seqNo + 1, p.load)
  }

  function Newer(ring: seq<Rec>, cursor: nat): seq<Rec> {
    if ring == [] then []
    else Newer(ring[..|ring| - 1], cursor) + if ring[|ring| - 1].seqNo > cursor then [ring[|ring| - 1]] else []
  }

  function Since(p: Page, cursor: nat): seq<Rec> {
    Tail(Newer(p.ring, cursor), SINCE_LIMIT)
  }

  class InspectorRing {
    var ring: seq<Rec>
    var seqNo: nat
    const load: nat

    ghost function State(): Page
      reads this
    {
      Page(ring, seqNo, load)
    }

    constructor (load: nat)
      ensures State() == Page([], 0, load)
    {
      ring, seqNo, this.load := [], 0, load;
    }

    method Emit(data: string)
      modifies this
      ensures State() == Emitted(old(State()), data)
    {
      seqNo := seqNo + 1;
      ring := ring + [Rec(seqNo, data, load)];
      if |ring| > RING_MAX {
        ring := ring[1..];
      }
    }

    method Clear()
      modifies this`ring
      ensures ring == []
    {
      ring := [];
    }

    method SinceCursor(cursor: nat) returns (out: seq<Rec>)
      ensures out == Since(State(), cursor)
    {
      out := [];
      for i := 0 to |ring|
        invariant out == Newer(ring[..i], cursor)
      {
        assert ring[..i + 1][..i] == ring[..i];
        if ring[i].seqNo > cursor {
          out := out + [ring[i]];
        }
      }
      assert ring[..|ring|] == ring;
      if |out| > SINCE_LIMIT {
        out := out[|out| - SINCE_LIMIT..];
      }
    }
  }

  // ----- The panel -----

  /** The first half of a poll; `None` when the bridge does not answer. */
  function SawHead(p: Panel, head: Option<nat>): Panel {
    if head.None? then p.(connected := false)
    else if !p.connected || head.value < p.cursor then Panel([], 0, true)
    else p
  }

  predicate Asks(p: Panel, head: Option<nat>) {
    head.Some? && head.value > SawHead(p, head).cursor
  }

  /** The second half. */
  function SawRecords(p: Panel, arr: seq<Rec>): Panel {
    if arr == [] then p
    else p.(records := Tail(p.records + arr, PANEL_MAX), cursor := arr[|arr| - 1].seqNo)
  }

  class DevtoolsPanel {
    var records: seq<Rec>
    var cursor: nat
    var connected: bool

    ghost function State(): Panel
      reads this
    {
      Panel(records, cursor, connected)
    }

    constructor ()
      ensures State() == Panel([], 0, false)
    {
      records, cursor, connected := [], 0, false;
    }

    method PollHead(head: Option<nat>) returns (asks: bool)
      modifies this
      ensures State() == SawHead(old(State()), head) && asks == Asks(old(State()), head)
    {
      if head.None? {
        if connected {
          connected := false;
        }
        return false;
      }
      if !connected {
        connected := true;
        cursor := 0;
        records := [];
      }
      if head.value < cursor {
        cursor := 0;
        records := [];
      }
      return head.value > cursor;
    }

    method PollRecords(arr: seq<Rec>)
      modifies this
      ensures State() == SawRecords(old(State()), arr)
    {
      if |arr| > 0 {
        records := records + arr;
        if |records| > PANEL_MAX {
          records := records[|records| - PANEL_MAX..];
        }
        cursor := arr[|arr| - 1].seqNo;
      }
    }

    /** The clear button; the page is told to clear its ring by a separate message. */
    method ClearPressed()
      modifies this`records
      ensures records == []
    {
      records := [];
    }
  }

  // ----- Runs -----

  /** The panel starts over: it was not connected, or the page's numbers are behind its cursor. */
  predicate Resyncs(p: Panel, head: Option<nat>) {
    head.Some? && (!p.connected || head.value < p.cursor)
  }

  /**
   `emitted` is everything the page has emitted since it loaded, `clearedAt` how much of that the last clearing of
   the ring dropped, and `base` how much of it the panel need not show, having been emptied since. The panel really
   shows what it `kept` from earlier loads and then the records from `start` on. `asking` is the pause between the
   two halves of a poll.
   */
  datatype World = World(page: Page, panel: Panel, asking: bool, emitted: seq<Rec>, clearedAt: nat, base: nat,
        kept: seq<Rec>, start: nat)

  datatype Action =
    | Emits(data: string)
    | RingCleared
    | Reloads
    | PollHead(reachable: bool)
    | PollSince(answered: bool)
    | ClearPressed

  const START := World(Page([], 0, 0), Panel([], 0, false), false, [], 0, 0, [], 0)

  function Min(a: nat, b: nat): nat {
    if a <= b then a else b
  }

  function Step(w: World, a: Action): World {
    match a
    case Emits(data) =>
      w.(page := Emitted(w.page, data), emitted := w.emitted + [Rec(w.page.seqNo + 1, data, w.page.load)])
    case RingCleared => w.(page := w.page.(ring := []), clearedAt := |w.emitted|)
    case Reloads =>
      w.(page := Page([], 0, w.page.load + 1), emitted := [], clearedAt := 0, base := 0,
         kept := w.panel.records, start := w.panel.cursor)
    case PollHead(reachable) =>
      if w.asking then w
      else
        var head := if reachable then Some(w.page.seqNo) else None;
        var n := w.(panel := SawHead(w.panel, head), asking := Asks(w.panel, head));
        if Resyncs(w.panel, head) then n.(base := 0, kept := [], start := 0) else n
    case PollSince(answered) =>
      if !w.asking then w
      else w.(panel := if answered then SawRecords(w.panel, Since(w.page, w.panel.cursor)) else w.panel,
          asking := false)
    case ClearPressed =>
      w.(panel := w.panel.(records := []), base := Min(w.panel.cursor, |w.emitted|), kept := [],
         start := w.panel.cursor)
  }

  function Run(actions: seq<Action>): World {
    if actions == [] then START else Step(Run(actions[..|actions| - 1]), actions[|actions| - 1])
  }

  // ----- The ring -----

  /** Numbers are consecutive from 1, and the ring is the newest part of what was emitted since the last clear. */
  ghost predicate RingOk(w: World) {
    && w.page.seqNo == |w.emitted| && w.clearedAt <= |w.emitted|
    && (forall i | 0 <= i < |w.emitted| :: w.emitted[i].seqNo == i + 1 && w.emitted[i].load == w.page.load)
    && w.page.ring == Tail(w.emitted[w.clearedAt..], RING_MAX)
  }

  lemma RingSlides(s: seq<Rec>, r: Rec)
    ensures var all := Tail(s, RING_MAX) + [r];
            (if |all| > RING_MAX then all[1..] else all) == Tail(s + [r], RING_MAX)
  {
  }

  lemma EmittedRing(p: Page, s: seq<Rec>, data: string)
    requires p.ring == Tail(s, RING_MAX)
    ensures Emitted(p, data).ring == Tail(s + [Rec(p.seqNo + 1, data, p.load)], RING_MAX)
  {
    RingSlides(s, Rec(p.seqNo + 1, data, p.load));
  }

  lemma SliceGrows(s: seq<Rec>, r: Rec, from: nat)
    requires from <= |s|
    ensures (s + [r])[from..] == s[from..] + [r]
  {
  }

  lemma EmitRing(w: World, data: string)
    requires RingOk(w)
    ensures RingOk(Step(w, Emits(data)))
  {
    EmittedRing(w.page, w.emitted[w.clearedAt..], data);
    SliceGrows(w.emitted, Rec(w.page.seqNo + 1, data, w.page.load), w.clearedAt);
  }

  lemma {:induction false} RingIsNewest(actions: seq<Action>)
    ensures RingOk(Run(actions))
  {
    if actions != [] {
      var w, a := Run(actions[..|actions| - 1]), actions[|actions| - 1];
      RingIsNewest(actions[..|actions| - 1]);
      if a.Emits? {
        EmitRing(w, a.data);
      }
    }
  }

  /** The ring holds the newest at most 2000 of what was emitted since it was last cleared. */
  lemma RingHoldsNewest(actions: seq<Action>)
    ensures var w := Run(actions);
            w.clearedAt <= |w.emitted| && w.page.ring == Tail(w.emitted[w.clearedAt..], 2000)
  {
    RingIsNewest(actions);
  }

  /** Where the ring begins in what was emitted. */
  function RingFrom(w: World): nat {
    if |w.emitted| >= w.clearedAt + RING_MAX then |w.emitted| - RING_MAX else w.clearedAt
  }

  function Max(a: nat, b: nat): nat {
    if a >= b then a else b
  }

  lemma {:induction false} NewerIsSuffix(ring: seq<Rec>, lo: nat, cursor: nat)
    requires forall i | 0 <= i < |ring| :: ring[i].seqNo == lo + i + 1
    ensures Newer(ring, cursor) ==
              ring[(if cursor <= lo then 0 else if cursor - lo <= |ring| then cursor - lo else |ring|)..]
  {
    if ring != [] {
      var front, last := ring[..|ring| - 1], ring[|ring| - 1];
      NewerIsSuffix(front, lo, cursor);
      assert ring == front + [last];
    }
  }

  /** `since` hands over what was emitted after the cursor, as far as the ring and the limit reach back. */
  lemma SinceIsSuffix(w: World, cursor: nat)
    requires RingOk(w) && cursor <= |w.emitted|
    ensures Since(w.page, cursor) == Tail(w.emitted[Max(cursor, w.clearedAt)..], 800)
  {
    var lo, n := RingFrom(w), |w.emitted|;
    assert w.page.ring == w.emitted[lo..];
    NewerIsSuffix(w.page.ring, lo, cursor);
    assert Newer(w.page.ring, cursor) == w.emitted[Max(cursor, lo)..];
    TailOfTail(w.emitted[Max(cursor, w.clearedAt)..], w.emitted[Max(cursor, lo)..]);
  }

  lemma TailOfTail(longer: seq<Rec>, shorter: seq<Rec>)
    requires longer == shorter
             || (SINCE_LIMIT <= |shorter| <= |longer| && shorter == longer[|longer| - |shorter|..])
    ensures Tail(shorter, SINCE_LIMIT) == Tail(longer, SINCE_LIMIT)
  {
  }

  // ----- The panel's list -----

  predicate Rising(s: seq<Rec>) {
    forall i, j | 0 <= i < j < |s| :: s[i].seqNo < s[j].seqNo
  }

  lemma {:induction false} NewerMembers(ring: seq<Rec>, cursor: nat, r: Rec)
    ensures r in Newer(ring, cursor) <==> r in ring && r.seqNo > cursor
  {
    if ring != [] {
      NewerMembers(ring[..|ring| - 1], cursor, r);
      assert ring == ring[..|ring| - 1] + [ring[|ring| - 1]];
    }
  }

  lemma {:induction false} NewerRises(ring: seq<Rec>, cursor: nat)
    requires Rising(ring)
    ensures Rising(Newer(ring, cursor))
  {
    if ring != [] {
      var front, last := ring[..|ring| - 1], ring[|ring| - 1];
      NewerRises(front, cursor);
      forall i | 0 <= i < |Newer(front, cursor)|
        ensures Newer(front, cursor)[i].seqNo < last.seqNo
      {
        NewerMembers(front, cursor, Newer(front, cursor)[i]);
      }
    }
  }

  /** The list rises, and the cursor is at or past its end. */
  ghost predicate PanelOk(p: Panel) {
    Rising(p.records) && forall r | r in p.records :: r.seqNo <= p.cursor
  }

  lemma RecordsKeep(p: Panel, arr: seq<Rec>)
    requires PanelOk(p) && Rising(arr) && forall r | r in arr :: r.seqNo > p.cursor
    ensures PanelOk(SawRecords(p, arr))
  {
    if arr != [] {
      var all := p.records + arr;
      forall i, j | 0 <= i < j < |all|
        ensures all[i].seqNo < all[j].seqNo
      {
        if i < |p.records| {
          assert p.records[i] in p.records;
        }
      }
      assert arr[|arr| - 1] in arr;
      assert forall r | r in all :: r.seqNo <= arr[|arr| - 1].seqNo;
    }
  }

  lemma PollKeeps(w: World)
    requires RingOk(w) && PanelOk(w.panel)
    ensures PanelOk(SawRecords(w.panel, Since(w.page, w.panel.cursor)))
  {
    var newer := Newer(w.page.ring, w.panel.cursor);
    assert Rising(w.page.ring);
    NewerRises(w.page.ring, w.panel.cursor);
    forall r | r in Tail(newer, SINCE_LIMIT)
      ensures r.seqNo > w.panel.cursor
    {
      NewerMembers(w.page.ring, w.panel.cursor, r);
    }
    RecordsKeep(w.panel, Since(w.page, w.panel.cursor));
  }

  /** In every run, reloads and clears included, the panel's list has strictly increasing sequence numbers. */
  lemma {:induction false} PanelRises(actions: seq<Action>)
    ensures PanelOk(Run(actions).panel)
  {
    if actions != [] {
      var before := actions[..|actions| - 1];
      PanelRises(before);
      RingIsNewest(before);
      PollKeeps(Run(before));
    }
  }

  /** The panel shows the newest records, at most 4000, among those emitted since its list was emptied and polled. */
  ghost predicate InStep(w: World) {
    && w.base <= w.panel.cursor <= |w.emitted|
    && w.panel.records == Tail(w.emitted[w.base..w.panel.cursor], PANEL_MAX)
  }

  /** More arrived since the cursor than one poll hands over, or a clearing dropped some of it. */
  predicate Loses(w: World) {
    w.clearedAt < |w.emitted| && (|w.emitted| - w.panel.cursor > SINCE_LIMIT || w.clearedAt > w.panel.cursor)
  }

  lemma TailAppend<T>(x: seq<T>, y: seq<T>, n: nat)
    ensures Tail(Tail(x, n) + y, n) == Tail(x + y, n)
  {
  }

  /** What a poll that loses nothing hands over is all that came after the cursor. */
  lemma CatchUpSince(w: World)
    requires RingOk(w) && w.panel.cursor <= |w.emitted| && !Loses(w) && w.clearedAt < |w.emitted|
    ensures Since(w.page, w.panel.cursor) == w.emitted[w.panel.cursor..]
  {
    SinceIsSuffix(w, w.panel.cursor);
  }

  /** A list that misses the record just before `arr` is not the newest part of `all`. */
  lemma GapShows(had: seq<Rec>, arr: seq<Rec>, all: seq<Rec>, cursor: nat)
    requires |arr| < |all| && |arr| < PANEL_MAX
    requires had != [] ==> had[|had| - 1].seqNo <= cursor
    requires all[|all| - 1 - |arr|].seqNo > cursor
    ensures Tail(had + arr, PANEL_MAX) != Tail(all, PANEL_MAX)
  {
    var list, shown := Tail(had + arr, PANEL_MAX), Tail(all, PANEL_MAX);
    assert shown[|shown| - 1 - |arr|] == all[|all| - 1 - |arr|];
    if had != [] {
      assert list[|list| - 1 - |arr|] == had[|had| - 1];
    }
  }

  lemma LastOfTail(s: seq<Rec>, n: nat)
    requires s != [] && n > 0
    ensures Tail(s, n) != [] && Tail(s, n)[|Tail(s, n)| - 1] == s[|s| - 1]
  {
  }

  /** What a losing poll hands over ends with the newest record and leaves something out before it. */
  lemma SinceGap(w: World)
    requires RingOk(w) && w.panel.cursor <= |w.emitted| && Loses(w)
    ensures var arr := Since(w.page, w.panel.cursor);
            && 0 < |arr| <= SINCE_LIMIT && |arr| < |w.emitted| - w.panel.cursor
            && arr[|arr| - 1].seqNo == |w.emitted|
  {
    SinceIsSuffix(w, w.panel.cursor);
    LastOfTail(w.emitted[Max(w.panel.cursor, w.clearedAt)..], SINCE_LIMIT);
  }

  /** After a losing poll the list is not the newest part of anything that ends with all records from `from` on. */
  lemma PollSkips(w: World, front: seq<Rec>, from: nat)
    requires RingOk(w) && PanelOk(w.panel) && from <= w.panel.cursor <= |w.emitted| && Loses(w)
    ensures var after := SawRecords(w.panel, Since(w.page, w.panel.cursor));
            after.cursor == |w.emitted| && after.records != Tail(front + w.emitted[from..], PANEL_MAX)
  {
    var arr, all := Since(w.page, w.panel.cursor), front + w.emitted[from..];
    SinceGap(w);
    assert all[|all| - 1 - |arr|] == w.emitted[|w.emitted| - 1 - |arr|];
    if w.panel.records != [] {
      assert w.panel.records[|w.panel.records| - 1] in w.panel.records;
    }
    GapShows(w.panel.records, arr, all, w.panel.cursor);
  }

  // ----- Reloads -----

  /** The panel carries on across a reload that it has not noticed. */
  predicate Unnoticed(w: World) {
    w.kept != [] || w.start != w.base
  }

  /** What the panel has taken in of this load. */
  function Taken(w: World): seq<Rec>
    requires w.start <= w.panel.cursor
  {
    if w.panel.cursor <= |w.emitted| then w.emitted[w.start..w.panel.cursor] else []
  }

  /** In whatever world, the list is what was kept and what was taken in since, as far as it goes. */
  ghost predicate Tracks(w: World) {
    && w.base <= w.start <= w.panel.cursor && w.base <= |w.emitted|
    && (w.kept != [] ==> w.base < w.start)
    && (w.panel.cursor > |w.emitted| ==> w.start == w.panel.cursor)
    && (w.panel.cursor == 0 ==> w.panel.records == [])
    && w.panel.records == Tail(w.kept + Taken(w), PANEL_MAX)
    && forall r | r in w.kept :: r.load < w.page.load
  }

  /**
   The list is right exactly when no unnoticed reload stands behind it, or so many records came after the reload
   that nothing older fits any more.
   */
  lemma RightExactly(w: World)
    requires RingOk(w) && Tracks(w)
    ensures InStep(w) <==> w.panel.cursor <= |w.emitted| && (!Unnoticed(w) || w.panel.cursor - w.start >= PANEL_MAX)
  {
    if w.panel.cursor <= |w.emitted| {
      var right, taken := w.emitted[w.base..w.panel.cursor], Taken(w);
      var gap := w.emitted[w.base..w.start];
      assert right == gap + taken;
      if |taken| >= PANEL_MAX {
        LongTail(gap, taken);
        LongTail(w.kept, taken);
      } else if Unnoticed(w) {
        assert gap[|gap| - 1] == w.emitted[w.start - 1];
        assert w.kept != [] ==> w.kept[|w.kept| - 1] in w.kept;
        StrangerShows(w.kept, gap, taken);
      } else {
        assert gap == [] && w.kept + taken == taken && gap + taken == taken;
      }
    }
  }

  lemma LongTail(front: seq<Rec>, taken: seq<Rec>)
    requires |taken| >= PANEL_MAX
    ensures Tail(front + taken, PANEL_MAX) == Tail(taken, PANEL_MAX)
  {
  }

  /** A short list shows what stands before it. */
  lemma StrangerShows(kept: seq<Rec>, gap: seq<Rec>, taken: seq<Rec>)
    requires |taken| < PANEL_MAX && gap != []
    requires kept != [] ==> kept[|kept| - 1] != gap[|gap| - 1]
    ensures Tail(kept + taken, PANEL_MAX) != Tail(gap + taken, PANEL_MAX)
  {
    var list, right := Tail(kept + taken, PANEL_MAX), Tail(gap + taken, PANEL_MAX);
    assert right[|right| - 1 - |taken|] == gap[|gap| - 1];
    if kept != [] {
      assert list[|list| - 1 - |taken|] == kept[|kept| - 1];
    }
  }

  lemma ReloadTracks(w: World)
    requires RingOk(w) && Tracks(w)
    ensures Tracks(Step(w, Reloads))
  {
    var n := Step(w, Reloads);
    forall r | r in w.panel.records
      ensures r.load <= w.page.load
    {
      assert r in w.kept + Taken(w);
    }
    assert n.kept + [] == n.kept;
    assert |w.panel.records| <= PANEL_MAX;
  }

  lemma EmitTracks(w: World, data: string)
    requires RingOk(w) && Tracks(w)
    ensures Tracks(Step(w, Emits(data)))
  {
    var n := Step(w, Emits(data));
    if w.panel.cursor <= |w.emitted| {
      assert n.emitted[w.start..w.panel.cursor] == w.emitted[w.start..w.panel.cursor];
    } else {
      assert Taken(n) == [];
    }
  }

  lemma {:induction false} NewerIsNone(ring: seq<Rec>, cursor: nat)
    requires forall r | r in ring :: r.seqNo <= cursor
    ensures Newer(ring, cursor) == []
  {
    if ring != [] {
      assert ring == ring[..|ring| - 1] + [ring[|ring| - 1]];
      NewerIsNone(ring[..|ring| - 1], cursor);
    }
  }

  lemma PollTakesAll(w: World)
    requires RingOk(w) && Tracks(w) && w.asking && w.panel.cursor <= |w.emitted|
    requires !Loses(w) && w.clearedAt < |w.emitted|
    ensures Tracks(Step(w, PollSince(true))) && Step(w, PollSince(true)).panel.cursor == |w.emitted|
  {
    var c := w.panel.cursor;
    CatchUpSince(w);
    TailAppend(w.kept + w.emitted[w.start..c], w.emitted[c..], PANEL_MAX);
    AppendAssociates(w.kept, w.emitted[w.start..c], w.emitted[c..]);
    assert w.emitted[w.start..c] + w.emitted[c..] == w.emitted[w.start..];
    assert w.emitted[w.start..|w.emitted|] == w.emitted[w.start..];
  }

  lemma PollAhead(w: World)
    requires RingOk(w) && Tracks(w) && w.asking && w.panel.cursor > |w.emitted|
    ensures Tracks(Step(w, PollSince(true)))
  {
    NewerIsNone(w.page.ring, w.panel.cursor);
  }

  lemma PollLosesTrack(w: World)
    requires RingOk(w) && PanelOk(w.panel) && Tracks(w) && w.asking && Loses(w) && w.panel.cursor <= |w.emitted|
    ensures !Tracks(Step(w, PollSince(true)))
  {
    PollSkips(w, w.kept, w.start);
    assert w.emitted[w.start..|w.emitted|] == w.emitted[w.start..];
  }

  lemma PollTakesNothing(w: World)
    requires RingOk(w) && Tracks(w) && w.asking && w.panel.cursor <= |w.emitted|
    requires !Loses(w) && w.clearedAt >= |w.emitted|
    ensures Tracks(Step(w, PollSince(true)))
  {
    SinceIsSuffix(w, w.panel.cursor);
  }

  /** A poll keeps track of what it shows exactly when it does not lose anything. */
  lemma PollTracks(w: World)
    requires RingOk(w) && PanelOk(w.panel) && Tracks(w) && w.asking
    ensures Tracks(Step(w, PollSince(true))) <==> !Loses(w)
  {
    if w.panel.cursor > |w.emitted| {
      PollAhead(w);
    } else if Loses(w) {
      PollLosesTrack(w);
    } else if w.clearedAt < |w.emitted| {
      PollTakesAll(w);
    } else {
      PollTakesNothing(w);
    }
  }

  lemma LosingPollIsWrong(w: World)
    requires RingOk(w) && PanelOk(w.panel) && w.base <= w.panel.cursor <= |w.emitted| && w.asking && Loses(w)
    ensures !InStep(Step(w, PollSince(true)))
  {
    PollSkips(w, [], w.base);
    assert [] + w.emitted[w.base..] == w.emitted[w.base..];
    assert w.emitted[w.base..|w.emitted|] == w.emitted[w.base..];
  }

  lemma PollFrame(w: World)
    ensures var n := Step(w, PollSince(true));
            && n.emitted == w.emitted && n.page == w.page && n.base == w.base && n.kept == w.kept && n.start == w.start
            && n.clearedAt == w.clearedAt
  {
  }

  /**
   A poll leaves the list right exactly when it does not lose anything and no unnoticed reload stands behind the list
   or nothing older than the reload fits any more.
   */
  lemma PollIsExact(w: World)
    requires RingOk(w) && PanelOk(w.panel) && Tracks(w) && w.asking
    ensures var n := Step(w, PollSince(true));
            InStep(n) <==>
              && !Loses(w) && n.panel.cursor <= |w.emitted|
              && (!Unnoticed(w) || n.panel.cursor - w.start >= PANEL_MAX)
  {
    PollFrame(w);
    if Loses(w) {
      LosingPollIsWrong(w);
    } else {
      PollTracks(w);
      RightExactly(Step(w, PollSince(true)));
    }
  }

  /** A poll of a list that is right keeps it right exactly when it does not lose anything. */
  lemma RightPollIsExact(w: World)
    requires RingOk(w) && PanelOk(w.panel) && InStep(w) && w.asking
    ensures InStep(Step(w, PollSince(true))) <==> !Loses(w)
  {
    if Loses(w) {
      LosingPollIsWrong(w);
    } else {
      var plain := w.(kept := [], start := w.base);
      assert plain.kept + Taken(plain) == w.emitted[w.base..w.panel.cursor];
      PollTracks(plain);
      RightExactly(Step(plain, PollSince(true)));
    }
  }

  lemma ClearTracks(w: World)
    requires RingOk(w) && Tracks(w)
    ensures Tracks(Step(w, ClearPressed))
  {
    var n := Step(w, ClearPressed);
    assert Taken(n) == [] && n.kept + Taken(n) == [];
  }

  lemma HeadTracks(w: World, reachable: bool)
    requires RingOk(w) && Tracks(w)
    ensures Tracks(Step(w, PollHead(reachable)))
  {
    var n := Step(w, PollHead(reachable));
    assert n.panel == Panel([], 0, true) ==> Taken(n) == w.emitted[n.start..0];
    assert Taken(n) == Taken(w) || n.start == n.panel.cursor == 0;
  }

  // ----- Whole runs -----

  /** No poll of the run loses anything. */
  predicate Gentle(actions: seq<Action>) {
    actions == [] ||
    (var before, a := actions[..|actions| - 1], actions[|actions| - 1];
     Gentle(before) && (a == PollSince(true) && Run(before).asking ==> !Loses(Run(before))))
  }

  lemma {:induction false} GentleTracks(actions: seq<Action>)
    requires Gentle(actions)
    ensures Tracks(Run(actions))
  {
    if actions != [] {
      var before, a := actions[..|actions| - 1], actions[|actions| - 1];
      var w := Run(before);
      GentleTracks(before);
      RingIsNewest(before);
      PanelRises(before);
      match a
      case Emits(data) => EmitTracks(w, data);
      case RingCleared =>
      case Reloads => ReloadTracks(w);
      case PollHead(reachable) => HeadTracks(w, reachable);
      case PollSince(answered) =>
        if answered && w.asking {
          PollTracks(w);
        }
      case ClearPressed => ClearTracks(w);
    }
  }

  /**
   Over every run without a losing poll, whatever reloads and clears it has, the list is exact up to the cursor
   exactly when no unnoticed reload stands behind it or nothing older than the reload fits any more.
   */
  lemma PanelIsExact(actions: seq<Action>)
    requires Gentle(actions)
    ensures var w := Run(actions);
            InStep(w) <==> w.panel.cursor <= |w.emitted| && (!Unnoticed(w) || w.panel.cursor - w.start >= PANEL_MAX)
  {
    GentleTracks(actions);
    RingIsNewest(actions);
    RightExactly(Run(actions));
  }

  /** A reload goes unnoticed from the moment it happens, unless the panel has not taken in a record yet. */
  lemma ReloadIsUnnoticed(w: World)
    requires RingOk(w) && Tracks(w)
    ensures Unnoticed(Step(w, Reloads)) <==> w.panel.cursor > 0
    ensures InStep(Step(w, Reloads)) <==> w.panel.cursor == 0
  {
    ReloadTracks(w);
    RightExactly(Step(w, Reloads));
  }

  /**
   The first half of a poll notices it exactly when it finds the panel disconnected or the page's numbers behind the
   cursor; the list is then right again.
   */
  lemma ReloadIsNoticed(w: World)
    requires RingOk(w) && Tracks(w) && Unnoticed(w) && !w.asking
    ensures var n := Step(w, PollHead(true));
            && (!Unnoticed(n) <==> !w.panel.connected || w.page.seqNo < w.panel.cursor)
            && (!Unnoticed(n) ==> InStep(n))
  {
    var n := Step(w, PollHead(true));
    if !w.panel.connected || w.page.seqNo < w.panel.cursor {
      assert n.emitted[0..0] == [];
    }
  }

  /** The clear button makes the list right exactly when the page's numbers have reached the cursor. */
  lemma ClearSettles(w: World)
    requires RingOk(w) && Tracks(w)
    ensures InStep(Step(w, ClearPressed)) <==> w.panel.cursor <= |w.emitted|
  {
    ClearTracks(w);
    RightExactly(Step(w, ClearPressed));
  }

  /** Short of that, or of the clear button, nothing else changes whether a reload is unnoticed. */
  lemma OnlyThen(w: World, a: Action)
    requires RingOk(w) && Tracks(w)
    requires !a.Reloads? && !a.ClearPressed?
    requires !(a == PollHead(true) && !w.asking && (!w.panel.connected || w.page.seqNo < w.panel.cursor))
    ensures Unnoticed(Step(w, a)) <==> Unnoticed(w)
  {
  }

  lemma {:induction false} NothingCleared(actions: seq<Action>)
    requires RingCleared !in actions && ClearPressed !in actions
    ensures Run(actions).clearedAt == 0 && Run(actions).base == 0
  {
    if actions != [] {
      assert actions[|actions| - 1] in actions;
      NothingCleared(actions[..|actions| - 1]);
    }
  }

  lemma {:induction false} NoReload(actions: seq<Action>)
    requires Reloads !in actions && RingCleared !in actions && ClearPressed !in actions
    ensures !Unnoticed(Run(actions)) && Run(actions).panel.cursor <= |Run(actions).emitted|
  {
    if actions != [] {
      var before, a := actions[..|actions| - 1], actions[|actions| - 1];
      assert a in actions;
      NoReload(before);
      RingIsNewest(before);
      if a.PollSince? {
        SinceIsSuffix(Run(before), Run(before).panel.cursor);
      }
    }
  }

  /**
   With nothing cleared and at most 800 records since the cursor, a completed poll leaves the panel with exactly the
   newest at most 4000 records emitted, exactly when no unnoticed reload stands behind it or 4000 came after that.
   */
  lemma PolledListIsNewest(actions: seq<Action>)
    requires Gentle(actions) && RingCleared !in actions && ClearPressed !in actions
    requires var w := Run(actions); w.asking && |w.emitted| - w.panel.cursor <= SINCE_LIMIT
    ensures var w := Run(actions);
            var n := Step(w, PollSince(true));
            n.panel.cursor == |w.emitted| && n.panel.records == Tail(w.emitted, PANEL_MAX) <==>
              w.panel.cursor <= |w.emitted| && (!Unnoticed(w) || |w.emitted| - w.start >= PANEL_MAX)
  {
    var w := Run(actions);
    GentleTracks(actions);
    RingIsNewest(actions);
    PanelRises(actions);
    NothingCleared(actions);
    NewestPoll(w);
  }

  lemma NewestPoll(w: World)
    requires RingOk(w) && PanelOk(w.panel) && Tracks(w) && w.clearedAt == 0 && w.base == 0
    requires w.asking && |w.emitted| - w.panel.cursor <= SINCE_LIMIT
    ensures var n := Step(w, PollSince(true));
            n.panel.cursor == |w.emitted| && n.panel.records == Tail(w.emitted, PANEL_MAX) <==>
              w.panel.cursor <= |w.emitted| && (!Unnoticed(w) || |w.emitted| - w.start >= PANEL_MAX)
  {
    PollFrame(w);
    PollIsExact(w);
    assert w.emitted[0..|w.emitted|] == w.emitted;
    if w.panel.cursor > |w.emitted| {
      NewerIsNone(w.page.ring, w.panel.cursor);
    } else if w.emitted != [] {
      PollTakesAll(w);
    } else {
      SinceIsSuffix(w, w.panel.cursor);
    }
  }

  // ----- A whole poll -----

  /** A head poll that reaches the page asks for records exactly when the page is ahead of the panel's cursor. */
  lemma PollAsks(w: World)
    requires !w.asking
    ensures var n := Step(w, PollHead(true));
            && n.panel.connected && (n.asking <==> n.page.seqNo > n.panel.cursor)
            && n.panel.cursor == if w.panel.connected && w.panel.cursor <= w.page.seqNo then w.panel.cursor else 0
    ensures !Step(w, PollHead(false)).asking && !Step(w, PollHead(false)).panel.connected
  {
  }

  function FullPoll(w: World): World {
    Step(Step(w, PollHead(true)), PollSince(true))
  }

  /** A whole poll that finds a record in the ring brings the cursor to the newest one, however many there are. */
  lemma FullPollCatchesUp(w: World)
    requires RingOk(w) && !w.asking && w.clearedAt < |w.emitted|
    ensures !FullPoll(w).asking && FullPoll(w).panel.cursor == |w.emitted|
  {
    var h := Step(w, PollHead(true));
    PollAsks(w);
    if h.asking {
      SinceIsSuffix(h, h.panel.cursor);
      LastOfTail(h.emitted[Max(h.panel.cursor, h.clearedAt)..], SINCE_LIMIT);
    }
  }

  /**
   Over every run with nothing cleared and no losing poll, a whole poll with at most 800 records since the cursor
   leaves the panel with exactly the newest at most 4000 records emitted, unless a reload is still unnoticed.
   */
  lemma FullPollIsNewest(actions: seq<Action>)
    requires Gentle(actions) && RingCleared !in actions && ClearPressed !in actions && !Run(actions).asking
    requires var h := Step(Run(actions), PollHead(true)); |h.emitted| - h.panel.cursor <= 800
    ensures var w := Run(actions);
            var h, n := Step(w, PollHead(true)), FullPoll(w);
            && !n.asking && n.panel.cursor == |w.emitted|
            && (n.panel.records == Tail(w.emitted, 4000) <==> !Unnoticed(h) || |w.emitted| - h.start >= 4000)
  {
    var w := Run(actions);
    var h := Step(w, PollHead(true));
    GentleTracks(actions);
    RingIsNewest(actions);
    PanelRises(actions);
    NothingCleared(actions);
    PollAsks(w);
    HeadTracks(w, true);
    if h.asking {
      FullPollCatchesUp(w);
      NewestPoll(h);
    } else {
      CaughtUpAlready(h);
    }
  }

  lemma CaughtUpAlready(w: World)
    requires RingOk(w) && Tracks(w) && w.base == 0 && !w.asking && w.page.seqNo == w.panel.cursor
    ensures Step(w, PollSince(true)) == w && w.panel.cursor == |w.emitted|
    ensures w.panel.records == Tail(w.emitted, 4000) <==> !Unnoticed(w) || |w.emitted| - w.start >= 4000
  {
    RightExactly(w);
    assert w.emitted[0..|w.emitted|] == w.emitted;
  }
}
