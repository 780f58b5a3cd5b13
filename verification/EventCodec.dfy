/**
 What the transport writes for a message through the codec (src/server/sse.ts, src/server/http.ts,
 apps/next/src/core/kernel.ts): every name is fit to print. The JSON printer is a parameter.
 */
module EventCodec {
  import opened Text
  import opened Events
  import opened EventStream
  import opened Translator

  type Printer = WireEvent -> string

  function WireName(ev: WireEvent): string {
    match ev
    case RunStarted(_) => "run_started"
    case Engine(ev) => TypeName(ev)
    case Settled(_) => "settled"
    case Unknown(name) => name
  }

  function WireOf(json: Printer, ev: WireEvent): Wire {
    Wire(WireName(ev), json(ev))
  }

  function WiresOf(json: Printer, evs: seq<WireEvent>): seq<Wire> {
    if evs == [] then [] else [WireOf(json, evs[0])] + WiresOf(json, evs[1..])
  }

  /** The JSON text is one object on one line; a name that this build does not know is still a name. */
  predicate Writes(json: Printer, ev: WireEvent) {
    IsJsonObject(json(ev)) && (ev.Unknown? ==> IsToken(ev.name))
  }

  /** The names that the browser narrows by (apps/next/src/core/kernelEvents.ts). */
  const KNOWN: set<string> := {
    "run_started", "settled", "stream_chunk", "final_text", "tool_call", "tool_result", "preview_ready",
    "preview_snapshot_ready", "usage_delta", "child_started", "child_settled", "log", "terminal"
  }

  /** Every name that the kernel writes is one that the browser knows. */
  lemma NamesAreKnown(ev: WireEvent)
    requires !ev.Unknown?
    ensures WireName(ev) in KNOWN
  {
    if ev.Engine? {
      TypeNameIsKnown(ev.ev);
    }
  }

  lemma TypeNameIsKnown(ev: EngineEvent)
    ensures TypeName(ev) in KNOWN
  {
  }

  /** Events of two kinds never share a name. */
  lemma NamesTellApart(a: EngineEvent, b: EngineEvent)
    ensures TypeName(a) == TypeName(b) <==> SameKind(a, b)
    ensures TypeName(a) != "run_started" && TypeName(a) != "settled"
  {
    NameEnds(a);
    NameEnds(b);
  }

  predicate SameKind(a: EngineEvent, b: EngineEvent) {
    match a
    case StreamChunk(_) => b.StreamChunk?
    case ToolCall(_, _, _) => b.ToolCall?
    case ToolResult(_, _, _) => b.ToolResult?
    case ChildStarted(_) => b.ChildStarted?
    case ChildSettled(_, _) => b.ChildSettled?
    case UsageDelta(_, _) => b.UsageDelta?
    case PreviewReady(_, _) => b.PreviewReady?
    case PreviewSnapshotReady(_) => b.PreviewSnapshotReady?
    case FinalText(_) => b.FinalText?
    case Log(_, _, _) => b.Log?
    case Terminal(_, _) => b.Terminal?
  }

  /** The length of a name, and a letter where lengths agree, differ from kind to kind. */
  lemma NameEnds(ev: EngineEvent)
    ensures var name := TypeName(ev);
            match ev
            case StreamChunk(_) => |name| == 12
            case ToolCall(_, _, _) => |name| == 9
            case ToolResult(_, _, _) => |name| == 11 && name[0] == 't'
            case ChildStarted(_) => |name| == 13 && name[6] == 's' && name[7] == 't'
            case ChildSettled(_, _) => |name| == 13 && name[6] == 's' && name[7] == 'e'
            case UsageDelta(_, _) => |name| == 11 && name[0] == 'u'
            case PreviewReady(_, _) => |name| == 13 && name[6] == 'w'
            case PreviewSnapshotReady(_) => |name| == 22
            case FinalText(_) => |name| == 10
            case Log(_, _, _) => |name| == 3
            case Terminal(_, _) => |name| == 8
  {
  }

  predicate Lower(c: char) {
    'a' <= c <= 'z' || c == '_'
  }

  lemma LowerIsToken(name: string)
    requires name != "" && forall c | c in name :: Lower(c)
    ensures IsToken(name)
  {
    assert name[0] in name && name[|name| - 1] in name;
    assert forall c | Lower(c) :: !IsSpace(c) && c != '\n';
  }

  lemma NameIsToken(ev: EngineEvent)
    ensures IsToken(TypeName(ev))
  {
    LowerIsToken(TypeName(ev));
  }

  lemma WireIsPrintable(json: Printer, ev: WireEvent)
    requires Writes(json, ev)
    ensures Printable(WireOf(json, ev))
  {
    match ev
    case RunStarted(_) => LowerIsToken("run_started");
    case Engine(ev) => NameIsToken(ev);
    case Settled(_) => LowerIsToken("settled");
    case Unknown(_) =>
  }

  lemma {:induction false} WiresArePrintable(json: Printer, evs: seq<WireEvent>)
    requires forall ev | ev in evs :: Writes(json, ev)
    ensures forall w | w in WiresOf(json, evs) :: Printable(w)
    ensures Printed(WiresOf(json, evs)) == Expected(json, evs)
  {
    if evs != [] {
      WireIsPrintable(json, evs[0]);
      WiresArePrintable(json, evs[1..]);
      assert WiresOf(json, evs)[1..] == WiresOf(json, evs[1..]);
    }
  }

  function Expected(json: Printer, evs: seq<WireEvent>): seq<Frame> {
    if evs == [] then [] else [Frame(WireName(evs[0]), json(evs[0]))] + Expected(json, evs[1..])
  }

  /** Everything written, printed and cut into any chunks, is read back event for event with nothing left over. */
  method ReadEvents(json: Printer, evs: seq<WireEvent>, chunks: seq<string>)
    returns (frames: seq<Frame>, buf: string)
    requires forall ev | ev in evs :: Writes(json, ev)
    requires Concat(chunks) == SerializeAll(WiresOf(json, evs))
    ensures frames == Expected(json, evs) && buf == ""
  {
    WiresArePrintable(json, evs);
    frames, buf := ReadPrinted(WiresOf(json, evs), chunks);
  }
}
