/**
 The backend side of correlation: one result per payload item, in input order,
 with the item's id. An exception stays with its item, but three things do not:
 an empty prompt, which makes the backend refuse the whole payload; a reply it
 cannot write as JSON; and a reply that is not text, which the sidecar cannot read.
 */
module PythonBackend {
  import opened Fanout

  /**
   What a JSON reply holds under "response": text, nothing (absent or null),
   another value, or one the backend can read but not write again, such as NaN or
   text with a lone surrogate.
   */
  datatype Value = Text(text: string) | Nothing | NotText | Unencodable

  /** A call to the model runtime either raises or returns a JSON object. */
  datatype Reply = Raised(kind: string, message: string) | Replied(response: Value)

  datatype Runtime = Runtime(defaultModel: string, decode: Bytes -> string, generate: (string, string) -> Reply)

  /** An entry of the response body as the backend writes it. */
  datatype Entry = Entry(id: string, output: Value, error: string)

  /** The runtime's reply to an item. */
  function ReplyTo(rt: Runtime, req: Item): Reply {
    var model := if req.model != "" then req.model else rt.defaultModel;
    rt.generate(model, rt.decode(req.input))
  }

  function CallOllama(rt: Runtime, req: Item): Entry {
    match ReplyTo(rt, req)
    case Replied(response) => Entry(req.id, response, "")
    case Raised(kind, message) => Entry(req.id, Text(""), kind + ": " + message)
  }

  function Infer(rt: Runtime, payload: seq<Item>): seq<Entry> {
    seq(|payload|, i requires 0 <= i < |payload| => CallOllama(rt, payload[i]))
  }

  // ---------- The exchange ----------

  predicate Any(payload: seq<Item>, fails: Item -> bool) {
    exists a :: 0 <= a < |payload| && fails(payload[a])
  }

  /** The sidecar holds an empty prompt as nil, writes it as null, and the backend's schema refuses that. */
  function EmptyPrompt(): Item -> bool {
    (req: Item) => req.input == []
  }

  function GotUnencodable(rt: Runtime): Item -> bool {
    (req: Item) => ReplyTo(rt, req).Replied? && ReplyTo(rt, req).response.Unencodable?
  }

  function GotNoText(rt: Runtime): Item -> bool {
    (req: Item) => ReplyTo(rt, req).Replied? && ReplyTo(rt, req).response.NotText?
  }

  /** An absent or null output is read as the empty string. */
  function DecodedEntry(e: Entry): SingleResult {
    SingleResult(e.id, if e.output.Text? then e.output.text else "", e.error)
  }

  /** The sidecar declares the output field as text: one entry with anything else spoils the body. */
  function DecodeBody(entries: seq<Entry>): Option<seq<SingleResult>> {
    if exists i :: 0 <= i < |entries| && entries[i].output.NotText? then None
    else Some(seq(|entries|, i requires 0 <= i < |entries| => DecodedEntry(entries[i])))
  }

  /** Texts the model does not compute: refusal of a payload, server error, the sidecar's decoding error. */
  datatype Notes = Notes(refusal: string, crash: string, complaint: string)

  function Serve(rt: Runtime, notes: Notes): Backend {
    (payload: seq<Item>) =>
      if Any(payload, EmptyPrompt()) then Response(422, notes.refusal, None)
      else if Any(payload, GotUnencodable(rt)) then Response(500, notes.crash, None)
      else Response(200, notes.complaint, DecodeBody(Infer(rt, payload)))
  }

  // ---------- Correlation ----------

  lemma {:induction false} InOrderSelect(entries: seq<SingleResult>, payload: seq<Item>, id: string)
    requires |entries| == |payload| && forall i :: 0 <= i < |payload| ==> entries[i].id == payload[i].id
    ensures |Select(entries, id)| == |Positions(IdsOf(payload), id)|
    ensures forall k :: 0 <= k < |Positions(IdsOf(payload), id)| ==>
      Positions(IdsOf(payload), id)[k] < |payload| &&
      Select(entries, id)[k] == entries[Positions(IdsOf(payload), id)[k]]
  {
    if payload != [] {
      var n := |payload| - 1;
      InOrderSelect(entries[..n], payload[..n], id);
      assert IdsOf(payload)[..n] == IdsOf(payload[..n]);
    }
  }

  /** With one id-preserving entry per item in input order, request i receives entry i, even when ids repeat. */
  lemma InputOrderIsOwnEntry(entries: seq<SingleResult>, payload: seq<Item>, latencyMs: int, i: nat)
    requires |entries| == |payload| && forall j :: 0 <= j < |payload| ==> entries[j].id == payload[j].id
    requires i < |payload|
    ensures Pairing(IdsOf(payload), entries, latencyMs)[i] == ResultOf(entries[i], latencyMs)
  {
    InOrderSelect(entries, payload, payload[i].id);
    RankIsPosition(IdsOf(payload), i);
  }

  predicate Readable(reply: Reply) {
    reply.Replied? ==> reply.response.Text? || reply.response.Nothing?
  }

  /** What an item is due, given the reply to its own prompt. */
  function Due(reply: Reply, latencyMs: int): Result
    requires Readable(reply)
  {
    match reply
    case Raised(kind, message) => Error(BackendItem(kind + ": " + message))
    case Replied(response) => Success(if response.Text? then response.text else "", latencyMs)
  }

  lemma UndecodableIff(rt: Runtime, payload: seq<Item>)
    ensures DecodeBody(Infer(rt, payload)).None? <==> Any(payload, GotNoText(rt))
  {
    forall a | 0 <= a < |payload|
      ensures Infer(rt, payload)[a].output.NotText? <==> GotNoText(rt)(payload[a])
    {
    }
  }

  /** A decoded body gives every item its due. */
  lemma DecodedGivesDue(rt: Runtime, payload: seq<Item>, latencyMs: int, i: nat)
    requires i < |payload| && DecodeBody(Infer(rt, payload)).Some?
    requires !GotUnencodable(rt)(payload[i]) && !GotNoText(rt)(payload[i])
    ensures Readable(ReplyTo(rt, payload[i]))
    ensures Pairing(IdsOf(payload), DecodeBody(Infer(rt, payload)).value, latencyMs)[i]
      == Due(ReplyTo(rt, payload[i]), latencyMs)
  {
    InputOrderIsOwnEntry(DecodeBody(Infer(rt, payload)).value, payload, latencyMs, i);
  }

  /** End to end over one payload: own outcome for everyone, or one error for everyone. */
  lemma EachItemGetsItsOwnOutcome(rt: Runtime, notes: Notes, payload: seq<Item>, latencyMs: int, i: nat)
    requires i < |payload|
    ensures var r := Resolve(payload, Serve(rt, notes)(payload), latencyMs)[i];
      if Any(payload, EmptyPrompt()) then r == Error(Unavailable(notes.refusal))
      else if Any(payload, GotUnencodable(rt)) then r == Error(Unavailable(notes.crash))
      else if Any(payload, GotNoText(rt)) then r == Error(ResponseInvalid(notes.complaint))
      else Readable(ReplyTo(rt, payload[i])) && r == Due(ReplyTo(rt, payload[i]), latencyMs)
  {
    UndecodableIff(rt, payload);
    if !Any(payload, GotUnencodable(rt)) && !Any(payload, GotNoText(rt)) {
      DecodedGivesDue(rt, payload, latencyMs, i);
    }
  }

  // ---------- A whole batch ----------

  ghost predicate AnyLive(items: seq<Item>, ctxErr: seq<Option<string>>, fails: Item -> bool)
    requires |items| == |ctxErr|
  {
    exists j :: 0 <= j < |items| && ctxErr[j].None? && fails(items[j])
  }

  lemma AnyLiveIsInPayload(items: seq<Item>, ctxErr: seq<Option<string>>, fails: Item -> bool)
    requires |items| == |ctxErr|
    ensures AnyLive(items, ctxErr, fails) <==> Any(Payload(items, ctxErr), fails)
  {
    PayloadIsLive(items, ctxErr);
    if j :| 0 <= j < |items| && ctxErr[j].None? && fails(items[j]) {
      LiveRank(ctxErr, j);
      assert Payload(items, ctxErr)[|Live(ctxErr[..j])|] == items[j];
    }
  }

  lemma TroubleOrDue(rt: Runtime, notes: Notes, items: seq<Item>, ctxErr: seq<Option<string>>,
                     latencyMs: int, i: nat)
    requires |items| == |ctxErr| && i < |items| && ctxErr[i].None?
    ensures var r := FlushOutcome(items, ctxErr, Serve(rt, notes), latencyMs)[i];
      if AnyLive(items, ctxErr, EmptyPrompt()) then r == Error(Unavailable(notes.refusal))
      else if AnyLive(items, ctxErr, GotUnencodable(rt)) then r == Error(Unavailable(notes.crash))
      else if AnyLive(items, ctxErr, GotNoText(rt)) then r == Error(ResponseInvalid(notes.complaint))
      else Readable(ReplyTo(rt, items[i])) && r == Due(ReplyTo(rt, items[i]), latencyMs)
  {
    LiveRank(ctxErr, i);
    AnyLiveIsInPayload(items, ctxErr, EmptyPrompt());
    AnyLiveIsInPayload(items, ctxErr, GotUnencodable(rt));
    AnyLiveIsInPayload(items, ctxErr, GotNoText(rt));
    EachItemGetsItsOwnOutcome(rt, notes, Payload(items, ctxErr), latencyMs, |Live(ctxErr[..i])|);
  }

  /** Some live request's prompt, put to its own model or the default one, is answered with this value. */
  ghost predicate AnyLiveAnswered(rt: Runtime, items: seq<Item>, ctxErr: seq<Option<string>>, value: Value)
    requires |items| == |ctxErr|
  {
    exists j :: 0 <= j < |items| && ctxErr[j].None? &&
      rt.generate(if items[j].model != "" then items[j].model else rt.defaultModel, rt.decode(items[j].input))
        == Replied(value)
  }

  lemma AnsweredIsTrouble(rt: Runtime, items: seq<Item>, ctxErr: seq<Option<string>>)
    requires |items| == |ctxErr|
    ensures AnyLiveAnswered(rt, items, ctxErr, Unencodable) <==> AnyLive(items, ctxErr, GotUnencodable(rt))
    ensures AnyLiveAnswered(rt, items, ctxErr, NotText) <==> AnyLive(items, ctxErr, GotNoText(rt))
  {
    forall j | 0 <= j < |items|
      ensures GotUnencodable(rt)(items[j]) <==> ReplyTo(rt, items[j]) == Replied(Unencodable)
      ensures GotNoText(rt)(items[j]) <==> ReplyTo(rt, items[j]) == Replied(NotText)
    {
    }
  }

  /**
   What a live request of a flushed batch receives, in terms of what the runtime
   says to its own decoded prompt under its own model, or the default one if it
   names none. If no live prompt is empty and every live reply is text, nothing or
   an exception, it is that reply, with siblings' exceptions contained; otherwise
   every live request gets the same error, that of the first trouble present.
   */
  lemma FlushThroughBackend(rt: Runtime, notes: Notes, items: seq<Item>, ctxErr: seq<Option<string>>,
                            latencyMs: int, i: nat)
    requires |items| == |ctxErr| && i < |items| && ctxErr[i].None?
    ensures var r := FlushOutcome(items, ctxErr, Serve(rt, notes), latencyMs)[i];
      if exists j :: 0 <= j < |items| && ctxErr[j].None? && items[j].input == [] then
        r == Error(Unavailable(notes.refusal))
      else if AnyLiveAnswered(rt, items, ctxErr, Unencodable) then r == Error(Unavailable(notes.crash))
      else if AnyLiveAnswered(rt, items, ctxErr, NotText) then r == Error(ResponseInvalid(notes.complaint))
      else
        match rt.generate(if items[i].model != "" then items[i].model else rt.defaultModel, rt.decode(items[i].input))
        case Raised(kind, message) => r == Error(BackendItem(kind + ": " + message))
        case Replied(Text(text)) => r == Success(text, latencyMs)
        case Replied(Nothing) => r == Success("", latencyMs)
        case _ => false
    ensures var r := FlushOutcome(items, ctxErr, Serve(rt, notes), latencyMs)[i];
      r.Success? || r.failure.BackendItem? <==>
        && (forall j :: 0 <= j < |items| && ctxErr[j].None? ==> items[j].input != [])
        && !AnyLiveAnswered(rt, items, ctxErr, Unencodable) && !AnyLiveAnswered(rt, items, ctxErr, NotText)
  {
    TroubleOrDue(rt, notes, items, ctxErr, latencyMs, i);
    AnsweredIsTrouble(rt, items, ctxErr);
    assert AnyLive(items, ctxErr, EmptyPrompt()) <==>
      exists j :: 0 <= j < |items| && ctxErr[j].None? && items[j].input == [];
  }

  /** A runtime that answers with the model and the prompt it was given shows each caller its own. */
  lemma EveryoneHearsItsOwnEcho(rt: Runtime, notes: Notes, items: seq<Item>, ctxErr: seq<Option<string>>,
                                latencyMs: int, i: nat)
    requires |items| == |ctxErr| && i < |items| && ctxErr[i].None?
    requires forall model, prompt :: rt.generate(model, prompt) == Replied(Text(model + prompt))
    requires forall j :: 0 <= j < |items| && ctxErr[j].None? ==> items[j].input != []
    ensures FlushOutcome(items, ctxErr, Serve(rt, notes), latencyMs)[i]
      == Success((if items[i].model == "" then rt.defaultModel else items[i].model) + rt.decode(items[i].input),
                 latencyMs)
  {
    FlushThroughBackend(rt, notes, items, ctxErr, latencyMs, i);
  }

  // ---------- One input for each trouble ----------

  /** Answers every prompt with text, except for the model "odd". */
  function Oddity(odd: Value): Runtime {
    Runtime("m", _ => "", (model, _) => Replied(if model == "odd" then odd else Text("hi")))
  }

  /** A good request and its sibling. */
  function Two(sibling: Item): seq<Item> {
    [Item("a", [65], "m"), sibling]
  }

  /** What the good one receives. */
  function FirstOfTwo(odd: Value, notes: Notes, sibling: Item): Result {
    FlushOutcome(Two(sibling), [None, None], Serve(Oddity(odd), notes), 7)[0]
  }

  /** An empty prompt fails its sibling. */
  lemma EmptyPromptSpoilsTheBatch(odd: Value, notes: Notes)
    ensures FirstOfTwo(odd, notes, Item("b", [], "m")) == Error(Unavailable(notes.refusal))
  {
    var sibling := Item("b", [], "m");
    assert EmptyPrompt()(Two(sibling)[1]);
    TroubleOrDue(Oddity(odd), notes, Two(sibling), [None, None], 7, 0);
  }

  /** So does, next to non-empty prompts, a reply that is no text; one without a response does not. */
  lemma OneBadReplySpoilsTheBatch(odd: Value, notes: Notes)
    ensures FirstOfTwo(odd, notes, Item("b", [66], "odd")) ==
      match odd
      case Unencodable => Error(Unavailable(notes.crash))
      case NotText => Error(ResponseInvalid(notes.complaint))
      case _ => Success("hi", 7)
  {
    var rt, items := Oddity(odd), Two(Item("b", [66], "odd"));
    assert GotUnencodable(rt)(items[1]) == odd.Unencodable? && GotNoText(rt)(items[1]) == odd.NotText?;
    assert !GotUnencodable(rt)(items[0]) && !GotNoText(rt)(items[0]);
    TroubleOrDue(rt, notes, items, [None, None], 7, 0);
  }
}
