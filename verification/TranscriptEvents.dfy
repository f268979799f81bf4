/**
 What stream events say, told of their JSON fields, and the story of an entry in those terms: its
 role, number, time, text and tools from the message that creates it and the updates that follow.
 */
module TranscriptEvents {
  import opened Prelude
  import opened Transcript

  // ------------------------------------------------------------------------------- fields

  /** The object has the field, once. */
  ghost predicate Holds(f: Fields, name: string, v: Json) {
    exists k :: 0 <= k < |f| && f[k] == Pair(name, v) && forall j :: 0 <= j < |f| && j != k ==> f[j].first != name
  }

  ghost predicate Lacks(f: Fields, name: string) {
    forall k :: 0 <= k < |f| ==> f[k].first != name
  }

  lemma {:induction false} FieldLacks(f: Fields, name: string)
    requires Lacks(f, name)
    ensures Field(f, name) == None
  {
    if f != [] {
      assert forall k :: 0 <= k < |f[1..]| ==> f[1..][k] == f[k + 1];
      FieldLacks(f[1..], name);
    }
  }

  lemma {:induction false} FieldHolds(f: Fields, name: string, v: Json)
    requires Holds(f, name, v)
    ensures Field(f, name) == Some(v)
  {
    var k :| 0 <= k < |f| && f[k] == Pair(name, v) && forall j :: 0 <= j < |f| && j != k ==> f[j].first != name;
    if k > 0 {
      assert f[1..][k - 1] == Pair(name, v);
      FieldHolds(f[1..], name, v);
    }
  }

  /** A string field; any other value, or none, is no string. Likewise for integers and objects. */
  ghost predicate HasString(f: Fields, name: string, s: Option<string>) {
    if s.Some? then Holds(f, name, Str(s.value)) else Lacks(f, name) || exists v :: Holds(f, name, v) && !v.Str?
  }

  ghost predicate HasInt(f: Fields, name: string, n: Option<int>) {
    if n.Some? then Holds(f, name, Int(n.value)) else Lacks(f, name) || exists v :: Holds(f, name, v) && !v.Int?
  }

  ghost predicate HasObject(f: Fields, name: string, o: Option<Fields>) {
    if o.Some? then Holds(f, name, Obj(o.value)) else Lacks(f, name) || exists v :: Holds(f, name, v) && !v.Obj?
  }

  ghost predicate StringOr(f: Fields, name: string, d: string, s: string) {
    HasString(f, name, Some(s)) || (HasString(f, name, None) && s == d)
  }

  ghost predicate IntOr(f: Fields, name: string, d: int, n: int) {
    HasInt(f, name, Some(n)) || (HasInt(f, name, None) && n == d)
  }

  ghost predicate ObjectOr(f: Fields, name: string, d: Fields, o: Fields) {
    HasObject(f, name, Some(o)) || (HasObject(f, name, None) && o == d)
  }

  ghost predicate ValueOr(f: Fields, name: string, d: Json, v: Json) {
    Holds(f, name, v) || (Lacks(f, name) && v == d)
  }

  lemma StringRead(f: Fields, name: string, s: Option<string>)
    requires HasString(f, name, s)
    ensures AsString(Field(f, name)) == s
  {
    FieldRead(f, name);
  }

  lemma IntRead(f: Fields, name: string, n: Option<int>)
    requires HasInt(f, name, n)
    ensures AsInt(Field(f, name)) == n
  {
    FieldRead(f, name);
  }

  lemma ObjectRead(f: Fields, name: string, o: Option<Fields>)
    requires HasObject(f, name, o)
    ensures AsObject(Field(f, name)) == o
  {
    FieldRead(f, name);
  }

  lemma FieldRead(f: Fields, name: string)
    ensures forall v :: Holds(f, name, v) ==> Field(f, name) == Some(v)
    ensures Lacks(f, name) ==> Field(f, name) == None
  {
    forall v | Holds(f, name, v) ensures Field(f, name) == Some(v) { FieldHolds(f, name, v); }
    if Lacks(f, name) { FieldLacks(f, name); }
  }

  lemma StringOrRead(f: Fields, name: string, d: string, s: string)
    requires StringOr(f, name, d, s)
    ensures OrElse(AsString(Field(f, name)), d) == s
  {
    StringRead(f, name, if HasString(f, name, Some(s)) then Some(s) else None);
  }

  lemma IntOrRead(f: Fields, name: string, d: int, n: int)
    requires IntOr(f, name, d, n)
    ensures OrElse(AsInt(Field(f, name)), d) == n
  {
    IntRead(f, name, if HasInt(f, name, Some(n)) then Some(n) else None);
  }

  lemma ObjectOrRead(f: Fields, name: string, d: Fields, o: Fields)
    requires ObjectOr(f, name, d, o)
    ensures OrElse(AsObject(Field(f, name)), d) == o
  {
    ObjectRead(f, name, if HasObject(f, name, Some(o)) then Some(o) else None);
  }

  // -------------------------------------------------------------------------------- parts

  /** What a part says: text on a channel, a tool call, the result of one, or nothing of use. */
  datatype Piece =
    | Words(ch: Channel, text: string)
    | Call(tool: string, name: string, state: string, input: Json)
    | Outcome(tool: string, excerpt: Option<string>, exitCode: Option<int>, artifact: Option<string>)
    | Nothing

  predicate KindFits(kind: string, p: Piece) {
    match p
    case Words(Text, _) => kind == "text"
    case Words(Reasoning, _) => kind == "reasoning"
    case Words(Summary, _) => kind == "summary"
    case Call(_, _, _, _) => kind == "tool_call"
    case Outcome(_, _, _, _) => kind == "tool_result"
    case Nothing =>
      kind != "text" && kind != "reasoning" && kind != "summary" && kind != "tool_call" && kind != "tool_result"
  }

  ghost predicate SaysCall(f: Fields, p: Piece)
    requires p.Call?
  {
    && StringOr(f, "tool_call_id", "", p.tool) && StringOr(f, "name", "", p.name)
    && StringOr(f, "state", "unknown", p.state) && ValueOr(f, "input", Null, p.input)
  }

  ghost predicate SaysOutcome(f: Fields, result: Fields, p: Piece)
    requires p.Outcome?
  {
    && StringOr(f, "tool_call_id", "", p.tool) && HasString(result, "excerpt", p.excerpt)
    && HasInt(result, "exit_code", p.exitCode) && HasString(result, "artifact", p.artifact)
  }

  /** A tool part of a stream event: the result of a call is an object of its own. */
  ghost predicate SaysTool(f: Fields, p: Piece) {
    match p
    case Call(_, _, _, _) => SaysCall(f, p)
    case Outcome(_, _, _, _) => exists result :: ObjectOr(f, "result", [], result) && SaysOutcome(f, result, p)
    case Nothing => true
    case Words(_, _) => false
  }

  /** A stored tool part: the fields of the result lie flat in the payload. */
  ghost predicate SaysFlatTool(f: Fields, p: Piece) {
    match p
    case Call(_, _, _, _) => SaysCall(f, p)
    case Outcome(_, _, _, _) => SaysOutcome(f, f, p)
    case Nothing => true
    case Words(_, _) => false
  }

  /** The part of a `message_part_updated` event. */
  ghost predicate LiveSays(f: Fields, p: Piece) {
    || (p == Nothing && HasString(f, "type", None))
    || (exists kind :: HasString(f, "type", Some(kind)) && KindFits(kind, p)
                       && if p.Words? then StringOr(f, "text", "", p.text) else SaysTool(f, p))
  }

  /** A part listed in a message, in the form of the stream or in the stored form. */
  ghost predicate StoredSays(raw: Json, p: Piece) {
    if !raw.Obj? then p == Nothing
    else
      || (exists kind :: HasString(raw.fields, "type", Some(kind)) && KindFits(kind, p)
                         && if p.Words? then StoredWords(raw.fields, p.text) else SaysTool(raw.fields, p))
      || (exists kind, payload :: HasString(raw.fields, "type", None) && StringOr(raw.fields, "kind", "", kind) && KindFits(kind, p)
                                  && ObjectOr(raw.fields, "data", raw.fields, payload)
                                  && if p.Words? then StoredWords(raw.fields, p.text) else SaysFlatTool(payload, p))
  }

  /** The text of a part stands in the part, or else in its data. */
  ghost predicate StoredWords(f: Fields, text: string) {
    || HasString(f, "text", Some(text))
    || (HasString(f, "text", None) && exists d :: ObjectOr(f, "data", [], d) && StringOr(d, "text", "", text))
  }

  /** How the reducer reads a piece. */
  function PartFor(p: Piece): Part {
    match p
    case Words(ch, text) => TextPart(ch, text)
    case Call(tool, name, state, input) => ToolPart(ToolUpdate(tool, Some(name), Some(state), Some(input), None, None, None))
    case Outcome(tool, excerpt, exitCode, artifact) =>
      ToolPart(ToolUpdate(tool, None, None, None, Some(excerpt), Some(exitCode), Some(artifact)))
    case Nothing => NoPart
  }

  lemma KindChannel(kind: string, p: Piece)
    requires KindFits(kind, p)
    ensures ChannelOf(Some(kind)) == if p.Words? then Some(p.ch) else None
  {
  }

  lemma CallRead(f: Fields, p: Piece)
    requires p.Call? && SaysCall(f, p)
    ensures ToolPart(CallUpdate(f)) == PartFor(p)
  {
    StringOrRead(f, "tool_call_id", "", p.tool);
    StringOrRead(f, "name", "", p.name);
    StringOrRead(f, "state", "unknown", p.state);
    FieldRead(f, "input");
    hide Holds, Lacks, Field, HasString;
  }

  lemma OutcomeRead(f: Fields, result: Fields, p: Piece)
    requires p.Outcome? && SaysOutcome(f, result, p)
    ensures OrElse(AsString(Field(f, "tool_call_id")), "") == p.tool
    ensures AsString(Field(result, "excerpt")) == p.excerpt && AsInt(Field(result, "exit_code")) == p.exitCode
    ensures AsString(Field(result, "artifact")) == p.artifact
  {
    StringOrRead(f, "tool_call_id", "", p.tool);
    StringRead(result, "excerpt", p.excerpt);
    IntRead(result, "exit_code", p.exitCode);
    StringRead(result, "artifact", p.artifact);
  }

  function ToPart(update: Option<ToolUpdate>): Part {
    if update.Some? then ToolPart(update.value) else NoPart
  }

  lemma ToolRead(f: Fields, kind: string, p: Piece)
    requires HasString(f, "type", Some(kind)) && KindFits(kind, p) && !p.Words? && SaysTool(f, p)
    ensures ToPart(ToolFromSsePart(f)) == PartFor(p)
  {
    StringRead(f, "type", Some(kind));
    hide HasString, HasInt, SaysCall, SaysOutcome, Field, ObjectOr, CallUpdate, HasObject;
    match p
    case Call(_, _, _, _) => CallRead(f, p);
    case Outcome(_, _, _, _) =>
      var result :| ObjectOr(f, "result", [], result) && SaysOutcome(f, result, p);
      ObjectOrRead(f, "result", [], result);
      OutcomeRead(f, result, p);
    case Nothing =>
  }

  lemma FlatToolRead(f: Fields, kind: string, p: Piece)
    requires KindFits(kind, p) && !p.Words? && SaysFlatTool(f, p)
    ensures ToPart(ToolFromDurablePart(kind, f)) == PartFor(p)
  {
    hide HasString, HasInt, SaysCall, SaysOutcome, Field, CallUpdate;
    match p
    case Call(_, _, _, _) => CallRead(f, p);
    case Outcome(_, _, _, _) => OutcomeRead(f, f, p);
    case Nothing =>
  }

  lemma LiveRead(f: Fields, p: Piece)
    requires LiveSays(f, p)
    ensures ReadLivePart(f) == PartFor(p)
  {
    if p == Nothing && HasString(f, "type", None) {
      StringRead(f, "type", None);
    } else {
      var kind :| HasString(f, "type", Some(kind)) && KindFits(kind, p)
                  && if p.Words? then StringOr(f, "text", "", p.text) else SaysTool(f, p);
      StringRead(f, "type", Some(kind));
      KindChannel(kind, p);
      hide HasString, KindFits, ChannelOf, SaysTool, StringOr, Field;
      if p.Words? { StringOrRead(f, "text", "", p.text); } else { ToolRead(f, kind, p); }
    }
  }

  lemma WordsRead(f: Fields, text: string)
    requires StoredWords(f, text)
    ensures var payload := AsObject(Field(f, "data"));
            var inner := if payload.Some? then AsString(Field(payload.value, "text")) else None;
            OrElse(Or(AsString(Field(f, "text")), inner), "") == text
  {
    if HasString(f, "text", Some(text)) {
      StringRead(f, "text", Some(text));
    } else {
      var d :| ObjectOr(f, "data", [], d) && StringOr(d, "text", "", text);
      StringRead(f, "text", None);
      ObjectOrRead(f, "data", [], d);
      StringOrRead(d, "text", "", text);
      assert Field([], "text") == None;
      hide HasString, HasObject, Field;
    }
  }

  lemma StoredRead(raw: Json, p: Piece)
    requires StoredSays(raw, p)
    ensures ReadPart(raw) == PartFor(p)
  {
    if raw.Obj? {
      var f := raw.fields;
      if exists kind :: HasString(f, "type", Some(kind)) && KindFits(kind, p)
                        && if p.Words? then StoredWords(f, p.text) else SaysTool(f, p) {
        var kind :| HasString(f, "type", Some(kind)) && KindFits(kind, p)
                    && if p.Words? then StoredWords(f, p.text) else SaysTool(f, p);
        StringRead(f, "type", Some(kind));
        KindChannel(kind, p);
        hide HasString, KindFits, ChannelOf, SaysTool, StoredWords, StoredSays, Field;
        if p.Words? { WordsRead(f, p.text); } else { ToolRead(f, kind, p); }
      } else {
        UntypedRead(f, p);
      }
    }
  }

  lemma UntypedRead(f: Fields, p: Piece)
    requires exists kind, payload :: HasString(f, "type", None) && StringOr(f, "kind", "", kind) && KindFits(kind, p)
                                     && ObjectOr(f, "data", f, payload)
                                     && if p.Words? then StoredWords(f, p.text) else SaysFlatTool(payload, p)
    ensures ReadPart(Obj(f)) == PartFor(p)
  {
    var kind, payload :| HasString(f, "type", None) && StringOr(f, "kind", "", kind) && KindFits(kind, p)
                         && ObjectOr(f, "data", f, payload)
                         && if p.Words? then StoredWords(f, p.text) else SaysFlatTool(payload, p);
    StringRead(f, "type", None);
    StringOrRead(f, "kind", "", kind);
    ObjectOrRead(f, "data", f, payload);
    KindChannel(kind, p);
    assert ChannelOf(None) == ChannelOf(Some("")) == None;
    hide HasString, KindFits, ChannelOf, SaysFlatTool, StoredWords, StringOr, ObjectOr, Field;
    if p.Words? { WordsRead(f, p.text); } else { FlatToolRead(payload, kind, p); }
  }

  // --------------------------------------------------------------------- messages, events

  /** A message: who wrote it, where and when, its parts, and the text of its data. */
  datatype Note = Note(role: string, seqNo: int, createdMs: int, pieces: seq<Piece>, dataText: string)

  ghost predicate IdIs(v: Json, id: string) {
    (v == Str(id) && id != "") || (v.Int? && id == if v.n < 0 then "-" + Digits(-v.n) else Digits(v.n))
  }

  ghost predicate SaysParts(message: Fields, pieces: seq<Piece>) {
    || (pieces == [] && (Lacks(message, "parts") || exists v :: Holds(message, "parts", v) && !v.Arr?))
    || (exists parts :: Holds(message, "parts", Arr(parts)) && PartsSay(parts, pieces))
  }

  ghost predicate PartsSay(parts: seq<Json>, pieces: seq<Piece>) {
    |parts| == |pieces| && forall i :: 0 <= i < |parts| ==> StoredSays(parts[i], pieces[i])
  }

  /** A message without a role is the assistant's; its number and time default to zero. */
  ghost predicate SaysNote(message: Fields, note: Note) {
    && StringOr(message, "role", "assistant", note.role)
    && IntOr(message, "seq", 0, note.seqNo) && IntOr(message, "created_ms", 0, note.createdMs)
    && SaysParts(message, note.pieces)
    && exists d :: ObjectOr(message, "data", [], d) && StringOr(d, "text", "", note.dataText)
  }

  datatype Happening =
    | Creation(id: string, note: Note)
    | Addition(id: string, piece: Piece)
    | Status(tool: string, state: string)
    | Unused

  ghost predicate NoId(message: Fields) {
    Lacks(message, "id") || exists v :: Holds(message, "id", v) && !v.Int? && (v.Str? ==> v.s == "")
  }

  /** What an event says. Events of other names say nothing, nor do those without an object, a
      message, a part, an id or a state where one belongs. */
  ghost predicate Says(e: StreamEvent, h: Happening) {
    match h
    case Creation(id, note) =>
      e.event == "message_created" && e.data.Obj?
      && exists message, v :: HasObject(e.data.fields, "message", Some(message)) && Holds(message, "id", v) && IdIs(v, id)
                              && SaysNote(message, note)
    case Addition(id, piece) =>
      e.event == "message_part_updated" && e.data.Obj? && HasString(e.data.fields, "message_id", Some(id)) && id != ""
      && exists part :: HasObject(e.data.fields, "part", Some(part)) && LiveSays(part, piece)
    case Status(tool, state) =>
      e.event == "tool_call_state" && e.data.Obj? && tool != "" && state != ""
      && HasString(e.data.fields, "tool_call_id", Some(tool)) && HasString(e.data.fields, "state", Some(state))
    case Unused =>
      || !e.data.Obj?
      || (e.event != "message_created" && e.event != "message_part_updated" && e.event != "tool_call_state")
      || (e.event == "message_created"
          && (HasObject(e.data.fields, "message", None)
              || exists message :: HasObject(e.data.fields, "message", Some(message)) && NoId(message)))
      || (e.event == "message_part_updated"
          && (NoString(e.data.fields, "message_id") || HasObject(e.data.fields, "part", None)))
      || (e.event == "tool_call_state"
          && (NoString(e.data.fields, "tool_call_id") || NoString(e.data.fields, "state")))
  }

  ghost predicate NoString(f: Fields, name: string) {
    HasString(f, name, None) || HasString(f, name, Some(""))
  }

  ghost predicate AllSay(events: seq<StreamEvent>, hs: seq<Happening>) {
    |events| == |hs| && forall i :: 0 <= i < |events| ==> Says(events[i], hs[i])
  }

  // ----------------------------------------------------------------------- reading events

  lemma NoStringRead(f: Fields, name: string)
    requires NoString(f, name)
    ensures AsString(Field(f, name)).None? || AsString(Field(f, name)) == Some("")
  {
    StringRead(f, name, if HasString(f, name, None) then None else Some(""));
  }

  lemma UnusedRead(e: StreamEvent)
    requires Says(e, Unused)
    ensures Interpret(e.event, e.data) == Ignore
  {
    if e.data.Obj? {
      var f := e.data.fields;
      hide HasString, HasObject, NoString, Field, NoId;
      if e.event == "message_created" {
        if HasObject(f, "message", None) {
          ObjectRead(f, "message", None);
        } else {
          var message :| HasObject(f, "message", Some(message)) && NoId(message);
          ObjectRead(f, "message", Some(message));
          NoIdRead(message);
        }
      } else if e.event == "message_part_updated" {
        if NoString(f, "message_id") { NoStringRead(f, "message_id"); } else { ObjectRead(f, "part", None); }
      } else if e.event == "tool_call_state" {
        if NoString(f, "tool_call_id") { NoStringRead(f, "tool_call_id"); } else { NoStringRead(f, "state"); }
      }
    }
  }

  lemma NoIdRead(message: Fields)
    requires NoId(message)
    ensures AsId(Field(message, "id")).None?
  {
    FieldRead(message, "id");
  }

  lemma CreationRead(e: StreamEvent, h: Happening) returns (message: Fields)
    requires h.Creation? && Says(e, h)
    ensures Interpret(e.event, e.data) == Upsert(h.id, Replace(message)) && SaysNote(message, h.note)
  {
    var v;
    message, v :| HasObject(e.data.fields, "message", Some(message)) && Holds(message, "id", v) && IdIs(v, h.id)
                  && SaysNote(message, h.note);
    hide HasObject, Field, Holds, SaysNote, AsId, IdIs;
    ObjectRead(e.data.fields, "message", Some(message));
    IdRead(message, v, h.id);
  }

  lemma IdRead(message: Fields, v: Json, id: string)
    requires Holds(message, "id", v) && IdIs(v, id)
    ensures AsId(Field(message, "id")) == Some(id)
  {
    FieldRead(message, "id");
    hide Field, Holds;
  }

  lemma AdditionRead(e: StreamEvent, h: Happening)
    requires h.Addition? && Says(e, h)
    ensures Interpret(e.event, e.data) == Upsert(h.id, Add(PartFor(h.piece)))
  {
    var f := e.data.fields;
    var part :| HasObject(f, "part", Some(part)) && LiveSays(part, h.piece);
    StringRead(f, "message_id", Some(h.id));
    ObjectRead(f, "part", Some(part));
    LiveRead(part, h.piece);
    hide HasObject, HasString, Field, LiveSays, ReadLivePart, PartFor;
  }

  lemma StatusRead(e: StreamEvent, h: Happening)
    requires h.Status? && Says(e, h)
    ensures Interpret(e.event, e.data) == SetToolState(h.tool, h.state)
  {
    StringRead(e.data.fields, "tool_call_id", Some(h.tool));
    StringRead(e.data.fields, "state", Some(h.state));
    hide HasString, Field;
  }

  lemma {:induction false} PartsRead(message: Fields, pieces: seq<Piece>)
    requires SaysParts(message, pieces)
    ensures PartsSay(PartsOf(message), pieces)
  {
    FieldRead(message, "parts");
    hide StoredSays, Field;
  }

  /** The entry made of a message. */
  lemma NoteRead(id: string, message: Fields, note: Note)
    requires SaysNote(message, note)
    ensures NewEntry(id, message) == Entry(id, note.role, note.seqNo, note.createdMs, "", "", "", [])
    ensures DataText(message) == note.dataText && PartsSay(PartsOf(message), note.pieces)
  {
    StringOrRead(message, "role", "assistant", note.role);
    IntOrRead(message, "seq", 0, note.seqNo);
    IntOrRead(message, "created_ms", 0, note.createdMs);
    PartsRead(message, note.pieces);
    var d :| ObjectOr(message, "data", [], d) && StringOr(d, "text", "", note.dataText);
    ObjectOrRead(message, "data", [], d);
    StringOrRead(d, "text", "", note.dataText);
    assert Field([], "text") == None;
    hide HasString, HasObject, HasInt, Field, SaysParts, PartsSay;
  }

  // ---------------------------------------------------------------------------- the story

  function WordsOn(p: Piece, ch: Channel): string {
    if p.Words? && p.ch == ch then p.text else ""
  }

  function AllWords(pieces: seq<Piece>, ch: Channel): string {
    if pieces == [] then "" else WordsOn(pieces[0], ch) + AllWords(pieces[1..], ch)
  }

  /** The text of a new message: its parts win over the text of its data. */
  function FirstWords(note: Note, ch: Channel): string {
    if ch == Text && AllWords(note.pieces, ch) == "" then note.dataText else AllWords(note.pieces, ch)
  }

  /** The deltas for entry `id` on one channel, in order. */
  function Deltas(hs: seq<Happening>, id: string, ch: Channel): string {
    if hs == [] then ""
    else (if hs[0].Addition? && hs[0].id == id then WordsOn(hs[0].piece, ch) else "") + Deltas(hs[1..], id, ch)
  }

  /** A tool after a piece: a call sets its name, state and input, a result its excerpt, exit code
      and artifact; a result that comes first leaves the tool nameless and running. */
  function ToolNext(t: Option<Tool>, tid: string, p: Piece): Option<Tool> {
    if p.Call? && p.tool == tid then
      if t.None? then Some(Tool(tid, p.name, p.state, p.input, None, None, None))
      else Some(t.value.(name := p.name, state := p.state, input := p.input))
    else if p.Outcome? && p.tool == tid then
      if t.None? then Some(Tool(tid, "", "running", Null, p.excerpt, p.exitCode, p.artifact))
      else Some(t.value.(excerpt := p.excerpt, exitCode := p.exitCode, artifact := p.artifact))
    else t
  }

  function ToolOf(t: Option<Tool>, tid: string, pieces: seq<Piece>): Option<Tool>
    decreases |pieces|
  {
    if pieces == [] then t else ToolOf(ToolNext(t, tid, pieces[0]), tid, pieces[1..])
  }

  function ToolLater(t: Option<Tool>, id: string, tid: string, hs: seq<Happening>): Option<Tool>
    decreases |hs|
  {
    if hs == [] then t
    else
      var next :=
        if hs[0].Addition? && hs[0].id == id then ToolNext(t, tid, hs[0].piece)
        else if hs[0].Status? && hs[0].tool == tid && t.Some? then Some(t.value.(state := hs[0].state))
        else t;
      ToolLater(next, id, tid, hs[1..])
  }

  ghost predicate NotCreated(hs: seq<Happening>, id: string) {
    forall i :: 0 <= i < |hs| && hs[i].Creation? ==> hs[i].id != id
  }

  lemma PieceWords(p: Piece, ch: Channel)
    ensures PartText(PartFor(p), ch) == WordsOn(p, ch)
  {
  }

  lemma {:induction false} PiecesWords(parts: seq<Json>, pieces: seq<Piece>, ch: Channel)
    requires PartsSay(parts, pieces)
    ensures PartsText(parts, ch) == AllWords(pieces, ch)
  {
    hide StoredSays, ReadPart, PartText, WordsOn;
    if parts != [] {
      StoredRead(parts[0], pieces[0]);
      PieceWords(pieces[0], ch);
      PiecesWords(parts[1..], pieces[1..], ch);
    }
  }

  lemma PieceUpdates(p: Piece, tid: string, before: seq<ToolUpdate>)
    ensures Described(tid, before + PartUpdates(PartFor(p), tid)) == ToolNext(Described(tid, before), tid, p)
  {
    assert before + [] == before;
    assert Described(tid, before).Some? ==> Described(tid, before).value.id == tid;
    hide Described;
    if PartFor(p).ToolPart? && PartFor(p).update.id == tid { DescribedMore(tid, before, PartFor(p).update); }
  }

  lemma {:induction false} PiecesUpdates(parts: seq<Json>, pieces: seq<Piece>, tid: string, before: seq<ToolUpdate>)
    requires PartsSay(parts, pieces)
    ensures Described(tid, before + PartsUpdates(parts, tid)) == ToolOf(Described(tid, before), tid, pieces)
    decreases |parts|
  {
    hide StoredSays, ReadPart, PartUpdates, Described, ToolNext;
    if parts == [] {
      assert before + PartsUpdates(parts, tid) == before;
    } else {
      StoredRead(parts[0], pieces[0]);
      PieceUpdates(pieces[0], tid, before);
      var more := before + PartUpdates(PartFor(pieces[0]), tid);
      PiecesUpdates(parts[1..], pieces[1..], tid, more);
      assert before + PartsUpdates(parts, tid) == more + PartsUpdates(parts[1..], tid);
    }
  }

  lemma {:induction false} LaterWords(events: seq<StreamEvent>, hs: seq<Happening>, id: string, ch: Channel, before: string)
    requires AllSay(events, hs) && NotCreated(hs, id)
    ensures WrittenAll(id, ch, before, events) == before + Deltas(hs, id, ch)
    decreases |events|
  {
    hide Says, Interpret, PartText, WordsOn;
    if events != [] {
      var next := Written(id, ch, before, Interpret(events[0].event, events[0].data));
      EventWords(events[0], hs[0], id, ch, before);
      LaterWords(events[1..], hs[1..], id, ch, next);
    }
  }

  lemma EventWords(e: StreamEvent, h: Happening, id: string, ch: Channel, before: string)
    requires Says(e, h) && (h.Creation? ==> h.id != id)
    ensures Written(id, ch, before, Interpret(e.event, e.data))
         == before + (if h.Addition? && h.id == id then WordsOn(h.piece, ch) else "")
  {
    hide Says, Interpret, PartText, WordsOn, PartFor, SaysNote;
    assert before + "" == before;
    match h
    case Creation(_, _) => var message := CreationRead(e, h);
    case Addition(_, piece) =>
      AdditionRead(e, h);
      PieceWords(piece, ch);
    case Status(_, _) => StatusRead(e, h);
    case Unused => UnusedRead(e);
  }

  lemma {:induction false} LaterTool(events: seq<StreamEvent>, hs: seq<Happening>, id: string, tid: string,
      before: seq<ToolUpdate>)
    requires AllSay(events, hs) && NotCreated(hs, id)
    ensures Described(tid, UpdatesAll(id, tid, before, events)) == ToolLater(Described(tid, before), id, tid, hs)
    decreases |events|
  {
    hide Says, Interpret, Described, ToolNext;
    if events != [] {
      var next := Updates(id, tid, before, Interpret(events[0].event, events[0].data));
      EventTool(events[0], hs[0], id, tid, before);
      hide Updates;
      LaterTool(events[1..], hs[1..], id, tid, next);
    }
  }

  lemma EventTool(e: StreamEvent, h: Happening, id: string, tid: string, before: seq<ToolUpdate>)
    requires Says(e, h) && (h.Creation? ==> h.id != id)
    ensures Described(tid, Updates(id, tid, before, Interpret(e.event, e.data)))
         == if h.Addition? && h.id == id then ToolNext(Described(tid, before), tid, h.piece)
            else if h.Status? && h.tool == tid && Described(tid, before).Some?
            then Some(Described(tid, before).value.(state := h.state))
            else Described(tid, before)
  {
    hide Says, Interpret, Described, ToolNext, PartFor, SaysNote, PartUpdates;
    match h
    case Creation(_, _) => var message := CreationRead(e, h);
    case Addition(_, piece) =>
      AdditionRead(e, h);
      PieceUpdates(piece, tid, before);
    case Status(tool, state) =>
      StatusRead(e, h);
      StateDescribed(id, tid, before, tool, state);
    case Unused => UnusedRead(e);
  }

  // ----------------------------------------------------------------- role, number and time

  ghost predicate SameHead(a: Entry, b: Entry) {
    a.id == b.id && a.role == b.role && a.seqNo == b.seqNo && a.createdMs == b.createdMs
  }

  lemma AddPartHead(e: Entry, part: Part)
    ensures SameHead(AddPart(e, part), e)
  {
  }

  lemma {:induction false} AddPartsHead(e: Entry, parts: seq<Json>)
    ensures SameHead(AddParts(e, parts), e)
    decreases |parts|
  {
    hide AddPart, ReadPart;
    if parts != [] {
      AddPartHead(e, ReadPart(parts[0]));
      AddPartsHead(AddPart(e, ReadPart(parts[0])), parts[1..]);
    }
  }

  lemma CreatedHead(id: string, message: Fields)
    ensures SameHead(EntryFromMessage(id, message), NewEntry(id, message))
  {
    AddPartsHead(NewEntry(id, message), PartsOf(message));
    hide NewEntry, AddParts;
  }

  /** What a step does to an entry that was there and still is. */
  lemma StepEntry(entries: seq<Entry>, action: Action, id: string)
    requires WellFormed(entries) && Lookup(entries, id).Some? && Lookup(Perform(entries, action), id).Some?
    ensures var e, after := Lookup(entries, id).value, Lookup(Perform(entries, action), id).value;
            match action
            case Ignore => after == e
            case SetToolState(tool, state) => after == WithState(e, tool, state)
            case Upsert(other, change) => after == if other == id then Mutate(e, change) else e
  {
    match action
    case Ignore =>
    case SetToolState(tool, state) => StateLookup(entries, tool, state, id);
    case Upsert(other, change) =>
      UpsertLookup(entries, other, change, id);
      hide Lookup, Mutate, UpsertEntry;
  }

  lemma EventHead(entries: seq<Entry>, e: StreamEvent, h: Happening, id: string)
    requires WellFormed(entries) && Says(e, h) && (h.Creation? ==> h.id != id)
    requires Lookup(entries, id).Some? && Lookup(ApplySseEvent(entries, e.event, e.data), id).Some?
    ensures SameHead(Lookup(ApplySseEvent(entries, e.event, e.data), id).value, Lookup(entries, id).value)
  {
    StepEntry(entries, Interpret(e.event, e.data), id);
    var entry := Lookup(entries, id).value;
    hide WellFormed, Says, Interpret, Lookup, Perform, PartFor, SaysNote, AddPart;
    match h
    case Creation(_, _) => var message := CreationRead(e, h);
    case Addition(_, piece) =>
      AdditionRead(e, h);
      AddPartHead(entry, PartFor(piece));
    case Status(_, _) => StatusRead(e, h);
    case Unused => UnusedRead(e);
  }

  lemma {:induction false} LaterHead(entries: seq<Entry>, events: seq<StreamEvent>, hs: seq<Happening>, id: string)
    requires WellFormed(entries) && StaysPresent(entries, events, id) && AllSay(events, hs) && NotCreated(hs, id)
    ensures var e := Lookup(ApplyAll(entries, events), id);
            e.Some? && SameHead(e.value, Lookup(entries, id).value)
    decreases |events|
  {
    hide WellFormed, Says, ApplySseEvent, Lookup;
    if events != [] {
      var next := ApplySseEvent(entries, events[0].event, events[0].data);
      StepKeeps(entries, events[0]);
      assert Lookup(next, id).Some?;
      EventHead(entries, events[0], hs[0], id);
      LaterHead(next, events[1..], hs[1..], id);
    }
  }

  // ------------------------------------------------------------------------ the whole story

  function Applied(entries: seq<Entry>, e: StreamEvent): seq<Entry> {
    ApplySseEvent(entries, e.event, e.data)
  }

  /** An event, and then events that leave entry `id` in place and do not create it anew. */
  ghost predicate Runs(entries: seq<Entry>, events: seq<StreamEvent>, hs: seq<Happening>, id: string) {
    && WellFormed(entries) && events != [] && AllSay(events, hs) && NotCreated(hs[1..], id)
    && StaysPresent(Applied(entries, events[0]), events[1..], id)
  }

  lemma RunsOn(entries: seq<Entry>, events: seq<StreamEvent>, hs: seq<Happening>, id: string)
    requires Runs(entries, events, hs, id)
    ensures var next := Applied(entries, events[0]);
            && hs != [] && Says(events[0], hs[0]) && WellFormed(next) && AllSay(events[1..], hs[1..])
            && NotCreated(hs[1..], id) && StaysPresent(next, events[1..], id) && Lookup(next, id).Some?
            && ApplyAll(entries, events) == ApplyAll(next, events[1..])
  {
    StepKeeps(entries, events[0]);
    hide Says, WellFormed, ApplySseEvent, NotCreated, Lookup;
  }

  /** The entry that a message leaves, whether or not one was there. */
  lemma CreationPlaces(entries: seq<Entry>, e: StreamEvent, h: Happening) returns (message: Fields)
    requires WellFormed(entries) && h.Creation? && Says(e, h) && Lookup(Applied(entries, e), h.id).Some?
    ensures SaysNote(message, h.note) && Lookup(Applied(entries, e), h.id) == Some(EntryFromMessage(h.id, message))
  {
    message := CreationRead(e, h);
    assert Applied(entries, e) == UpsertEntry(entries, h.id, Replace(message));
    hide Says, SaysNote, Applied, EntryFromMessage, WellFormed, UpsertEntry;
    if Lookup(entries, h.id).Some? {
      assert Lookup(entries, h.id).value.id == h.id;
      UpsertLookup(entries, h.id, Replace(message), h.id);
    } else {
      UpsertCreates(entries, h.id, Replace(message));
    }
    hide Lookup;
  }

  lemma StoryHead(entries: seq<Entry>, events: seq<StreamEvent>, hs: seq<Happening>, id: string, note: Note)
    requires Runs(entries, events, hs, id) && hs[0] == Creation(id, note)
    ensures var found := Lookup(ApplyAll(entries, events), id);
            && found.Some? && found.value.role == note.role && found.value.seqNo == note.seqNo
            && found.value.createdMs == note.createdMs
  {
    assert |events| > 0 && |hs| > 0;
    hide *;
    RunsOn(entries, events, hs, id);
    var message := CreationPlaces(entries, events[0], hs[0]);
    NoteRead(id, message, note);
    CreatedHead(id, message);
    LaterHead(Applied(entries, events[0]), events[1..], hs[1..], id);
    HeadMeans(EntryFromMessage(id, message), NewEntry(id, message));
    HeadMeans(Lookup(ApplyAll(entries, events), id).value, EntryFromMessage(id, message));
  }

  lemma HeadMeans(a: Entry, b: Entry)
    requires SameHead(a, b)
    ensures a.role == b.role && a.seqNo == b.seqNo && a.createdMs == b.createdMs
  {
  }

  lemma StoryText(entries: seq<Entry>, events: seq<StreamEvent>, hs: seq<Happening>, id: string, note: Note, ch: Channel)
    requires Runs(entries, events, hs, id) && hs[0] == Creation(id, note)
    ensures var found := Lookup(ApplyAll(entries, events), id);
            found.Some? && TextOf(found.value, ch) == Take(FirstWords(note, ch) + Deltas(hs[1..], id, ch))
  {
    assert |events| > 0 && |hs| > 0;
    hide *;
    RunsOn(entries, events, hs, id);
    var message := CreationPlaces(entries, events[0], hs[0]);
    NoteRead(id, message, note);
    CreatedText(id, message, ch);
    PiecesWords(PartsOf(message), note.pieces, ch);
    FirstWordsOf(message, note, ch);
    TextIsClampedFold(Applied(entries, events[0]), events[1..], id, ch, FirstWords(note, ch));
    LaterWords(events[1..], hs[1..], id, ch, FirstWords(note, ch));
  }

  lemma FirstWordsOf(message: Fields, note: Note, ch: Channel)
    requires DataText(message) == note.dataText && PartsText(PartsOf(message), ch) == AllWords(note.pieces, ch)
    ensures CreationText(message, ch) == FirstWords(note, ch)
  {
  }

  lemma StoryTool(entries: seq<Entry>, events: seq<StreamEvent>, hs: seq<Happening>, id: string, note: Note, tid: string)
    requires Runs(entries, events, hs, id) && hs[0] == Creation(id, note)
    ensures var found := Lookup(ApplyAll(entries, events), id);
            && found.Some?
            && FindTool(found.value.tools, tid) == ToolLater(ToolOf(None, tid, note.pieces), id, tid, hs[1..])
  {
    assert |events| > 0 && |hs| > 0;
    hide *;
    RunsOn(entries, events, hs, id);
    var message := CreationPlaces(entries, events[0], hs[0]);
    var us := PartsUpdates(PartsOf(message), tid);
    NoteRead(id, message, note);
    CreatedTools(id, message, tid);
    PiecesUpdates(PartsOf(message), note.pieces, tid, []);
    assert [] + us == us;
    NothingDescribed(tid);
    ToolsAreLastWritten(Applied(entries, events[0]), events[1..], id, tid, us);
    LaterTool(events[1..], hs[1..], id, tid, us);
  }

  lemma NothingDescribed(tid: string)
    ensures Described(tid, []) == None
  {
  }

  /** From the message that creates (or replaces) an entry on, as long as it is not evicted and not
      created anew, whatever other events interleave: its role, number and time are the message's;
      its text, reasoning and summary are those of the message followed by all deltas for it, cut
      once to the cap; and each of its tools is what the parts of the message and the later calls,
      results and state changes say. */
  lemma EntryTellsItsStory(entries: seq<Entry>, events: seq<StreamEvent>, hs: seq<Happening>, id: string, note: Note)
    requires Runs(entries, events, hs, id) && hs[0] == Creation(id, note)
    ensures var found := Lookup(ApplyAll(entries, events), id);
            && found.Some?
            && found.value.role == note.role && found.value.seqNo == note.seqNo && found.value.createdMs == note.createdMs
            && (forall ch :: TextOf(found.value, ch) == Take(FirstWords(note, ch) + Deltas(hs[1..], id, ch)))
            && (forall tid :: FindTool(found.value.tools, tid) == ToolLater(ToolOf(None, tid, note.pieces), id, tid, hs[1..]))
  {
    assert |events| > 0 && |hs| > 0;
    hide *;
    StoryHead(entries, events, hs, id, note);
    var found := Lookup(ApplyAll(entries, events), id);
    forall ch ensures TextOf(found.value, ch) == Take(FirstWords(note, ch) + Deltas(hs[1..], id, ch)) {
      StoryText(entries, events, hs, id, note, ch);
    }
    forall tid ensures FindTool(found.value.tools, tid) == ToolLater(ToolOf(None, tid, note.pieces), id, tid, hs[1..]) {
      StoryTool(entries, events, hs, id, note, tid);
    }
  }

  // -------------------------------------------------------------- entries without a message

  /** The entry that an update leaves when there was none. */
  lemma AdditionPlaces(entries: seq<Entry>, e: StreamEvent, h: Happening)
    requires WellFormed(entries) && h.Addition? && Says(e, h) && Lookup(entries, h.id).None?
    ensures Lookup(Applied(entries, e), h.id) == Some(AddPart(EmptyEntry(h.id, "assistant", 0, 0), PartFor(h.piece)))
  {
    AdditionRead(e, h);
    assert Applied(entries, e) == UpsertEntry(entries, h.id, Add(PartFor(h.piece)));
    hide Says, Applied, WellFormed, UpsertEntry, Lookup, AddPart, PartFor;
    UpsertCreates(entries, h.id, Add(PartFor(h.piece)));
  }

  lemma LoneHead(entries: seq<Entry>, events: seq<StreamEvent>, hs: seq<Happening>, id: string, piece: Piece)
    requires Runs(entries, events, hs, id) && hs[0] == Addition(id, piece) && Lookup(entries, id).None?
    ensures var found := Lookup(ApplyAll(entries, events), id);
            found.Some? && found.value.role == "assistant" && found.value.seqNo == 0 && found.value.createdMs == 0
  {
    var empty := EmptyEntry(id, "assistant", 0, 0);
    assert empty.role == "assistant" && empty.seqNo == 0 && empty.createdMs == 0;
    assert WellFormed(entries);
    hide *;
    RunsOn(entries, events, hs, id);
    AdditionPlaces(entries, events[0], hs[0]);
    AddPartHead(empty, PartFor(piece));
    LaterHead(Applied(entries, events[0]), events[1..], hs[1..], id);
    HeadMeans(AddPart(empty, PartFor(piece)), empty);
    HeadMeans(Lookup(ApplyAll(entries, events), id).value, AddPart(empty, PartFor(piece)));
  }

  lemma LoneText(entries: seq<Entry>, events: seq<StreamEvent>, hs: seq<Happening>, id: string, piece: Piece, ch: Channel)
    requires Runs(entries, events, hs, id) && hs[0] == Addition(id, piece) && Lookup(entries, id).None?
    ensures var found := Lookup(ApplyAll(entries, events), id);
            found.Some? && TextOf(found.value, ch) == Take(Deltas(hs, id, ch))
  {
    assert WellFormed(entries) && Deltas(hs, id, ch) == WordsOn(piece, ch) + Deltas(hs[1..], id, ch);
    hide *;
    RunsOn(entries, events, hs, id);
    AdditionPlaces(entries, events[0], hs[0]);
    EmptyEntryIsEmpty(id, ch);
    AddPartText(EmptyEntry(id, "assistant", 0, 0), PartFor(piece), ch, "");
    PieceWords(piece, ch);
    assert "" + WordsOn(piece, ch) == WordsOn(piece, ch);
    TextIsClampedFold(Applied(entries, events[0]), events[1..], id, ch, WordsOn(piece, ch));
    LaterWords(events[1..], hs[1..], id, ch, WordsOn(piece, ch));
  }

  lemma LoneTool(entries: seq<Entry>, events: seq<StreamEvent>, hs: seq<Happening>, id: string, piece: Piece, tid: string)
    requires Runs(entries, events, hs, id) && hs[0] == Addition(id, piece) && Lookup(entries, id).None?
    ensures var found := Lookup(ApplyAll(entries, events), id);
            found.Some? && FindTool(found.value.tools, tid) == ToolLater(None, id, tid, hs)
  {
    assert WellFormed(entries) && ToolLater(None, id, tid, hs) == ToolLater(ToolNext(None, tid, piece), id, tid, hs[1..]);
    hide *;
    RunsOn(entries, events, hs, id);
    AdditionPlaces(entries, events[0], hs[0]);
    EmptyEntryHasNoTools(id, tid);
    AddPartTools(EmptyEntry(id, "assistant", 0, 0), PartFor(piece), tid, []);
    PieceUpdates(piece, tid, []);
    NothingDescribed(tid);
    var us := [] + PartUpdates(PartFor(piece), tid);
    ToolsAreLastWritten(Applied(entries, events[0]), events[1..], id, tid, us);
    LaterTool(events[1..], hs[1..], id, tid, us);
  }

  /** An entry that begins with an update, and for which no message comes, is the assistant's, with
      number and time zero, and says what the updates say. */
  lemma EntryWithoutMessage(entries: seq<Entry>, events: seq<StreamEvent>, hs: seq<Happening>, id: string, piece: Piece)
    requires Runs(entries, events, hs, id) && hs[0] == Addition(id, piece) && Lookup(entries, id).None?
    ensures var found := Lookup(ApplyAll(entries, events), id);
            && found.Some?
            && found.value.role == "assistant" && found.value.seqNo == 0 && found.value.createdMs == 0
            && (forall ch :: TextOf(found.value, ch) == Take(Deltas(hs, id, ch)))
            && (forall tid :: FindTool(found.value.tools, tid) == ToolLater(None, id, tid, hs))
  {
    hide *;
    LoneHead(entries, events, hs, id, piece);
    var found := Lookup(ApplyAll(entries, events), id);
    forall ch ensures TextOf(found.value, ch) == Take(Deltas(hs, id, ch)) { LoneText(entries, events, hs, id, piece, ch); }
    forall tid ensures FindTool(found.value.tools, tid) == ToolLater(None, id, tid, hs) {
      LoneTool(entries, events, hs, id, piece, tid);
    }
  }

  /** An event that says nothing leaves the transcript as it is. */
  lemma UnusedChangesNothing(entries: seq<Entry>, e: StreamEvent)
    requires Says(e, Unused)
    ensures Applied(entries, e) == entries
  {
    UnusedRead(e);
  }

  /** The entry of a message on a durable page. */
  lemma PageEntryTells(message: Fields, v: Json, id: string, note: Note, ch: Channel, tid: string)
    requires Holds(message, "id", v) && IdIs(v, id) && SaysNote(message, note)
    ensures var e := MessageEntry(Obj(message));
            && e.Some? && e.value.id == id && e.value.role == note.role && e.value.seqNo == note.seqNo
            && e.value.createdMs == note.createdMs && TextOf(e.value, ch) == Take(FirstWords(note, ch))
            && FindTool(e.value.tools, tid) == ToolOf(None, tid, note.pieces)
  {
    FieldRead(message, "id");
    assert AsId(Some(v)) == Some(id);
    assert MessageEntry(Obj(message)) == Some(EntryFromMessage(id, message));
    hide *;
    NoteRead(id, message, note);
    CreatedHead(id, message);
    SameId(EntryFromMessage(id, message), NewEntry(id, message));
    HeadMeans(EntryFromMessage(id, message), NewEntry(id, message));
    CreatedText(id, message, ch);
    PiecesWords(PartsOf(message), note.pieces, ch);
    FirstWordsOf(message, note, ch);
    CreatedTools(id, message, tid);
    PiecesUpdates(PartsOf(message), note.pieces, tid, []);
    assert [] + PartsUpdates(PartsOf(message), tid) == PartsUpdates(PartsOf(message), tid);
    NothingDescribed(tid);
  }

  lemma SameId(a: Entry, b: Entry)
    requires SameHead(a, b)
    ensures a.id == b.id
  {
  }

  /** For instance, a text delta as it comes from the stream. */
  lemma DeltaSays(id: string, text: string)
    requires id != ""
    ensures Says(StreamEvent("message_part_updated",
                             Obj([Pair("message_id", Str(id)),
                                  Pair("part", Obj([Pair("type", Str("text")), Pair("text", Str(text))]))])),
                 Addition(id, Words(Text, text)))
  {
    var part := [Pair("type", Str("text")), Pair("text", Str(text))];
    assert part[0] == Pair("type", Str("text")) && part[1] == Pair("text", Str(text));
    assert Holds(part, "type", Str("text")) && Holds(part, "text", Str(text));
    assert LiveSays(part, Words(Text, text)) by { assert HasString(part, "type", Some("text")); }
    var body := [Pair("message_id", Str(id)), Pair("part", Obj(part))];
    assert body[0] == Pair("message_id", Str(id)) && body[1] == Pair("part", Obj(part));
    assert Holds(body, "message_id", Str(id)) && Holds(body, "part", Obj(part));
    assert HasObject(body, "part", Some(part));
  }

  // ------------------------------------------------------------------------- numeric ids

  /** The number a string of digits stands for. */
  function Value(s: string): int {
    if s == "" then 0 else 10 * Value(Front(s)) + (Last(s) as int - '0' as int)
  }

  /** A numeric id is written in decimal, so different numbers give different ids. */
  lemma {:induction false} DigitsOfNumber(n: nat)
    ensures Digits(n) != "" && Value(Digits(n)) == n && (forall i :: 0 <= i < |Digits(n)| ==> '0' <= Digits(n)[i] <= '9')
    ensures n > 0 ==> Digits(n)[0] != '0'
  {
    if n >= 10 {
      DigitsOfNumber(n / 10);
      assert Front(Digits(n)) == Digits(n / 10);
    } else {
      assert Front(Digits(n)) == "" && Value("") == 0;
    }
  }
}
