/**
 The transcript reducer of the editor: a bounded list of entries folded from stream events. Every
 entry agrees with the unbounded fold of its own events, cut to the character cap.
 */
module Transcript {
  import opened Prelude

  const MAX_TRANSCRIPT_ENTRIES := 500
  const MAX_ENTRY_CHARS := 256 * 1024

  type Fields = seq<Pair<string, Json>>

  datatype Json = Null | Bool(b: bool) | Int(n: int) | Fraction(r: real) | Str(s: string) | Arr(items: seq<Json>) | Obj(fields: Fields)

  datatype Tool = Tool(id: string, name: string, state: string, input: Json,
                       excerpt: Option<string>, exitCode: Option<int>, artifact: Option<string>)

  /** A partial tool: `None` is a field left undefined, `Some(None)` one set to null. */
  datatype ToolUpdate = ToolUpdate(id: string, name: Option<string>, state: Option<string>, input: Option<Json>,
                                   excerpt: Option<Option<string>>, exitCode: Option<Option<int>>, artifact: Option<Option<string>>)

  datatype Entry = Entry(id: string, role: string, seqNo: int, createdMs: int,
                         text: string, reasoning: string, summary: string, tools: seq<Tool>)

  datatype Channel = Text | Reasoning | Summary

  // ------------------------------------------------------------------------ reading JSON

  function Field(fields: Fields, name: string): Option<Json> {
    if fields == [] then None else if fields[0].first == name then Some(fields[0].second) else Field(fields[1..], name)
  }

  function AsObject(v: Option<Json>): Option<Fields> {
    if v.Some? && v.value.Obj? then Some(v.value.fields) else None
  }

  function AsString(v: Option<Json>): Option<string> {
    if v.Some? && v.value.Str? then Some(v.value.s) else None
  }

  function AsInt(v: Option<Json>): Option<int> {
    if v.Some? && v.value.Int? then Some(v.value.n) else None
  }

  function OrElse<T>(v: Option<T>, d: T): T {
    if v.Some? then v.value else d
  }

  function Or<T>(v: Option<T>, d: Option<T>): Option<T> {
    if v.Some? then v else d
  }

  function Digits(n: nat): string {
    if n < 10 then [('0' as int + n) as char] else Digits(n / 10) + [('0' as int + n % 10) as char]
  }

  /** Message ids are strings on stream frames and integers on durable pages. */
  function AsId(v: Option<Json>): Option<string> {
    if v.Some? && v.value.Str? && v.value.s != "" then Some(v.value.s)
    else if v.Some? && v.value.Int? then Some(if v.value.n < 0 then "-" + Digits(-v.value.n) else Digits(v.value.n))
    else None
  }

  // ------------------------------------------------------------------------------- tools

  function CallUpdate(f: Fields): ToolUpdate {
    ToolUpdate(OrElse(AsString(Field(f, "tool_call_id")), ""), Some(OrElse(AsString(Field(f, "name")), "")),
               Some(OrElse(AsString(Field(f, "state")), "unknown")), Some(OrElse(Field(f, "input"), Null)), None, None, None)
  }

  function ToolFromSsePart(part: Fields): Option<ToolUpdate> {
    var kind := AsString(Field(part, "type"));
    if kind == Some("tool_call") then Some(CallUpdate(part))
    else if kind == Some("tool_result") then
      var result := OrElse(AsObject(Field(part, "result")), []);
      Some(ToolUpdate(OrElse(AsString(Field(part, "tool_call_id")), ""), None, None, None, Some(AsString(Field(result, "excerpt"))),
                      Some(AsInt(Field(result, "exit_code"))), Some(AsString(Field(result, "artifact")))))
    else None
  }

  function ToolFromDurablePart(kind: string, payload: Fields): Option<ToolUpdate> {
    if kind == "tool_call" then Some(CallUpdate(payload))
    else if kind == "tool_result" then
      Some(ToolUpdate(OrElse(AsString(Field(payload, "tool_call_id")), ""), None, None, None, Some(AsString(Field(payload, "excerpt"))),
                      Some(AsInt(Field(payload, "exit_code"))), Some(AsString(Field(payload, "artifact")))))
    else None
  }

  function Created(u: ToolUpdate): Tool {
    Tool(u.id, OrElse(u.name, ""), OrElse(u.state, "running"), OrElse(u.input, Null),
         OrElse(u.excerpt, None), OrElse(u.exitCode, None), OrElse(u.artifact, None))
  }

  function Merged(t: Tool, u: ToolUpdate): Tool {
    Tool(t.id, OrElse(u.name, t.name), OrElse(u.state, t.state), OrElse(u.input, t.input),
         OrElse(u.excerpt, t.excerpt), OrElse(u.exitCode, t.exitCode), OrElse(u.artifact, t.artifact))
  }

  function FindTool(tools: seq<Tool>, id: string): (r: Option<Tool>)
    ensures r.Some? ==> r.value in tools && r.value.id == id
    ensures r.None? ==> forall i :: 0 <= i < |tools| ==> tools[i].id != id
  {
    if tools == [] then None else if tools[0].id == id then Some(tools[0]) else FindTool(tools[1..], id)
  }

  function ReplaceTool(tools: seq<Tool>, id: string, t: Tool): (r: seq<Tool>) {
    seq(|tools|, i requires 0 <= i < |tools| => if tools[i].id == id then t else tools[i])
  }

  function MergeTool(tools: seq<Tool>, u: ToolUpdate): seq<Tool> {
    match FindTool(tools, u.id)
    case None => tools + [Created(u)]
    case Some(existing) => ReplaceTool(tools, u.id, Merged(existing, u))
  }

  ghost predicate DistinctTools(tools: seq<Tool>) {
    forall i, j :: 0 <= i < j < |tools| ==> tools[i].id != tools[j].id
  }

  /** Merging touches exactly the tool with the update's id, which it creates at the end if it
      is missing, and keeps tool ids distinct. */
  lemma MergeToolExactly(tools: seq<Tool>, u: ToolUpdate)
    requires DistinctTools(tools)
    ensures var r := MergeTool(tools, u);
            && DistinctTools(r)
            && |r| == |tools| + (if FindTool(tools, u.id).None? then 1 else 0)
            && (forall i :: 0 <= i < |tools| ==> r[i] == if tools[i].id == u.id then Merged(tools[i], u) else tools[i])
            && (FindTool(tools, u.id).None? ==> r[|tools|] == Created(u))
  {
    var found := FindTool(tools, u.id);
    if found.Some? {
      var k :| 0 <= k < |tools| && tools[k] == found.value;
    }
  }

  // ------------------------------------------------------------------------------ entries

  function Take(s: string): string {
    if |s| <= MAX_ENTRY_CHARS then s else s[..MAX_ENTRY_CHARS]
  }

  function ClampText(existing: string, addition: string): string {
    if |existing| >= MAX_ENTRY_CHARS then existing else Take(existing + addition)
  }

  /** Clamping at every step is clamping once at the end. */
  lemma ClampIsTake(whole: string, addition: string)
    ensures ClampText(Take(whole), addition) == Take(whole + addition)
  {
    if |whole| >= MAX_ENTRY_CHARS {
      assert (whole + addition)[..MAX_ENTRY_CHARS] == whole[..MAX_ENTRY_CHARS];
      assert |whole| == MAX_ENTRY_CHARS ==> whole[..MAX_ENTRY_CHARS] == whole;
    }
  }

  function EmptyEntry(id: string, role: string, seqNo: int, createdMs: int): Entry {
    Entry(id, role, seqNo, createdMs, "", "", "", [])
  }

  function TextOf(e: Entry, ch: Channel): string {
    match ch case Text => e.text case Reasoning => e.reasoning case Summary => e.summary
  }

  function ChannelOf(kind: Option<string>): Option<Channel> {
    if kind == Some("text") then Some(Text)
    else if kind == Some("reasoning") then Some(Reasoning)
    else if kind == Some("summary") then Some(Summary)
    else None
  }

  function ApplyTextPart(e: Entry, ch: Channel, text: string): Entry {
    match ch
    case Reasoning => e.(reasoning := ClampText(e.reasoning, text))
    case Summary => e.(summary := ClampText(e.summary, text))
    case Text => e.(text := ClampText(e.text, text))
  }

  /** What one part of a stored message adds: text on a channel, a tool update, or nothing. */
  datatype Part = TextPart(ch: Channel, text: string) | ToolPart(update: ToolUpdate) | NoPart

  function ReadPart(raw: Json): Part {
    match AsObject(Some(raw))
    case None => NoPart
    case Some(part) =>
      var typed := AsString(Field(part, "type"));
      var kind := Or(typed, AsString(Field(part, "kind")));
      var payload := AsObject(Field(part, "data"));
      if ChannelOf(kind).Some? then
        var inner := if payload.Some? then AsString(Field(payload.value, "text")) else None;
        TextPart(ChannelOf(kind).value, OrElse(Or(AsString(Field(part, "text")), inner), ""))
      else
        var update := if typed.Some? then ToolFromSsePart(part)
                      else ToolFromDurablePart(OrElse(kind, ""), OrElse(payload, part));
        if update.Some? then ToolPart(update.value) else NoPart
  }

  /** One part of a live message: only inline text and stream tool parts count. */
  function ReadLivePart(part: Fields): Part {
    var ch := ChannelOf(AsString(Field(part, "type")));
    if ch.Some? then TextPart(ch.value, OrElse(AsString(Field(part, "text")), ""))
    else
      var update := ToolFromSsePart(part);
      if update.Some? then ToolPart(update.value) else NoPart
  }

  function AddPart(e: Entry, part: Part): Entry {
    match part
    case TextPart(ch, text) => if text == "" then e else ApplyTextPart(e, ch, text)
    case ToolPart(update) => e.(tools := MergeTool(e.tools, update))
    case NoPart => e
  }

  function AddParts(e: Entry, parts: seq<Json>): Entry
    decreases |parts|
  {
    if parts == [] then e else AddParts(AddPart(e, ReadPart(parts[0])), parts[1..])
  }

  function PartsOf(message: Fields): seq<Json> {
    var parts := Field(message, "parts");
    if parts.Some? && parts.value.Arr? then parts.value.items else []
  }

  function DataText(message: Fields): string {
    var data := AsObject(Field(message, "data"));
    if data.Some? then OrElse(AsString(Field(data.value, "text")), "") else ""
  }

  function NewEntry(id: string, message: Fields): Entry {
    EmptyEntry(id, OrElse(AsString(Field(message, "role")), "assistant"),
               OrElse(AsInt(Field(message, "seq")), 0), OrElse(AsInt(Field(message, "created_ms")), 0))
  }

  function EntryFromMessage(id: string, message: Fields): Entry {
    var e := AddParts(NewEntry(id, message), PartsOf(message));
    if e.text == "" && DataText(message) != "" then e.(text := ClampText(e.text, DataText(message))) else e
  }

  method BuildEntry(id: string, message: Fields) returns (entry: Entry)
    ensures entry == EntryFromMessage(id, message)
  {
    entry := NewEntry(id, message);
    var parts := PartsOf(message);
    hide AddPart, ReadPart;
    for k := 0 to |parts|
      invariant AddParts(entry, parts[k..]) == AddParts(NewEntry(id, message), parts)
    {
      assert parts[k..][1..] == parts[k + 1..];
      entry := AddPart(entry, ReadPart(parts[k]));
    }
    var dataText := DataText(message);
    if entry.text == "" && dataText != "" {
      entry := entry.(text := ClampText(entry.text, dataText));
    }
  }

  // -------------------------------------------------------------------------- the reducer

  datatype Change = Replace(message: Fields) | Add(part: Part)

  datatype Action = Ignore | Upsert(id: string, change: Change) | SetToolState(tool: string, state: string)

  /** What a stream event asks for. */
  function Interpret(event: string, data: Json): Action {
    match AsObject(Some(data))
    case None => Ignore
    case Some(body) =>
      if event == "message_created" then
        var message := AsObject(Field(body, "message"));
        if message.None? then Ignore
        else
          var id := AsId(Field(message.value, "id"));
          if id.None? then Ignore else Upsert(id.value, Replace(message.value))
      else if event == "message_part_updated" then
        var id, part := AsString(Field(body, "message_id")), AsObject(Field(body, "part"));
        if id.None? || id.value == "" || part.None? then Ignore
        else Upsert(id.value, Add(ReadLivePart(part.value)))
      else if event == "tool_call_state" then
        var tool, state := AsString(Field(body, "tool_call_id")), AsString(Field(body, "state"));
        if tool.None? || tool.value == "" || state.None? || state.value == "" then Ignore
        else SetToolState(tool.value, state.value)
      else Ignore
  }

  function Mutate(e: Entry, change: Change): Entry {
    match change
    case Replace(message) => EntryFromMessage(e.id, message)
    case Add(part) => AddPart(e, part)
  }

  function FindEntry(entries: seq<Entry>, id: string, i: nat): (r: Option<nat>)
    requires i <= |entries|
    ensures match r
            case Some(k) => i <= k < |entries| && entries[k].id == id && forall j :: i <= j < k ==> entries[j].id != id
            case None => forall j :: i <= j < |entries| ==> entries[j].id != id
    decreases |entries| - i
  {
    if i == |entries| then None else if entries[i].id == id then Some(i) else FindEntry(entries, id, i + 1)
  }

  function BoundTranscript(entries: seq<Entry>): seq<Entry> {
    if |entries| <= MAX_TRANSCRIPT_ENTRIES then entries else entries[|entries| - MAX_TRANSCRIPT_ENTRIES..]
  }

  function UpsertEntry(entries: seq<Entry>, id: string, change: Change): seq<Entry> {
    match FindEntry(entries, id, 0)
    case Some(k) => entries[k := Mutate(entries[k], change)]
    case None => BoundTranscript(entries + [Mutate(EmptyEntry(id, "assistant", 0, 0), change)])
  }

  function WithState(e: Entry, tool: string, state: string): Entry {
    e.(tools := seq(|e.tools|, i requires 0 <= i < |e.tools| =>
                    if e.tools[i].id == tool then e.tools[i].(state := state) else e.tools[i]))
  }

  function Perform(entries: seq<Entry>, action: Action): seq<Entry> {
    match action
    case Ignore => entries
    case Upsert(id, change) => UpsertEntry(entries, id, change)
    case SetToolState(tool, state) => seq(|entries|, i requires 0 <= i < |entries| => WithState(entries[i], tool, state))
  }

  function ApplySseEvent(entries: seq<Entry>, event: string, data: Json): seq<Entry> {
    Perform(entries, Interpret(event, data))
  }

  datatype StreamEvent = StreamEvent(event: string, data: Json)

  function ApplyAll(entries: seq<Entry>, events: seq<StreamEvent>): seq<Entry>
    decreases |events|
  {
    if events == [] then entries else ApplyAll(ApplySseEvent(entries, events[0].event, events[0].data), events[1..])
  }

  // --------------------------------------------------------------------------- invariants

  ghost predicate GoodEntry(e: Entry) {
    DistinctTools(e.tools) && |e.text| <= MAX_ENTRY_CHARS && |e.reasoning| <= MAX_ENTRY_CHARS && |e.summary| <= MAX_ENTRY_CHARS
  }

  ghost predicate DistinctIds(entries: seq<Entry>) {
    forall i, j :: 0 <= i < j < |entries| ==> entries[i].id != entries[j].id
  }

  ghost predicate WellFormed(entries: seq<Entry>) {
    DistinctIds(entries) && |entries| <= MAX_TRANSCRIPT_ENTRIES && forall i :: 0 <= i < |entries| ==> GoodEntry(entries[i])
  }

  lemma AddPartKeeps(e: Entry, part: Part)
    requires GoodEntry(e)
    ensures GoodEntry(AddPart(e, part)) && AddPart(e, part).id == e.id
  {
    if part.ToolPart? { MergeToolExactly(e.tools, part.update); }
  }

  lemma {:induction false} AddPartsKeep(e: Entry, parts: seq<Json>)
    requires GoodEntry(e)
    ensures GoodEntry(AddParts(e, parts)) && AddParts(e, parts).id == e.id
    decreases |parts|
  {
    hide GoodEntry, AddPart, ReadPart;
    if parts != [] {
      AddPartKeeps(e, ReadPart(parts[0]));
      AddPartsKeep(AddPart(e, ReadPart(parts[0])), parts[1..]);
    }
  }

  lemma MutateKeeps(e: Entry, change: Change)
    requires GoodEntry(e)
    ensures GoodEntry(Mutate(e, change)) && Mutate(e, change).id == e.id
  {
    match change
    case Replace(message) => AddPartsKeep(NewEntry(e.id, message), PartsOf(message));
    case Add(part) => AddPartKeeps(e, part);
  }

  lemma UpsertKeeps(entries: seq<Entry>, id: string, change: Change)
    requires WellFormed(entries)
    ensures WellFormed(UpsertEntry(entries, id, change))
  {
    var fallback := EmptyEntry(id, "assistant", 0, 0);
    assert GoodEntry(fallback);
    MutateKeeps(fallback, change);
    var at := FindEntry(entries, id, 0);
    if at.Some? { MutateKeeps(entries[at.value], change); }
    hide GoodEntry, Mutate;
  }

  lemma SetStateKeeps(entries: seq<Entry>, tool: string, state: string)
    requires WellFormed(entries)
    ensures WellFormed(Perform(entries, SetToolState(tool, state)))
  {
    forall i | 0 <= i < |entries| ensures GoodEntry(WithState(entries[i], tool, state)) {
      assert GoodEntry(entries[i]);
    }
    hide GoodEntry;
  }

  /** Whatever events arrive, entry ids stay distinct, at most 500 entries are kept, every text
      stays within its cap and tool ids stay distinct within each entry. */
  lemma {:induction false} TranscriptStaysWellFormed(entries: seq<Entry>, events: seq<StreamEvent>)
    requires WellFormed(entries)
    ensures WellFormed(ApplyAll(entries, events))
    decreases |events|
  {
    if events != [] {
      var action := Interpret(events[0].event, events[0].data);
      hide WellFormed, Interpret;
      match action {
        case Ignore =>
        case Upsert(id, change) => UpsertKeeps(entries, id, change);
        case SetToolState(tool, state) => SetStateKeeps(entries, tool, state);
      }
      TranscriptStaysWellFormed(Perform(entries, action), events[1..]);
    }
  }

  // ------------------------------------------------------------------ the text of an entry

  /** The text a part adds on one channel. */
  function PartText(part: Part, ch: Channel): string {
    if part.TextPart? && part.ch == ch then part.text else ""
  }

  function PartsText(parts: seq<Json>, ch: Channel): string {
    if parts == [] then "" else PartText(ReadPart(parts[0]), ch) + PartsText(parts[1..], ch)
  }

  /** The text a message is created with: its parts win, and a message without text in its parts
      falls back to the text of its data. */
  function CreationText(message: Fields, ch: Channel): string {
    var parts := PartsText(PartsOf(message), ch);
    if ch == Text && parts == "" then DataText(message) else parts
  }

  /** The unbounded text of entry `id` after an action. */
  function Written(id: string, ch: Channel, before: string, action: Action): string {
    if action.Upsert? && action.id == id then
      match action.change
      case Replace(message) => CreationText(message, ch)
      case Add(part) => before + PartText(part, ch)
    else before
  }

  function WrittenAll(id: string, ch: Channel, before: string, events: seq<StreamEvent>): string
    decreases |events|
  {
    if events == [] then before
    else WrittenAll(id, ch, Written(id, ch, before, Interpret(events[0].event, events[0].data)), events[1..])
  }

  function Lookup(entries: seq<Entry>, id: string): Option<Entry> {
    var at := FindEntry(entries, id, 0);
    if at.Some? then Some(entries[at.value]) else None
  }

  lemma AddPartText(e: Entry, part: Part, ch: Channel, whole: string)
    requires TextOf(e, ch) == Take(whole)
    ensures TextOf(AddPart(e, part), ch) == Take(whole + PartText(part, ch))
  {
    ClampIsTake(whole, PartText(part, ch));
    assert whole + "" == whole;
    hide ClampText, Take;
  }

  lemma {:induction false} AddPartsText(e: Entry, parts: seq<Json>, ch: Channel, whole: string)
    requires TextOf(e, ch) == Take(whole)
    ensures TextOf(AddParts(e, parts), ch) == Take(whole + PartsText(parts, ch))
    decreases |parts|
  {
    hide Take, AddPart, ReadPart, PartText;
    if parts == [] {
      assert whole + PartsText(parts, ch) == whole;
    } else {
      var part := ReadPart(parts[0]);
      AddPartText(e, part, ch, whole);
      AddPartsText(AddPart(e, part), parts[1..], ch, whole + PartText(part, ch));
      assert whole + PartText(part, ch) + PartsText(parts[1..], ch) == whole + PartsText(parts, ch);
    }
  }

  lemma TakeNothing(s: string)
    ensures Take(s) == "" <==> s == ""
  {
  }

  lemma CreatedText(id: string, message: Fields, ch: Channel)
    ensures TextOf(EntryFromMessage(id, message), ch) == Take(CreationText(message, ch))
  {
    var parts, data, e := PartsOf(message), DataText(message), NewEntry(id, message);
    assert TextOf(e, ch) == Take("") && TextOf(e, Text) == Take("");
    hide AddParts, PartsText, PartsOf, DataText, NewEntry, Field, Take, ClampText;
    AddPartsText(e, parts, ch, "");
    AddPartsText(e, parts, Text, "");
    assert "" + PartsText(parts, ch) == PartsText(parts, ch) && "" + PartsText(parts, Text) == PartsText(parts, Text);
    TakeNothing(PartsText(parts, Text));
    TakeNothing("");
    ClampIsTake("", data);
    assert "" + data == data;
  }

  lemma MutateText(e: Entry, change: Change, ch: Channel, whole: string)
    requires TextOf(e, ch) == Take(whole)
    ensures TextOf(Mutate(e, change), ch) == Take(Written(e.id, ch, whole, Upsert(e.id, change)))
  {
    hide EntryFromMessage, AddPart, Take, CreationText, PartText;
    match change
    case Replace(message) => CreatedText(e.id, message, ch);
    case Add(part) => AddPartText(e, part, ch, whole);
  }

  /** A missing entry is created by changing an empty one, and goes to the end. */
  lemma UpsertCreates(entries: seq<Entry>, id: string, change: Change)
    requires WellFormed(entries) && Lookup(entries, id).None?
    ensures Lookup(UpsertEntry(entries, id, change), id) == Some(Mutate(EmptyEntry(id, "assistant", 0, 0), change))
    ensures EmptyEntry(id, "assistant", 0, 0).id == id
  {
    var fallback := EmptyEntry(id, "assistant", 0, 0);
    assert GoodEntry(fallback);
    MutateKeeps(fallback, change);
    var after := UpsertEntry(entries, id, change);
    assert Last(after) == Mutate(fallback, change);
    hide Mutate, GoodEntry;
  }

  lemma EmptyEntryIsEmpty(id: string, ch: Channel)
    ensures TextOf(EmptyEntry(id, "assistant", 0, 0), ch) == Take("")
  {
  }

  lemma EmptyEntryHasNoTools(id: string, tid: string)
    ensures FindTool(EmptyEntry(id, "assistant", 0, 0).tools, tid) == Described(tid, [])
  {
  }

  /** An entry that is missing and is then written to starts from nothing. */
  lemma FirstText(entries: seq<Entry>, id: string, change: Change, ch: Channel)
    requires WellFormed(entries) && Lookup(entries, id).None?
    ensures var e := Lookup(UpsertEntry(entries, id, change), id);
            e.Some? && TextOf(e.value, ch) == Take(Written(id, ch, "", Upsert(id, change)))
  {
    hide *;
    UpsertCreates(entries, id, change);
    EmptyEntryIsEmpty(id, ch);
    MutateText(EmptyEntry(id, "assistant", 0, 0), change, ch, "");
  }

  /** As long as an entry is present, each action does to its text what it would do without caps,
      cut to the cap. */
  lemma StepText(entries: seq<Entry>, action: Action, id: string, ch: Channel, whole: string)
    requires WellFormed(entries) && Lookup(entries, id).Some? && Lookup(Perform(entries, action), id).Some?
    requires TextOf(Lookup(entries, id).value, ch) == Take(whole)
    ensures TextOf(Lookup(Perform(entries, action), id).value, ch) == Take(Written(id, ch, whole, action))
  {
    var k := FindEntry(entries, id, 0).value;
    match action {
      case Ignore =>
      case SetToolState(tool, state) =>
        var after := Perform(entries, action);
        var m := FindEntry(after, id, 0).value;
        assert after[m] == WithState(entries[m], tool, state);
      case Upsert(other, change) =>
        MutateText(entries[k], change, ch, whole);
        UpsertLookup(entries, other, change, id);
    }
  }

  lemma UpsertLookup(entries: seq<Entry>, other: string, change: Change, id: string)
    requires WellFormed(entries) && Lookup(entries, id).Some? && Lookup(UpsertEntry(entries, other, change), id).Some?
    ensures Lookup(UpsertEntry(entries, other, change), id).value
         == if other == id then Mutate(Lookup(entries, id).value, change) else Lookup(entries, id).value
  {
    var after := UpsertEntry(entries, other, change);
    var at := FindEntry(entries, other, 0);
    var m := FindEntry(after, id, 0).value;
    if at.Some? {
      assert GoodEntry(entries[at.value]);
      MutateKeeps(entries[at.value], change);
    } else {
      var fallback := EmptyEntry(other, "assistant", 0, 0);
      assert GoodEntry(fallback);
      MutateKeeps(fallback, change);
    }
    hide Mutate, GoodEntry;
    assert other != id ==> after[m] in entries;
    var k := FindEntry(entries, id, 0).value;
  }

  /** The entry is never evicted while the events are applied. */
  ghost predicate StaysPresent(entries: seq<Entry>, events: seq<StreamEvent>, id: string)
    decreases |events|
  {
    Lookup(entries, id).Some? &&
    (events == [] || StaysPresent(ApplySseEvent(entries, events[0].event, events[0].data), events[1..], id))
  }

  /** Whatever events interleave, the text of an entry that is not evicted is its creation text
      followed by all its later text deltas, cut once to the character cap; and likewise for its
      reasoning and its summary. */
  lemma {:induction false} TextIsClampedFold(entries: seq<Entry>, events: seq<StreamEvent>, id: string,
      ch: Channel, whole: string)
    requires WellFormed(entries) && StaysPresent(entries, events, id)
    requires TextOf(Lookup(entries, id).value, ch) == Take(whole)
    ensures var e := Lookup(ApplyAll(entries, events), id);
            e.Some? && TextOf(e.value, ch) == Take(WrittenAll(id, ch, whole, events))
    decreases |events|
  {
    if events != [] {
      var action := Interpret(events[0].event, events[0].data);
      var next := Perform(entries, action);
      assert next == ApplySseEvent(entries, events[0].event, events[0].data);
      TranscriptStaysWellFormed(entries, [events[0]]);
      var none: seq<StreamEvent> := [];
      assert [events[0]][1..] == none;
      assert ApplyAll(next, none) == next;
      hide WellFormed, Perform, Interpret, Lookup, Written, Take, TextOf;
      StepText(entries, action, id, ch, whole);
      TextIsClampedFold(next, events[1..], id, ch, Written(id, ch, whole, action));
    }
  }

  /** From the event that creates the entry on: the whole story of its text. */
  lemma {:induction false} TextFromCreation(entries: seq<Entry>, events: seq<StreamEvent>, id: string, ch: Channel)
    requires WellFormed(entries) && Lookup(entries, id).None? && events != []
    requires StaysPresent(ApplySseEvent(entries, events[0].event, events[0].data), events[1..], id)
    ensures var e := Lookup(ApplyAll(entries, events), id);
            e.Some? && TextOf(e.value, ch) == Take(WrittenAll(id, ch, "", events))
  {
    var action := Interpret(events[0].event, events[0].data);
    var next := Perform(entries, action);
    assert next == ApplySseEvent(entries, events[0].event, events[0].data);
    CreatedByUpsert(entries, action, id);
    TranscriptStaysWellFormed(entries, [events[0]]);
    var none: seq<StreamEvent> := [];
    assert [events[0]][1..] == none;
    assert ApplyAll(next, none) == next;
    assert next == UpsertEntry(entries, id, action.change);
    hide WellFormed, Perform, Interpret, Lookup, Written, Take, TextOf, UpsertEntry;
    FirstText(entries, id, action.change, ch);
    TextIsClampedFold(next, events[1..], id, ch, Written(id, ch, "", action));
  }

  lemma CreatedByUpsert(entries: seq<Entry>, action: Action, id: string)
    requires WellFormed(entries) && Lookup(entries, id).None? && Lookup(Perform(entries, action), id).Some?
    ensures action.Upsert? && action.id == id
  {
    OnlyOldestIsEvicted(entries, action);
    var after := Perform(entries, action);
    var m := FindEntry(after, id, 0).value;
    assert Ids(after)[m] == id;
    assert id !in Ids(entries);
    hide Perform;
    assert id in Ids(after);
  }

  // ----------------------------------------------------------------- the tools of an entry

  /** The value a field was last given by a list of updates, or a default. */
  function LastWritten<T>(h: seq<ToolUpdate>, field: ToolUpdate -> Option<T>, d: T): T {
    if h == [] then d else if field(Last(h)).Some? then field(Last(h)).value else LastWritten(Front(h), field, d)
  }

  function NameOf(u: ToolUpdate): Option<string> { u.name }

  function StateOf(u: ToolUpdate): Option<string> { u.state }

  function InputOf(u: ToolUpdate): Option<Json> { u.input }

  function ExcerptOf(u: ToolUpdate): Option<Option<string>> { u.excerpt }

  function ExitCodeOf(u: ToolUpdate): Option<Option<int>> { u.exitCode }

  function ArtifactOf(u: ToolUpdate): Option<Option<string>> { u.artifact }

  /** The tool that a list of updates describes: each field as last written. */
  function Described(id: string, h: seq<ToolUpdate>): Option<Tool> {
    if h == [] then None
    else Some(Tool(id, LastWritten(h, NameOf, ""), LastWritten(h, StateOf, "running"), LastWritten(h, InputOf, Null),
                   LastWritten(h, ExcerptOf, None), LastWritten(h, ExitCodeOf, None), LastWritten(h, ArtifactOf, None)))
  }

  lemma LastWrittenMore<T>(h: seq<ToolUpdate>, u: ToolUpdate, field: ToolUpdate -> Option<T>, d: T)
    ensures LastWritten(h + [u], field, d) == OrElse(field(u), LastWritten(h, field, d))
  {
    assert Front(h + [u]) == h;
  }

  lemma DescribedMore(id: string, h: seq<ToolUpdate>, u: ToolUpdate)
    requires u.id == id
    ensures Described(id, h + [u])
         == Some(if Described(id, h).None? then Created(u) else Merged(Described(id, h).value, u))
  {
    LastWrittenMore(h, u, NameOf, "");
    LastWrittenMore(h, u, StateOf, "running");
    LastWrittenMore(h, u, InputOf, Null);
    LastWrittenMore(h, u, ExcerptOf, None);
    LastWrittenMore(h, u, ExitCodeOf, None);
    LastWrittenMore(h, u, ArtifactOf, None);
    NothingWritten(h);
    hide LastWritten;
  }

  lemma NothingWritten(h: seq<ToolUpdate>)
    ensures h == [] ==> LastWritten(h, NameOf, "") == "" && LastWritten(h, StateOf, "running") == "running"
                        && LastWritten(h, InputOf, Null) == Null && LastWritten(h, ExcerptOf, None) == None
                        && LastWritten(h, ExitCodeOf, None) == None && LastWritten(h, ArtifactOf, None) == None
  {
  }

  lemma {:induction false} FindReplaced(tools: seq<Tool>, id: string, t: Tool, tid: string)
    requires t.id == id
    ensures FindTool(ReplaceTool(tools, id, t), tid)
         == if tid == id && FindTool(tools, id).Some? then Some(t) else FindTool(tools, tid)
  {
    if tools != [] {
      FindReplaced(tools[1..], id, t, tid);
      assert ReplaceTool(tools, id, t)[1..] == ReplaceTool(tools[1..], id, t);
    }
  }

  lemma {:induction false} FindAppended(tools: seq<Tool>, t: Tool, tid: string)
    ensures FindTool(tools + [t], tid)
         == if FindTool(tools, tid).Some? then FindTool(tools, tid) else if t.id == tid then Some(t) else None
  {
    if tools != [] {
      FindAppended(tools[1..], t, tid);
      assert (tools + [t])[1..] == tools[1..] + [t];
    }
  }

  lemma FindMerged(tools: seq<Tool>, u: ToolUpdate, tid: string)
    ensures FindTool(MergeTool(tools, u), tid)
         == if tid != u.id then FindTool(tools, tid)
            else Some(if FindTool(tools, tid).None? then Created(u) else Merged(FindTool(tools, tid).value, u))
  {
    FindAppended(tools, Created(u), tid);
    var found := FindTool(tools, u.id);
    if found.Some? { FindReplaced(tools, u.id, Merged(found.value, u), tid); }
    hide FindTool, ReplaceTool;
  }

  lemma {:induction false} FindStated(e: Entry, tool: string, state: string, tid: string)
    ensures FindTool(WithState(e, tool, state).tools, tid)
         == if tid == tool && FindTool(e.tools, tid).Some? then Some(FindTool(e.tools, tid).value.(state := state))
            else FindTool(e.tools, tid)
    decreases |e.tools|
  {
    if e.tools != [] {
      var rest := e.(tools := e.tools[1..]);
      FindStated(rest, tool, state, tid);
      assert WithState(e, tool, state).tools[1..] == WithState(rest, tool, state).tools;
    }
  }

  /** The updates of one tool that a part brings. */
  function PartUpdates(part: Part, tid: string): seq<ToolUpdate> {
    if part.ToolPart? && part.update.id == tid then [part.update] else []
  }

  function PartsUpdates(parts: seq<Json>, tid: string): seq<ToolUpdate> {
    if parts == [] then [] else PartUpdates(ReadPart(parts[0]), tid) + PartsUpdates(parts[1..], tid)
  }

  function StateUpdate(tid: string, state: string): ToolUpdate {
    ToolUpdate(tid, None, Some(state), None, None, None, None)
  }

  /** The updates of tool `tid` in entry `id` after an action: a message that creates the entry
      anew begins them anew, and a state change counts once the tool exists. */
  function Updates(id: string, tid: string, before: seq<ToolUpdate>, action: Action): seq<ToolUpdate> {
    match action
    case Upsert(other, Replace(message)) => if other == id then PartsUpdates(PartsOf(message), tid) else before
    case Upsert(other, Add(part)) => if other == id then before + PartUpdates(part, tid) else before
    case SetToolState(tool, state) => if tool == tid && before != [] then before + [StateUpdate(tid, state)] else before
    case Ignore => before
  }

  function UpdatesAll(id: string, tid: string, before: seq<ToolUpdate>, events: seq<StreamEvent>): seq<ToolUpdate>
    decreases |events|
  {
    if events == [] then before
    else UpdatesAll(id, tid, Updates(id, tid, before, Interpret(events[0].event, events[0].data)), events[1..])
  }

  lemma AddPartTools(e: Entry, part: Part, tid: string, h: seq<ToolUpdate>)
    requires FindTool(e.tools, tid) == Described(tid, h)
    ensures FindTool(AddPart(e, part).tools, tid) == Described(tid, h + PartUpdates(part, tid))
  {
    assert h + [] == h;
    if part.ToolPart? {
      FindMerged(e.tools, part.update, tid);
      if part.update.id == tid { DescribedMore(tid, h, part.update); }
    }
    hide FindTool, Described, MergeTool, Created, Merged;
  }

  lemma {:induction false} AddPartsTools(e: Entry, parts: seq<Json>, tid: string, h: seq<ToolUpdate>)
    requires FindTool(e.tools, tid) == Described(tid, h)
    ensures FindTool(AddParts(e, parts).tools, tid) == Described(tid, h + PartsUpdates(parts, tid))
    decreases |parts|
  {
    hide AddPart, ReadPart, PartUpdates, Described, FindTool;
    if parts == [] {
      assert h + PartsUpdates(parts, tid) == h;
    } else {
      var part := ReadPart(parts[0]);
      AddPartTools(e, part, tid, h);
      AddPartsTools(AddPart(e, part), parts[1..], tid, h + PartUpdates(part, tid));
      assert h + PartUpdates(part, tid) + PartsUpdates(parts[1..], tid) == h + PartsUpdates(parts, tid);
    }
  }

  lemma CreatedTools(id: string, message: Fields, tid: string)
    ensures FindTool(EntryFromMessage(id, message).tools, tid) == Described(tid, PartsUpdates(PartsOf(message), tid))
  {
    var parts, e := PartsOf(message), NewEntry(id, message);
    assert EntryFromMessage(id, message).tools == AddParts(e, parts).tools && e.tools == [];
    assert FindTool([], tid) == Described(tid, []);
    hide *;
    AddPartsTools(e, parts, tid, []);
    assert [] + PartsUpdates(parts, tid) == PartsUpdates(parts, tid);
  }

  lemma MutateTools(e: Entry, change: Change, tid: string, h: seq<ToolUpdate>)
    requires FindTool(e.tools, tid) == Described(tid, h)
    ensures FindTool(Mutate(e, change).tools, tid) == Described(tid, Updates(e.id, tid, h, Upsert(e.id, change)))
  {
    hide EntryFromMessage, AddPart, PartsUpdates, PartsOf, Described, FindTool;
    match change
    case Replace(message) => CreatedTools(e.id, message, tid);
    case Add(part) => AddPartTools(e, part, tid, h);
  }

  lemma StepTools(entries: seq<Entry>, action: Action, id: string, tid: string, h: seq<ToolUpdate>)
    requires WellFormed(entries) && Lookup(entries, id).Some? && Lookup(Perform(entries, action), id).Some?
    requires FindTool(Lookup(entries, id).value.tools, tid) == Described(tid, h)
    ensures FindTool(Lookup(Perform(entries, action), id).value.tools, tid) == Described(tid, Updates(id, tid, h, action))
  {
    var k := FindEntry(entries, id, 0).value;
    match action {
      case Ignore =>
      case SetToolState(tool, state) => StateTools(entries, tool, state, id, tid, h);
      case Upsert(other, change) =>
        MutateTools(entries[k], change, tid, h);
        UpsertLookup(entries, other, change, id);
        hide Mutate, FindTool, Described, UpsertEntry, Lookup;
    }
  }

  lemma StateTools(entries: seq<Entry>, tool: string, state: string, id: string, tid: string, h: seq<ToolUpdate>)
    requires WellFormed(entries) && Lookup(entries, id).Some?
    requires Lookup(Perform(entries, SetToolState(tool, state)), id).Some?
    requires FindTool(Lookup(entries, id).value.tools, tid) == Described(tid, h)
    ensures FindTool(Lookup(Perform(entries, SetToolState(tool, state)), id).value.tools, tid)
         == Described(tid, Updates(id, tid, h, SetToolState(tool, state)))
  {
    var e := Lookup(entries, id).value;
    hide *;
    StateLookup(entries, tool, state, id);
    FindStated(e, tool, state, tid);
    StateDescribed(id, tid, h, tool, state);
  }

  lemma StateLookup(entries: seq<Entry>, tool: string, state: string, id: string)
    requires WellFormed(entries)
    requires Lookup(entries, id).Some? && Lookup(Perform(entries, SetToolState(tool, state)), id).Some?
    ensures Lookup(Perform(entries, SetToolState(tool, state)), id).value == WithState(Lookup(entries, id).value, tool, state)
  {
    var after := Perform(entries, SetToolState(tool, state));
    var m := FindEntry(after, id, 0).value;
    assert after[m] == WithState(entries[m], tool, state);
    hide GoodEntry;
  }

  lemma StateDescribed(id: string, tid: string, h: seq<ToolUpdate>, tool: string, state: string)
    ensures Described(tid, Updates(id, tid, h, SetToolState(tool, state)))
         == if tid == tool && Described(tid, h).Some? then Some(Described(tid, h).value.(state := state))
            else Described(tid, h)
  {
    DescribedMore(tid, h, StateUpdate(tid, state));
    assert Described(tid, h).None? <==> h == [];
    assert Described(tid, h).Some? ==> Described(tid, h).value.id == tid;
    hide Described;
  }

  /** As long as an entry is present, each of its tools has every field as last written. */
  lemma {:induction false} ToolsAreLastWritten(entries: seq<Entry>, events: seq<StreamEvent>, id: string, tid: string,
      h: seq<ToolUpdate>)
    requires WellFormed(entries) && StaysPresent(entries, events, id)
    requires FindTool(Lookup(entries, id).value.tools, tid) == Described(tid, h)
    ensures var e := Lookup(ApplyAll(entries, events), id);
            e.Some? && FindTool(e.value.tools, tid) == Described(tid, UpdatesAll(id, tid, h, events))
    decreases |events|
  {
    if events != [] {
      var action := Interpret(events[0].event, events[0].data);
      var next := Perform(entries, action);
      assert next == ApplySseEvent(entries, events[0].event, events[0].data);
      StepKeeps(entries, events[0]);
      hide WellFormed, Perform, Interpret, Lookup, Updates, FindTool, Described;
      StepTools(entries, action, id, tid, h);
      ToolsAreLastWritten(next, events[1..], id, tid, Updates(id, tid, h, action));
    }
  }

  lemma StepKeeps(entries: seq<Entry>, event: StreamEvent)
    requires WellFormed(entries)
    ensures WellFormed(ApplySseEvent(entries, event.event, event.data))
  {
    var none: seq<StreamEvent> := [];
    assert [event][1..] == none;
    hide WellFormed, ApplySseEvent;
    TranscriptStaysWellFormed(entries, [event]);
    assert ApplyAll(ApplySseEvent(entries, event.event, event.data), none) == ApplySseEvent(entries, event.event, event.data);
  }

  /** The whole story of a tool: from the event that creates its entry on, whatever events
      interleave, it exists exactly if an update for it has arrived since the entry was last
      created, and its name, state, input and result are the ones last written since then. */
  lemma {:induction false} ToolsFromCreation(entries: seq<Entry>, events: seq<StreamEvent>, id: string, tid: string)
    requires WellFormed(entries) && Lookup(entries, id).None? && events != []
    requires StaysPresent(ApplySseEvent(entries, events[0].event, events[0].data), events[1..], id)
    ensures var e := Lookup(ApplyAll(entries, events), id);
            e.Some? && FindTool(e.value.tools, tid) == Described(tid, UpdatesAll(id, tid, [], events))
  {
    var action := Interpret(events[0].event, events[0].data);
    var next := Perform(entries, action);
    assert next == ApplySseEvent(entries, events[0].event, events[0].data);
    CreatedByUpsert(entries, action, id);
    StepKeeps(entries, events[0]);
    assert next == UpsertEntry(entries, id, action.change);
    hide WellFormed, Perform, Interpret, Lookup, Updates, UpsertEntry, FindTool, Described;
    FirstTools(entries, id, action.change, tid);
    ToolsAreLastWritten(next, events[1..], id, tid, Updates(id, tid, [], action));
  }

  lemma FirstTools(entries: seq<Entry>, id: string, change: Change, tid: string)
    requires WellFormed(entries) && Lookup(entries, id).None?
    ensures var e := Lookup(UpsertEntry(entries, id, change), id);
            e.Some? && FindTool(e.value.tools, tid) == Described(tid, Updates(id, tid, [], Upsert(id, change)))
  {
    hide *;
    UpsertCreates(entries, id, change);
    EmptyEntryHasNoTools(id, tid);
    MutateTools(EmptyEntry(id, "assistant", 0, 0), change, tid, []);
  }

  // ----------------------------------------------------------------------------- eviction

  function Ids(entries: seq<Entry>): seq<string> {
    seq(|entries|, i requires 0 <= i < |entries| => entries[i].id)
  }

  /** Entries keep their arrival order, and only the oldest one leaves, only when a 501st arrives. */
  lemma OnlyOldestIsEvicted(entries: seq<Entry>, action: Action)
    requires WellFormed(entries)
    ensures var ids, after := Ids(entries), Ids(Perform(entries, action));
            if action.Upsert? && Lookup(entries, action.id).None?
            then after == (if |ids| < MAX_TRANSCRIPT_ENTRIES then ids + [action.id] else ids[1..] + [action.id])
            else after == ids
  {
    if action.Upsert? {
      var at := FindEntry(entries, action.id, 0);
      if at.Some? {
        assert GoodEntry(entries[at.value]);
        MutateKeeps(entries[at.value], action.change);
      } else {
        var fallback := EmptyEntry(action.id, "assistant", 0, 0);
        assert GoodEntry(fallback);
        MutateKeeps(fallback, action.change);
      }
    }
    hide Mutate, GoodEntry;
  }

  // ------------------------------------------------------------------------ durable pages

  function MessageEntry(raw: Json): Option<Entry> {
    var message := AsObject(Some(raw));
    if message.None? then None
    else
      var id := AsId(Field(message.value, "id"));
      if id.None? then None else Some(EntryFromMessage(id.value, message.value))
  }

  /** The entries of a page listed newest first, oldest first. */
  function PageEntries(messages: seq<Json>): seq<Entry> {
    if messages == [] then []
    else PageEntries(messages[1..]) + (match MessageEntry(messages[0]) case None => [] case Some(e) => [e])
  }

  method TranscriptFromMessages(messages: seq<Json>) returns (entries: seq<Entry>)
    ensures entries == BoundTranscript(PageEntries(messages))
  {
    entries := [];
    var k: nat := |messages|;
    hide MessageEntry;
    while k > 0
      invariant k <= |messages| && entries == PageEntries(messages[k..])
    {
      k := k - 1;
      assert messages[k..][1..] == messages[k + 1..];
      var e := MessageEntry(messages[k]);
      if e.Some? { entries := entries + [e.value]; }
    }
    assert messages[0..] == messages;
    entries := BoundTranscript(entries);
  }

  lemma {:induction false} PageEntriesAreGood(messages: seq<Json>)
    ensures forall i :: 0 <= i < |PageEntries(messages)| ==> GoodEntry(PageEntries(messages)[i])
  {
    if messages != [] {
      PageEntriesAreGood(messages[1..]);
      MessageEntryIsGood(messages[0]);
    }
    hide GoodEntry, MessageEntry;
  }

  lemma MessageEntryIsGood(raw: Json)
    ensures MessageEntry(raw).Some? ==> GoodEntry(MessageEntry(raw).value)
  {
    var message := AsObject(Some(raw));
    if message.Some? {
      var id := AsId(Field(message.value, "id"));
      if id.Some? { MutateKeeps(EmptyEntry(id.value, "assistant", 0, 0), Replace(message.value)); }
    }
  }

  /** The id a message of a page is listed under, if it is listed. */
  function MessageId(raw: Json): Option<string> {
    var message := AsObject(Some(raw));
    if message.None? then None else AsId(Field(message.value, "id"))
  }

  /** The ids of a page listed newest first, newest first. */
  function PageIds(messages: seq<Json>): seq<string> {
    if messages == [] then []
    else (match MessageId(messages[0]) case None => [] case Some(id) => [id]) + PageIds(messages[1..])
  }

  lemma EntryKeepsId(raw: Json)
    ensures MessageEntry(raw).Some? <==> MessageId(raw).Some?
    ensures MessageEntry(raw).Some? ==> MessageEntry(raw).value.id == MessageId(raw).value
  {
    var id := MessageId(raw);
    if id.Some? { MutateKeeps(EmptyEntry(id.value, "assistant", 0, 0), Replace(raw.fields)); }
  }

  ghost predicate Mirrors(entries: seq<Entry>, ids: seq<string>) {
    |entries| == |ids| && forall i :: 0 <= i < |ids| ==> entries[|ids| - 1 - i].id == ids[i]
  }

  lemma MirrorsOneMore(entries: seq<Entry>, ids: seq<string>, e: Entry)
    requires Mirrors(entries, ids)
    ensures Mirrors(entries + [e], [e.id] + ids)
  {
  }

  lemma {:induction false} PageMirrorsIds(messages: seq<Json>)
    ensures Mirrors(PageEntries(messages), PageIds(messages))
  {
    if messages != [] {
      var entries, ids := PageEntries(messages[1..]), PageIds(messages[1..]);
      PageMirrorsIds(messages[1..]);
      EntryKeepsId(messages[0]);
      hide MessageEntry, MessageId, Mirrors;
      var e := MessageEntry(messages[0]);
      if e.Some? {
        MirrorsOneMore(entries, ids, e.value);
      } else {
        assert entries + [] == entries && [] + ids == ids;
      }
    }
  }

  ghost predicate NewestDistinct(messages: seq<Json>) {
    forall i, j :: 0 <= i < j < |PageIds(messages)| && j < MAX_TRANSCRIPT_ENTRIES ==> PageIds(messages)[i] != PageIds(messages)[j]
  }

  /** A durable page is loaded without merging, so it starts the transcript off well exactly when
      the ids of its 500 newest messages are distinct. */
  lemma {:induction false} PageIsWellFormedExactly(messages: seq<Json>)
    ensures WellFormed(BoundTranscript(PageEntries(messages))) <==> NewestDistinct(messages)
  {
    PageEntriesAreGood(messages);
    PageMirrorsIds(messages);
    hide GoodEntry, PageEntries, PageIds;
    var all, ids := PageEntries(messages), PageIds(messages);
    var kept := BoundTranscript(all);
    assert forall i :: 0 <= i < |kept| ==> kept[|kept| - 1 - i].id == ids[i];
    if DistinctIds(kept) {
      forall i, j | 0 <= i < j < |ids| && j < MAX_TRANSCRIPT_ENTRIES ensures ids[i] != ids[j] {
        assert kept[|kept| - 1 - j].id != kept[|kept| - 1 - i].id;
      }
    }
    if NewestDistinct(messages) {
      forall i, j | 0 <= i < j < |kept| ensures kept[i].id != kept[j].id {
        assert ids[|kept| - 1 - j] != ids[|kept| - 1 - i];
      }
    }
  }
}
