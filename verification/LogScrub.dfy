/**
 Log retention: lines older than a cutoff are cut down to a minimum, unparseable lines become a marker,
 newer and protected lines stay as they are.
 */
module LogScrub {
  import opened Base

  // ---------------------------------------------------------------- lines

  datatype Json =
    | Null
    | Bool(value: bool)
    | Number(digits: string)
    | Text(text: string)
    | Array(items: seq<Json>)
    | Object(fields: map<string, Json>)

  type Payload = map<string, Json>

  /**
   A line of either log. `spelling` is whatever of a JSON line its value does not fix; a line written
   by the scrubber has the canonical one. Reading back what was written gives the same value.
   */
  datatype Line =
    | JsonLine(payload: Payload, spelling: string)
    | BrokenJsonLine(raw: string)
    | TextLine(line: string)

  const CANONICAL: string := ""
  const PRUNED_EVENT: string := "retention_unparseable_line_pruned"
  const PRUNED_TEXT: string := "retention_pruned=true"
  const TEXT_MARKER: string := PRUNED_EVENT + " " + PRUNED_TEXT + "\n"

  /** The scrubber's settings: how instants and whitespace are read, and the ids that protect a line. */
  datatype Scrubber = Scrubber(
    parseInstant: string -> Option<int>,
    show: Json -> string,
    isSpace: char -> bool,
    tasks: set<string>,
    messages: set<string>,
    actions: set<string>,
    approvals: set<string>)

  /** The few facts about the library functions that the scrubber relies on. */
  ghost predicate Sane(s: Scrubber) {
    && s.parseInstant("").None? && s.parseInstant(PRUNED_EVENT).None?
    && s.isSpace(' ') && s.isSpace('\n')
    && IsField(s, PRUNED_TEXT) && IsField(s, PRUNED_EVENT)
  }

  ghost predicate IsField(s: Scrubber, field: string) {
    field != [] && forall i :: 0 <= i < |field| ==> !s.isSpace(field[i])
  }

  // ---------------------------------------------------------------- JSON lines

  function Get(p: Payload, key: string): Json {
    if key in p then p[key] else Null
  }

  function PrunedData(): Json {
    Object(map["retention_pruned" := Bool(true)])
  }

  function Minimal(p: Payload): Payload {
    map["ts" := Get(p, "ts"), "level" := Get(p, "level"), "run_id" := Get(p, "run_id"), "task_id" := Get(p, "task_id"),
        "event" := Get(p, "event"), "data" := PrunedData()]
  }

  function JsonMarker(): Payload {
    map["ts" := Null, "level" := Text("warning"), "run_id" := Null, "task_id" := Null, "event" := Text(PRUNED_EVENT),
        "data" := PrunedData()]
  }

  predicate IsJsonMarker(p: Payload) {
    Get(p, "event") == Text(PRUNED_EVENT) && Get(p, "data") == PrunedData()
  }

  predicate Names(s: Scrubber, value: Json, ids: set<string>) {
    value != Null && s.show(value) in ids
  }

  predicate JsonProtected(s: Scrubber, p: Payload) {
    || Names(s, Get(p, "task_id"), s.tasks)
    || (Get(p, "data").Object?
        && var data := Get(p, "data").fields;
           Names(s, Get(data, "message_id"), s.messages)
           || Names(s, Get(data, "action_id"), s.actions)
           || Names(s, Get(data, "approval_id"), s.approvals))
  }

  function JsonInstant(s: Scrubber, p: Payload): Option<int> {
    s.parseInstant(if "ts" in p then s.show(p["ts"]) else "")
  }

  function ScrubJson(s: Scrubber, line: Line, cutoff: int): (Line, bool)
    requires !line.TextLine?
  {
    var marker := JsonLine(JsonMarker(), CANONICAL);
    if line.BrokenJsonLine? then (marker, true)
    else
      var p := line.payload;
      if IsJsonMarker(p) then (line, false)
      else if JsonInstant(s, p).None? then (marker, true)
      else if JsonInstant(s, p).value > cutoff || JsonProtected(s, p) || p == Minimal(p) then (line, false)
      else (JsonLine(Minimal(p), CANONICAL), true)
  }

  // ---------------------------------------------------------------- text lines

  /** Length of the field a string starts with. */
  function FieldLength(s: Scrubber, t: string): (n: nat)
    ensures n <= |t| && (t != [] && !s.isSpace(t[0]) ==> n > 0)
    ensures forall i :: 0 <= i < n ==> !s.isSpace(t[i])
    ensures n < |t| ==> s.isSpace(t[n])
  {
    if t == [] || s.isSpace(t[0]) then 0 else 1 + FieldLength(s, t[1..])
  }

  /** `str.split()`: the maximal runs without whitespace. A trailing line break is whitespace too. */
  function Fields(s: Scrubber, t: string): seq<string>
    decreases |t|
  {
    if t == [] then []
    else if s.isSpace(t[0]) then Fields(s, t[1..])
    else [t[..FieldLength(s, t)]] + Fields(s, t[FieldLength(s, t)..])
  }

  function Join(fields: seq<string>): string {
    if fields == [] then [] else if |fields| == 1 then fields[0] else fields[0] + " " + Join(fields[1..])
  }

  function FirstThree(fields: seq<string>): seq<string> {
    if |fields| <= 3 then fields else fields[..3]
  }

  function MinimalText(fields: seq<string>): string {
    Join(FirstThree(fields)) + " " + PRUNED_TEXT + "\n"
  }

  /** A field `key=id` with a protected id. */
  predicate FieldNames(field: string, key: string, ids: set<string>) {
    key <= field && field[|key|..] in ids
  }

  predicate FieldProtects(s: Scrubber, field: string) {
    || FieldNames(field, "task_id=", s.tasks)
    || FieldNames(field, "action_id=", s.actions)
    || FieldNames(field, "approval_id=", s.approvals)
    || FieldNames(field, "message_id=", s.messages)
  }

  predicate TextProtected(s: Scrubber, fields: seq<string>) {
    exists i :: 0 <= i < |fields| && FieldProtects(s, fields[i])
  }

  function TextInstant(s: Scrubber, fields: seq<string>): Option<int> {
    if fields == [] then None else s.parseInstant(fields[0])
  }

  function ScrubText(s: Scrubber, line: string, cutoff: int): (string, bool) {
    if line == TEXT_MARKER then (line, false)
    else
      var fields := Fields(s, line);
      var instant := TextInstant(s, fields);
      if instant.None? then (TEXT_MARKER, true)
      else if instant.value > cutoff || TextProtected(s, fields) || line == MinimalText(fields) then (line, false)
      else (MinimalText(fields), true)
  }

  // ---------------------------------------------------------------- files

  function ScrubLine(s: Scrubber, line: Line, cutoff: int): (Line, bool) {
    if line.TextLine? then
      var (text, changed) := ScrubText(s, line.line, cutoff);
      (TextLine(text), changed)
    else ScrubJson(s, line, cutoff)
  }

  function ScrubAll(s: Scrubber, lines: seq<Line>, cutoff: int): (r: seq<Line>)
    ensures |r| == |lines|
  {
    if lines == [] then [] else [ScrubLine(s, lines[0], cutoff).0] + ScrubAll(s, lines[1..], cutoff)
  }

  lemma {:induction false} ScrubAllAt(s: Scrubber, lines: seq<Line>, cutoff: int, i: nat)
    requires i < |lines|
    ensures ScrubAll(s, lines, cutoff)[i] == ScrubLine(s, lines[i], cutoff).0
  {
    if i > 0 {
      ScrubAllAt(s, lines[1..], cutoff, i - 1);
    }
  }

  function Changed(s: Scrubber, lines: seq<Line>, cutoff: int): nat {
    if lines == [] then 0 else (if ScrubLine(s, lines[0], cutoff).1 then 1 else 0) + Changed(s, lines[1..], cutoff)
  }

  /** A line the scrubber must not touch. */
  predicate Kept(s: Scrubber, line: Line, cutoff: int) {
    match line
    case BrokenJsonLine(_) => false
    case JsonLine(p, _) => JsonInstant(s, p).Some? && (JsonInstant(s, p).value > cutoff || JsonProtected(s, p))
    case TextLine(t) =>
      var fields := Fields(s, t);
      TextInstant(s, fields).Some? && (TextInstant(s, fields).value > cutoff || TextProtected(s, fields))
  }

  // ---------------------------------------------------------------- what protects a line, and what a line becomes

  /** The object has the key, and what it shows there is one of the ids. */
  predicate Mentions(s: Scrubber, p: Payload, key: string, ids: set<string>) {
    key in p && p[key] != Null && s.show(p[key]) in ids
  }

  /** Which ids protect a JSON line: its own task, and the message, action and approval of its data. */
  predicate JsonMentionsProtected(s: Scrubber, p: Payload) {
    || Mentions(s, p, "task_id", s.tasks)
    || ("data" in p && p["data"].Object?
        && (Mentions(s, p["data"].fields, "message_id", s.messages) || Mentions(s, p["data"].fields, "action_id", s.actions)
            || Mentions(s, p["data"].fields, "approval_id", s.approvals)))
  }

  /** When a JSON line was written, if that can be told. */
  function WrittenAt(s: Scrubber, p: Payload): Option<int> {
    s.parseInstant(if "ts" in p then s.show(p["ts"]) else "")
  }

  /** The line says of itself that it was pruned. */
  predicate SaysPruned(p: Payload) {
    "event" in p && p["event"] == Text("retention_unparseable_line_pruned")
    && "data" in p && p["data"] == Object(map["retention_pruned" := Bool(true)])
  }

  /**
   What becomes of a JSON line, and whether it is counted. A broken or undated one becomes the marker; a
   dated one stays if it is newer than the cutoff, mentions a protected id, or holds nothing more than a
   pruned line does; any other keeps its time, level, run, task and event, and loses its data.
   */
  lemma JsonScrubExactly(s: Scrubber, line: Line, cutoff: int)
    requires !line.TextLine?
    ensures var (after, changed) := ScrubJson(s, line, cutoff);
            var marker: Payload := map["ts" := Null, "level" := Text("warning"), "run_id" := Null, "task_id" := Null,
                                       "event" := Text("retention_unparseable_line_pruned"),
                                       "data" := Object(map["retention_pruned" := Bool(true)])];
            if line.BrokenJsonLine? then after == JsonLine(marker, CANONICAL) && changed
            else
              var p := line.payload;
              var pruned: Payload := map["ts" := Get(p, "ts"), "level" := Get(p, "level"), "run_id" := Get(p, "run_id"),
                                         "task_id" := Get(p, "task_id"), "event" := Get(p, "event"),
                                         "data" := Object(map["retention_pruned" := Bool(true)])];
              if !SaysPruned(p) && WrittenAt(s, p) == None then after == JsonLine(marker, CANONICAL) && changed
              else if SaysPruned(p) || WrittenAt(s, p).value > cutoff || JsonMentionsProtected(s, p) || p == pruned
              then after == line && !changed
              else after == JsonLine(pruned, CANONICAL) && changed
  {
    if line.JsonLine? {
      JsonProtectedExactly(s, line.payload);
    }
  }

  lemma JsonProtectedExactly(s: Scrubber, p: Payload)
    ensures JsonProtected(s, p) <==> JsonMentionsProtected(s, p)
  {
  }

  /** The text has a field made of the key and one of the ids. */
  ghost predicate HasField(fields: seq<string>, key: string, ids: set<string>) {
    exists i, id :: 0 <= i < |fields| && id in ids && fields[i] == key + id
  }

  lemma FieldNamed(fields: seq<string>, key: string, ids: set<string>)
    ensures (exists i :: 0 <= i < |fields| && FieldNames(fields[i], key, ids)) <==> HasField(fields, key, ids)
  {
    forall i | 0 <= i < |fields| && FieldNames(fields[i], key, ids) ensures HasField(fields, key, ids) {
      var id := fields[i][|key|..];
      assert fields[i] == key + id && id in ids;
    }
    if HasField(fields, key, ids) {
      var i, id :| 0 <= i < |fields| && id in ids && fields[i] == key + id;
      assert key <= fields[i] && fields[i][|key|..] == id;
      assert FieldNames(fields[i], key, ids);
    }
  }

  /** Which ids protect a text line: those written as a field of their own behind their key. */
  lemma TextProtectedExactly(s: Scrubber, fields: seq<string>)
    ensures TextProtected(s, fields) <==>
              HasField(fields, "task_id=", s.tasks) || HasField(fields, "action_id=", s.actions)
              || HasField(fields, "approval_id=", s.approvals) || HasField(fields, "message_id=", s.messages)
  {
    FieldNamed(fields, "task_id=", s.tasks);
    FieldNamed(fields, "action_id=", s.actions);
    FieldNamed(fields, "approval_id=", s.approvals);
    FieldNamed(fields, "message_id=", s.messages);
    if TextProtected(s, fields) {
      var i :| 0 <= i < |fields| && FieldProtects(s, fields[i]);
    }
    forall i | 0 <= i < |fields|
      ensures FieldNames(fields[i], "task_id=", s.tasks) || FieldNames(fields[i], "action_id=", s.actions)
              || FieldNames(fields[i], "approval_id=", s.approvals) || FieldNames(fields[i], "message_id=", s.messages)
              <==> FieldProtects(s, fields[i])
    {
    }
  }

  /** The first three fields, or as many as there are, with a blank between any two. */
  function Leading(fields: seq<string>): string {
    if |fields| == 0 then ""
    else if |fields| == 1 then fields[0]
    else if |fields| == 2 then fields[0] + " " + fields[1]
    else fields[0] + " " + fields[1] + " " + fields[2]
  }

  /** What is kept of a text line. */
  function CutDown(fields: seq<string>): string {
    Leading(fields) + " retention_pruned=true\n"
  }

  lemma JoinTwo(a: string, b: string)
    ensures Join([a, b]) == a + " " + b
  {
    assert [a, b][1..] == [b];
  }

  lemma JoinThree(a: string, b: string, c: string)
    ensures Join([a, b, c]) == a + " " + b + " " + c
  {
    assert [a, b, c][1..] == [b, c];
    JoinTwo(b, c);
    assert a + " " + (b + " " + c) == a + " " + b + " " + c;
  }

  lemma LeadingIsJoined(fields: seq<string>)
    ensures Join(FirstThree(fields)) == Leading(fields)
  {
    if |fields| == 2 {
      assert fields == [fields[0], fields[1]];
      JoinTwo(fields[0], fields[1]);
    } else if |fields| >= 3 {
      assert FirstThree(fields) == [fields[0], fields[1], fields[2]];
      JoinThree(fields[0], fields[1], fields[2]);
    }
  }

  lemma MarkIsAppended(kept: string)
    ensures kept + " " + PRUNED_TEXT + "\n" == kept + " retention_pruned=true\n"
  {
    assert PRUNED_TEXT == "retention_pruned=true";
    assert " " + PRUNED_TEXT + "\n" == " retention_pruned=true\n";
    assert kept + " " + PRUNED_TEXT + "\n" == kept + (" " + PRUNED_TEXT + "\n");
  }

  lemma MinimalTextExactly(fields: seq<string>)
    ensures MinimalText(fields) == CutDown(fields)
  {
    LeadingIsJoined(fields);
    MarkIsAppended(Leading(fields));
  }

  /** The same for a text line, whose time is its first field. */
  lemma TextScrubExactly(s: Scrubber, t: string, cutoff: int)
    ensures var (after, changed) := ScrubText(s, t, cutoff);
            var fields, marker := Fields(s, t), "retention_unparseable_line_pruned" + " " + "retention_pruned=true" + "\n";
            var dated := fields != [] && s.parseInstant(fields[0]).Some?;
            if t == marker || !dated then after == marker && (changed <==> t != marker)
            else if s.parseInstant(fields[0]).value > cutoff || TextProtected(s, fields) || t == CutDown(fields)
            then after == t && !changed
            else after == CutDown(fields) && changed
  {
    MinimalTextExactly(Fields(s, t));
  }

  // ---------------------------------------------------------------- JSON lines compose

  lemma MinimalIsStable(s: Scrubber, p: Payload)
    requires Sane(s) && JsonInstant(s, p).Some? && !JsonProtected(s, p)
    ensures JsonInstant(s, Minimal(p)) == JsonInstant(s, p)
    ensures !JsonProtected(s, Minimal(p)) && Minimal(Minimal(p)) == Minimal(p)
  {
    var m := Minimal(p);
    assert m["ts"] == Get(p, "ts") && m["task_id"] == Get(p, "task_id") && m["data"] == PrunedData();
    assert "message_id" !in PrunedData().fields && "action_id" !in PrunedData().fields && "approval_id" !in PrunedData().fields;
  }

  lemma JsonComposes(s: Scrubber, line: Line, earlier: int, later: int)
    requires Sane(s) && !line.TextLine? && earlier <= later
    ensures !ScrubJson(s, line, earlier).0.TextLine?
    ensures ScrubJson(s, ScrubJson(s, line, earlier).0, later).0 == ScrubJson(s, line, later).0
  {
    assert IsJsonMarker(JsonMarker());
    if line.JsonLine? && JsonInstant(s, line.payload).Some? && !JsonProtected(s, line.payload) {
      MinimalIsStable(s, line.payload);
    }
  }

  // ---------------------------------------------------------------- fields of a rewritten text line

  lemma {:induction false} FieldsAreFields(s: Scrubber, t: string)
    ensures forall i :: 0 <= i < |Fields(s, t)| ==> IsField(s, Fields(s, t)[i])
    decreases |t|
  {
    if t != [] {
      if s.isSpace(t[0]) {
        FieldsAreFields(s, t[1..]);
      } else {
        FieldsAreFields(s, t[FieldLength(s, t)..]);
      }
    }
  }

  lemma {:induction false} FieldThenSpace(s: Scrubber, field: string, rest: string)
    requires forall i :: 0 <= i < |field| ==> !s.isSpace(field[i])
    requires rest != [] && s.isSpace(rest[0])
    ensures FieldLength(s, field + rest) == |field|
  {
    if field == [] {
      assert field + rest == rest;
    } else {
      assert (field + rest)[1..] == field[1..] + rest;
      FieldThenSpace(s, field[1..], rest);
    }
  }

  lemma FieldsOfOne(s: Scrubber, field: string, rest: string)
    requires IsField(s, field) && rest != [] && s.isSpace(rest[0])
    ensures Fields(s, field + rest) == [field] + Fields(s, rest[1..])
  {
    var t := field + rest;
    FieldThenSpace(s, field, rest);
    assert t[0] == field[0];
    assert t[..|field|] == field && t[|field|..] == rest;
  }

  lemma FieldBeforeBlank(s: Scrubber, field: string, tail: string)
    requires Sane(s) && IsField(s, field)
    ensures Fields(s, field + (" " + tail)) == [field] + Fields(s, tail)
  {
    FieldsOfOne(s, field, " " + tail);
    assert (" " + tail)[1..] == tail;
  }

  lemma HeadAndRest<T>(fields: seq<T>, more: seq<T>)
    requires fields != []
    ensures [fields[0]] + (fields[1..] + more) == fields + more
  {
  }

  lemma JoinStep(fields: seq<string>, rest: string)
    requires |fields| > 1
    ensures Join(fields) + rest == fields[0] + (" " + (Join(fields[1..]) + rest))
  {
  }

  lemma {:induction false} FieldsOfJoin(s: Scrubber, fields: seq<string>, rest: string)
    requires Sane(s) && fields != [] && forall i :: 0 <= i < |fields| ==> IsField(s, fields[i])
    requires rest != [] && s.isSpace(rest[0])
    ensures Fields(s, Join(fields) + rest) == fields + Fields(s, rest[1..])
    decreases |fields|
  {
    if |fields| == 1 {
      FieldsOfOne(s, fields[0], rest);
    } else {
      JoinStep(fields, rest);
      FieldBeforeBlank(s, fields[0], Join(fields[1..]) + rest);
      FieldsOfJoin(s, fields[1..], rest);
      HeadAndRest(fields, Fields(s, rest[1..]));
    }
  }

  lemma FieldsOfMinimal(s: Scrubber, fields: seq<string>)
    requires Sane(s) && fields != [] && forall i :: 0 <= i < |fields| ==> IsField(s, fields[i])
    ensures Fields(s, MinimalText(fields)) == FirstThree(fields) + [PRUNED_TEXT]
  {
    var rest := " " + PRUNED_TEXT + "\n";
    assert MinimalText(fields) == Join(FirstThree(fields)) + rest;
    FieldsOfJoin(s, FirstThree(fields), rest);
    assert rest[1..] == PRUNED_TEXT + "\n";
    FieldsOfOne(s, PRUNED_TEXT, "\n");
    assert Fields(s, "\n"[1..]) == [];
  }

  // ---------------------------------------------------------------- text lines compose

  lemma MarkerHasNoInstant(s: Scrubber)
    requires Sane(s)
    ensures TextInstant(s, Fields(s, TEXT_MARKER)).None?
  {
    var rest := " " + PRUNED_TEXT + "\n";
    assert TEXT_MARKER == PRUNED_EVENT + rest;
    FieldsOfOne(s, PRUNED_EVENT, rest);
  }

  lemma PrunedTextProtectsNothing(s: Scrubber)
    ensures !FieldProtects(s, PRUNED_TEXT)
  {
    assert PRUNED_TEXT[0] == 'r';
  }

  lemma {:induction false} LongerJoin(fields: seq<string>, extra: string)
    requires fields != [] && extra != []
    ensures |Join(fields + [extra])| > |Join(fields)|
  {
    if |fields| == 1 {
      assert (fields + [extra])[1..] == [extra];
    } else {
      assert (fields + [extra])[1..] == fields[1..] + [extra];
      LongerJoin(fields[1..], extra);
    }
  }

  /** A rewritten line keeps its instant and stays unprotected; it is rewritten again only if it had fewer than three fields. */
  lemma RewrittenText(s: Scrubber, fields: seq<string>)
    requires Sane(s) && fields != [] && forall i :: 0 <= i < |fields| ==> IsField(s, fields[i])
    requires TextInstant(s, fields).Some? && !TextProtected(s, fields)
    ensures var again := Fields(s, MinimalText(fields));
            && TextInstant(s, again) == TextInstant(s, fields) && !TextProtected(s, again)
            && (MinimalText(again) == MinimalText(fields) <==> |fields| >= 3)
    ensures MinimalText(fields) != TEXT_MARKER
  {
    FieldsOfMinimal(s, fields);
    MarkerHasNoInstant(s);
    PrunedTextProtectsNothing(s);
    var again := Fields(s, MinimalText(fields));
    assert forall i :: 0 <= i < |again| - 1 ==> again[i] == fields[i];
    assert again[|again| - 1] == PRUNED_TEXT;
    if |fields| >= 3 {
      assert FirstThree(again) == FirstThree(fields);
    } else {
      assert FirstThree(again) == fields + [PRUNED_TEXT] && FirstThree(fields) == fields;
      LongerJoin(fields, PRUNED_TEXT);
    }
  }

  /** An old, unprotected, dated line too short to be cut down to itself. */
  predicate Degrades(s: Scrubber, line: Line, cutoff: int) {
    line.TextLine?
    && var fields := Fields(s, line.line);
       TextInstant(s, fields).Some? && TextInstant(s, fields).value <= cutoff && !TextProtected(s, fields) && |fields| < 3
  }

  lemma TextComposesExactly(s: Scrubber, t: string, earlier: int, later: int)
    requires Sane(s) && earlier <= later
    ensures ScrubText(s, ScrubText(s, t, earlier).0, later).0 == ScrubText(s, t, later).0
            <==> !Degrades(s, TextLine(t), earlier)
  {
    var fields := Fields(s, t);
    FieldsAreFields(s, t);
    MarkerHasNoInstant(s);
    if TextInstant(s, fields).Some? && !TextProtected(s, fields) {
      RewrittenText(s, fields);
      FieldsOfMinimal(s, fields);
    }
  }

  /** One line of either log. */
  lemma LineComposesExactly(s: Scrubber, line: Line, earlier: int, later: int)
    requires Sane(s) && earlier <= later
    ensures ScrubLine(s, ScrubLine(s, line, earlier).0, later).0 == ScrubLine(s, line, later).0
            <==> !Degrades(s, line, earlier)
  {
    if line.TextLine? {
      TextComposesExactly(s, line.line, earlier, later);
    } else {
      JsonComposes(s, line, earlier, later);
    }
  }

  ghost predicate NoneDegrades(s: Scrubber, lines: seq<Line>, cutoff: int) {
    forall i :: 0 <= i < |lines| ==> !Degrades(s, lines[i], cutoff)
  }

  /**
   Scrubbing a whole log at one cutoff and then at a later one is the same as scrubbing it at the later
   one, exactly when no old text line has fewer than three fields; JSON lines always compose.
   */
  lemma ScrubbingComposesExactly(s: Scrubber, lines: seq<Line>, earlier: int, later: int)
    requires Sane(s) && earlier <= later
    ensures ScrubAll(s, ScrubAll(s, lines, earlier), later) == ScrubAll(s, lines, later) <==> NoneDegrades(s, lines, earlier)
  {
    var twice, once := ScrubAll(s, ScrubAll(s, lines, earlier), later), ScrubAll(s, lines, later);
    forall i | 0 <= i < |lines| ensures twice[i] == once[i] <==> !Degrades(s, lines[i], earlier) {
      ScrubAllAt(s, lines, earlier, i);
      ScrubAllAt(s, lines, later, i);
      ScrubAllAt(s, ScrubAll(s, lines, earlier), later, i);
      LineComposesExactly(s, lines[i], earlier, later);
    }
  }

  lemma {:induction false} NothingChanged(s: Scrubber, lines: seq<Line>, cutoff: int)
    ensures Changed(s, lines, cutoff) == 0 <==> ScrubAll(s, lines, cutoff) == lines
  {
    if lines != [] {
      NothingChanged(s, lines[1..], cutoff);
      ScrubKeepsAndReports(s, lines[0], cutoff);
    }
  }

  /** A repeated scrub changes nothing and counts nothing, under the same condition. */
  lemma RepeatedScrubCountsNothing(s: Scrubber, lines: seq<Line>, cutoff: int)
    requires Sane(s)
    ensures Changed(s, ScrubAll(s, lines, cutoff), cutoff) == 0 <==> NoneDegrades(s, lines, cutoff)
  {
    ScrubbingComposesExactly(s, lines, cutoff, cutoff);
    NothingChanged(s, ScrubAll(s, lines, cutoff), cutoff);
  }

  /** What a scrub says of each line: kept lines are untouched, and the flag means exactly that the line changed. */
  lemma ScrubKeepsAndReports(s: Scrubber, line: Line, cutoff: int)
    ensures Kept(s, line, cutoff) ==> ScrubLine(s, line, cutoff).0 == line
    ensures ScrubLine(s, line, cutoff).1 <==> ScrubLine(s, line, cutoff).0 != line
  {
  }

  /** What is left of a line that was not kept: identifying fields, and no data. */
  ghost predicate Pruned(line: Line) {
    match line
    case BrokenJsonLine(_) => false
    case JsonLine(p, _) => IsJsonMarker(p) || p == Minimal(p)
    case TextLine(t) => t == TEXT_MARKER || IsCutDown(t)
  }

  ghost predicate IsCutDown(t: string) {
    exists fields :: |fields| <= 3 && t == MinimalText(fields)
  }

  lemma MinimalIsCutDown(fields: seq<string>)
    ensures IsCutDown(MinimalText(fields))
  {
    var first := FirstThree(fields);
    assert FirstThree(first) == first;
    assert MinimalText(first) == MinimalText(fields);
  }

  lemma OldLineIsPruned(s: Scrubber, line: Line, cutoff: int)
    ensures Kept(s, line, cutoff) || Pruned(ScrubLine(s, line, cutoff).0)
  {
    if line.TextLine? {
      MinimalIsCutDown(Fields(s, line.line));
    } else if line.JsonLine? {
      assert Minimal(Minimal(line.payload)) == Minimal(line.payload);
    }
  }

  /** Nothing old and unprotected survives a scrub with its content. */
  lemma OldContentIsGone(s: Scrubber, lines: seq<Line>, cutoff: int, i: nat)
    requires i < |lines|
    ensures Kept(s, lines[i], cutoff) || Pruned(ScrubAll(s, lines, cutoff)[i])
  {
    ScrubAllAt(s, lines, cutoff, i);
    OldLineIsPruned(s, lines[i], cutoff);
  }

  /** The rewritten text is a single line, so the number of lines in the file does not change. */
  lemma {:induction false} JoinHasNoBreak(s: Scrubber, fields: seq<string>)
    requires s.isSpace('\n') && forall i :: 0 <= i < |fields| ==> IsField(s, fields[i])
    ensures '\n' !in Join(fields)
    decreases |fields|
  {
    if fields != [] {
      assert '\n' !in fields[0];
      JoinHasNoBreak(s, fields[1..]);
    }
  }

  ghost predicate SingleLine(t: string) {
    t != [] && t[|t| - 1] == '\n' && forall i :: 0 <= i < |t| - 1 ==> t[i] != '\n'
  }

  lemma RewrittenTextIsOneLine(s: Scrubber, t: string, cutoff: int)
    requires Sane(s) && ScrubText(s, t, cutoff).1
    ensures SingleLine(ScrubText(s, t, cutoff).0)
  {
    var fields := Fields(s, t);
    FieldsAreFields(s, t);
    JoinHasNoBreak(s, FirstThree(fields));
    assert '\n' !in PRUNED_TEXT && '\n' !in PRUNED_EVENT;
  }

  lemma ScrubStep(s: Scrubber, lines: seq<Line>, i: nat, cutoff: int)
    requires i < |lines|
    ensures var (replacement, changed) := ScrubLine(s, lines[i], cutoff);
            && ScrubAll(s, lines[i..], cutoff) == [replacement] + ScrubAll(s, lines[i + 1..], cutoff)
            && Changed(s, lines[i..], cutoff) == (if changed then 1 else 0) + Changed(s, lines[i + 1..], cutoff)
  {
    assert lines[i..][1..] == lines[i + 1..];
  }

  /** The loop of `_scrub_log_file`: the replacement is written line by line. */
  method ScrubLines(s: Scrubber, lines: seq<Line>, cutoff: int) returns (output: seq<Line>, changed: nat)
    ensures output == ScrubAll(s, lines, cutoff) && changed == Changed(s, lines, cutoff)
  {
    output, changed := [], 0;
    var i := 0;
    assert lines[0..] == lines;
    while i < |lines|
      invariant i <= |lines|
      invariant output + ScrubAll(s, lines[i..], cutoff) == ScrubAll(s, lines, cutoff)
      invariant changed + Changed(s, lines[i..], cutoff) == Changed(s, lines, cutoff)
    {
      ScrubStep(s, lines, i, cutoff);
      var (replacement, shouldScrub) := ScrubLine(s, lines[i], cutoff);
      output := output + [replacement];
      changed := changed + if shouldScrub then 1 else 0;
      i := i + 1;
    }
    assert lines[i..] == [];
  }

  /** One log file, rewritten in place. */
  class LogFile {
    var lines: seq<Line>

    constructor (lines: seq<Line>)
      ensures this.lines == lines
    {
      this.lines := lines;
    }

    /** `_scrub_log_file`: the file is replaced only if a line changed, and never by a dry run. */
    method Scrub(s: Scrubber, cutoff: int, dryRun: bool) returns (changed: nat)
      modifies this
      ensures changed == Changed(s, old(lines), cutoff)
      ensures lines == if dryRun then old(lines) else ScrubAll(s, old(lines), cutoff)
    {
      var output;
      output, changed := ScrubLines(s, lines, cutoff);
      NothingChanged(s, lines, cutoff);
      if !dryRun && changed > 0 {
        lines := output;
      }
    }
  }
}
