/** The chat-history decoder (internal/web/rows/chat.go): a conversation out of a positional
    JSON payload that comes in several wrappings. */
module Chat {
  import opened Text
  import opened Json

  datatype Citation = Citation(sourceId: string, start: int, end: int)

  datatype Turn = Turn(author: string, text: string, citations: seq<string>, rawCitations: seq<Citation>, createdAt: Option<real>)

  datatype Conversation = Conversation(id: string, turns: seq<Turn>)

  datatype Error = Unrecognized

  // ----- append loops

  /** The values `f` finds in `s`, in order. */
  function Collect<A, B>(f: A -> Option<B>, s: seq<A>): seq<B> {
    if s == [] then []
    else
      var last := f(s[|s| - 1]);
      Collect(f, s[..|s| - 1]) + if last.Some? then [last.value] else []
  }

  lemma CollectNext<A, B>(f: A -> Option<B>, s: seq<A>, i: nat)
    requires i < |s|
    ensures Collect(f, s[..i + 1]) == Collect(f, s[..i]) + if f(s[i]).Some? then [f(s[i]).value] else []
  {
    assert s[..i + 1][..i] == s[..i];
  }

  lemma CollectAll<A, B>(f: A -> Option<B>, s: seq<A>)
    ensures Collect(f, s[..|s|]) == Collect(f, s)
  {
    assert s[..|s|] == s;
  }

  /** asFloat */
  function AsFloat(j: Json): Option<real> {
    if j.JInt? then Some(j.n as real) else if j.JDec? then Some(j.x) else None
  }

  /** Conversion of a floating-point number to int drops the fraction. */
  function Truncate(x: real): int { if x >= 0.0 then x.Floor else -(-x).Floor }

  function Offset(j: Json): int {
    var f := AsFloat(j);
    if f.Some? then Truncate(f.value) else 0
  }

  function CitationOf(raw: Json): Option<Citation> {
    if !raw.JArr? || |raw.items| < 2 || !raw.items[1].JStr? then None
    else
      var span := Slot(raw.items, 2);
      Some(if span.JArr? then Citation(raw.items[1].s, Offset(Slot(span.items, 0)), Offset(Slot(span.items, 1)))
           else Citation(raw.items[1].s, 0, 0))
  }

  method DecodeCitations(refs: seq<Json>) returns (out: seq<Citation>)
    ensures out == Collect(CitationOf, refs)
  {
    out := [];
    for i := 0 to |refs|
      invariant out == Collect(CitationOf, refs[..i])
    {
      CollectNext(CitationOf, refs, i);
      if !refs[i].JArr? || |refs[i].items| < 2 || !refs[i].items[1].JStr? {
        assert out + [] == out;
        continue;
      }
      var c := refs[i].items;
      var cit := Citation(c[1].s, 0, 0);
      if |c| > 2 && c[2].JArr? {
        var start, end := AsFloat(Slot(c[2].items, 0)), AsFloat(Slot(c[2].items, 1));
        if start.Some? {
          cit := cit.(start := Truncate(start.value));
        }
        if end.Some? {
          cit := cit.(end := Truncate(end.value));
        }
      }
      out := out + [cit];
    }
    CollectAll(CitationOf, refs);
  }

  function SourceOf(c: Citation): Option<string> { if c.sourceId == "" then None else Some(c.sourceId) }

  method FlattenCitations(citations: seq<Citation>) returns (out: seq<string>)
    ensures out == Collect(SourceOf, citations)
  {
    out := [];
    for i := 0 to |citations|
      invariant out == Collect(SourceOf, citations[..i])
    {
      CollectNext(SourceOf, citations, i);
      if citations[i].sourceId == "" {
        assert out + [] == out;
        continue;
      }
      out := out + [citations[i].sourceId];
    }
    CollectAll(SourceOf, citations);
  }

  function ContentText(content: seq<Json>): string {
    if Slot(content, 0).JStr? then Slot(content, 0).s else ""
  }

  function ContentCitations(content: seq<Json>): seq<Citation> {
    if Slot(content, 1).JArr? then Collect(CitationOf, Slot(content, 1).items) else []
  }

  method DecodeTurnContent(content: seq<Json>) returns (text: string, citations: seq<Citation>)
    ensures text == ContentText(content) && citations == ContentCitations(content)
  {
    text, citations := "", [];
    if |content| == 0 {
      return;
    }
    if content[0].JStr? {
      text := content[0].s;
    }
    if |content| > 1 && content[1].JArr? {
      citations := DecodeCitations(content[1].items);
    }
  }

  function TurnOf(raw: Json): Option<Turn> {
    if !raw.JArr? || |raw.items| < 1 || !raw.items[0].JStr? then None
    else
      var content := if Slot(raw.items, 1).JArr? then Slot(raw.items, 1).items else [];
      var cites := ContentCitations(content);
      Some(Turn(raw.items[0].s, ContentText(content), Collect(SourceOf, cites), cites, AsFloat(Slot(raw.items, 2))))
  }

  method DecodeTurns(list: seq<Json>) returns (out: seq<Turn>)
    ensures out == Collect(TurnOf, list)
  {
    out := [];
    for i := 0 to |list|
      invariant out == Collect(TurnOf, list[..i])
    {
      CollectNext(TurnOf, list, i);
      if !list[i].JArr? || |list[i].items| < 1 || !list[i].items[0].JStr? {
        assert out + [] == out;
        continue;
      }
      var t := list[i].items;
      var turn := Turn(t[0].s, "", [], [], None);
      if |t| > 1 && t[1].JArr? {
        var text, raw := DecodeTurnContent(t[1].items);
        var sources := FlattenCitations(raw);
        turn := turn.(text := text, rawCitations := raw, citations := sources);
      }
      if |t| > 2 && AsFloat(t[2]).Some? {
        turn := turn.(createdAt := AsFloat(t[2]));
      }
      out := out + [turn];
    }
    CollectAll(TurnOf, list);
  }

  // ----- envelopes

  /** tryHistoryEnvelope: [id, turns], or reversed. */
  function Envelope(v: Json): Option<Conversation> {
    if !v.JArr? || |v.items| < 2 then None
    else
      var a, b := v.items[0], v.items[1];
      if a.JStr? && a.s != "" then
        if b.JArr? then Some(Conversation(a.s, Collect(TurnOf, b.items))) else None
      else if a.JArr? && b.JStr? && b.s != "" then Some(Conversation(b.s, Collect(TurnOf, a.items)))
      else None
  }

  method TryHistoryEnvelope(v: Json) returns (r: Option<Conversation>)
    ensures r == Envelope(v)
  {
    if !v.JArr? || |v.items| < 2 {
      return None;
    }
    var list := v.items;
    if list[0].JStr? && list[0].s != "" {
      if !list[1].JArr? {
        return None;
      }
      var turns := DecodeTurns(list[1].items);
      return Some(Conversation(list[0].s, turns));
    }
    if list[0].JArr? && list[1].JStr? && list[1].s != "" {
      var turns := DecodeTurns(list[0].items);
      return Some(Conversation(list[1].s, turns));
    }
    return None;
  }

  /** wire.List(payload, 3) */
  function ListAt3(payload: Json): Option<Json> {
    if payload.JArr? && |payload.items| > 3 && payload.items[3].JArr? then Some(payload.items[3]) else None
  }

  /** The conversation id when slot 3 carries it alone. */
  function BareId(payload: Json): Option<string> {
    if payload.JArr? && |payload.items| > 3 && payload.items[3].JStr? && payload.items[3].s != ""
    then Some(payload.items[3].s) else None
  }

  method ConvWithIdFromSlotB(payload: Json, id: string) returns (conv: Conversation)
    ensures conv.id == id
    ensures conv.turns == match Envelope(if payload.JArr? then Slot(payload.items, 4) else JNull)
                          case Some(c) => c.turns
                          case None => []
  {
    conv := Conversation(id, []);
    if !payload.JArr? || |payload.items| <= 4 {
      return;
    }
    if payload.items[4].JArr? {
      var inner := TryHistoryEnvelope(payload.items[4]);
      if inner.Some? {
        conv := conv.(turns := inner.value.turns);
      }
    }
  }

  /** What DecodeChatHistory returns, wrapping by wrapping. */
  function Decoded(payload: Json): Result<Conversation, Error> {
    var atThree := Envelope(ListAt3(payload).UnwrapOr(JNull));
    if atThree.Some? then Ok(atThree.value)
    else if BareId(payload).Some? then
      var inner := Envelope(Slot(payload.items, 4));
      Ok(Conversation(BareId(payload).value, if inner.Some? then inner.value.turns else []))
    else if Envelope(payload).Some? then Ok(Envelope(payload).value)
    else Err(Unrecognized)
  }

  method DecodeChatHistory(payload: Json) returns (r: Result<Conversation, Error>)
    ensures r == Decoded(payload)
  {
    var root := ListAt3(payload);
    if root.Some? {
      var c := TryHistoryEnvelope(root.value);
      if c.Some? {
        return Ok(c.value);
      }
    }
    if payload.JArr? && |payload.items| > 3 {
      if payload.items[3].JStr? && payload.items[3].s != "" {
        var c := ConvWithIdFromSlotB(payload, payload.items[3].s);
        return Ok(c);
      }
    }
    var direct := TryHistoryEnvelope(payload);
    if direct.Some? {
      return Ok(direct.value);
    }
    return Err(Unrecognized);
  }

  method ExtractConversationId(payload: Json) returns (r: Result<string, Error>)
    ensures r == ExtractedId(payload)
  {
    var envelope := ListAt3(payload);
    if envelope.Some? {
      var c := TryHistoryEnvelope(envelope.value);
      if c.Some? && c.value.id != "" {
        return Ok(c.value.id);
      }
    }
    if payload.JArr? && |payload.items| > 3 {
      if payload.items[3].JStr? && payload.items[3].s != "" {
        return Ok(payload.items[3].s);
      }
    }
    return Err(Unrecognized);
  }

  function ExtractedId(payload: Json): Result<string, Error> {
    var atThree := Envelope(ListAt3(payload).UnwrapOr(JNull));
    if atThree.Some? && atThree.value.id != "" then Ok(atThree.value.id)
    else if BareId(payload).Some? then Ok(BareId(payload).value)
    else Err(Unrecognized)
  }

  // ----- the two decoders agree

  /** A decoded conversation has an id and lists exactly the non-empty source ids of its
      citations. */
  predicate WellFormed(c: Conversation) {
    c.id != "" && forall i :: 0 <= i < |c.turns| ==> Consistent(c.turns[i])
  }

  predicate Consistent(t: Turn) { t.citations == Collect(SourceOf, t.rawCitations) }

  lemma {:induction false} TurnsConsistent(list: seq<Json>)
    ensures forall i :: 0 <= i < |Collect(TurnOf, list)| ==> Consistent(Collect(TurnOf, list)[i])
    decreases |list|
  {
    if list != [] {
      var n := |list| - 1;
      TurnsConsistent(list[..n]);
      assert TurnOf(list[n]).Some? ==> Consistent(TurnOf(list[n]).value);
      hide Consistent, TurnOf;
    }
  }

  lemma EnvelopeWellFormed(v: Json)
    ensures Envelope(v).Some? ==> WellFormed(Envelope(v).value)
  {
    if v.JArr? && |v.items| >= 2 {
      if v.items[0].JArr? { TurnsConsistent(v.items[0].items); }
      if v.items[1].JArr? { TurnsConsistent(v.items[1].items); }
    }
    hide Collect, Consistent;
  }

  lemma DecodedIsWellFormed(payload: Json)
    requires Decoded(payload).Ok?
    ensures WellFormed(Decoded(payload).value)
  {
    hide Envelope, Collect;
    EnvelopeWellFormed(ListAt3(payload).UnwrapOr(JNull));
    EnvelopeWellFormed(payload);
    if payload.JArr? { EnvelopeWellFormed(Slot(payload.items, 4)); }
  }

  /** Whenever the id can be extracted the whole history decodes, with the same id; decoding
      succeeds beyond that exactly on a payload that is itself an envelope. */
  lemma DecodersAgree(payload: Json)
    ensures ExtractedId(payload).Ok? ==> Decoded(payload).Ok? && Decoded(payload).value.id == ExtractedId(payload).value
    ensures Decoded(payload).Ok? <==> ExtractedId(payload).Ok? || Envelope(payload).Some?
    ensures Decoded(payload).Ok? && ExtractedId(payload).Err? ==> Decoded(payload).value == Envelope(payload).value
  {
    hide Envelope;
    EnvelopeWellFormed(ListAt3(payload).UnwrapOr(JNull));
  }

  // ----- exactly the well-formed raw turns, in order

  /** The positions at which `f` finds a value. */
  function Found<A, B>(f: A -> Option<B>, s: seq<A>): (r: seq<nat>)
    ensures forall k :: 0 <= k < |r| ==> r[k] < |s|
  {
    if s == [] then []
    else Found(f, s[..|s| - 1]) + if f(s[|s| - 1]).Some? then [|s| - 1] else []
  }

  ghost predicate Increasing(at: seq<nat>) { forall j, k :: 0 <= j < k < |at| ==> at[j] < at[k] }

  /** `out` holds, in order, the values `f` finds at exactly the positions `at`. */
  ghost predicate IsImage<A, B>(f: A -> Option<B>, s: seq<A>, out: seq<B>, at: seq<nat>) {
    && |out| == |at| && Increasing(at)
    && (forall k :: 0 <= k < |at| ==> at[k] < |s| && f(s[at[k]]) == Some(out[k]))
    && (forall i :: 0 <= i < |s| && f(s[i]).Some? ==> i in at)
  }

  lemma ImageNext<A, B>(f: A -> Option<B>, s: seq<A>, x: A, out: seq<B>, at: seq<nat>)
    requires IsImage(f, s, out, at)
    ensures f(x).None? ==> IsImage(f, s + [x], out, at)
    ensures f(x).Some? ==> IsImage(f, s + [x], out + [f(x).value], at + [|s|])
  {
    var t, more := s + [x], at + [|s|];
    assert forall i :: 0 <= i < |s| ==> t[i] == s[i];
    assert more[|at|] == |s|;
    assert forall i :: i in at ==> i in more;
  }

  /** Collect is the image of exactly the positions with a value, in increasing order. */
  lemma {:induction false} CollectImage<A, B>(f: A -> Option<B>, s: seq<A>)
    ensures IsImage(f, s, Collect(f, s), Found(f, s))
    decreases |s|
  {
    if s != [] {
      var n := |s| - 1;
      CollectImage(f, s[..n]);
      ImageNext(f, s[..n], s[n], Collect(f, s[..n]), Found(f, s[..n]));
      assert s[..n] + [s[n]] == s;
      hide IsImage;
      assert Collect(f, s[..n]) + [] == Collect(f, s[..n]) && Found(f, s[..n]) + [] == Found(f, s[..n]);
    }
  }

  predicate IsTurn(raw: Json) { raw.JArr? && |raw.items| >= 1 && raw.items[0].JStr? }

  predicate IsCitation(raw: Json) { raw.JArr? && |raw.items| >= 2 && raw.items[1].JStr? }

  /** An offset is the number at its place of slot 2, without its fraction; zero when there
      is none. */
  predicate OffsetReads(items: seq<Json>, k: nat, v: int) {
    if |items| > 2 && items[2].JArr? && k < |items[2].items| && items[2].items[k].JInt? then v == items[2].items[k].n
    else if |items| > 2 && items[2].JArr? && k < |items[2].items| && items[2].items[k].JDec? then
      var x := items[2].items[k].x;
      if x >= 0.0 then v as real <= x < v as real + 1.0 else v as real - 1.0 < x <= v as real
    else v == 0
  }

  predicate CitationReads(raw: Json, c: Citation)
    requires IsCitation(raw)
  {
    c.sourceId == raw.items[1].s && OffsetReads(raw.items, 0, c.start) && OffsetReads(raw.items, 1, c.end)
  }

  /** What a turn holds: the author of slot 0, the text and the citations of slot 1, the
      creation time of slot 2 when that is a number of either form. */
  predicate TurnReads(raw: Json, t: Turn)
    requires IsTurn(raw)
  {
    var items := raw.items;
    var content := if |items| > 1 && items[1].JArr? then items[1].items else [];
    var refs := if |content| > 1 && content[1].JArr? then content[1].items else [];
    && t.author == items[0].s
    && t.text == (if |content| > 0 && content[0].JStr? then content[0].s else "")
    && t.rawCitations == Collect(CitationOf, refs)
    && t.citations == Collect(SourceOf, t.rawCitations)
    && t.createdAt == (if |items| > 2 && items[2].JInt? then Some(items[2].n as real)
                       else if |items| > 2 && items[2].JDec? then Some(items[2].x)
                       else None)
  }

  /** The turns of an envelope are, in order, the images of exactly the raw turns that are
      lists led by an author string. */
  lemma TurnsAreTheWellFormedOnes(list: seq<Json>)
    ensures var turns, at := Collect(TurnOf, list), Found(TurnOf, list);
            && |turns| == |at| && Increasing(at)
            && (forall i :: 0 <= i < |list| ==> (i in at <==> IsTurn(list[i])))
            && forall k :: 0 <= k < |at| ==> IsTurn(list[at[k]]) && TurnReads(list[at[k]], turns[k])
  {
    CollectImage(TurnOf, list);
    forall raw: Json ensures TurnOf(raw).Some? <==> IsTurn(raw) ensures IsTurn(raw) ==> TurnReads(raw, TurnOf(raw).value) {
      hide Collect, CitationOf, SourceOf;
    }
    hide Increasing, Collect, Found, TurnOf, TurnReads;
  }

  /** Likewise a turn's citations are the references with a source id string, and their
      offsets are the first two numbers of slot 2. */
  lemma CitationsAreTheWellFormedOnes(refs: seq<Json>)
    ensures var cites, at := Collect(CitationOf, refs), Found(CitationOf, refs);
            && |cites| == |at| && Increasing(at)
            && (forall i :: 0 <= i < |refs| ==> (i in at <==> IsCitation(refs[i])))
            && forall k :: 0 <= k < |at| ==> IsCitation(refs[at[k]]) && CitationReads(refs[at[k]], cites[k])
  {
    CollectImage(CitationOf, refs);
    forall raw: Json ensures CitationOf(raw).Some? <==> IsCitation(raw) ensures IsCitation(raw) ==> CitationReads(raw, CitationOf(raw).value) {
      CitationIs(raw);
    }
    hide Increasing, Collect, Found, CitationOf, CitationReads;
  }

  lemma CitationIs(raw: Json)
    ensures CitationOf(raw).Some? <==> IsCitation(raw)
    ensures IsCitation(raw) ==> CitationReads(raw, CitationOf(raw).value)
  {
    if IsCitation(raw) {
      OffsetIs(raw.items, 0);
      OffsetIs(raw.items, 1);
      hide Offset, OffsetReads;
    }
  }

  lemma OffsetIs(items: seq<Json>, k: nat)
    ensures OffsetReads(items, k, if |items| > 2 && items[2].JArr? then Offset(Slot(items[2].items, k)) else 0)
  {
  }

  /** The flat list holds, in order, exactly the source ids that are not empty. */
  lemma SourcesAreTheNonEmptyIds(cites: seq<Citation>)
    ensures var out, at := Collect(SourceOf, cites), Found(SourceOf, cites);
            && |out| == |at| && Increasing(at)
            && (forall i :: 0 <= i < |cites| ==> (i in at <==> cites[i].sourceId != ""))
            && forall k :: 0 <= k < |at| ==> at[k] < |cites| && out[k] == cites[at[k]].sourceId
  {
    CollectImage(SourceOf, cites);
    hide Increasing, Collect, Found;
    assert forall i :: 0 <= i < |cites| ==> (SourceOf(cites[i]).Some? <==> cites[i].sourceId != "");
  }

  // ----- which payloads decode, and to what

  /** A non-empty id string and a list, in either order, in the first two slots. */
  predicate IsEnvelope(v: Json) {
    && v.JArr? && |v.items| >= 2
    && (|| (v.items[0].JStr? && v.items[0].s != "" && v.items[1].JArr?)
        || (v.items[0].JArr? && v.items[1].JStr? && v.items[1].s != ""))
  }

  function EnvelopeId(v: Json): string
    requires IsEnvelope(v)
  {
    if v.items[0].JStr? then v.items[0].s else v.items[1].s
  }

  function RawTurns(v: Json): seq<Json>
    requires IsEnvelope(v)
  {
    if v.items[0].JStr? then v.items[1].items else v.items[0].items
  }

  lemma EnvelopeIff(v: Json)
    ensures Envelope(v).Some? <==> IsEnvelope(v)
    ensures IsEnvelope(v) ==> Envelope(v).value == Conversation(EnvelopeId(v), Collect(TurnOf, RawTurns(v)))
  {
    hide Collect, TurnOf;
  }

  /** An envelope in slot 3 decides; else an id there, which then holds against the one of an
      envelope in slot 4; else the payload itself, when it is an envelope. */
  lemma DecodedIs(payload: Json)
    ensures var at3 := if payload.JArr? && |payload.items| > 3 then payload.items[3] else JNull;
            var at4 := if payload.JArr? && |payload.items| > 4 then payload.items[4] else JNull;
            && Decoded(payload) ==
                 (if IsEnvelope(at3) then Ok(Conversation(EnvelopeId(at3), Collect(TurnOf, RawTurns(at3))))
                  else if at3.JStr? && at3.s != "" then
                    Ok(Conversation(at3.s, if IsEnvelope(at4) then Collect(TurnOf, RawTurns(at4)) else []))
                  else if IsEnvelope(payload) then Ok(Conversation(EnvelopeId(payload), Collect(TurnOf, RawTurns(payload))))
                  else Err(Unrecognized))
            && ExtractedId(payload) ==
                 (if IsEnvelope(at3) then Ok(EnvelopeId(at3))
                  else if at3.JStr? && at3.s != "" then Ok(at3.s)
                  else Err(Unrecognized))
  {
    var at3 := if payload.JArr? && |payload.items| > 3 then payload.items[3] else JNull;
    EnvelopeIff(at3);
    EnvelopeIff(JNull);
    EnvelopeIff(payload);
    EnvelopeIff(if payload.JArr? && |payload.items| > 4 then payload.items[4] else JNull);
    hide Collect, TurnOf, Envelope;
  }

  // ----- the documented form of a reference

  /** A reference as it is documented: the offsets behind the chunk text. */
  function DocumentedReference(kind: Json, c: Citation, chunk: string): Json {
    JArr([kind, JStr(c.sourceId), JArr([JStr(chunk), JArr([JInt(c.start), JInt(c.end)])])])
  }

  /** The documented form loses every offset: slot 2 is read as the offset pair itself, and
      neither a text nor a list is a number. So it is read as meant exactly when both offsets
      are zero. */
  lemma DocumentedOffsetsAreLost(kind: Json, c: Citation, chunk: string)
    ensures CitationOf(DocumentedReference(kind, c, chunk)) == Some(Citation(c.sourceId, 0, 0))
    ensures CitationOf(DocumentedReference(kind, c, chunk)) == Some(c) <==> c.start == 0 && c.end == 0
  {
    var span := [JStr(chunk), JArr([JInt(c.start), JInt(c.end)])];
    assert Slot(DocumentedReference(kind, c, chunk).items, 2) == JArr(span);
    assert Offset(Slot(span, 0)) == 0 && Offset(Slot(span, 1)) == 0;
  }

  // ----- encoding a conversation in each wrapping

  /** How references are laid out: as they are read, or as they are documented, with some
      chunk text for each citation. */
  datatype Layout = AsRead | AsDocumented(chunk: Citation -> string)

  function EncodeCitation(l: Layout): Citation -> Json {
    match l
    case AsRead => (c: Citation) => JArr([JNull, JStr(c.sourceId), JArr([JInt(c.start), JInt(c.end)])])
    case AsDocumented(chunk) => (c: Citation) => DocumentedReference(JNull, c, chunk(c))
  }

  function EncodeTurn(l: Layout): Turn -> Json {
    (t: Turn) =>
      JArr([JStr(t.author), JArr([JStr(t.text), JArr(MapSeq(EncodeCitation(l), t.rawCitations))])]
           + if t.createdAt.Some? then [JDec(t.createdAt.value)] else [])
  }

  datatype Wrapping = Typical | Reversed | IdBeside(inner: Json) | Unwrapped

  /** `rpc` stands for the slots before the result. */
  function Encode(c: Conversation, w: Wrapping, l: Layout, rpc: (string, string, Json)): Json {
    var turns := JArr(MapSeq(EncodeTurn(l), c.turns));
    var head := [JStr(rpc.0), JStr(rpc.1), rpc.2];
    match w
    case Typical => JArr(head + [JArr([JStr(c.id), turns])])
    case Reversed => JArr(head + [JArr([turns, JStr(c.id)])])
    case IdBeside(inner) => JArr(head + [JStr(c.id), JArr([inner, turns])])
    case Unwrapped => JArr([JStr(c.id), turns])
  }

  lemma {:induction false} CollectMapped<A, B, C>(f: B -> Option<C>, g: A -> B, h: A -> C, s: seq<A>)
    requires forall a :: a in s ==> f(g(a)) == Some(h(a))
    ensures Collect(f, MapSeq(g, s)) == MapSeq(h, s)
    decreases |s|
  {
    if s != [] {
      var n := |s| - 1;
      CollectMapped(f, g, h, s[..n]);
      assert MapSeq(g, s)[..n] == MapSeq(g, s[..n]);
      assert MapSeq(h, s) == MapSeq(h, s[..n]) + [h(s[n])];
    }
  }

  /** What is read of a citation. */
  function Seen(l: Layout): Citation -> Citation {
    (c: Citation) => if l.AsRead? then c else Citation(c.sourceId, 0, 0)
  }

  lemma CitationCodec(c: Citation, l: Layout)
    ensures CitationOf(EncodeCitation(l)(c)) == Some(Seen(l)(c))
  {
    if l.AsRead? {
      var raw := EncodeCitation(l)(c);
      assert Slot(raw.items, 2) == JArr([JInt(c.start), JInt(c.end)]);
      assert Truncate(c.start as real) == c.start && Truncate(c.end as real) == c.end;
    } else {
      DocumentedOffsetsAreLost(JNull, c, l.chunk(c));
    }
  }

  lemma CitationsCodec(cites: seq<Citation>, l: Layout)
    ensures Collect(CitationOf, MapSeq(EncodeCitation(l), cites)) == MapSeq(Seen(l), cites)
  {
    hide CitationOf, EncodeCitation, Collect, Seen;
    forall c ensures CitationOf(EncodeCitation(l)(c)) == Some(Seen(l)(c)) {
      CitationCodec(c, l);
    }
    CollectMapped(CitationOf, EncodeCitation(l), Seen(l), cites);
  }

  /** What decoding keeps of a turn: the flat list of sources is recomputed. */
  function Reread(l: Layout): Turn -> Turn {
    (t: Turn) =>
      var cites := MapSeq(Seen(l), t.rawCitations);
      t.(rawCitations := cites, citations := Collect(SourceOf, cites))
  }

  lemma TurnCodec(t: Turn, l: Layout)
    ensures TurnOf(EncodeTurn(l)(t)) == Some(Reread(l)(t))
  {
    CitationsCodec(t.rawCitations, l);
    var raw := EncodeTurn(l)(t);
    hide Collect, CitationOf, EncodeCitation, SourceOf, MapSeq;
    var content := [JStr(t.text), JArr(MapSeq(EncodeCitation(l), t.rawCitations))];
    assert raw.items[0] == JStr(t.author) && Slot(raw.items, 1) == JArr(content);
    assert ContentText(content) == t.text && ContentCitations(content) == MapSeq(Seen(l), t.rawCitations);
    assert AsFloat(Slot(raw.items, 2)) == t.createdAt;
    hide ContentText, ContentCitations, EncodeTurn, AsFloat;
  }

  lemma TurnsCodec(turns: seq<Turn>, l: Layout)
    ensures Collect(TurnOf, MapSeq(EncodeTurn(l), turns)) == MapSeq(Reread(l), turns)
  {
    hide TurnOf, EncodeTurn, Collect;
    forall t ensures TurnOf(EncodeTurn(l)(t)) == Some(Reread(l)(t)) {
      TurnCodec(t, l);
    }
    hide Reread;
    CollectMapped(TurnOf, EncodeTurn(l), Reread(l), turns);
  }

  /** No citation has an offset to lose. */
  predicate Offsetless(t: Turn) {
    forall k :: 0 <= k < |t.rawCitations| ==> t.rawCitations[k].start == 0 && t.rawCitations[k].end == 0
  }

  /** A turn that the layout does not impair. */
  predicate Readable(t: Turn, l: Layout) { l.AsDocumented? ==> Offsetless(t) }

  lemma RereadIff(t: Turn, l: Layout)
    ensures Reread(l)(t) == t <==> Consistent(t) && Readable(t, l)
  {
    var cites := MapSeq(Seen(l), t.rawCitations);
    assert cites == t.rawCitations <==> Readable(t, l) by {
      if cites == t.rawCitations {
        forall k | 0 <= k < |cites| ensures cites[k] == Seen(l)(t.rawCitations[k]) {
        }
      }
    }
    hide Collect, Readable;
  }

  lemma AllRereadIff(c: Conversation, l: Layout)
    ensures MapSeq(Reread(l), c.turns) == c.turns
       <==> forall i :: 0 <= i < |c.turns| ==> Consistent(c.turns[i]) && Readable(c.turns[i], l)
  {
    forall t ensures Reread(l)(t) == t <==> Consistent(t) && Readable(t, l) {
      RereadIff(t, l);
    }
    hide Reread, Consistent, Readable;
    if MapSeq(Reread(l), c.turns) == c.turns {
      forall i | 0 <= i < |c.turns| ensures Reread(l)(c.turns[i]) == c.turns[i] {
        assert MapSeq(Reread(l), c.turns)[i] == Reread(l)(c.turns[i]);
      }
    }
  }

  predicate IsId(j: Json) { j.JStr? && j.s != "" }

  /** Decoding inverts every wrapping exactly on well-formed conversations; with the id
      beside the envelope, an envelope without an id of its own loses the turns, although
      the inner id is documented as informational; and references laid out as documented
      come back exactly when no citation has an offset. The id alone can be extracted from
      every wrapping but the bare envelope. */
  lemma WrappingsRoundTrip(c: Conversation, w: Wrapping, l: Layout, rpc: (string, string, Json))
    ensures Decoded(Encode(c, w, l, rpc)) == Ok(c) <==>
              && WellFormed(c)
              && (w.IdBeside? && !IsId(w.inner) ==> c.turns == [])
              && (l.AsDocumented? ==> forall i :: 0 <= i < |c.turns| ==> Offsetless(c.turns[i]))
    ensures ExtractedId(Encode(c, w, l, rpc)) == Ok(c.id) <==> c.id != "" && !w.Unwrapped?
  {
    TurnsCodec(c.turns, l);
    AllRereadIff(c, l);
    hide Collect, MapSeq, EncodeTurn, Reread, Consistent, Offsetless, TurnOf;
    var p := Encode(c, w, l, rpc);
    var turns := JArr(MapSeq(EncodeTurn(l), c.turns));
    if w.Unwrapped? {
      assert p.items[0] == JStr(c.id) && p.items[1] == turns;
    } else {
      assert p.items[0] == JStr(rpc.0) && p.items[1] == JStr(rpc.1);
      assert Envelope(p).None?;
      if w.Typical? {
        assert p.items[3] == JArr([JStr(c.id), turns]);
      } else if w.Reversed? {
        assert p.items[3] == JArr([turns, JStr(c.id)]);
      } else {
        assert p.items[3] == JStr(c.id) && p.items[4] == JArr([w.inner, turns]);
      }
    }
  }

  /** Decoding is stable: what was decoded, encoded again in the typical wrapping, decodes to
      itself. */
  lemma DecodedIsStable(payload: Json, rpc: (string, string, Json))
    requires Decoded(payload).Ok?
    ensures Decoded(Encode(Decoded(payload).value, Typical, AsRead, rpc)) == Decoded(payload)
  {
    DecodedIsWellFormed(payload);
    WrappingsRoundTrip(Decoded(payload).value, Typical, AsRead, rpc);
  }
}
