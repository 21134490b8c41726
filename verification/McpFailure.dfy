/**
 * The MCP / JSON-RPC failure classifier of the registered_tool adapter.
 * json.loads and str() are library functions: they enter as parameters that carry only
 * what the classifier relies on.
 */
module McpFailure {
  import opened Wrappers
  import opened JsonValues

  function NothingParses(text: string): Option<Json> { None }

  /** json.loads: None stands for JSONDecodeError; a parsed value is never larger than its text. */
  type Loads = f: string -> Option<Json> | forall t :: f(t).Some? ==> Size(f(t).value) <= |t|
    witness NothingParses

  function AnyText(v: Json): string { [' '] }

  /** str() of a value that is not a string: a truthy value never renders as "". */
  type Render = f: Json -> string | forall v :: Truthy(v) ==> f(v) != ""
    witness AnyText

  datatype Label = McpError | ToolReturnedError | ToolReturnedOkFalse

  /** The classifier's string result: NoFailure is "", the labels are its literal messages. */
  datatype Verdict = NoFailure | Literal(message: Label) | Rendered(text: string)
  {
    /** Python truthiness of the string. */
    predicate Failing() {
      Literal? || (Rendered? && text != "")
    }
  }

  function AsText(str: Render, v: Json): string {
    if v.Str? then v.s else str(v)
  }

  /** The characters that str.strip removes. */
  predicate IsSpace(c: char) {
    || c == ' ' || '\t' <= c <= '\r' || '\U{001C}' <= c <= '\U{001F}'
    || c == '\U{0085}' || c == '\U{00A0}' || c == '\U{1680}' || '\U{2000}' <= c <= '\U{200A}'
    || c == '\U{2028}' || c == '\U{2029}' || c == '\U{202F}' || c == '\U{205F}' || c == '\U{3000}'
  }

  function StripLeft(s: string): string {
    if s != "" && IsSpace(s[0]) then StripLeft(s[1..]) else s
  }

  function StripRight(s: string): string {
    if s != "" && IsSpace(s[|s| - 1]) then StripRight(s[..|s| - 1]) else s
  }

  /** `str(value or default)` for a literal, non-empty default. */
  function TextOr(str: Render, value: Json, default: Label): Verdict {
    if Truthy(value) then Rendered(AsText(str, value)) else Literal(default)
  }

  /** The message for a present "error" member. */
  function ErrorVerdict(str: Render, error: Json): Verdict {
    if error.Obj? then
      TextOr(str, Or(Get(error, Message), Get(error, Code)), McpError)
    else
      var stripped := StripRight(StripLeft(AsText(str, error)));
      if stripped != "" then Rendered(stripped) else Literal(ToolReturnedError)
  }

  function Classify(loads: Loads, str: Render, value: Json): Verdict
    decreases Size(value), 2
  {
    if !value.Obj? then NoFailure
    else if Has(value, Error) then ErrorVerdict(str, Get(value, Error))
    else if Get(value, IsError) == Bool(true) then Literal(ToolReturnedError)
    else if Get(value, Ok) == Bool(false) then
      TextOr(str, Or(Get(value, Reason), Get(value, Message)), ToolReturnedOkFalse)
    else
      var result := ClassifyMember(loads, str, value, ResultMember);
      if result.Failing() then result
      else
        var structured := ClassifyMember(loads, str, value, StructuredContent);
        if structured.Failing() then structured
        else
          var data := ClassifyMember(loads, str, value, Data);
          if data.Failing() then data
          else ClassifyContent(loads, str, value)
  }

  function ClassifyMember(loads: Loads, str: Render, value: Json, key: Key): Verdict
    decreases Size(value), 0
  {
    var member := Get(value, key);
    if member == Null then NoFailure
    else
      MemberIsSmaller(value, key);
      Classify(loads, str, member)
  }

  function ClassifyContent(loads: Loads, str: Render, value: Json): Verdict
    decreases Size(value), 1
  {
    var content := Get(value, Content);
    if !content.Arr? then NoFailure
    else
      MemberIsSmaller(value, Content);
      ClassifyItems(loads, str, content.items)
  }

  function ClassifyItems(loads: Loads, str: Render, items: seq<Json>): Verdict
    decreases ItemsSize(items) + 1, 0
  {
    if items == [] then NoFailure
    else
      var first := ClassifyItem(loads, str, items[0]);
      if first.Failing() then first else ClassifyItems(loads, str, items[1..])
  }

  function ClassifyItem(loads: Loads, str: Render, item: Json): Verdict
    decreases Size(item), 0
  {
    if Get(item, IsError) == Bool(true) then Literal(ToolReturnedError)
    else
      var parsed := ParsedText(loads, item);
      if parsed.None? then NoFailure
      else
        ParsedTextIsSmaller(loads, item);
        Classify(loads, str, parsed.value)
  }

  /** The JSON value embedded in a content item's text, when there is one. */
  function ParsedText(loads: Loads, item: Json): Option<Json> {
    var text := Get(item, Text);
    if text.Str? then loads(text.s) else None
  }

  lemma ParsedTextIsSmaller(loads: Loads, item: Json)
    requires ParsedText(loads, item).Some?
    ensures Size(ParsedText(loads, item).value) < Size(item)
  {
    MemberIsSmaller(item, Text);
  }

  // ----- The verdict stated by reachability -----

  /** One step the classifier may descend: a wrapper member, or the JSON text of a content item. */
  datatype Hop = Member(key: Key) | ItemText(index: nat)

  function Follow(loads: Loads, v: Json, hop: Hop): Option<Json> {
    match hop
    case Member(key) =>
      if key in {ResultMember, StructuredContent, Data} && Has(v, key) then Some(Get(v, key)) else None
    case ItemText(i) =>
      var content := Get(v, Content);
      if content.Arr? && i < |content.items| then ParsedText(loads, content.items[i]) else None
  }

  function FollowAll(loads: Loads, v: Json, path: seq<Hop>): Option<Json>
    decreases |path|
  {
    if path == [] then Some(v)
    else
      var next := Follow(loads, v, path[0]);
      if next.None? then None else FollowAll(loads, next.value, path[1..])
  }

  predicate DirectMarker(v: Json) {
    Has(v, Error) || Get(v, IsError) == Bool(true) || Get(v, Ok) == Bool(false)
  }

  predicate ItemMarker(v: Json, i: nat) {
    var content := Get(v, Content);
    content.Arr? && i < |content.items| && Get(content.items[i], IsError) == Bool(true)
  }

  /** An error envelope: a marker on the object itself, or on one of its content items. */
  ghost predicate ErrorMarker(v: Json) {
    DirectMarker(v) || exists i: nat :: ItemMarker(v, i)
  }

  ghost predicate MarkerAt(loads: Loads, v: Json, path: seq<Hop>) {
    var w := FollowAll(loads, v, path);
    w.Some? && ErrorMarker(w.value)
  }

  lemma DirectMarkerFails(loads: Loads, str: Render, v: Json)
    requires DirectMarker(v)
    ensures Classify(loads, str, v).Failing()
  {
  }

  lemma {:induction false} ItemFails(loads: Loads, str: Render, items: seq<Json>, i: nat)
    requires i < |items| && ClassifyItem(loads, str, items[i]).Failing()
    ensures ClassifyItems(loads, str, items).Failing()
  {
    if i > 0 {
      ItemFails(loads, str, items[1..], i - 1);
    }
  }

  lemma MemberFails(loads: Loads, str: Render, v: Json, key: Key)
    requires key in {ResultMember, StructuredContent, Data}
    requires ClassifyMember(loads, str, v, key).Failing()
    ensures Classify(loads, str, v).Failing()
  {
    if DirectMarker(v) {
      DirectMarkerFails(loads, str, v);
    }
  }

  lemma ContentFails(loads: Loads, str: Render, v: Json, i: nat)
    requires Get(v, Content).Arr? && i < |Get(v, Content).items|
    requires ClassifyItem(loads, str, Get(v, Content).items[i]).Failing()
    ensures Classify(loads, str, v).Failing()
  {
    ItemFails(loads, str, Get(v, Content).items, i);
    assert ClassifyContent(loads, str, v).Failing();
    if DirectMarker(v) {
      DirectMarkerFails(loads, str, v);
    }
  }

  lemma MarkerFails(loads: Loads, str: Render, v: Json)
    requires ErrorMarker(v)
    ensures Classify(loads, str, v).Failing()
  {
    if DirectMarker(v) {
      DirectMarkerFails(loads, str, v);
    } else {
      var i: nat :| ItemMarker(v, i);
      ContentFails(loads, str, v, i);
    }
  }

  /** A failure one hop down is a failure here. */
  lemma HopFails(loads: Loads, str: Render, v: Json, hop: Hop)
    requires Follow(loads, v, hop).Some?
    requires Classify(loads, str, Follow(loads, v, hop).value).Failing()
    ensures Classify(loads, str, v).Failing()
  {
    match hop
    case Member(key) =>
      MemberFails(loads, str, v, key);
    case ItemText(i) =>
      if Get(Get(v, Content).items[i], IsError) != Bool(true) {
        assert ClassifyItem(loads, str, Get(v, Content).items[i]).Failing();
      }
      ContentFails(loads, str, v, i);
  }

  lemma {:induction false} ReachableMarkerFails(loads: Loads, str: Render, v: Json, path: seq<Hop>)
    requires MarkerAt(loads, v, path)
    ensures Classify(loads, str, v).Failing()
    decreases |path|
  {
    if path == [] {
      MarkerFails(loads, str, v);
    } else {
      ReachableMarkerFails(loads, str, Follow(loads, v, path[0]).value, path[1..]);
      HopFails(loads, str, v, path[0]);
    }
  }

  /** The message an error envelope itself gives rise to. */
  function OwnVerdict(str: Render, v: Json): Verdict {
    if Has(v, Error) then ErrorVerdict(str, Get(v, Error))
    else if Get(v, IsError) == Bool(true) then Literal(ToolReturnedError)
    else if Get(v, Ok) == Bool(false) then
      TextOr(str, Or(Get(v, Reason), Get(v, Message)), ToolReturnedOkFalse)
    else Literal(ToolReturnedError)
  }

  /** The envelope at the end of `path` yields exactly `verdict`. */
  ghost predicate YieldedAt(loads: Loads, str: Render, v: Json, path: seq<Hop>, verdict: Verdict) {
    MarkerAt(loads, v, path) && OwnVerdict(str, FollowAll(loads, v, path).value) == verdict
  }

  lemma ExtendPath(loads: Loads, str: Render, v: Json, hop: Hop, path: seq<Hop>, verdict: Verdict)
    requires Follow(loads, v, hop).Some?
    requires YieldedAt(loads, str, Follow(loads, v, hop).value, path, verdict)
    ensures YieldedAt(loads, str, v, [hop] + path, verdict)
  {
    assert ([hop] + path)[1..] == path;
  }

  lemma {:induction false} FindMarker(loads: Loads, str: Render, v: Json) returns (path: seq<Hop>)
    requires Classify(loads, str, v).Failing()
    ensures YieldedAt(loads, str, v, path, Classify(loads, str, v))
    decreases Size(v), 1
  {
    if DirectMarker(v) {
      path := [];
    } else if ClassifyMember(loads, str, v, ResultMember).Failing() {
      path := FindInMember(loads, str, v, ResultMember);
    } else if ClassifyMember(loads, str, v, StructuredContent).Failing() {
      path := FindInMember(loads, str, v, StructuredContent);
    } else if ClassifyMember(loads, str, v, Data).Failing() {
      path := FindInMember(loads, str, v, Data);
    } else {
      assert ClassifyContent(loads, str, v).Failing();
      assert Get(v, Content).items[0..] == Get(v, Content).items;
      path := FindInContent(loads, str, v, 0);
    }
  }

  lemma {:induction false} FindInMember(loads: Loads, str: Render, v: Json, key: Key) returns (path: seq<Hop>)
    requires key in {ResultMember, StructuredContent, Data}
    requires ClassifyMember(loads, str, v, key).Failing()
    ensures YieldedAt(loads, str, v, path, ClassifyMember(loads, str, v, key))
    decreases Size(v), 0
  {
    MemberIsSmaller(v, key);
    PresentField(v.fields, key);
    var rest := FindMarker(loads, str, Get(v, key));
    ExtendPath(loads, str, v, Member(key), rest, Classify(loads, str, Get(v, key)));
    path := [Member(key)] + rest;
  }

  lemma {:induction false} PresentField(fields: seq<Field>, key: Key)
    requires GetField(fields, key) != Null
    ensures HasField(fields, key)
  {
    if fields[0].key != key {
      PresentField(fields[1..], key);
    }
  }

  lemma {:induction false} FindInContent(loads: Loads, str: Render, v: Json, i: nat) returns (path: seq<Hop>)
    requires !DirectMarker(v) && Get(v, Content).Arr? && i <= |Get(v, Content).items|
    requires ClassifyItems(loads, str, Get(v, Content).items[i..]).Failing()
    ensures YieldedAt(loads, str, v, path, ClassifyItems(loads, str, Get(v, Content).items[i..]))
    decreases Size(v), 0, |Get(v, Content).items| - i + 1
  {
    var items := Get(v, Content).items;
    assert items[i..][1..] == items[i + 1..];
    if ClassifyItem(loads, str, items[i]).Failing() {
      path := FindInItem(loads, str, v, i);
    } else {
      path := FindInContent(loads, str, v, i + 1);
    }
  }

  lemma {:induction false} FindInItem(loads: Loads, str: Render, v: Json, i: nat) returns (path: seq<Hop>)
    requires !DirectMarker(v) && Get(v, Content).Arr? && i < |Get(v, Content).items|
    requires ClassifyItem(loads, str, Get(v, Content).items[i]).Failing()
    ensures YieldedAt(loads, str, v, path, ClassifyItem(loads, str, Get(v, Content).items[i]))
    decreases Size(v), 0, 0
  {
    var item := Get(v, Content).items[i];
    if Get(item, IsError) == Bool(true) {
      assert ItemMarker(v, i);
      path := [];
    } else {
      MemberIsSmaller(v, Content);
      ItemIsSmaller(Get(v, Content).items, i);
      ParsedTextIsSmaller(loads, item);
      var rest := FindMarker(loads, str, ParsedText(loads, item).value);
      ExtendPath(loads, str, v, ItemText(i), rest, ClassifyItem(loads, str, item));
      path := [ItemText(i)] + rest;
    }
  }

  /**
   * The verdict is a failure exactly when an error envelope is reachable, and its message is
   * then the message of a reachable envelope.
   */
  lemma FailureIffMarkerReachable(loads: Loads, str: Render, v: Json)
    ensures Classify(loads, str, v).Failing() <==> exists path :: MarkerAt(loads, v, path)
    ensures Classify(loads, str, v).Failing() ==>
      exists path :: YieldedAt(loads, str, v, path, Classify(loads, str, v))
  {
    if Classify(loads, str, v).Failing() {
      var path := FindMarker(loads, str, v);
    }
    if path :| MarkerAt(loads, v, path) {
      ReachableMarkerFails(loads, str, v, path);
    }
  }

  // ----- The messages, and which failure comes first -----

  lemma SpaceChars(c: char)
    ensures IsSpace(c) <==>
      (|| c in "\t\n\U{000B}\U{000C}\r\U{001C}\U{001D}\U{001E}\U{001F} \U{0085}\U{00A0}"
       || c in "\U{1680}\U{2000}\U{2001}\U{2002}\U{2003}\U{2004}\U{2005}\U{2006}\U{2007}\U{2008}\U{2009}"
       || c in "\U{200A}\U{2028}\U{2029}\U{202F}\U{205F}\U{3000}")
  {
  }

  predicate AllSpace(s: string) {
    forall i :: 0 <= i < |s| ==> IsSpace(s[i])
  }

  /** `m` is `text` without its leading and trailing white space `a` and `b`. */
  predicate StripsTo(text: string, a: string, m: string, b: string) {
    && text == a + m + b && AllSpace(a) && AllSpace(b)
    && (m != "" ==> !IsSpace(m[0]) && !IsSpace(m[|m| - 1]))
  }

  lemma {:induction false} LeftStripped(s: string) returns (a: string)
    ensures s == a + StripLeft(s) && AllSpace(a)
    ensures StripLeft(s) != "" ==> !IsSpace(StripLeft(s)[0])
  {
    a := "";
    if s != "" && IsSpace(s[0]) {
      var rest := LeftStripped(s[1..]);
      a := [s[0]] + rest;
      assert s == [s[0]] + s[1..];
    }
  }

  lemma {:induction false} RightStripped(s: string) returns (b: string)
    ensures s == StripRight(s) + b && AllSpace(b)
    ensures StripRight(s) != "" ==> StripRight(s)[0] == s[0] && !IsSpace(StripRight(s)[|StripRight(s)| - 1])
  {
    b := "";
    if s != "" && IsSpace(s[|s| - 1]) {
      var rest := RightStripped(s[..|s| - 1]);
      b := rest + [s[|s| - 1]];
      assert s == s[..|s| - 1] + [s[|s| - 1]];
    }
  }

  lemma Stripped(text: string) returns (a: string, b: string)
    ensures StripsTo(text, a, StripRight(StripLeft(text)), b)
  {
    a := LeftStripped(text);
    b := RightStripped(StripLeft(text));
  }

  /** The verdict is the text of `v`: itself when it is a string, else what str makes of it. */
  predicate Says(str: Render, v: Json, verdict: Verdict) {
    verdict == Rendered(if v.Str? then v.s else str(v))
  }

  /** An error object gives its message, where that is blank its code, and where both are a fixed label. */
  lemma ErrorObjectMessage(loads: Loads, str: Render, v: Json)
    requires Has(v, Error) && Get(v, Error).Obj?
    ensures var verdict, message, code := Classify(loads, str, v), Get(Get(v, Error), Message), Get(Get(v, Error), Code);
      && (!Blank(message) ==> Says(str, message, verdict))
      && (Blank(message) && !Blank(code) ==> Says(str, code, verdict))
      && (Blank(message) && Blank(code) ==> verdict == Literal(McpError))
  {
    TruthyMeans(Get(Get(v, Error), Message));
    TruthyMeans(Get(Get(v, Error), Code));
  }

  /** Any other error value gives its text without surrounding white space, or a label when nothing is left. */
  lemma ErrorValueMessage(loads: Loads, str: Render, v: Json) returns (a: string, m: string, b: string)
    requires Has(v, Error) && !Get(v, Error).Obj?
    ensures var error := Get(v, Error);
      && StripsTo(if error.Str? then error.s else str(error), a, m, b)
      && Classify(loads, str, v) == if m == "" then Literal(ToolReturnedError) else Rendered(m)
  {
    var text := AsText(str, Get(v, Error));
    m := StripRight(StripLeft(text));
    a, b := Stripped(text);
  }

  /** Without an error member: isError true gives a label; ok false gives the reason, else the message, else a label. */
  lemma FlagMessage(loads: Loads, str: Render, v: Json)
    requires v.Obj? && !Has(v, Error)
    ensures var verdict, reason, message := Classify(loads, str, v), Get(v, Reason), Get(v, Message);
      && (Get(v, IsError) == Bool(true) ==> verdict == Literal(ToolReturnedError))
      && (Get(v, IsError) != Bool(true) && Get(v, Ok) == Bool(false) ==>
          && (!Blank(reason) ==> Says(str, reason, verdict))
          && (Blank(reason) && !Blank(message) ==> Says(str, message, verdict))
          && (Blank(reason) && Blank(message) ==> verdict == Literal(ToolReturnedOkFalse)))
  {
    TruthyMeans(Get(v, Reason));
    TruthyMeans(Get(v, Message));
  }

  /** The verdict on one content item: its own flag, else that on the value that its text parses to. */
  predicate ItemSays(loads: Loads, str: Render, item: Json, verdict: Verdict) {
    if Get(item, IsError) == Bool(true) then verdict == Literal(ToolReturnedError)
    else if Get(item, Text).Str? && loads(Get(item, Text).s).Some? then
      verdict == Classify(loads, str, loads(Get(item, Text).s).value)
    else verdict == NoFailure
  }

  /** Among content items, the first failing one gives the message. */
  lemma {:induction false} FirstItemSays(loads: Loads, str: Render, items: seq<Json>, i: nat)
    requires i < |items| && ClassifyItem(loads, str, items[i]).Failing()
    requires forall j :: 0 <= j < i ==> !ClassifyItem(loads, str, items[j]).Failing()
    ensures ClassifyItems(loads, str, items) == ClassifyItem(loads, str, items[i])
    ensures ItemSays(loads, str, items[i], ClassifyItems(loads, str, items))
  {
    if i > 0 {
      assert forall j :: 0 <= j < i - 1 ==> items[1..][j] == items[j + 1];
      FirstItemSays(loads, str, items[1..], i - 1);
    }
  }

  /** Without a marker of its own, an answer fails for result, then structuredContent, then data, then content. */
  lemma FirstMemberSays(loads: Loads, str: Render, v: Json)
    requires v.Obj? && !Has(v, Error) && Get(v, IsError) != Bool(true) && Get(v, Ok) != Bool(false)
    ensures var verdict := Classify(loads, str, v);
      var result := Classify(loads, str, Get(v, ResultMember));
      var structured := Classify(loads, str, Get(v, StructuredContent));
      var data := Classify(loads, str, Get(v, Data));
      && (result.Failing() ==> verdict == result)
      && (!result.Failing() && structured.Failing() ==> verdict == structured)
      && (!result.Failing() && !structured.Failing() && data.Failing() ==> verdict == data)
      && (!result.Failing() && !structured.Failing() && !data.Failing() ==>
          verdict == if Get(v, Content).Arr? then ClassifyItems(loads, str, Get(v, Content).items) else NoFailure)
  {
  }

  // ----- Domain data never changes the verdict -----

  /** What the classifier reads of an "error" member: of an object, only its message or code. */
  datatype ErrorPart = ErrorObject(text: Json) | ErrorValue(value: Json)

  /**
   * An answer without its domain data, at every level: the markers with their messages, the wrapper
   * members, and the content items with the values embedded in their texts.
   */
  datatype Envelope =
    | NoEnvelope
    | Envelope(error: Option<ErrorPart>, isError: bool, notOk: Option<Json>,
               result: Envelope, structured: Envelope, data: Envelope, content: seq<ItemEnvelope>)

  datatype ItemEnvelope = Flagged | Plain(parsed: Envelope)

  function ErrorPartOf(error: Json): ErrorPart {
    if error.Obj? then ErrorObject(Or(Get(error, Message), Get(error, Code))) else ErrorValue(error)
  }

  function EnvelopeOf(loads: Loads, v: Json): Envelope
    decreases Size(v), 2
  {
    if !v.Obj? then NoEnvelope
    else
      Envelope(
        if Has(v, Error) then Some(ErrorPartOf(Get(v, Error))) else None,
        Get(v, IsError) == Bool(true),
        if Get(v, Ok) == Bool(false) then Some(Or(Get(v, Reason), Get(v, Message))) else None,
        MemberEnvelope(loads, v, ResultMember),
        MemberEnvelope(loads, v, StructuredContent),
        MemberEnvelope(loads, v, Data),
        ContentEnvelope(loads, v))
  }

  function MemberEnvelope(loads: Loads, v: Json, key: Key): Envelope
    decreases Size(v), 0
  {
    var member := Get(v, key);
    if member == Null then NoEnvelope
    else
      MemberIsSmaller(v, key);
      EnvelopeOf(loads, member)
  }

  function ContentEnvelope(loads: Loads, v: Json): seq<ItemEnvelope>
    decreases Size(v), 1
  {
    var content := Get(v, Content);
    if !content.Arr? then []
    else
      MemberIsSmaller(v, Content);
      ItemEnvelopes(loads, content.items)
  }

  function ItemEnvelopes(loads: Loads, items: seq<Json>): seq<ItemEnvelope>
    decreases ItemsSize(items) + 1, 0
  {
    if items == [] then [] else [ItemEnvelopeOf(loads, items[0])] + ItemEnvelopes(loads, items[1..])
  }

  function ItemEnvelopeOf(loads: Loads, item: Json): ItemEnvelope
    decreases Size(item), 0
  {
    if Get(item, IsError) == Bool(true) then Flagged
    else
      var parsed := ParsedText(loads, item);
      if parsed.None? then Plain(NoEnvelope)
      else
        ParsedTextIsSmaller(loads, item);
        Plain(EnvelopeOf(loads, parsed.value))
  }

  function FirstFailing(a: Verdict, b: Verdict): Verdict {
    if a.Failing() then a else b
  }

  function JudgeError(str: Render, error: ErrorPart): Verdict {
    match error
    case ErrorObject(text) => TextOr(str, text, McpError)
    case ErrorValue(value) =>
      var stripped := StripRight(StripLeft(AsText(str, value)));
      if stripped != "" then Rendered(stripped) else Literal(ToolReturnedError)
  }

  /** The verdict by structural recursion over the envelope, without parsing anything again. */
  function Judge(str: Render, e: Envelope): Verdict
    decreases e
  {
    match e
    case NoEnvelope => NoFailure
    case Envelope(error, isError, notOk, result, structured, data, content) =>
      if error.Some? then JudgeError(str, error.value)
      else if isError then Literal(ToolReturnedError)
      else if notOk.Some? then TextOr(str, notOk.value, ToolReturnedOkFalse)
      else
        FirstFailing(Judge(str, result),
          FirstFailing(Judge(str, structured), FirstFailing(Judge(str, data), JudgeItems(str, content))))
  }

  function JudgeItems(str: Render, items: seq<ItemEnvelope>): Verdict
    decreases items
  {
    if items == [] then NoFailure else FirstFailing(JudgeItem(str, items[0]), JudgeItems(str, items[1..]))
  }

  function JudgeItem(str: Render, item: ItemEnvelope): Verdict
    decreases item
  {
    match item
    case Flagged => Literal(ToolReturnedError)
    case Plain(parsed) => Judge(str, parsed)
  }

  lemma ClassifyByParts(loads: Loads, str: Render, v: Json)
    requires v.Obj? && !DirectMarker(v)
    ensures Classify(loads, str, v) ==
      FirstFailing(ClassifyMember(loads, str, v, ResultMember),
        FirstFailing(ClassifyMember(loads, str, v, StructuredContent),
          FirstFailing(ClassifyMember(loads, str, v, Data), ClassifyContent(loads, str, v))))
  {
  }

  lemma JudgeByParts(loads: Loads, str: Render, v: Json)
    requires v.Obj? && !DirectMarker(v)
    ensures Judge(str, EnvelopeOf(loads, v)) ==
      FirstFailing(Judge(str, MemberEnvelope(loads, v, ResultMember)),
        FirstFailing(Judge(str, MemberEnvelope(loads, v, StructuredContent)),
          FirstFailing(Judge(str, MemberEnvelope(loads, v, Data)), JudgeItems(str, ContentEnvelope(loads, v)))))
  {
  }

  lemma DirectClassifies(loads: Loads, str: Render, v: Json)
    requires DirectMarker(v)
    ensures Classify(loads, str, v) == Judge(str, EnvelopeOf(loads, v))
  {
    assert Has(v, Error) ==> ErrorVerdict(str, Get(v, Error)) == JudgeError(str, ErrorPartOf(Get(v, Error)));
  }

  lemma {:induction false} MemberClassifies(loads: Loads, str: Render, v: Json, key: Key)
    ensures ClassifyMember(loads, str, v, key) == Judge(str, MemberEnvelope(loads, v, key))
    decreases Size(v), 0
  {
    if Get(v, key) != Null {
      MemberIsSmaller(v, key);
      EnvelopeClassifies(loads, str, Get(v, key));
    }
  }

  lemma {:induction false} ContentClassifies(loads: Loads, str: Render, v: Json)
    ensures ClassifyContent(loads, str, v) == JudgeItems(str, ContentEnvelope(loads, v))
    decreases Size(v), 1
  {
    if Get(v, Content).Arr? {
      MemberIsSmaller(v, Content);
      ItemsClassify(loads, str, Get(v, Content).items);
    }
  }

  lemma {:induction false} ItemsClassify(loads: Loads, str: Render, items: seq<Json>)
    ensures ClassifyItems(loads, str, items) == JudgeItems(str, ItemEnvelopes(loads, items))
    decreases ItemsSize(items) + 1, 0
  {
    if items != [] {
      var item := items[0];
      if Get(item, IsError) != Bool(true) && ParsedText(loads, item).Some? {
        ParsedTextIsSmaller(loads, item);
        EnvelopeClassifies(loads, str, ParsedText(loads, item).value);
      }
      ItemsClassify(loads, str, items[1..]);
    }
  }

  /** The verdict, message included, is a function of the envelope alone. */
  lemma {:induction false} EnvelopeClassifies(loads: Loads, str: Render, v: Json)
    ensures Classify(loads, str, v) == Judge(str, EnvelopeOf(loads, v))
    decreases Size(v), 2
  {
    if DirectMarker(v) {
      DirectClassifies(loads, str, v);
    } else if v.Obj? {
      MemberClassifies(loads, str, v, ResultMember);
      MemberClassifies(loads, str, v, StructuredContent);
      MemberClassifies(loads, str, v, Data);
      ContentClassifies(loads, str, v);
      ClassifyByParts(loads, str, v);
      JudgeByParts(loads, str, v);
    }
  }

  /** Two answers with the same envelope get the same verdict. */
  lemma SameEnvelopeSameVerdict(loads: Loads, str: Render, v: Json, w: Json)
    requires EnvelopeOf(loads, v) == EnvelopeOf(loads, w)
    ensures Classify(loads, str, v) == Classify(loads, str, w)
  {
    EnvelopeClassifies(loads, str, v);
    EnvelopeClassifies(loads, str, w);
  }

  // ----- What the envelope leaves out -----

  /** The members that the classifier reads of an object on one of its paths. */
  predicate Inspected(key: Key) {
    key in {Error, IsError, Ok, Reason, Message, ResultMember, StructuredContent, Data, Content}
  }

  lemma {:induction false} FieldInConcat(a: seq<Field>, b: seq<Field>, key: Key)
    ensures HasField(a + b, key) == (HasField(a, key) || HasField(b, key))
    ensures GetField(a + b, key) == if HasField(a, key) then GetField(a, key) else GetField(b, key)
  {
    if a == [] {
      assert a + b == b;
    } else {
      FieldInConcat(a[1..], b, key);
      assert (a + b)[1..] == a[1..] + b;
    }
  }

  lemma OtherField(a: seq<Field>, f: Field, b: seq<Field>, key: Key)
    requires f.key != key
    ensures HasField(a + [f] + b, key) == HasField(a + b, key)
    ensures GetField(a + [f] + b, key) == GetField(a + b, key)
  {
    assert a + [f] + b == a + ([f] + b) && ([f] + b)[1..] == b;
    FieldInConcat(a, [f] + b, key);
    FieldInConcat(a, b, key);
  }

  lemma OtherMember(a: seq<Field>, f: Field, b: seq<Field>, key: Key)
    requires f.key != key
    ensures Has(Obj(a + [f] + b), key) == Has(Obj(a + b), key)
    ensures Get(Obj(a + [f] + b), key) == Get(Obj(a + b), key)
  {
    OtherField(a, f, b, key);
  }

  /** A member that is not inspected can be added, changed or removed anywhere. */
  lemma DomainMemberIgnored(loads: Loads, a: seq<Field>, f: Field, b: seq<Field>)
    requires !Inspected(f.key)
    ensures EnvelopeOf(loads, Obj(a + [f] + b)) == EnvelopeOf(loads, Obj(a + b))
  {
    OtherMember(a, f, b, Error);
    OtherMember(a, f, b, IsError);
    OtherMember(a, f, b, Ok);
    OtherMember(a, f, b, Reason);
    OtherMember(a, f, b, Message);
    SameMemberEnvelope(loads, a, f, b, ResultMember);
    SameMemberEnvelope(loads, a, f, b, StructuredContent);
    SameMemberEnvelope(loads, a, f, b, Data);
    SameContentEnvelope(loads, a, f, b);
  }

  lemma SameMemberEnvelope(loads: Loads, a: seq<Field>, f: Field, b: seq<Field>, key: Key)
    requires f.key != key
    ensures MemberEnvelope(loads, Obj(a + [f] + b), key) == MemberEnvelope(loads, Obj(a + b), key)
  {
    OtherMember(a, f, b, key);
  }

  lemma SameContentEnvelope(loads: Loads, a: seq<Field>, f: Field, b: seq<Field>)
    requires f.key != Content
    ensures ContentEnvelope(loads, Obj(a + [f] + b)) == ContentEnvelope(loads, Obj(a + b))
  {
    OtherMember(a, f, b, Content);
  }

  /** Of a content item, only isError and text are read. */
  lemma ItemMemberIgnored(loads: Loads, a: seq<Field>, f: Field, b: seq<Field>)
    requires f.key != IsError && f.key != Text
    ensures ItemEnvelopeOf(loads, Obj(a + [f] + b)) == ItemEnvelopeOf(loads, Obj(a + b))
  {
    OtherMember(a, f, b, IsError);
    OtherMember(a, f, b, Text);
  }

  /** And of a text, only the envelope of the value that it parses to. */
  lemma TextByEnvelope(loads: Loads, item: Json, other: Json)
    requires Get(item, IsError) == Get(other, IsError)
    requires ParsedText(loads, item).Some? && ParsedText(loads, other).Some?
    requires EnvelopeOf(loads, ParsedText(loads, item).value) == EnvelopeOf(loads, ParsedText(loads, other).value)
    ensures ItemEnvelopeOf(loads, item) == ItemEnvelopeOf(loads, other)
  {
  }
}
