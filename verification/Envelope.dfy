/** The checks HandleSubmit makes on a request body before it creates a job. */
module Envelope {
  import opened ByteOrder
  import opened Decimal
  import opened JsonValues
  import opened KeyScanner
  import opened Layout
  import opened KeyWalk
  import opened KeyStrings
  import opened Markers
  import opened FieldSearch
  import opened Provider

  datatype Limits = Limits(maxBodyBytes: nat, maxFieldBytes: nat, defaultModelId: string)

  datatype Refusal = BadShape | BodyTooLarge | MissingField(field: string) | UnknownField(field: string) | ModelTooLarge

  datatype Verdict = Refuse(refusal: Refusal) | Accept(modelId: string, toolId: string, templateId: string)

  function Required(kind: Kind): seq<string> {
    match kind
    case Chat => ["payload"]
    case Tool => ["payload", "toolId"]
    case Build => ["language", "payload", "templateId"]
  }

  const Optional: seq<string> := ["modelId"]

  predicate ValidShape(body: string) {
    !(body == "" || body[0] != '{' || body[|body| - 1] != '}')
  }

  function ValueOr(found: Option<string>, default: string): string {
    match found
    case Some(text) => text
    case None => default
  }

  function ModelOf(limits: Limits, body: string): string {
    ValueOr(ExtractStringValue(body, "modelId"), limits.defaultModelId)
  }

  /** The first of some names that is not listed. */
  function FirstOutside(names: seq<string>, listed: seq<string>): Option<string> {
    if names == [] then None
    else if names[0] !in listed then Some(names[0])
    else FirstOutside(names[1..], listed)
  }

  function Judge(limits: Limits, kind: Kind, body: string): Verdict {
    if !ValidShape(body) then Refuse(BadShape)
    else if |body| > limits.maxBodyBytes then Refuse(BodyTooLarge)
    else
      var keys := TopLevelKeys(body);
      match FirstOutside(Required(kind), keys)
      case Some(field) => Refuse(MissingField(field))
      case None =>
        match FirstOutside(keys, Required(kind) + Optional)
        case Some(key) => Refuse(UnknownField(key))
        case None =>
          if |ModelOf(limits, body)| > limits.maxFieldBytes then Refuse(ModelTooLarge)
          else Accept(ModelOf(limits, body),
                      ValueOr(ExtractStringValue(body, "toolId"), ""),
                      ValueOr(ExtractStringValue(body, "templateId"), ""))
  }

  lemma {:induction false} OutsideStep(names: seq<string>, i: nat, listed: seq<string>)
    requires i < |names|
    ensures FirstOutside(names[i..], listed)
         == if names[i] !in listed then Some(names[i]) else FirstOutside(names[i + 1..], listed)
  {
  }

  method Validate(limits: Limits, kind: Kind, body: string) returns (verdict: Verdict)
    ensures verdict == Judge(limits, kind, body)
  {
    if !ValidShape(body) {
      return Refuse(BadShape);
    }
    if |body| > limits.maxBodyBytes {
      return Refuse(BodyTooLarge);
    }
    var keys := ExtractTopLevelKeys(body);
    var required := Required(kind);
    assert required[0..] == required;
    for i := 0 to |required|
      invariant FirstOutside(required, keys) == FirstOutside(required[i..], keys)
    {
      OutsideStep(required, i, keys);
      if required[i] !in keys {
        return Refuse(MissingField(required[i]));
      }
    }
    assert keys[0..] == keys;
    for i := 0 to |keys|
      invariant FirstOutside(required, keys) == None
      invariant FirstOutside(keys, required + Optional) == FirstOutside(keys[i..], required + Optional)
    {
      OutsideStep(keys, i, required + Optional);
      if keys[i] !in required && keys[i] !in Optional {
        return Refuse(UnknownField(keys[i]));
      }
    }
    var modelId := ValueOr(ExtractStringValue(body, "modelId"), limits.defaultModelId);
    if |modelId| > limits.maxFieldBytes {
      return Refuse(ModelTooLarge);
    }
    var toolId := ValueOr(ExtractStringValue(body, "toolId"), "");
    var templateId := ValueOr(ExtractStringValue(body, "templateId"), "");
    verdict := Accept(modelId, toolId, templateId);
  }

  // ----- the verdict, said outright

  lemma {:induction false} ScanAscending(text: string, st: Scanner)
    requires Ascending(st.keys)
    ensures Ascending(Scan(text, st).keys)
  {
    if text != "" {
      InsertIsSetInsert(st.keys, st.current);
      ScanAscending(text[1..], Advance(st, text[0], text[1..]));
    }
  }

  lemma {:induction false} RequiredAscending(kind: Kind)
    ensures Ascending(Required(kind))
  {
  }

  /** The name is in xs but not listed, and every other such name comes after it. */
  ghost predicate Smallest(name: string, names: seq<string>, listed: seq<string>) {
    && name in names && name !in listed
    && forall other | other in names && other !in listed :: other == name || Less(name, other)
  }

  lemma {:induction false} FirstIsSmallest(names: seq<string>, listed: seq<string>, name: string)
    requires Ascending(names)
    ensures FirstOutside(names, listed) == Some(name) <==> Smallest(name, names, listed)
    ensures FirstOutside(names, listed) == None <==> forall x | x in names :: x in listed
  {
    if names != [] {
      FirstIsSmallest(names[1..], listed, name);
      assert names == [names[0]] + names[1..];
      if names[0] !in listed {
        forall other | other in names && other != names[0] ensures Less(names[0], other) && !Less(other, names[0]) {
          var j :| 0 <= j < |names| && names[j] == other;
          LessAsymmetric(names[0], names[j]);
        }
      }
    }
  }

  ghost predicate Subset(xs: seq<string>, ys: seq<string>) {
    forall x | x in xs :: x in ys
  }

  /** When a body is accepted, and which error it gets otherwise: in terms of its size, the
      keys scanned from it and the extracted model id, with the offending key the smallest. */
  lemma {:induction false} JudgeExact(limits: Limits, kind: Kind, body: string, field: string)
    ensures var keys := TopLevelKeys(body);
            var allowed := Required(kind) + Optional;
            var fits := ValidShape(body) && |body| <= limits.maxBodyBytes;
            var modelFits := |ModelOf(limits, body)| <= limits.maxFieldBytes;
            var v := Judge(limits, kind, body);
            && (v.Accept? <==> fits && Subset(Required(kind), keys) && Subset(keys, allowed) && modelFits)
            && (v == Refuse(BadShape) <==> !ValidShape(body))
            && (v == Refuse(BodyTooLarge) <==> ValidShape(body) && !fits)
            && (v == Refuse(MissingField(field)) <==> fits && Smallest(field, Required(kind), keys))
            && (v == Refuse(UnknownField(field)) <==>
                  fits && Subset(Required(kind), keys) && Smallest(field, keys, allowed))
            && (v == Refuse(ModelTooLarge) <==>
                  fits && Subset(Required(kind), keys) && Subset(keys, allowed) && !modelFits)
  {
    var keys := TopLevelKeys(body);
    ScanAscending(body, Start);
    RequiredAscending(kind);
    FirstIsSmallest(Required(kind), keys, field);
    FirstIsSmallest(keys, Required(kind) + Optional, field);
  }

  // ----- the fields of the three endpoints

  /** The body is an opening and a closing brace with anything between. */
  ghost predicate Braced(body: string) {
    exists inner :: body == "{" + inner + "}"
  }

  /** The required fields, with or without the model. */
  predicate FieldsFit(kind: Kind, keys: seq<string>) {
    match kind
    case Chat => keys == ["payload"] || keys == ["modelId", "payload"]
    case Tool => keys == ["payload", "toolId"] || keys == ["modelId", "payload", "toolId"]
    case Build =>
      keys == ["language", "payload", "templateId"] || keys == ["language", "modelId", "payload", "templateId"]
  }

  /** The field is the first required one that is missing. */
  predicate Lacks(kind: Kind, keys: seq<string>, field: string) {
    match kind
    case Chat => "payload" !in keys && field == "payload"
    case Tool =>
      if "payload" !in keys then field == "payload" else "toolId" !in keys && field == "toolId"
    case Build =>
      if "language" !in keys then field == "language"
      else if "payload" !in keys then field == "payload"
      else "templateId" !in keys && field == "templateId"
  }

  /** No required field is missing, and the field is the first one that has no business here. */
  ghost predicate Exceeds(kind: Kind, keys: seq<string>, field: string) {
    match kind
    case Chat => "payload" in keys && Smallest(field, keys, ["modelId", "payload"])
    case Tool => "payload" in keys && "toolId" in keys && Smallest(field, keys, ["modelId", "payload", "toolId"])
    case Build =>
      && "language" in keys && "payload" in keys && "templateId" in keys
      && Smallest(field, keys, ["language", "modelId", "payload", "templateId"])
  }

  lemma {:induction false} ShapeExact(body: string)
    ensures ValidShape(body) <==> Braced(body)
  {
    if ValidShape(body) {
      assert body[0] != body[|body| - 1];
      assert body == "{" + body[1..|body| - 1] + "}";
    }
  }

  lemma {:induction false} FieldsInOrder()
    ensures Ascending(["payload"]) && Ascending(["modelId", "payload"])
    ensures Ascending(["payload", "toolId"]) && Ascending(["modelId", "payload", "toolId"])
    ensures Ascending(["language", "payload", "templateId"])
    ensures Ascending(["language", "modelId", "payload", "templateId"])
  {
    assert Less("language", "modelId") && Less("language", "payload") && Less("language", "templateId");
    assert Less("modelId", "payload") && Less("modelId", "templateId") && Less("modelId", "toolId");
    assert Less("payload", "templateId") && Less("payload", "toolId");
    hide Less;
  }

  /** Of two lists between which the keys must lie, the keys are one or the other. */
  lemma {:induction false} FitsExactly(keys: seq<string>, required: seq<string>, allowed: seq<string>)
    requires Ascending(keys) && Ascending(required) && Ascending(allowed)
    requires forall x :: x in allowed <==> x in required || x == "modelId"
    ensures Subset(required, keys) && Subset(keys, allowed) <==> keys == required || keys == allowed
  {
    hide Less;
    if Subset(required, keys) && Subset(keys, allowed) {
      if "modelId" in keys {
        AscendingUnique(keys, allowed);
      } else {
        AscendingUnique(keys, required);
      }
    }
  }

  lemma {:induction false} FitExact(kind: Kind, keys: seq<string>)
    requires Ascending(keys)
    ensures Subset(Required(kind), keys) && Subset(keys, Required(kind) + Optional) <==> FieldsFit(kind, keys)
  {
    FieldsInOrder();
    hide Ascending;
    match kind
    case Chat =>
      FitsExactly(keys, ["payload"], ["modelId", "payload"]);
    case Tool =>
      FitsExactly(keys, ["payload", "toolId"], ["modelId", "payload", "toolId"]);
    case Build =>
      FitsExactly(keys, ["language", "payload", "templateId"], ["language", "modelId", "payload", "templateId"]);
  }

  lemma {:induction false} LacksExact(kind: Kind, keys: seq<string>, field: string)
    ensures Smallest(field, Required(kind), keys) <==> Lacks(kind, keys, field)
  {
    RequiredAscending(kind);
    FirstIsSmallest(Required(kind), keys, field);
    var names := Required(kind);
    assert names[0..] == names;
    OutsideStep(names, 0, keys);
    if |names| > 1 {
      OutsideStep(names, 1, keys);
    }
    if |names| > 2 {
      OutsideStep(names, 2, keys);
    }
    hide Smallest, FirstOutside;
  }

  lemma {:induction false} ExceedsExact(kind: Kind, keys: seq<string>, field: string)
    ensures Subset(Required(kind), keys) && Smallest(field, keys, Required(kind) + Optional)
       <==> Exceeds(kind, keys, field)
  {
    hide Less;
  }

  /** The verdict on a body with the given keys: it is accepted exactly when these are the
      fields of the endpoint and sizes fit; a field error names the first offending one. */
  ghost predicate DecidedBy(limits: Limits, kind: Kind, body: string, keys: seq<string>, field: string) {
    var fits := Braced(body) && |body| <= limits.maxBodyBytes;
    var modelFits := |ModelOf(limits, body)| <= limits.maxFieldBytes;
    var v := Judge(limits, kind, body);
    && (v.Accept? <==> fits && FieldsFit(kind, keys) && modelFits)
    && (v == Refuse(BadShape) <==> !Braced(body))
    && (v == Refuse(BodyTooLarge) <==> Braced(body) && !fits)
    && (v == Refuse(MissingField(field)) <==> fits && Lacks(kind, keys, field))
    && (v == Refuse(UnknownField(field)) <==> fits && Exceeds(kind, keys, field))
    && (v == Refuse(ModelTooLarge) <==> fits && FieldsFit(kind, keys) && !modelFits)
  }

  /** Any body is judged by the keys scanned from it. */
  lemma {:induction false} BodyVerdict(limits: Limits, kind: Kind, body: string, field: string)
    ensures DecidedBy(limits, kind, body, TopLevelKeys(body), field)
  {
    ScanAscending(body, Start);
    hide Judge, ModelOf, Required, FieldsFit, Lacks, Exceeds, Braced, Smallest, Subset;
    JudgeExact(limits, kind, body, field);
    ShapeExact(body);
    FitExact(kind, TopLevelKeys(body));
    LacksExact(kind, TopLevelKeys(body), field);
    ExceedsExact(kind, TopLevelKeys(body), field);
  }

  lemma {:induction false} ObjectBraced(ms: seq<Member>)
    ensures Braced(Print(Obj(ms)))
  {
    assert Print(Obj(ms)) == "{" + PrintMembers(ms, true) + "}";
  }

  /** A printed object is judged by the keys of the walk, unless a brace in one of its strings
      takes the scan to the top level there. */
  lemma {:induction false} PrintedBodyVerdict(limits: Limits, kind: Kind, ms: seq<Member>, field: string)
    requires FoundKeys(ms).Some?
    ensures Braced(Print(Obj(ms)))
    ensures DecidedBy(limits, kind, Print(Obj(ms)), FoundKeys(ms).value, field)
  {
    hide *;
    BodyVerdict(limits, kind, Print(Obj(ms)), field);
    ObjectBraced(ms);
    ScanFollowsWalk(ms);
  }

  /** With paired strings in the objects inside it is judged by all its keys, as the scan reads
      them. */
  lemma {:induction false} PairedBodyVerdict(limits: Limits, kind: Kind, ms: seq<Member>, field: string)
    requires forall i | 0 <= i < |ms| :: Scannable(ms[i].value)
    ensures Braced(Print(Obj(ms)))
    ensures DecidedBy(limits, kind, Print(Obj(ms)), ReadKeys(ms, []), field)
  {
    hide DecidedBy, FoundKeys, ReadKeys;
    PairedFound(ms);
    PrintedBodyVerdict(limits, kind, ms, field);
  }

  /** An object without control characters in its keys and with paired strings in the objects
      inside. */
  ghost predicate PlainBody(ms: seq<Member>) {
    && Sorted(ms)
    && forall i | 0 <= i < |ms| :: NoControl(ms[i].key) && Scannable(ms[i].value)
  }

  /** A body whose keys are scanned as they are, such as the text of a plain object. */
  ghost predicate ReadsAsItself(body: string, ms: seq<Member>) {
    Sorted(ms) && TextOf(body, Obj(ms)) && TopLevelKeys(body) == KeysOf(ms)
  }

  lemma {:induction false} PlainReadsAsItself(body: string, ms: seq<Member>)
    requires PlainBody(ms) && TextOf(body, Obj(ms))
    ensures ReadsAsItself(body, ms)
  {
    var gaps :| Gaps(gaps, Tokens(Obj(ms))) && body == Spaced(Tokens(Obj(ms)), gaps);
    PairedFound(ms);
    ReadKeysExactly(ms);
    hide Tokens, Spaced, FoundKeys, ReadKeys, NoControl, Scannable;
    SpacesDoNotMatter(ms, gaps);
  }

  /** A plain object is judged by its own fields. */
  lemma {:induction false} PlainBodyVerdict(limits: Limits, kind: Kind, ms: seq<Member>, field: string)
    requires PlainBody(ms)
    ensures Braced(Print(Obj(ms)))
    ensures DecidedBy(limits, kind, Print(Obj(ms)), KeysOf(ms), field)
  {
    hide DecidedBy, PlainBody;
    PrintIsText(Obj(ms));
    PlainReadsAsItself(Print(Obj(ms)), ms);
    BodyVerdict(limits, kind, Print(Obj(ms)), field);
    ObjectBraced(ms);
  }

  /** Whitespace between the tokens of a body does not matter to the verdict, but none may stand
      before its first brace or behind its last. */
  lemma {:induction false} SpacedBodyVerdict(
    limits: Limits, kind: Kind, ms: seq<Member>, gaps: seq<string>, field: string)
    requires FoundKeys(ms).Some? && Gaps(gaps, Tokens(Obj(ms)))
    ensures var body := Spaced(Tokens(Obj(ms)), gaps);
            && (Braced(body) <==> gaps[0] == "" && gaps[|gaps| - 1] == "")
            && DecidedBy(limits, kind, body, FoundKeys(ms).value, field)
  {
    var body := Spaced(Tokens(Obj(ms)), gaps);
    SpacedObjectEnds(ms, gaps);
    ShapeExact(body);
    BodyVerdict(limits, kind, body, field);
    hide DecidedBy, Tokens, Spaced, Braced, FoundKeys;
    SpacesDoNotMatter(ms, gaps);
  }

  lemma {:induction false} SpacedObjectEnds(ms: seq<Member>, gaps: seq<string>)
    requires Gaps(gaps, Tokens(Obj(ms)))
    ensures ValidShape(Spaced(Tokens(Obj(ms)), gaps)) <==> gaps[0] == "" && gaps[|gaps| - 1] == ""
  {
    var tokens := Tokens(Obj(ms));
    assert tokens[0] == Mark('{') && tokens[|tokens| - 1] == Mark('}');
    hide Tokens, Spaced;
    SpacedEnds(tokens, gaps);
  }

  // ----- bodies that pass the field check without the right fields

  /** A key that begins with a tab is read as if it began with the letter t. */
  lemma {:induction false} TabReadsAsLetter(tabbed: string, plain: string)
    requires tabbed != "" && tabbed[0] == '\t' && NoControl(plain)
    requires plain != "" && plain[0] == 't' && plain[1..] == tabbed[1..]
    ensures ReadKey(tabbed) == plain
  {
    ReadKeyExact(tabbed[1..]);
    assert ReadChar('\t') == "t";
    assert plain == "t" + plain[1..];
  }

  /** A tab can stand for a letter: a tool body without the field toolId is accepted. */
  lemma {:induction false} AcceptedWithoutField(limits: Limits, tool: Json, payload: Json)
    requires Scannable(tool) && Scannable(payload)
    ensures var ms := [Member("\toolId", tool), Member("payload", payload)];
            var body := Print(Obj(ms));
            && Sorted(ms) && "toolId" !in KeysOf(ms)
            && (Judge(limits, Tool, body).Accept? <==>
                  |body| <= limits.maxBodyBytes && |ModelOf(limits, body)| <= limits.maxFieldBytes)
  {
    var ms := [Member("\toolId", tool), Member("payload", payload)];
    ToolKeyNames();
    assert forall i | 0 <= i < |ms| :: Scannable(ms[i].value);
    hide *;
    TabReadsAsLetter(ms[0].key, "toolId");
    ReadKeyExact(ms[1].key);
    TwoReadKeys(ms, "toolId", "payload");
    PairedBodyVerdict(limits, Tool, ms, "");
    ObjectBraced(ms);
    ToolKeysAccepted(limits, Print(Obj(ms)), ReadKeys(ms, []), "");
    TwoKeys(ms[0], ms[1]);
  }

  /** A key of an inner object can forge one: so is a tool body with the one field payload, and
      with no control character in any key. */
  lemma {:induction false} AcceptedWithForgedField(limits: Limits, v: Json)
    requires Scannable(v)
    ensures var inner := Member("\"},\"toolId", v);
            var ms := [Member("payload", Obj([inner]))];
            var body := Print(Obj(ms));
            && KeysOf(ms) == ["payload"] && NoControl("payload") && NoControl(inner.key)
            && (Judge(limits, Tool, body).Accept? <==>
                  |body| <= limits.maxBodyBytes && |ModelOf(limits, body)| <= limits.maxFieldBytes)
  {
    var ms := [Member("payload", Obj([Member("\"},\"toolId", v)]))];
    ToolKeyNames();
    assert KeysOf(ms) == ["payload"];
    assert "\"},\"" + "toolId" == "\"},\"toolId";
    assert NoControl("\"},\"toolId");
    hide *;
    ForgedKeyFound("payload", "toolId", v);
    ReadKeyExact("payload");
    ReadKeyExact("toolId");
    InsertBefore("payload", "toolId");
    BodyVerdict(limits, Tool, Print(Obj(ms)), "");
    ObjectBraced(ms);
    ToolKeysAccepted(limits, Print(Obj(ms)), TopLevelKeys(Print(Obj(ms))), "");
  }

  lemma {:induction false} InsertBefore(a: string, b: string)
    requires Less(a, b)
    ensures Insert([a], b) == [a, b]
  {
    LessAsymmetric(a, b);
  }

  /** An unpaired string can hide fields: a chat body is accepted whatever inert members follow
      the spoiled payload. */
  lemma {:induction false} AcceptedWithUnknownFields(limits: Limits, ms: seq<Member>)
    requires ms != [] && ms[0].key == "payload" && Spoiled(ms[0].value, false)
    requires forall i | 0 < i < |ms| :: InertMember(ms[i])
    ensures var body := Print(Obj(ms));
            Judge(limits, Chat, body).Accept? <==>
              |body| <= limits.maxBodyBytes && |ModelOf(limits, body)| <= limits.maxFieldBytes
  {
    ToolKeyNames();
    hide *;
    FirstReadKey(ms);
    UnpairedHidesRest(ms, 0);
    BodyVerdict(limits, Chat, Print(Obj(ms)), "");
    ObjectBraced(ms);
    ChatKeyAccepted(limits, Print(Obj(ms)), TopLevelKeys(Print(Obj(ms))), "");
  }

  lemma {:induction false} FirstReadKey(ms: seq<Member>)
    requires ms != [] && NoControl(ms[0].key)
    ensures ReadKeys(ms[..1], []) == [ms[0].key]
  {
    ReadKeyExact(ms[0].key);
    hide ReadKey, NoControl;
    assert ms[..1][1..] == [];
    assert ReadKeys(ms[..1], []) == ReadKeys(ms[..1][1..], Insert([], ReadKey(ms[0].key)));
  }

  lemma {:induction false} ChatKeyAccepted(limits: Limits, body: string, keys: seq<string>, field: string)
    requires keys == ["payload"] && Braced(body) && DecidedBy(limits, Chat, body, keys, field)
    ensures Judge(limits, Chat, body).Accept?
       <==> |body| <= limits.maxBodyBytes && |ModelOf(limits, body)| <= limits.maxFieldBytes
  {
    hide Judge, ModelOf, Braced, Lacks, Exceeds;
  }

  lemma {:induction false} ToolKeyNames()
    ensures Less("payload", "toolId") && Less("\toolId", "payload")
    ensures NoControl("payload") && NoControl("toolId")
    ensures "toolId" !in ["\toolId", "payload"]
  {
  }

  lemma {:induction false} TwoKeys(a: Member, b: Member)
    ensures KeysOf([a, b]) == [a.key, b.key]
    ensures Sorted([a, b]) <==> Less(a.key, b.key)
  {
    assert [a, b][0] == a && [a, b][1] == b;
  }

  lemma {:induction false} TwoReadKeys(ms: seq<Member>, a: string, b: string)
    requires |ms| == 2 && ReadKey(ms[0].key) == a && ReadKey(ms[1].key) == b
    requires Less(b, a)
    ensures ReadKeys(ms, []) == [b, a]
  {
    assert ReadKeys(ms, []) == ReadKeys(ms[1..], Insert([], a)) == ReadKeys(ms[1..][1..], Insert(Insert([], a), b));
    assert ms[1..][1..] == [];
  }

  /** A tool body whose keys are the required ones passes the field check. */
  lemma {:induction false} ToolKeysAccepted(limits: Limits, body: string, keys: seq<string>, field: string)
    requires keys == ["payload", "toolId"] && Braced(body) && DecidedBy(limits, Tool, body, keys, field)
    ensures Judge(limits, Tool, body).Accept?
       <==> |body| <= limits.maxBodyBytes && |ModelOf(limits, body)| <= limits.maxFieldBytes
  {
    hide Judge, ModelOf, Braced, Lacks, Exceeds;
  }

  // ----- the model id that is taken

  lemma {:induction false} AcceptedModel(limits: Limits, kind: Kind, body: string)
    requires Judge(limits, kind, body).Accept?
    ensures Judge(limits, kind, body).modelId == ModelOf(limits, body)
    ensures Judge(limits, kind, body).toolId == ValueOr(ExtractStringValue(body, "toolId"), "")
  {
  }

  lemma {:induction false} AcceptedKeys(limits: Limits, kind: Kind, body: string, ms: seq<Member>)
    requires ReadsAsItself(body, ms) && Judge(limits, kind, body).Accept?
    ensures Subset(Required(kind), KeysOf(ms)) && Subset(KeysOf(ms), Required(kind) + Optional)
    ensures Judge(limits, kind, body).modelId == ModelOf(limits, body)
  {
    AcceptedModel(limits, kind, body);
    JudgeExact(limits, kind, body, "");
  }

  /** In the key order only language comes before modelId, and payload right after it. */
  lemma {:induction false} ModelNeighbours(kind: Kind, key: string)
    requires key in Required(kind) + Optional
    ensures Less(key, "modelId") ==> kind == Build
    ensures !(Less("modelId", key) && Less(key, "payload"))
  {
    assert key in ["language", "modelId", "payload", "templateId", "toolId"];
  }

  lemma {:induction false} PositionOrder(ms: seq<Member>, i: nat, j: nat)
    requires Sorted(ms) && i < |ms| && j < |ms|
    ensures Less(ms[i].key, ms[j].key) <==> i < j
  {
    if j < i {
      LessAsymmetric(ms[j].key, ms[i].key);
    } else if i == j && Less(ms[i].key, ms[j].key) {
      LessAsymmetric(ms[i].key, ms[j].key);
    }
  }

  lemma {:induction false} NothingBetween(ms: seq<Member>, i: nat, p: nat)
    requires Sorted(ms) && i < |ms| && p < |ms| && Less(ms[i].key, ms[p].key)
    requires forall j | 0 <= j < |ms| :: !(Less(ms[i].key, ms[j].key) && Less(ms[j].key, ms[p].key))
    ensures p == i + 1
  {
    PositionOrder(ms, i, p);
    assert !(Less(ms[i].key, ms[i + 1].key) && Less(ms[i + 1].key, ms[p].key));
  }

  lemma {:induction false} NothingBefore(ms: seq<Member>, i: nat)
    requires Sorted(ms) && i < |ms|
    requires forall j | 0 <= j < |ms| :: !Less(ms[j].key, ms[i].key)
    ensures i == 0
  {
    PositionOrder(ms, 0, i);
  }

  lemma {:induction false} AllowedAt(ms: seq<Member>, i: nat, allowed: seq<string>)
    requires Subset(KeysOf(ms), allowed) && i < |ms|
    ensures ms[i].key in allowed
  {
    assert KeysOf(ms)[i] in KeysOf(ms);
  }

  lemma {:induction false} RequiredAt(ms: seq<Member>, key: string) returns (p: nat)
    requires key in KeysOf(ms)
    ensures p < |ms| && ms[p].key == key
  {
    p :| 0 <= p < |ms| && KeysOf(ms)[p] == key;
  }

  lemma {:induction false} PayloadFollowsModel(kind: Kind, ms: seq<Member>, i: nat)
    requires Sorted(ms) && Subset(Required(kind), KeysOf(ms)) && Subset(KeysOf(ms), Required(kind) + Optional)
    requires i < |ms| && ms[i].key == "modelId"
    ensures i + 1 < |ms| && ms[i + 1].key == "payload"
    ensures kind != Build ==> i == 0
  {
    PayloadRequired(kind);
    var p := RequiredAt(ms, "payload");
    hide *;
    forall j | 0 <= j < |ms|
      ensures !(Less(ms[i].key, ms[j].key) && Less(ms[j].key, ms[p].key))
      ensures kind != Build ==> !Less(ms[j].key, ms[i].key)
    {
      AllowedAt(ms, j, Required(kind) + Optional);
      ModelNeighbours(kind, ms[j].key);
    }
    NothingBetween(ms, i, p);
    if kind != Build {
      NothingBefore(ms, i);
    }
  }

  lemma {:induction false} PayloadRequired(kind: Kind)
    ensures "payload" in Required(kind) && Less("modelId", "payload")
  {
  }

  lemma {:induction false} PayloadAsFound()
    ensures AsFound("payload") == "payload"
  {
    AlphabeticEscape("payload");
    AsFoundExact("payload");
  }

  /** Which model id an accepted body with a model field gets, if its keys are scanned as they
      are: the first string or key in the field's value, up to the first quotation mark in its
      printed form, or, when it has none, the word payload, which is the next key. In a chat or
      tool body nothing can mislead the search, because the field is printed first; in a build body
      the language field before it could. */
  lemma {:induction false} ModelTaken(limits: Limits, kind: Kind, body: string, ms: seq<Member>, i: nat)
    requires ReadsAsItself(body, ms) && Judge(limits, kind, body).Accept?
    requires i < |ms| && ms[i].key == "modelId"
    requires kind == Build ==> NoDecoyBefore(ms, i, ms[i].key)
    ensures Judge(limits, kind, body).modelId
         == match FirstText(ms[i].value)
            case Some(s) => AsFound(s)
            case None => "payload"
  {
    AcceptedKeys(limits, kind, body, ms);
    PayloadFollowsModel(kind, ms, i);
    PayloadAsFound();
    assert NoDecoyBefore(ms, i, ms[i].key) && TextOf(body, Obj(ms));
    hide *;
    ModelFound(limits, kind, body, ms, i);
    ResultBeforePayload(ms, i);
  }

  lemma {:induction false} ResultBeforePayload(ms: seq<Member>, i: nat)
    requires i + 1 < |ms|
    ensures FieldResult(ms, i) == Some(match FirstText(ms[i].value)
                                       case Some(s) => AsFound(s)
                                       case None => AsFound(ms[i + 1].key))
  {
  }

  lemma {:induction false} ModelField(limits: Limits, body: string, ms: seq<Member>, i: nat)
    requires TextOf(body, Obj(ms))
    requires i < |ms| && ms[i].key == "modelId" && NoDecoyBefore(ms, i, ms[i].key)
    ensures ModelOf(limits, body) == ValueOr(FieldResult(ms, i), limits.defaultModelId)
  {
    var key := ms[i].key;
    var gaps :| Gaps(gaps, Tokens(Obj(ms))) && body == Spaced(Tokens(Obj(ms)), gaps);
    hide NoDecoyBefore, FieldResult, ExtractStringValue, Tokens, Spaced;
    FindsField(ms, i, gaps, key);
  }

  lemma {:induction false} NoModelField(limits: Limits, body: string, v: Json, key: string)
    requires TextOf(body, v) && key == "modelId" && NoDecoy(v, key)
    ensures ModelOf(limits, body) == limits.defaultModelId
  {
    var gaps :| Gaps(gaps, Tokens(v)) && body == Spaced(Tokens(v), gaps);
    hide NoDecoy, ExtractStringValue, Tokens, Spaced;
    FindsNothing(v, gaps, key);
  }

  /** For any accepted body that is the text of an object: with no decoy before the model field,
      what is taken is the first text of its value, or the next key, or the default when nothing
      is quoted behind. */
  lemma {:induction false} ModelFound(limits: Limits, kind: Kind, body: string, ms: seq<Member>, i: nat)
    requires i < |ms| && ms[i].key == "modelId" && TextOf(body, Obj(ms))
    ensures Judge(limits, kind, body).Accept? && NoDecoyBefore(ms, i, ms[i].key) ==>
              Judge(limits, kind, body).modelId == ValueOr(FieldResult(ms, i), limits.defaultModelId)
  {
    hide *;
    if Judge(limits, kind, body).Accept? && NoDecoyBefore(ms, i, ms[i].key) {
      AcceptedModel(limits, kind, body);
      ModelField(limits, body, ms, i);
    }
  }

  /** A string model is taken as sent exactly when it needs no escapes. */
  lemma {:induction false} ModelTakenAsSent(limits: Limits, kind: Kind, body: string, ms: seq<Member>, i: nat)
    requires ReadsAsItself(body, ms) && Judge(limits, kind, body).Accept?
    requires i < |ms| && ms[i].key == "modelId" && ms[i].value.Str?
    requires kind == Build ==> NoDecoyBefore(ms, i, ms[i].key)
    ensures Judge(limits, kind, body).modelId == ms[i].value.s
       <==> Escape(ms[i].value.s) == ms[i].value.s
  {
    assert FirstText(ms[i].value) == Some(ms[i].value.s);
    hide *;
    ModelTaken(limits, kind, body, ms, i);
    AsFoundExact(ms[i].value.s);
  }

  /** An accepted body in which nothing is or looks like a model field gets the default. */
  lemma {:induction false} DefaultModel(limits: Limits, kind: Kind, body: string, v: Json)
    requires TextOf(body, v) && NoDecoy(v, "modelId") && Judge(limits, kind, body).Accept?
    ensures Judge(limits, kind, body).modelId == limits.defaultModelId
  {
    AcceptedModel(limits, kind, body);
    hide *;
    NoModelField(limits, body, v, "modelId");
  }

  lemma {:induction false} AcceptedIds(limits: Limits, kind: Kind, body: string)
    requires Judge(limits, kind, body).Accept?
    ensures Judge(limits, kind, body).templateId == ValueOr(ExtractStringValue(body, "templateId"), "")
    ensures Judge(limits, kind, body).toolId == ValueOr(ExtractStringValue(body, "toolId"), "")
  {
  }

  lemma {:induction false} StringField(body: string, ms: seq<Member>, i: nat, key: string)
    requires TextOf(body, Obj(ms)) && Alphabetic(key)
    requires i < |ms| && ms[i].key == key && ms[i].value.Str? && NoDecoyBefore(ms, i, key)
    ensures ExtractStringValue(body, key) == Some(AsFound(ms[i].value.s))
  {
    var gaps :| Gaps(gaps, Tokens(Obj(ms))) && body == Spaced(Tokens(Obj(ms)), gaps);
    assert FieldResult(ms, i) == Some(AsFound(ms[i].value.s));
    hide NoDecoyBefore, FieldResult, ExtractStringValue, Tokens, Spaced;
    FindsField(ms, i, gaps, key);
  }

  /** The tool and the template of an accepted body are its string fields of these names, as
      sent when they need no escapes, if no earlier member holds a decoy. */
  lemma {:induction false} IdsTaken(limits: Limits, kind: Kind, body: string, ms: seq<Member>, i: nat)
    requires TextOf(body, Obj(ms)) && i < |ms| && ms[i].value.Str? && NoDecoyBefore(ms, i, ms[i].key)
    ensures var v := Judge(limits, kind, body);
            && (v.Accept? && ms[i].key == "toolId" ==> v.toolId == AsFound(ms[i].value.s))
            && (v.Accept? && ms[i].key == "templateId" ==> v.templateId == AsFound(ms[i].value.s))
  {
    IdNames();
    hide *;
    if Judge(limits, kind, body).Accept? {
      AcceptedIds(limits, kind, body);
      if ms[i].key == "toolId" || ms[i].key == "templateId" {
        StringField(body, ms, i, ms[i].key);
        ValueOrSome(AsFound(ms[i].value.s), "");
      }
    }
  }

  lemma {:induction false} IdNames()
    ensures Alphabetic("toolId") && Alphabetic("templateId")
  {
  }

  lemma {:induction false} ValueOrSome(text: string, default: string)
    ensures ValueOr(Some(text), default) == text
  {
  }

  lemma {:induction false} MisledTo(limits: Limits, value: string, first: string, key: string, second: string)
    requires key == "modelId" && Alphabetic(first) && Alphabetic(second)
    requires first != key && second != key && Less(first, second)
    ensures ModelOf(limits, Print(Obj([Member(first, Arr([Str(key)])), Member(second, Str(value))]))) == AsFound(value)
  {
    hide ExtractStringValue, Print, AsFound;
    DecoyMisleads(first, key, second, value);
  }

  /** A body without a model field can name a model all the same: the payload of this tool body
      is a decoy, and the tool id is taken for the model id as well. */
  lemma {:induction false} ToolTakenForModel(limits: Limits, tool: string)
    ensures var ms := [Member("payload", Arr([Str("modelId")])), Member("toolId", Str(tool))];
            var body := Print(Obj(ms));
            var v := Judge(limits, Tool, body);
            && PlainBody(ms) && "modelId" !in KeysOf(ms)
            && (v.Accept? <==> |body| <= limits.maxBodyBytes && |AsFound(tool)| <= limits.maxFieldBytes)
            && (v.Accept? ==> v.modelId == v.toolId == AsFound(tool))
  {
    var ms := [Member("payload", Arr([Str("modelId")])), Member("toolId", Str(tool))];
    ToolKeyNames();
    TwoKeys(ms[0], ms[1]);
    NameIsNoDecoy("payload", "toolId");
    NameIsNoDecoy("modelId", "toolId");
    PlainPair(ms, "toolId");
    hide *;
    MisledTo(limits, tool, "payload", "modelId", "toolId");
    ToolFound(limits, ms, tool);
  }

  lemma {:induction false} PlainPair(ms: seq<Member>, key: string)
    requires |ms| == 2 && ms[0].value.Arr? && |ms[0].value.items| == 1 && ms[0].value.items[0].Str? && ms[1].value.Str?
    requires Sorted(ms) && NoControl(ms[0].key) && NoControl(ms[1].key)
    requires !Decoy(ms[0].key, key) && !Decoy(ms[0].value.items[0].s, key)
    ensures PlainBody(ms) && NoDecoyBefore(ms, 1, key)
  {
    assert NoDecoy(ms[0].value.items[0], key);
    assert NoDecoyMember(ms[0], key);
  }

  lemma {:induction false} ToolFound(limits: Limits, ms: seq<Member>, tool: string)
    requires PlainBody(ms) && KeysOf(ms) == ["payload", "toolId"]
    requires ms[1].value == Str(tool) && NoDecoyBefore(ms, 1, ms[1].key)
    ensures var body := Print(Obj(ms));
            var v := Judge(limits, Tool, body);
            && (v.Accept? <==> |body| <= limits.maxBodyBytes && |ModelOf(limits, body)| <= limits.maxFieldBytes)
            && (v.Accept? ==> v.modelId == ModelOf(limits, body) && v.toolId == AsFound(tool))
  {
    var body := Print(Obj(ms));
    assert FieldResult(ms, 1) == Some(AsFound(tool));
    hide *;
    PlainBodyVerdict(limits, Tool, ms, "");
    ObjectBraced(ms);
    ToolKeysAccepted(limits, body, KeysOf(ms), "");
    FindsPrinted(ms, 1, ms[1].key);
    if Judge(limits, Tool, body).Accept? {
      AcceptedModel(limits, Tool, body);
    }
  }
}
