/**
 Rendering JSON body templates and header values (src/webhooks/template.ts), and the default
 payload of src/webhooks/dispatcher.ts.
 */
module Rendering {
  import opened Options
  import opened JsText
  import opened Template

  /** JSON; a number is kept as the text JavaScript prints for it. */
  datatype Json =
    | Null
    | Bool(b: bool)
    | Number(text: string)
    | String(s: string)
    | Array(items: seq<Json>)
    | Object(members: seq<Member>)

  datatype Member = Member(key: string, value: Json)

  function ToJson(v: Value): (j: Json)
    ensures !j.Array? && !j.Object?
  {
    match v
    case NullValue => Null
    case StringValue(s) => String(s)
    case NumberValue(text) => Number(text)
  }

  /** The whole string, trimmed, is one token. */
  function ExactPlaceholder(s: string): Option<Token> {
    var trimmed := Trim(s);
    match MatchAt(trimmed)
    case Some(t) => if |TokenText(t)| == |trimmed| then Some(t) else None
    case None => None
  }

  function RenderString(s: string, vars: Vars): (j: Json)
    ensures !j.Array? && !j.Object?
  {
    var exact := ExactPlaceholder(s);
    if exact.Some? && exact.value.name in vars then ToJson(vars[exact.value.name])
    else String(InterpolateString(s, vars))
  }

  function RenderValue(value: Json, vars: Vars): Json {
    match value
    case String(s) => RenderString(s, vars)
    case Array(items) => Array(RenderItems(items, vars))
    case Object(members) => Object(RenderMembers(members, vars))
    case _ => value
  }

  function RenderItems(items: seq<Json>, vars: Vars): seq<Json> {
    if items == [] then [] else [RenderValue(items[0], vars)] + RenderItems(items[1..], vars)
  }

  function RenderMembers(members: seq<Member>, vars: Vars): seq<Member> {
    if members == [] then []
    else [Member(members[0].key, RenderValue(members[0].value, vars))] + RenderMembers(members[1..], vars)
  }

  // ---- Shape: only string leaves change, and only into scalars ----

  predicate IsScalar(v: Json) {
    !v.Array? && !v.Object?
  }

  predicate SameShape(a: Json, b: Json) {
    match a
    case String(_) => IsScalar(b)
    case Array(items) => b.Array? && SameShapes(items, b.items)
    case Object(members) => b.Object? && SameMembers(members, b.members)
    case _ => a == b
  }

  predicate SameShapes(a: seq<Json>, b: seq<Json>) {
    |a| == |b| && (a != [] ==> SameShape(a[0], b[0]) && SameShapes(a[1..], b[1..]))
  }

  predicate SameMembers(a: seq<Member>, b: seq<Member>) {
    |a| == |b|
    && (a != [] ==> a[0].key == b[0].key && SameShape(a[0].value, b[0].value) && SameMembers(a[1..], b[1..]))
  }

  lemma {:induction false} RenderingKeepsShape(value: Json, vars: Vars)
    ensures SameShape(value, RenderValue(value, vars))
    decreases value
  {
    match value
    case Array(items) => ItemsKeepShape(items, vars);
    case Object(members) => MembersKeepShape(members, vars);
    case _ =>
  }

  lemma {:induction false} ItemsKeepShape(items: seq<Json>, vars: Vars)
    ensures SameShapes(items, RenderItems(items, vars))
    decreases items
  {
    if items != [] {
      RenderingKeepsShape(items[0], vars);
      ItemsKeepShape(items[1..], vars);
    }
  }

  lemma {:induction false} MembersKeepShape(members: seq<Member>, vars: Vars)
    ensures SameMembers(members, RenderMembers(members, vars))
    decreases members
  {
    if members != [] {
      RenderingKeepsShape(members[0].value, vars);
      MembersKeepShape(members[1..], vars);
    }
  }

  // ---- Only the names a template mentions matter ----

  function PieceNames(p: Pieces): set<string> {
    match p
    case End(_) => {}
    case Piece(_, t, rest) => {t.name} + PieceNames(rest)
  }

  /** The names of the tokens in a text. */
  function NamesIn(s: string): set<string> {
    PieceNames(Decompose(s))
  }

  function NamesOf(value: Json): set<string> {
    match value
    case String(s) => NamesIn(s)
    case Array(items) => NamesOfItems(items)
    case Object(members) => NamesOfMembers(members)
    case _ => {}
  }

  function NamesOfItems(items: seq<Json>): set<string> {
    if items == [] then {} else NamesOf(items[0]) + NamesOfItems(items[1..])
  }

  function NamesOfMembers(members: seq<Member>): set<string> {
    if members == [] then {} else NamesOf(members[0].value) + NamesOfMembers(members[1..])
  }

  ghost predicate AgreeOn(names: set<string>, u: Vars, v: Vars) {
    forall n :: n in names ==> (n in u <==> n in v) && (n in u && n in v ==> u[n] == v[n])
  }

  lemma {:induction false} PiecesDependOnNames(p: Pieces, u: Vars, v: Vars)
    requires AgreeOn(PieceNames(p), u, v)
    ensures EvalPieces(p, u) == EvalPieces(p, v)
  {
    match p
    case End(_) =>
    case Piece(_, t, rest) =>
      assert t.name in PieceNames(p);
      PiecesDependOnNames(rest, u, v);
  }

  /** An exact placeholder is one of the tokens of its string. */
  lemma ExactNameIsMentioned(s: string)
    requires ExactPlaceholder(s).Some?
    ensures ExactPlaceholder(s).value.name in NamesIn(s)
  {
    var t := ExactPlaceholder(s).value;
    MatchIsSound(Trim(s));
    assert Trim(s) == TokenText(t);
    var left, right := TrimmedAway(s);
    SpacesAreTokenFree(left);
    SpacesAreTokenFree(right);
    var p := Piece(left, t, End(right));
    assert Print(p) == s;
    DecompositionIsUnique(p);
  }

  lemma SpacesAreTokenFree(s: string)
    requires AllSpaces(s)
    ensures TokenFree(s)
  {
    forall i | 0 <= i < |s| ensures MatchAt(s[i..]).None? {
      assert IsSpace(s[i]) && s[i..][0] == s[i];
    }
  }

  lemma StringDependsOnNames(s: string, u: Vars, v: Vars)
    requires AgreeOn(NamesIn(s), u, v)
    ensures RenderString(s, u) == RenderString(s, v)
  {
    InterpolationEvaluates(s, u);
    InterpolationEvaluates(s, v);
    PiecesDependOnNames(Decompose(s), u, v);
    if ExactPlaceholder(s).Some? {
      ExactNameIsMentioned(s);
    }
  }

  /** Two sets of values that agree on the names in a template render it alike. */
  lemma {:induction false} RenderingDependsOnNames(value: Json, u: Vars, v: Vars)
    requires AgreeOn(NamesOf(value), u, v)
    ensures RenderValue(value, u) == RenderValue(value, v)
    decreases value
  {
    match value
    case String(s) => StringDependsOnNames(s, u, v);
    case Array(items) => ItemsDependOnNames(items, u, v);
    case Object(members) => MembersDependOnNames(members, u, v);
    case _ =>
  }

  lemma {:induction false} ItemsDependOnNames(items: seq<Json>, u: Vars, v: Vars)
    requires AgreeOn(NamesOfItems(items), u, v)
    ensures RenderItems(items, u) == RenderItems(items, v)
    decreases items
  {
    if items != [] {
      RenderingDependsOnNames(items[0], u, v);
      ItemsDependOnNames(items[1..], u, v);
    }
  }

  lemma {:induction false} MembersDependOnNames(members: seq<Member>, u: Vars, v: Vars)
    requires AgreeOn(NamesOfMembers(members), u, v)
    ensures RenderMembers(members, u) == RenderMembers(members, v)
    decreases members
  {
    if members != [] {
      RenderingDependsOnNames(members[0].value, u, v);
      MembersDependOnNames(members[1..], u, v);
    }
  }

  /** With no known name in it, a template comes back as written, unknown tokens included. */
  lemma UnknownNamesStayVerbatim(value: Json, vars: Vars)
    requires NamesOf(value) !! vars.Keys
    ensures RenderValue(value, vars) == value
  {
    var none: Vars := map[];
    assert AgreeOn(NamesOf(value), vars, none);
    RenderingDependsOnNames(value, vars, none);
    RenderingWithoutNames(value);
  }

  lemma {:induction false} PiecesWithoutNames(p: Pieces)
    ensures EvalPieces(p, map[]) == Print(p)
  {
    match p
    case End(_) =>
    case Piece(_, _, rest) => PiecesWithoutNames(rest);
  }

  lemma {:induction false} RenderingWithoutNames(value: Json)
    ensures RenderValue(value, map[]) == value
    decreases value
  {
    match value
    case String(s) =>
      InterpolationEvaluates(s, map[]);
      PiecesWithoutNames(Decompose(s));
      PrintOfDecompose(s);
    case Array(items) => ItemsWithoutNames(items);
    case Object(members) => MembersWithoutNames(members);
    case _ =>
  }

  lemma {:induction false} ItemsWithoutNames(items: seq<Json>)
    ensures RenderItems(items, map[]) == items
    decreases items
  {
    if items != [] {
      RenderingWithoutNames(items[0]);
      ItemsWithoutNames(items[1..]);
    }
  }

  lemma {:induction false} MembersWithoutNames(members: seq<Member>)
    ensures RenderMembers(members, map[]) == members
    decreases members
  {
    if members != [] {
      RenderingWithoutNames(members[0].value);
      MembersWithoutNames(members[1..]);
    }
  }

  // ---- Headers ----

  /** Header values are always strings, so they are interpolated, never replaced whole. */
  method RenderHeaders(headers: Option<map<string, string>>, vars: Vars) returns (rendered: map<string, string>)
    ensures headers.None? ==> rendered == map[]
    ensures headers.Some? ==> rendered == map k | k in headers.value :: InterpolateString(headers.value[k], vars)
  {
    rendered := map[];
    if headers.None? {
      return;
    }
    var all := headers.value;
    var keys := all.Keys;
    while keys != {}
      invariant keys <= all.Keys
      invariant rendered == map k | k in all.Keys - keys :: InterpolateString(all[k], vars)
      decreases |keys|
    {
      var key :| key in keys;
      rendered := rendered[key := InterpolateString(all[key], vars)];
      keys := keys - {key};
    }
  }

  // ---- The default payload ----

  const DEFAULT_KEYS: seq<string> := [
    "company_id", "device_id", "device_serial", "pin", "punch_time", "punch_time_utc",
    "device_timezone", "status", "verify_mode", "work_code", "received_at"]

  function ValuesOf(keys: seq<string>, vars: Vars): seq<Member>
    requires forall i :: 0 <= i < |keys| ==> keys[i] in vars
  {
    if keys == [] then [] else [Member(keys[0], ToJson(vars[keys[0]]))] + ValuesOf(keys[1..], vars)
  }

  function PayloadOf(keys: seq<string>, vars: Vars): Json
    requires forall i :: 0 <= i < |keys| ==> keys[i] in vars
  {
    Object([Member("event", String("punch.created"))] + ValuesOf(keys, vars))
  }

  function BuildDefaultPayload(vars: Vars): Json
    requires forall i :: 0 <= i < |DEFAULT_KEYS| ==> DEFAULT_KEYS[i] in vars
  {
    PayloadOf(DEFAULT_KEYS, vars)
  }

  /** A template that is a JSON null counts as none. */
  function RenderPunchWebhookBody(template: Option<Json>, vars: Vars): Json
    requires forall i :: 0 <= i < |DEFAULT_KEYS| ==> DEFAULT_KEYS[i] in vars
  {
    if template.None? || template.value.Null? then BuildDefaultPayload(vars) else RenderValue(template.value, vars)
  }

  lemma {:induction false} ItemsOneByOne(items: seq<Json>, vars: Vars)
    ensures |RenderItems(items, vars)| == |items|
    ensures forall i :: 0 <= i < |items| ==> RenderItems(items, vars)[i] == RenderValue(items[i], vars)
  {
    if items != [] {
      ItemsOneByOne(items[1..], vars);
    }
  }

  lemma {:induction false} MembersOneByOne(members: seq<Member>, vars: Vars)
    ensures |RenderMembers(members, vars)| == |members|
    ensures forall i :: 0 <= i < |members| ==>
              RenderMembers(members, vars)[i] == Member(members[i].key, RenderValue(members[i].value, vars))
  {
    if members != [] {
      MembersOneByOne(members[1..], vars);
    }
  }

  /** A custom template is rendered item by item and member by member, its strings alone being filled in. */
  lemma TemplateRendersPartByPart(template: Json, vars: Vars)
    requires forall i :: 0 <= i < |DEFAULT_KEYS| ==> DEFAULT_KEYS[i] in vars
    ensures var body := RenderPunchWebhookBody(Some(template), vars);
            && (template.Null? ==> body == RenderPunchWebhookBody(None, vars))
            && (template.Bool? || template.Number? ==> body == template)
            && (template.String? ==> body == RenderString(template.s, vars))
            && (template.Array? ==>
                  && body.Array? && |body.items| == |template.items|
                  && forall i :: 0 <= i < |body.items| ==> body.items[i] == RenderValue(template.items[i], vars))
            && (template.Object? ==>
                  && body.Object? && |body.members| == |template.members|
                  && forall i :: 0 <= i < |body.members| ==>
                       var member := template.members[i];
                       body.members[i] == Member(member.key, RenderValue(member.value, vars)))
  {
    match template
    case Array(items) => ItemsOneByOne(items, vars);
    case Object(members) => MembersOneByOne(members, vars);
    case _ =>
  }

  function PlaceholdersFor(keys: seq<string>): seq<Member> {
    if keys == [] then []
    else [Member(keys[0], String(TokenText(Token("", keys[0], ""))))] + PlaceholdersFor(keys[1..])
  }

  lemma PaddedTokenIsExact(left: string, t: Token, right: string)
    requires AllSpaces(left) && ValidToken(t) && AllSpaces(right)
    ensures ExactPlaceholder(left + TokenText(t) + right) == Some(t)
  {
    var s := TokenText(t);
    assert s[0] == '{' && s[|s| - 1] == '}';
    TrimOfPadded(left, s, right);
    MatchIsComplete(s, t);
  }

  /** A string that is one known placeholder, white space around it apart, becomes its value: a number stays a number. */
  lemma PlaceholderRendersRaw(left: string, t: Token, right: string, vars: Vars)
    requires AllSpaces(left) && ValidToken(t) && AllSpaces(right) && t.name in vars
    ensures RenderString(left + TokenText(t) + right, vars) ==
            match vars[t.name]
            case NullValue => Null
            case StringValue(s) => String(s)
            case NumberValue(text) => Number(text)
  {
    PaddedTokenIsExact(left, t, right);
  }

  /** Every other string stays a string, with its placeholders filled in. */
  lemma OtherStringsStayStrings(s: string, vars: Vars) returns (left: string, t: Token, right: string)
    ensures RenderString(s, vars) == String(InterpolateString(s, vars))
            || (AllSpaces(left) && ValidToken(t) && AllSpaces(right) && t.name in vars && s == left + TokenText(t) + right)
  {
    left, right := TrimmedAway(s);
    t := Token("", "", "");
    if ExactPlaceholder(s).Some? {
      t := ExactPlaceholder(s).value;
      MatchIsSound(Trim(s));
      assert Trim(s) == TokenText(t);
    }
  }

  lemma NameRendersRaw(name: string, vars: Vars)
    requires name != [] && AllNameChars(name) && name in vars
    ensures RenderString(TokenText(Token("", name, "")), vars) == ToJson(vars[name])
  {
    var t := Token("", name, "");
    assert "" + TokenText(t) + "" == TokenText(t);
    PlaceholderRendersRaw("", t, "", vars);
  }

  lemma {:induction false} PlaceholdersRenderRaw(keys: seq<string>, vars: Vars)
    requires forall i :: 0 <= i < |keys| ==> keys[i] != [] && AllNameChars(keys[i]) && keys[i] in vars
    ensures RenderMembers(PlaceholdersFor(keys), vars) == ValuesOf(keys, vars)
  {
    if keys != [] {
      NameRendersRaw(keys[0], vars);
      PlaceholdersRenderRaw(keys[1..], vars);
    }
  }

  lemma DefaultKeysAreNames()
    ensures forall i :: 0 <= i < |DEFAULT_KEYS| ==> DEFAULT_KEYS[i] != [] && AllNameChars(DEFAULT_KEYS[i])
  {
  }

  lemma EventThenPlaceholders(keys: seq<string>, vars: Vars)
    requires forall i :: 0 <= i < |keys| ==> keys[i] != [] && AllNameChars(keys[i]) && keys[i] in vars
    ensures var event := Member("event", String("punch.created"));
            RenderMembers([event] + PlaceholdersFor(keys), vars) == [event] + ValuesOf(keys, vars)
  {
    var event := Member("event", String("punch.created"));
    var rest := PlaceholdersFor(keys);
    assert ([event] + rest)[1..] == rest;
    PlaceholdersRenderRaw(keys, vars);
    PlainTextIsKept("punch.created", vars);
  }

  lemma PayloadIsATemplate(vars: Vars, keys: seq<string>, template: Json)
    requires forall i :: 0 <= i < |keys| ==> keys[i] != [] && AllNameChars(keys[i]) && keys[i] in vars
    requires template == Object([Member("event", String("punch.created"))] + PlaceholdersFor(keys))
    ensures RenderValue(template, vars) == PayloadOf(keys, vars)
  {
    EventThenPlaceholders(keys, vars);
  }

  lemma RenderedBodies(vars: Vars, keys: seq<string>, template: Json)
    requires keys == DEFAULT_KEYS && (forall i :: 0 <= i < |keys| ==> keys[i] in vars) && template.Object?
    ensures RenderPunchWebhookBody(None, vars) == PayloadOf(keys, vars)
    ensures RenderPunchWebhookBody(Some(template), vars) == RenderValue(template, vars)
  {
  }

  /** The default payload is what the template with one exact placeholder per key would render. */
  lemma DefaultPayloadIsATemplate(vars: Vars, keys: seq<string>, template: Json)
    requires keys == DEFAULT_KEYS && forall i :: 0 <= i < |keys| ==> keys[i] in vars
    requires template == Object([Member("event", String("punch.created"))] + PlaceholdersFor(keys))
    ensures RenderPunchWebhookBody(Some(template), vars) == RenderPunchWebhookBody(None, vars)
  {
    DefaultKeysAreNames();
    PayloadIsATemplate(vars, keys, template);
    RenderedBodies(vars, keys, template);
  }

  lemma PlainTextIsKept(s: string, vars: Vars)
    requires '{' !in s
    ensures RenderString(s, vars) == String(s)
  {
    forall i | 0 <= i < |s| ensures MatchAt(s[i..]).None? {
      assert s[i..][0] == s[i];
    }
    InterpolationOfPrinted(End(s), vars);
    var left, right := TrimmedAway(s);
    assert Trim(s) != [] ==> Trim(s)[0] == s[|left|];
  }
}
