/**
 What a punch offers to its webhook templates (src/webhooks/dispatcher.ts), from the text the
 device sent to the value the endpoint receives.
 */
module Dispatch {
  import opened Options
  import opened JsText
  import opened Calendar
  import opened Datetime
  import opened Template
  import opened Rendering

  /** The columns of a punch record, and of its device, that templates can see. */
  datatype Punch = Punch(
    devicePin: string,
    punchTime: int,
    punchTimeUtc: Option<int>,
    status: int,
    verifyMode: int,
    workCode: Option<string>,
    receivedAt: int)

  datatype Device = Device(id: string, companyId: string, serialNumber: string, timezone: Option<string>)

  const PLACEHOLDER_NAMES: set<string> := {
    "pin", "punch_time", "punch_time_unix", "punch_time_utc", "device_timezone", "punch_time_frappe",
    "status", "verify_mode", "work_code", "device_id", "device_serial", "company_id", "company_name",
    "received_at"}

  function OrNull(x: Option<string>): Value {
    if x.Some? then StringValue(x.value) else NullValue
  }

  function Named(pin: Value, time: Value, unix: Value, utc: Value, timezone: Value, frappe: Value, status: Value,
                 verifyMode: Value, workCode: Value, deviceId: Value, serial: Value, companyId: Value,
                 companyName: Value, receivedAt: Value): (vars: Vars)
    ensures vars.Keys == PLACEHOLDER_NAMES
    ensures vars["punch_time_frappe"] == frappe
    ensures vars["company_id"] == companyId && vars["device_id"] == deviceId && vars["device_serial"] == serial
    ensures vars["pin"] == pin && vars["punch_time"] == time && vars["punch_time_utc"] == utc
    ensures vars["device_timezone"] == timezone && vars["status"] == status && vars["verify_mode"] == verifyMode
    ensures vars["work_code"] == workCode && vars["received_at"] == receivedAt
    ensures vars["punch_time_unix"] == unix && vars["company_name"] == companyName
  {
    map[
      "pin" := pin, "punch_time" := time, "punch_time_unix" := unix, "punch_time_utc" := utc,
      "device_timezone" := timezone, "punch_time_frappe" := frappe, "status" := status,
      "verify_mode" := verifyMode, "work_code" := workCode, "device_id" := deviceId, "device_serial" := serial,
      "company_id" := companyId, "company_name" := companyName, "received_at" := receivedAt]
  }

  /** `iso` stands for `toISOString`. */
  function BuildTemplateVars(punch: Punch, device: Device, companyName: string, iso: int -> string): (vars: Vars)
    ensures vars.Keys == PLACEHOLDER_NAMES
    ensures vars["pin"] == StringValue(punch.devicePin) && vars["punch_time"] == StringValue(iso(punch.punchTime))
    ensures vars["status"] == NumberValue(JsString(punch.status))
    ensures vars["verify_mode"] == NumberValue(JsString(punch.verifyMode))
    ensures vars["device_id"] == StringValue(device.id) && vars["company_id"] == StringValue(device.companyId)
    ensures vars["device_serial"] == StringValue(device.serialNumber)
    ensures vars["received_at"] == StringValue(iso(punch.receivedAt))
    ensures vars["work_code"] == OrNull(punch.workCode) && vars["company_name"] == StringValue(companyName)
    ensures vars["device_timezone"] == OrNull(device.timezone)
    ensures vars["punch_time_utc"] ==
            if punch.punchTimeUtc.Some? then StringValue(iso(punch.punchTimeUtc.value)) else NullValue
    ensures vars["punch_time_unix"] == NumberValue(JsString(punch.punchTime / 1000))
    ensures vars["punch_time_frappe"] == StringValue(FormatFrappeTimestamp(punch.punchTime))
  {
    Named(
      StringValue(punch.devicePin),
      StringValue(iso(punch.punchTime)),
      NumberValue(JsString(punch.punchTime / 1000)),
      if punch.punchTimeUtc.Some? then StringValue(iso(punch.punchTimeUtc.value)) else NullValue,
      OrNull(device.timezone),
      StringValue(FormatFrappeTimestamp(punch.punchTime)),
      NumberValue(JsString(punch.status)),
      NumberValue(JsString(punch.verifyMode)),
      OrNull(punch.workCode),
      StringValue(device.id),
      StringValue(device.serialNumber),
      StringValue(device.companyId),
      StringValue(companyName),
      StringValue(iso(punch.receivedAt)))
  }

  lemma FrappePlaceholder(name: string, vars: Vars, value: Value)
    requires name == "punch_time_frappe" && name in vars && vars[name] == value
    ensures RenderString(TokenText(Token("", name, "")), vars) == ToJson(value)
  {
    NameRendersRaw(name, vars);
  }

  lemma DefaultKeysAreOffered(vars: Vars)
    requires vars.Keys == PLACEHOLDER_NAMES
    ensures forall i :: 0 <= i < |DEFAULT_KEYS| ==> DEFAULT_KEYS[i] in vars
  {
  }

  /**
   A device's timestamp reaches a Frappe endpoint digit for digit exactly when it names a calendar
   moment of the years 1000 to 9999.
   */
  lemma DeviceReadingReachesTheEndpoint(s: string, punch: Punch, device: Device, companyName: string,
                                        iso: int -> string, name: string)
    requires Matches(s) && ParseDeviceDatetime(s) == Some(punch.punchTime)
    requires name == "punch_time_frappe"
    ensures RenderString(TokenText(Token("", name, "")), BuildTemplateVars(punch, device, companyName, iso))
            == String(Expected(s))
            <==> ValidFields(Captured(s)) && Captured(s).year >= 1000
  {
    var vars := BuildTemplateVars(punch, device, companyName, iso);
    FrappePlaceholder(name, vars, StringValue(FormatFrappeTimestamp(punch.punchTime)));
    RoundTripsExactly(s);
  }

  /** Every punch can be rendered: the default payload finds all its values. */
  lemma DefaultPayloadIsComplete(punch: Punch, device: Device, companyName: string, iso: int -> string,
                                 template: Json)
    requires template == Object([Member("event", String("punch.created"))] + PlaceholdersFor(DEFAULT_KEYS))
    ensures var vars := BuildTemplateVars(punch, device, companyName, iso);
            && (forall i :: 0 <= i < |DEFAULT_KEYS| ==> DEFAULT_KEYS[i] in vars)
            && RenderPunchWebhookBody(None, vars) == RenderPunchWebhookBody(Some(template), vars)
  {
    var vars := BuildTemplateVars(punch, device, companyName, iso);
    DefaultKeysAreOffered(vars);
    DefaultPayloadIsATemplate(vars, DEFAULT_KEYS, template);
  }

  lemma {:induction false} ValuesAt(keys: seq<string>, vars: Vars, i: nat)
    requires forall k :: 0 <= k < |keys| ==> keys[k] in vars
    requires i < |keys|
    ensures |ValuesOf(keys, vars)| == |keys| && ValuesOf(keys, vars)[i] == Member(keys[i], ToJson(vars[keys[i]]))
  {
    if |keys| > 1 {
      ValuesAt(keys[1..], vars, if i > 0 then i - 1 else 0);
    }
  }

  lemma MemberUnder(keys: seq<string>, vars: Vars, members: seq<Member>, i: nat)
    requires forall k :: 0 <= k < |keys| ==> keys[k] in vars
    requires PayloadOf(keys, vars) == Object(members) && i < |keys|
    ensures |members| == |keys| + 1 && members[0] == Member("event", String("punch.created"))
    ensures members[i + 1] == Member(keys[i], ToJson(vars[keys[i]]))
  {
    ValuesAt(keys, vars, i);
  }

  /** The default payload lists the variables under their own names. */
  lemma PayloadListsVars(vars: Vars, keys: seq<string>, members: seq<Member>)
    requires keys == DEFAULT_KEYS && forall k :: 0 <= k < |keys| ==> keys[k] in vars
    requires PayloadOf(keys, vars) == Object(members)
    ensures |members| == 12 && members[0] == Member("event", String("punch.created"))
    ensures forall i :: 0 <= i < |keys| ==> members[i + 1] == Member(keys[i], ToJson(vars[keys[i]]))
  {
    forall i | 0 <= i < |keys| ensures |members| == |keys| + 1 && members[i + 1] == Member(keys[i], ToJson(vars[keys[i]])) {
      MemberUnder(keys, vars, members, i);
    }
    MemberUnder(keys, vars, members, 0);
  }

  lemma MemberNamed(vars: Vars, keys: seq<string>, members: seq<Member>, i: nat, name: string)
    requires (forall k :: 0 <= k < |keys| ==> keys[k] in vars) && PayloadOf(keys, vars) == Object(members)
    requires i < |keys| && keys[i] == name
    ensures |members| == |keys| + 1 && members[0] == Member("event", String("punch.created"))
    ensures name in vars && members[i + 1] == Member(name, ToJson(vars[name]))
  {
    MemberUnder(keys, vars, members, i);
  }

  lemma PayloadBegins(vars: Vars, keys: seq<string>, members: seq<Member>)
    requires keys == DEFAULT_KEYS && (forall k :: 0 <= k < |keys| ==> keys[k] in vars)
    requires PayloadOf(keys, vars) == Object(members)
    ensures |members| == 12 && members[0] == Member("event", String("punch.created"))
    ensures "company_id" in vars && members[1] == Member("company_id", ToJson(vars["company_id"]))
    ensures "device_id" in vars && members[2] == Member("device_id", ToJson(vars["device_id"]))
    ensures "device_serial" in vars && members[3] == Member("device_serial", ToJson(vars["device_serial"]))
    ensures "pin" in vars && members[4] == Member("pin", ToJson(vars["pin"]))
    ensures "punch_time" in vars && members[5] == Member("punch_time", ToJson(vars["punch_time"]))
  {
    MemberNamed(vars, keys, members, 0, "company_id");
    MemberNamed(vars, keys, members, 1, "device_id");
    MemberNamed(vars, keys, members, 2, "device_serial");
    MemberNamed(vars, keys, members, 3, "pin");
    MemberNamed(vars, keys, members, 4, "punch_time");
  }

  lemma PayloadGoesOn(vars: Vars, keys: seq<string>, members: seq<Member>)
    requires keys == DEFAULT_KEYS && (forall k :: 0 <= k < |keys| ==> keys[k] in vars)
    requires PayloadOf(keys, vars) == Object(members)
    ensures |members| == 12
    ensures "punch_time_utc" in vars && members[6] == Member("punch_time_utc", ToJson(vars["punch_time_utc"]))
    ensures "device_timezone" in vars && members[7] == Member("device_timezone", ToJson(vars["device_timezone"]))
    ensures "status" in vars && members[8] == Member("status", ToJson(vars["status"]))
  {
    MemberNamed(vars, keys, members, 5, "punch_time_utc");
    MemberNamed(vars, keys, members, 6, "device_timezone");
    MemberNamed(vars, keys, members, 7, "status");
  }

  lemma PayloadEnds(vars: Vars, keys: seq<string>, members: seq<Member>)
    requires keys == DEFAULT_KEYS && (forall k :: 0 <= k < |keys| ==> keys[k] in vars)
    requires PayloadOf(keys, vars) == Object(members)
    ensures |members| == 12
    ensures "verify_mode" in vars && members[9] == Member("verify_mode", ToJson(vars["verify_mode"]))
    ensures "work_code" in vars && members[10] == Member("work_code", ToJson(vars["work_code"]))
    ensures "received_at" in vars && members[11] == Member("received_at", ToJson(vars["received_at"]))
  {
    MemberNamed(vars, keys, members, 8, "verify_mode");
    MemberNamed(vars, keys, members, 9, "work_code");
    MemberNamed(vars, keys, members, 10, "received_at");
  }

  lemma TextsAsJson(punch: Punch, device: Device, companyName: string, iso: int -> string, vars: Vars)
    requires vars == BuildTemplateVars(punch, device, companyName, iso)
    requires "company_id" in vars && "device_id" in vars && "device_serial" in vars && "pin" in vars
    requires "punch_time" in vars && "received_at" in vars
    ensures ToJson(vars["company_id"]) == String(device.companyId)
    ensures ToJson(vars["device_id"]) == String(device.id)
    ensures ToJson(vars["device_serial"]) == String(device.serialNumber)
    ensures ToJson(vars["pin"]) == String(punch.devicePin)
    ensures ToJson(vars["punch_time"]) == String(iso(punch.punchTime))
    ensures ToJson(vars["received_at"]) == String(iso(punch.receivedAt))
  {
  }

  lemma OptionAsJson(x: Option<string>)
    ensures ToJson(OrNull(x)) == if x.Some? then String(x.value) else Null
  {
  }

  lemma NumbersAsJson(punch: Punch, device: Device, companyName: string, iso: int -> string, vars: Vars)
    requires vars == BuildTemplateVars(punch, device, companyName, iso)
    requires "status" in vars && "verify_mode" in vars
    ensures ToJson(vars["status"]) == Number(JsString(punch.status))
    ensures ToJson(vars["verify_mode"]) == Number(JsString(punch.verifyMode))
  {
  }

  lemma OptionsAsJson(punch: Punch, device: Device, companyName: string, iso: int -> string, vars: Vars)
    requires vars == BuildTemplateVars(punch, device, companyName, iso)
    requires "punch_time_utc" in vars && "device_timezone" in vars && "work_code" in vars
    ensures ToJson(vars["punch_time_utc"]) ==
            if punch.punchTimeUtc.Some? then String(iso(punch.punchTimeUtc.value)) else Null
    ensures ToJson(vars["device_timezone"]) == if device.timezone.Some? then String(device.timezone.value) else Null
    ensures ToJson(vars["work_code"]) == if punch.workCode.Some? then String(punch.workCode.value) else Null
  {
    OptionAsJson(device.timezone);
    OptionAsJson(punch.workCode);
  }

  /** The default payload of a punch, member by member: numbers are numbers, what is missing is null. */
  lemma DefaultPayloadOfAPunch(punch: Punch, device: Device, companyName: string, iso: int -> string, vars: Vars,
                               keys: seq<string>, members: seq<Member>)
    requires vars == BuildTemplateVars(punch, device, companyName, iso)
    requires keys == DEFAULT_KEYS && (forall k :: 0 <= k < |keys| ==> keys[k] in vars)
    requires RenderPunchWebhookBody(None, vars) == Object(members)
    ensures |members| == 12 && members[0] == Member("event", String("punch.created"))
    ensures members[1] == Member("company_id", String(device.companyId))
    ensures members[2] == Member("device_id", String(device.id))
    ensures members[3] == Member("device_serial", String(device.serialNumber))
    ensures members[4] == Member("pin", String(punch.devicePin))
    ensures members[5] == Member("punch_time", String(iso(punch.punchTime)))
    ensures members[6] == Member("punch_time_utc", if punch.punchTimeUtc.Some?
                                                   then String(iso(punch.punchTimeUtc.value)) else Null)
    ensures members[7] == Member("device_timezone", if device.timezone.Some? then String(device.timezone.value) else Null)
    ensures members[8] == Member("status", Number(JsString(punch.status)))
    ensures members[9] == Member("verify_mode", Number(JsString(punch.verifyMode)))
    ensures members[10] == Member("work_code", if punch.workCode.Some? then String(punch.workCode.value) else Null)
    ensures members[11] == Member("received_at", String(iso(punch.receivedAt)))
  {
    RenderedBodies(vars, keys, Object(members));
    PayloadBegins(vars, keys, members);
    PayloadGoesOn(vars, keys, members);
    PayloadEnds(vars, keys, members);
    TextsAsJson(punch, device, companyName, iso, vars);
    NumbersAsJson(punch, device, companyName, iso, vars);
    OptionsAsJson(punch, device, companyName, iso, vars);
  }
}
