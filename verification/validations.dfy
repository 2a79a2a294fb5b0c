/** `lib/validations.ts`: the Zod schemas the forms validate against, as
    rule lists over a JavaScript value, with the issues Zod reports. */
module Validations {
  import opened Wrappers

  /** A JavaScript value, as far as the schemas look at it. */
  datatype Value =
    | Undefined
    | Null
    | Bool(b: bool)
    | Num(n: int)
    | Str(s: string)
    | Arr(items: seq<Value>)
    | Obj(fields: map<string, Value>)

  /** The field schemas the file uses. */
  datatype Rule =
    | NonEmptyString(message: string)  // z.string().min(1, message)
    | OptionalText                     // z.string().optional().or(z.literal(''))
    | OptionalEmail(message: string)   // z.string().email(message).optional().or(z.literal(''))
    | OneOf(options: seq<string>)      // z.enum(options)
    | StringArray                      // z.array(z.string())
    | Boolean                          // z.boolean()

  datatype Code = InvalidType | TooSmall | InvalidString | InvalidEnumValue | InvalidUnion

  datatype PathItem = Key(name: string) | Index(i: nat)

  /** A Zod issue; `message` is the schema's own text where it gives one,
      and `None` where Zod's default text applies. */
  datatype Issue = Issue(path: seq<PathItem>, code: Code, message: Option<string>)

  datatype ParseResult = Success(data: map<string, Value>) | Failure(issues: seq<Issue>)

  type Schema = seq<(string, Rule)>

  /** What each rule accepts, stated directly. */
  ghost predicate Accepts(rule: Rule, v: Value, isEmail: string -> bool)
  {
    match rule
    case NonEmptyString(_) => v.Str? && |v.s| >= 1
    case OptionalText => v.Undefined? || v.Str?
    case OptionalEmail(_) => v.Undefined? || v == Str("") || (v.Str? && isEmail(v.s))
    case OneOf(options) => v.Str? && v.s in options
    case StringArray => v.Arr? && forall i :: 0 <= i < |v.items| ==> v.items[i].Str?
    case Boolean => v.Bool?
  }

  /** One issue per array element that is not a string. */
  function ElementIssues(key: string, items: seq<Value>, from: nat): (r: seq<Issue>)
    ensures r == [] <==> forall i :: 0 <= i < |items| ==> items[i].Str?
    ensures forall j :: 0 <= j < |r| ==> |r[j].path| == 2 && r[j].path[0] == Key(key) && r[j].code == InvalidType
    decreases |items|
  {
    if items == [] then []
    else
      var rest := ElementIssues(key, items[1..], from + 1);
      assert forall i :: 1 <= i < |items| ==> items[i] == items[1..][i - 1];
      (if items[0].Str? then [] else [Issue([Key(key), Index(from)], InvalidType, None)]) + rest
  }

  /** The issues Zod reports for field `key` holding `v`. */
  function FieldIssues(key: string, rule: Rule, v: Value, isEmail: string -> bool): (r: seq<Issue>)
    ensures r == [] <==> Accepts(rule, v, isEmail)
    ensures forall j :: 0 <= j < |r| ==> |r[j].path| >= 1 && r[j].path[0] == Key(key)
    ensures rule.NonEmptyString? && v == Str("") ==> r == [Issue([Key(key)], TooSmall, Some(rule.message))]
    ensures rule.OptionalEmail? && v.Str? && v.s != "" && !isEmail(v.s) ==>
              r == [Issue([Key(key)], InvalidString, Some(rule.message))]
  {
    var here := [Key(key)];
    match rule
    case NonEmptyString(message) =>
      if !v.Str? then [Issue(here, InvalidType, None)]
      else if |v.s| < 1 then [Issue(here, TooSmall, Some(message))]
      else []
    case OptionalText =>
      if v.Undefined? || v.Str? then [] else [Issue(here, InvalidUnion, None)]
    case OptionalEmail(message) =>
      if v.Undefined? || v == Str("") then []
      else if v.Str? then (if isEmail(v.s) then [] else [Issue(here, InvalidString, Some(message))])
      else [Issue(here, InvalidUnion, None)]
    case OneOf(options) =>
      if !v.Str? then [Issue(here, InvalidType, None)]
      else if v.s !in options then [Issue(here, InvalidEnumValue, None)]
      else []
    case StringArray =>
      if !v.Arr? then [Issue(here, InvalidType, None)] else ElementIssues(key, v.items, 0)
    case Boolean =>
      if v.Bool? then [] else [Issue(here, InvalidType, None)]
  }

  /** A missing property reads as `undefined`. */
  function FieldOf(fields: map<string, Value>, key: string): Value
  {
    if key in fields then fields[key] else Undefined
  }

  ghost predicate ValidFields(schema: Schema, fields: map<string, Value>, isEmail: string -> bool)
  {
    forall i :: 0 <= i < |schema| ==> Accepts(schema[i].1, FieldOf(fields, schema[i].0), isEmail)
  }

  /** The fields' issues, in schema order. */
  function ObjectIssues(schema: Schema, fields: map<string, Value>, isEmail: string -> bool): (r: seq<Issue>)
    ensures r == [] <==> ValidFields(schema, fields, isEmail)
    ensures forall j :: 0 <= j < |r| ==>
              |r[j].path| >= 1 && r[j].path[0].Key? && (exists i :: 0 <= i < |schema| && r[j].path[0].name == schema[i].0)
  {
    if schema == [] then []
    else
      var (key, rule) := schema[0];
      var here := FieldIssues(key, rule, FieldOf(fields, key), isEmail);
      var rest := ObjectIssues(schema[1..], fields, isEmail);
      ValidFieldsCons(schema, fields, isEmail);
      here + rest
  }

  /** A schema's fields are valid when its first field is and the rest
      are; every key of the rest is a key of the schema. */
  lemma ValidFieldsCons(schema: Schema, fields: map<string, Value>, isEmail: string -> bool)
    requires schema != []
    ensures ValidFields(schema, fields, isEmail) <==>
            Accepts(schema[0].1, FieldOf(fields, schema[0].0), isEmail) && ValidFields(schema[1..], fields, isEmail)
    ensures forall i :: 0 <= i < |schema| - 1 ==> schema[1..][i] == schema[i + 1]
  {
    if Accepts(schema[0].1, FieldOf(fields, schema[0].0), isEmail) && ValidFields(schema[1..], fields, isEmail) {
      forall i | 0 <= i < |schema| ensures Accepts(schema[i].1, FieldOf(fields, schema[i].0), isEmail) {
        if i > 0 {
          assert schema[i] == schema[1..][i - 1];
        }
      }
    }
  }

  function Keys(schema: Schema): set<string>
  {
    set i | 0 <= i < |schema| :: schema[i].0
  }

  /** `schema.safeParse(v)`: an object whose every field passes gives the
      object with only the schema's keys; anything else gives its issues. */
  function SafeParse(schema: Schema, v: Value, isEmail: string -> bool): (r: ParseResult)
    ensures r.Success? <==> v.Obj? && ValidFields(schema, v.fields, isEmail)
    ensures r.Success? ==> r.data.Keys == v.fields.Keys * Keys(schema)
    ensures r.Success? ==> forall k :: k in r.data ==> r.data[k] == v.fields[k]
    ensures r.Failure? ==> |r.issues| >= 1
  {
    if !v.Obj? then Failure([Issue([], InvalidType, None)])
    else
      var issues := ObjectIssues(schema, v.fields, isEmail);
      if issues == [] then Success(map k | k in v.fields && k in Keys(schema) :: v.fields[k])
      else Failure(issues)
  }

  // --------------------------------------------------------- the schemas

  const SupporterStatuses: seq<string> := ["応募受付", "面接済み", "登録完了", "休止中"]

  const SupporterSchema: Schema := [
    ("name", NonEmptyString("名前は必須です")),
    ("phone", OptionalText),
    ("email", OptionalEmail("有効なメールアドレスを入力してください")),
    ("address", OptionalText),
    ("area", OptionalText),
    ("notes", OptionalText),
    ("status", OneOf(SupporterStatuses)),
    ("skills", StringArray),
    ("schedules", StringArray)]

  const ServiceUserSchema: Schema := [
    ("name", NonEmptyString("名前は必須です")),
    ("phone", OptionalText),
    ("email", OptionalEmail("有効なメールアドレスを入力してください")),
    ("address", OptionalText),
    ("area", OptionalText),
    ("special_notes", OptionalText)]

  const ActivitySchema: Schema := [
    ("supporter_id", NonEmptyString("サポーターを選択してください")),
    ("service_user_id", NonEmptyString("利用者を選択してください")),
    ("skill_id", NonEmptyString("スキルを選択してください")),
    ("activity_date", NonEmptyString("活動日を選択してください")),
    ("time_slot_id", NonEmptyString("時間帯を選択してください")),
    ("status_id", NonEmptyString("ステータスを選択してください")),
    ("notes", OptionalText)]

  const SkillSchema: Schema := [
    ("name", NonEmptyString("スキル名は必須です")),
    ("category", OptionalText),
    ("is_active", Boolean)]

  const ActivityStatusSchema: Schema := [
    ("name", NonEmptyString("ステータス名は必須です")),
    ("description", OptionalText)]

  ghost predicate IsText(v: Value)
  {
    v.Undefined? || v.Str?
  }

  ghost predicate IsFilled(v: Value)
  {
    v.Str? && |v.s| >= 1
  }

  ghost predicate IsEmailField(v: Value, isEmail: string -> bool)
  {
    v.Undefined? || v == Str("") || (v.Str? && isEmail(v.s))
  }

  ghost predicate IsStringArray(v: Value)
  {
    v.Arr? && forall i :: 0 <= i < |v.items| ==> v.items[i].Str?
  }

  /** A supporter passes exactly when its name is a non-empty string (not
      trimmed), phone, address, area and notes are text or absent, email is
      absent, empty or an address, status is one of the four, and skills and
      schedules are lists of strings, possibly empty. */
  lemma SupporterRule(f: map<string, Value>, isEmail: string -> bool)
    ensures ValidFields(SupporterSchema, f, isEmail) <==>
      IsFilled(FieldOf(f, "name")) && IsText(FieldOf(f, "phone"))
      && IsEmailField(FieldOf(f, "email"), isEmail)
      && IsText(FieldOf(f, "address")) && IsText(FieldOf(f, "area")) && IsText(FieldOf(f, "notes"))
      && FieldOf(f, "status").Str? && FieldOf(f, "status").s in {"応募受付", "面接済み", "登録完了", "休止中"}
      && IsStringArray(FieldOf(f, "skills")) && IsStringArray(FieldOf(f, "schedules"))
  {
    var s := SupporterSchema;
    assert s[0].0 == "name" && s[1].0 == "phone" && s[2].0 == "email" && s[3].0 == "address";
    assert s[4].0 == "area" && s[5].0 == "notes" && s[6].0 == "status" && s[7].0 == "skills" && s[8].0 == "schedules";
    assert forall x :: x in SupporterStatuses <==> x in {"応募受付", "面接済み", "登録完了", "休止中"};
  }

  /** A service user passes exactly when its name is a non-empty string and
      the other five fields are text (email: an address) or absent. */
  lemma ServiceUserRule(f: map<string, Value>, isEmail: string -> bool)
    ensures ValidFields(ServiceUserSchema, f, isEmail) <==>
      IsFilled(FieldOf(f, "name")) && IsText(FieldOf(f, "phone"))
      && IsEmailField(FieldOf(f, "email"), isEmail)
      && IsText(FieldOf(f, "address")) && IsText(FieldOf(f, "area")) && IsText(FieldOf(f, "special_notes"))
  {
    var s := ServiceUserSchema;
    assert s[0].0 == "name" && s[1].0 == "phone" && s[2].0 == "email";
    assert s[3].0 == "address" && s[4].0 == "area" && s[5].0 == "special_notes";
  }

  /** An activity passes exactly when all six ids and the date are
      non-empty strings (the date has no format check) and notes are text
      or absent. */
  lemma ActivityRule(f: map<string, Value>, isEmail: string -> bool)
    ensures ValidFields(ActivitySchema, f, isEmail) <==>
      IsFilled(FieldOf(f, "supporter_id")) && IsFilled(FieldOf(f, "service_user_id"))
      && IsFilled(FieldOf(f, "skill_id")) && IsFilled(FieldOf(f, "activity_date"))
      && IsFilled(FieldOf(f, "time_slot_id")) && IsFilled(FieldOf(f, "status_id"))
      && IsText(FieldOf(f, "notes"))
  {
    var s := ActivitySchema;
    assert s[0].0 == "supporter_id" && s[1].0 == "service_user_id" && s[2].0 == "skill_id";
    assert s[3].0 == "activity_date" && s[4].0 == "time_slot_id" && s[5].0 == "status_id" && s[6].0 == "notes";
  }

  /** A skill needs a non-empty name and a boolean `is_active`. */
  lemma SkillRule(f: map<string, Value>, isEmail: string -> bool)
    ensures ValidFields(SkillSchema, f, isEmail) <==>
      IsFilled(FieldOf(f, "name")) && IsText(FieldOf(f, "category")) && FieldOf(f, "is_active").Bool?
  {
    var s := SkillSchema;
    assert s[0].0 == "name" && s[1].0 == "category" && s[2].0 == "is_active";
  }

  /** An activity status needs only a non-empty name. */
  lemma ActivityStatusRule(f: map<string, Value>, isEmail: string -> bool)
    ensures ValidFields(ActivityStatusSchema, f, isEmail) <==>
      IsFilled(FieldOf(f, "name")) && IsText(FieldOf(f, "description"))
  {
    var s := ActivityStatusSchema;
    assert s[0].0 == "name" && s[1].0 == "description";
  }

  /** A name of one space passes, and the lists may be empty. */
  lemma SupporterBlankName(isEmail: string -> bool)
    ensures SafeParse(SupporterSchema,
                      Obj(map["name" := Str(" "), "status" := Str("休止中"),
                              "skills" := Arr([]), "schedules" := Arr([])]), isEmail).Success?
  {
    var f := map["name" := Str(" "), "status" := Str("休止中"), "skills" := Arr([]), "schedules" := Arr([])];
    SupporterRule(f, isEmail);
  }

  /** An empty name is reported once, with the schema's message. */
  lemma SupporterEmptyName(isEmail: string -> bool)
    ensures SafeParse(SupporterSchema,
                      Obj(map["name" := Str(""), "status" := Str("休止中"),
                              "skills" := Arr([]), "schedules" := Arr([])]), isEmail)
            == Failure([Issue([Key("name")], TooSmall, Some("名前は必須です"))])
  {
    var g := map["name" := Str(""), "status" := Str("休止中"), "skills" := Arr([]), "schedules" := Arr([])];
    NameIssueOnly(g, isEmail);
  }

  lemma NameIssueOnly(g: map<string, Value>, isEmail: string -> bool)
    requires g == map["name" := Str(""), "status" := Str("休止中"), "skills" := Arr([]), "schedules" := Arr([])]
    ensures ObjectIssues(SupporterSchema, g, isEmail) == [Issue([Key("name")], TooSmall, Some("名前は必須です"))]
  {
    var s := SupporterSchema;
    OtherFieldsValid(g, isEmail);
    assert s[0] == ("name", NonEmptyString("名前は必須です"));
    assert FieldOf(g, "name") == Str("");
    assert ObjectIssues(s, g, isEmail) == FieldIssues("name", s[0].1, Str(""), isEmail) + ObjectIssues(s[1..], g, isEmail);
  }

  lemma OtherFieldsValid(g: map<string, Value>, isEmail: string -> bool)
    requires g == map["name" := Str(""), "status" := Str("休止中"), "skills" := Arr([]), "schedules" := Arr([])]
    ensures ValidFields(SupporterSchema[1..], g, isEmail)
  {
    var rest := SupporterSchema[1..];
    assert rest[0].0 == "phone" && rest[1].0 == "email" && rest[2].0 == "address" && rest[3].0 == "area";
    assert rest[4].0 == "notes" && rest[5].0 == "status" && rest[6].0 == "skills" && rest[7].0 == "schedules";
    assert "休止中" in SupporterStatuses;
    assert FieldOf(g, "phone") == Undefined && FieldOf(g, "email") == Undefined;
    assert FieldOf(g, "address") == Undefined && FieldOf(g, "area") == Undefined && FieldOf(g, "notes") == Undefined;
    assert FieldOf(g, "status") == Str("休止中") && FieldOf(g, "skills") == Arr([]) && FieldOf(g, "schedules") == Arr([]);
  }
}
