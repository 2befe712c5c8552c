/**
 * The `code_snippets` record, its insert form, and the validation that the
 * insert schema performs on a JSON request body.
 */
module Schema {
  import opened Wrappers

  /** A `Date`, as the milliseconds that `getTime()` returns. */
  type Timestamp = int

  /** Column defaults of the table. */
  const DEFAULT_IS_PUBLIC := true
  const DEFAULT_ALLOW_COMMENTS := true
  const DEFAULT_VIEWS := 0
  const DEFAULT_LIKES := 0

  /**
   * A stored snippet (`CodeSnippet`). `title`, `code`, `language` and
   * `category` are required text; `tags` is a nullable text array, where
   * `None` stands for both `null` and a missing value (the two are not kept
   * apart); the counters and flags are non-null.
   */
  datatype Snippet = Snippet(
    id: string,
    title: string,
    code: string,
    language: string,
    category: string,
    tags: Option<seq<string>>,
    isPublic: bool,
    allowComments: bool,
    views: int,
    likes: int,
    createdAt: Timestamp,
    updatedAt: Timestamp)

  /** The sort key of every newest-first order: `createdAt.getTime()`. */
  function CreatedAt(s: Snippet): int {
    s.createdAt
  }

  /**
   * The insert form (`InsertCodeSnippet`): the record without `id`, `views`,
   * `likes`, `createdAt` and `updatedAt`. Columns with a default are optional.
   */
  datatype InsertSnippet = InsertSnippet(
    title: string,
    code: string,
    language: string,
    category: string,
    tags: Option<seq<string>>,
    isPublic: Option<bool>,
    allowComments: Option<bool>)

  /** A JSON value as a request body carries it (numbers as integers). */
  datatype Json =
    | JNull
    | JBool(b: bool)
    | JNumber(n: int)
    | JString(s: string)
    | JArray(items: seq<Json>)
    | JObject(fields: map<string, Json>)

  /** The keys the insert schema looks at; every other key is stripped. */
  const INSERT_FIELDS: set<string> :=
    {"title", "code", "language", "category", "tags", "isPublic", "allowComments"}

  /** The required text columns. */
  const REQUIRED_FIELDS: set<string> := {"title", "code", "language", "category"}

  /** The non-null flag columns with a default. */
  const FLAG_FIELDS: set<string> := {"isPublic", "allowComments"}

  /** The keys the insert schema omits from the record. */
  const OMITTED_FIELDS: set<string> := {"id", "views", "likes", "createdAt", "updatedAt"}

  /** The issue path reported when the body is not an object at all. */
  const ROOT_PATH := ""

  /** The body is an object whose `key` holds `v`. */
  predicate HasField(body: Json, key: string, v: Json) {
    body.JObject? && key in body.fields && body.fields[key] == v
  }

  /** The outcome of checking one field: its decoded value, or an issue. */
  datatype Field<T> = Valid(value: T) | Invalid

  /** A required, non-null text column. */
  function RequiredString(fields: map<string, Json>, key: string): (r: Field<string>)
    ensures r.Valid? <==> key in fields && fields[key].JString?
  {
    if key in fields && fields[key].JString? then Valid(fields[key].s) else Invalid
  }

  /** A non-null column with a default: it may be missing, but not `null`. */
  function OptionalBool(fields: map<string, Json>, key: string): (r: Field<Option<bool>>)
    ensures r.Valid? <==> key !in fields || fields[key].JBool?
  {
    if key !in fields then Valid(None)
    else if fields[key].JBool? then Valid(Some(fields[key].b))
    else Invalid
  }

  /** The text of every element, if every element is a string. */
  function Strings(items: seq<Json>): (r: Option<seq<string>>)
    ensures r.Some? <==> forall k :: 0 <= k < |items| ==> items[k].JString?
    ensures r.Some? ==> |r.value| == |items| && forall k :: 0 <= k < |items| ==> items[k] == JString(r.value[k])
  {
    if items == [] then Some([])
    else if !items[0].JString? then None
    else
      match Strings(items[1..])
      case None => None
      case Some(rest) => Some([items[0].s] + rest)
  }

  /** A nullable, optional text-array column. */
  function OptionalStringArray(fields: map<string, Json>, key: string): Field<Option<seq<string>>> {
    if key !in fields || fields[key].JNull? then Valid(None)
    else if fields[key].JArray? && Strings(fields[key].items).Some? then Valid(Some(Strings(fields[key].items).value))
    else Invalid
  }

  /** The path of `key` when its check failed. */
  function Issue<T>(f: Field<T>, key: string): seq<string> {
    if f.Invalid? then [key] else []
  }

  /** The optional flag `key` of the body decodes to `v`: absent, or the boolean given. */
  predicate FlagCarried(body: Json, key: string, v: Option<bool>) {
    body.JObject? && (if v.Some? then HasField(body, key, JBool(v.value)) else key !in body.fields)
  }

  /** The body's `tags` decodes to `v`: absent or `null`, or the array of these strings. */
  predicate TagsCarried(body: Json, v: Option<seq<string>>) {
    && body.JObject?
    && (if v.Some? then HasField(body, "tags", JArray(StringItems(v.value)))
        else "tags" !in body.fields || body.fields["tags"].JNull?)
  }

  /**
   * Every field of the insert shape has the type its column demands: the
   * four text columns are strings, `tags` is missing, `null` or an array of
   * strings, and each flag is missing or a boolean.
   */
  predicate WellTyped(body: Json) {
    && body.JObject?
    && (forall key :: key in REQUIRED_FIELDS ==> key in body.fields && body.fields[key].JString?)
    && ("tags" in body.fields ==>
          || body.fields["tags"].JNull?
          || (body.fields["tags"].JArray? && forall k :: 0 <= k < |body.fields["tags"].items| ==> body.fields["tags"].items[k].JString?))
    && (forall key :: key in FLAG_FIELDS ==> key in body.fields ==> body.fields[key].JBool?)
  }

  /**
   * `insertCodeSnippetSchema.parse(body)`: succeeds with the insert form when
   * every field has the type its column demands, and otherwise fails with
   * the path of every field that does not, in declaration order. Unknown
   * keys are stripped.
   */
  function ParseInsert(body: Json): (r: Result<InsertSnippet, seq<string>>)
    ensures r.Success? <==> WellTyped(body)
    ensures r.Failure? ==> |r.error| > 0
    ensures r.Success? ==>
      (&& HasField(body, "title", JString(r.value.title))
       && HasField(body, "code", JString(r.value.code))
       && HasField(body, "language", JString(r.value.language))
       && HasField(body, "category", JString(r.value.category))
       && TagsCarried(body, r.value.tags)
       && FlagCarried(body, "isPublic", r.value.isPublic)
       && FlagCarried(body, "allowComments", r.value.allowComments))
  {
    if !body.JObject? then Failure([ROOT_PATH])
    else
      var f := body.fields;
      var title := RequiredString(f, "title");
      var code := RequiredString(f, "code");
      var language := RequiredString(f, "language");
      var category := RequiredString(f, "category");
      var tags := OptionalStringArray(f, "tags");
      var isPublic := OptionalBool(f, "isPublic");
      var allowComments := OptionalBool(f, "allowComments");
      var issues := Issue(title, "title") + Issue(code, "code") + Issue(language, "language")
        + Issue(category, "category") + Issue(tags, "tags") + Issue(isPublic, "isPublic")
        + Issue(allowComments, "allowComments");
      if issues != [] then Failure(issues)
      else
        assert tags.value.Some? ==> f["tags"].items == StringItems(tags.value.value);
        Success(InsertSnippet(title.value, code.value, language.value, category.value,
                              tags.value, isPublic.value, allowComments.value))
  }

  /** `JSON.stringify` of an insert form: an absent optional field is left out. */
  function ToJson(ins: InsertSnippet): Json {
    var required := map[
      "title" := JString(ins.title),
      "code" := JString(ins.code),
      "language" := JString(ins.language),
      "category" := JString(ins.category)];
    var withTags := if ins.tags.Some? then required["tags" := JArray(StringItems(ins.tags.value))] else required;
    var withPublic := if ins.isPublic.Some? then withTags["isPublic" := JBool(ins.isPublic.value)] else withTags;
    var withComments := if ins.allowComments.Some? then withPublic["allowComments" := JBool(ins.allowComments.value)] else withPublic;
    JObject(withComments)
  }

  function StringItems(strs: seq<string>): (r: seq<Json>)
    ensures |r| == |strs| && forall k :: 0 <= k < |strs| ==> r[k] == JString(strs[k])
  {
    if strs == [] then [] else [JString(strs[0])] + StringItems(strs[1..])
  }

  /** Every insert form survives serialisation and validation unchanged. */
  lemma ParseToJson(ins: InsertSnippet)
    ensures ParseInsert(ToJson(ins)) == Success(ins)
  {
    if ins.tags.Some? {
      var items := StringItems(ins.tags.value);
      assert Strings(items).Some?;
      assert Strings(items).value == ins.tags.value;
    }
  }

  /**
   * Keys outside the insert form, such as `id`, `views` or `likes`, have no
   * effect on validation: a client cannot supply them.
   */
  lemma ParseIgnoresOtherKeys(fields: map<string, Json>, key: string, v: Json)
    requires key !in INSERT_FIELDS
    ensures ParseInsert(JObject(fields[key := v])) == ParseInsert(JObject(fields))
  {
  }

  /** In particular, none of the omitted record fields can be set through the body. */
  lemma OmittedFieldsIgnored(fields: map<string, Json>, key: string, v: Json)
    requires key in OMITTED_FIELDS
    ensures ParseInsert(JObject(fields[key := v])) == ParseInsert(JObject(fields))
  {
    ParseIgnoresOtherKeys(fields, key, v);
  }

  /** A required field that is missing, `null` or not a string is reported. */
  lemma RequiredFieldReported(fields: map<string, Json>, key: string)
    requires key in REQUIRED_FIELDS
    requires key !in fields || !fields[key].JString?
    ensures ParseInsert(JObject(fields)).Failure?
    ensures key in ParseInsert(JObject(fields)).error
  {
  }

  /** A flag that is present but not a boolean, `null` included, is reported. */
  lemma FlagReported(fields: map<string, Json>, key: string)
    requires key in FLAG_FIELDS
    requires key in fields && !fields[key].JBool?
    ensures ParseInsert(JObject(fields)).Failure?
    ensures key in ParseInsert(JObject(fields)).error
  {
  }

  /** A present `tags` that is neither `null` nor an array of strings is reported. */
  lemma TagsReported(fields: map<string, Json>)
    requires "tags" in fields && !fields["tags"].JNull?
    requires !fields["tags"].JArray? || exists k :: 0 <= k < |fields["tags"].items| && !fields["tags"].items[k].JString?
    ensures ParseInsert(JObject(fields)).Failure?
    ensures "tags" in ParseInsert(JObject(fields)).error
  {
  }

  /**
   * `tags` is nullable: `null` is the same as leaving it out. The flags have
   * defaults but are not nullable: leaving one out is accepted, `null` is
   * reported.
   */
  lemma NullableColumns(fields: map<string, Json>)
    ensures ParseInsert(JObject(fields["tags" := JNull])) == ParseInsert(JObject(fields - {"tags"}))
    ensures "isPublic" in ParseInsert(JObject(fields["isPublic" := JNull])).error
    ensures "allowComments" in ParseInsert(JObject(fields["allowComments" := JNull])).error
  {
    assert JObject(fields["isPublic" := JNull]).fields["isPublic"] == JNull;
    assert JObject(fields["allowComments" := JNull]).fields["allowComments"] == JNull;
  }

  /**
   * The record `createCodeSnippet` stores for a validated insert form: the
   * given fields, the fresh id, zeroed counters, both timestamps `now`, and
   * the column default for a flag the body left out.
   */
  function NewSnippet(ins: InsertSnippet, id: string, now: Timestamp): Snippet {
    Snippet(id, ins.title, ins.code, ins.language, ins.category, ins.tags,
            ins.isPublic.GetOr(DEFAULT_IS_PUBLIC), ins.allowComments.GetOr(DEFAULT_ALLOW_COMMENTS),
            DEFAULT_VIEWS, DEFAULT_LIKES, now, now)
  }

  /**
   * The truth value of a flag after the object spread in `createCodeSnippet`
   * as written: a flag the body left out stays `undefined`, which every
   * reader of the record treats as false.
   */
  function SpreadFlag(flag: Option<bool>): bool {
    flag == Some(true)
  }

  /** The record as the spread builds it, without the column defaults. */
  function NewSnippetAsWritten(ins: InsertSnippet, id: string, now: Timestamp): Snippet {
    Snippet(id, ins.title, ins.code, ins.language, ins.category, ins.tags,
            SpreadFlag(ins.isPublic), SpreadFlag(ins.allowComments),
            DEFAULT_VIEWS, DEFAULT_LIKES, now, now)
  }

  /**
   * A body without `isPublic` passes validation, yet the record the spread
   * builds is not public, although the column default is true.
   */
  lemma SpreadLosesPublicDefault(id: string, now: Timestamp)
    ensures var body := JObject(map["title" := JString("t"), "code" := JString("c"),
                                    "language" := JString("python"), "category" := JString("Algorithms")]);
      && ParseInsert(body).Success?
      && ParseInsert(body).value.isPublic.None?
      && !NewSnippetAsWritten(ParseInsert(body).value, id, now).isPublic
      && NewSnippet(ParseInsert(body).value, id, now).isPublic
  {
  }

  /**
   * The corrected record takes each flag as given, or the column default
   * `true` when absent, and otherwise agrees with the spread.
   */
  lemma NewSnippetFlags(ins: InsertSnippet, id: string, now: Timestamp)
    ensures NewSnippet(ins, id, now).isPublic == (if ins.isPublic.Some? then ins.isPublic.value else DEFAULT_IS_PUBLIC)
    ensures NewSnippet(ins, id, now).allowComments == (if ins.allowComments.Some? then ins.allowComments.value else DEFAULT_ALLOW_COMMENTS)
    ensures ins.isPublic.Some? ==> NewSnippet(ins, id, now).isPublic == NewSnippetAsWritten(ins, id, now).isPublic
    ensures ins.allowComments.Some? ==> NewSnippet(ins, id, now).allowComments == NewSnippetAsWritten(ins, id, now).allowComments
    ensures NewSnippet(ins, id, now).(isPublic := false, allowComments := false)
         == NewSnippetAsWritten(ins, id, now).(isPublic := false, allowComments := false)
  {
  }
}
