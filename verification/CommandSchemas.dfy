/** The seven shipped command schemas, and what the validator makes of them. */
module CommandSchemas {
  import opened Text
  import opened Schema
  import opened SchemaClosure

  // ---------------------------------------------------------------------------
  // Building blocks
  // ---------------------------------------------------------------------------

  function TextOf(low: nat, high: nat): Schema {
    ANY.(kind := Some(IsString), minLength := Some(low), maxLength := Some(high))
  }

  function TextUpTo(high: nat): Schema {
    ANY.(kind := Some(IsString), maxLength := Some(high))
  }

  function PatternOf(p: Pattern): Schema {
    ANY.(kind := Some(IsString), pattern := Some(p))
  }

  function EnumOf(values: seq<Literal>): Schema {
    ANY.(kind := Some(IsString), oneOfValues := Some(values))
  }

  function KindOf(kind: Kind): Schema {
    ANY.(kind := Some(kind))
  }

  function ArrayOf(maxItems: nat, items: Schema): Schema {
    ANY.(kind := Some(IsArray), maxItems := Some(maxItems), items := Some(items))
  }

  function ObjectOf(required: seq<string>, properties: seq<(string, Schema)>, allOf: seq<Schema>): Schema {
    ANY.(kind := Some(IsObject), required := required, properties := Properties(properties), additional := Forbidden, allOf := allOf)
  }

  function Requires(required: seq<string>): Schema {
    ANY.(required := required)
  }

  /** `whenOperation` */
  function WhenOperation(operation: string, andThen: Schema): Schema {
    ANY.(when := Some(ANY.(required := ["op"], properties := Properties([("op", ANY.(constant := Some(TextLiteral(operation))))]))),
         andThen := Some(andThen))
  }

  const HASH := PatternOf(Hash)
  const IDEMPOTENCY_KEY := TextOf(1, 128)
  const PATH := TextOf(1, 1024)
  const LIMIT := ANY.(kind := Some(IsInteger), minimum := Some(1), maximum := Some(200))
  const PRIMITIVE_VALUE := ANY.(anyOf := Shapes([TextUpTo(10_000), KindOf(IsNumber), KindOf(IsBoolean), KindOf(IsNull)]))

  const TARGET_PATH := Requires(["path"])
  const TARGET_DAILY := ANY.(required := ["daily"], properties := Properties([("daily", ANY.(constant := Some(BooleanLiteral(true))))]))
  const NOTE_TARGET := ANY.(oneOf := Shapes([TARGET_PATH, TARGET_DAILY]))
  const NOTE_MUTATION := ANY.(required := ["content", "expectedContentHash"], oneOf := Shapes([TARGET_PATH, TARGET_DAILY]))

  // ---------------------------------------------------------------------------
  // The seven schemas
  // ---------------------------------------------------------------------------

  const NOTE_FIELDS: seq<(string, Schema)> :=
    [("op", EnumOf([TextLiteral("state"), TextLiteral("append"), TextLiteral("prepend")])),
     ("path", PATH), ("daily", KindOf(IsBoolean)), ("content", TextUpTo(262_144)), ("section", TextOf(1, 300)),
     ("expectedContentHash", HASH), ("idempotencyKey", IDEMPOTENCY_KEY)]

  const NOTE_CONDITIONS: seq<Schema> :=
    [WhenOperation("state", NOTE_TARGET), WhenOperation("append", NOTE_MUTATION), WhenOperation("prepend", NOTE_MUTATION)]

  const NOTE := ObjectOf(["op"], NOTE_FIELDS, NOTE_CONDITIONS)

  const PROPERTY_VALUE := ANY.(anyOf := Shapes([PRIMITIVE_VALUE, ArrayOf(100, PRIMITIVE_VALUE)]))

  const PROPERTY_FIELDS: seq<(string, Schema)> :=
    [("op", EnumOf([TextLiteral("get"), TextLiteral("set"), TextLiteral("remove")])),
     ("path", PATH), ("key", TextOf(1, 120)),
     ("value", PROPERTY_VALUE),
     ("valueType", EnumOf([TextLiteral("string"), TextLiteral("number"), TextLiteral("boolean"), TextLiteral("date"),
                           TextLiteral("list"), TextLiteral("null")])),
     ("expectedContentHash", HASH), ("idempotencyKey", IDEMPOTENCY_KEY)]

  const PROPERTY_CONDITIONS: seq<Schema> :=
    [WhenOperation("set", Requires(["value", "expectedContentHash"])), WhenOperation("remove", Requires(["expectedContentHash"]))]

  const PROPERTY := ObjectOf(["op", "path", "key"], PROPERTY_FIELDS, PROPERTY_CONDITIONS)

  const TASK_FIELDS: seq<(string, Schema)> :=
    [("op", EnumOf([TextLiteral("list"), TextLiteral("create"), TextLiteral("update"), TextLiteral("toggle"), TextLiteral("set_status")])),
     ("path", PATH), ("scope", TextUpTo(1024)), ("line", ANY.(kind := Some(IsInteger), minimum := Some(1))),
     ("originalTextHash", HASH), ("expectedContentHash", HASH), ("text", TextUpTo(10_000)), ("status", TextOf(1, 1)),
     ("section", TextOf(1, 300)), ("limit", LIMIT), ("idempotencyKey", IDEMPOTENCY_KEY)]

  const TASK_CONDITIONS: seq<Schema> :=
    [WhenOperation("create", Requires(["path", "text", "expectedContentHash"])),
     WhenOperation("update", Requires(["path", "line", "originalTextHash", "expectedContentHash", "text"])),
     WhenOperation("toggle", Requires(["path", "line", "originalTextHash", "expectedContentHash"])),
     WhenOperation("set_status", Requires(["path", "line", "originalTextHash", "expectedContentHash", "status"]))]

  const TASK := ObjectOf(["op"], TASK_FIELDS, TASK_CONDITIONS)

  const FILTER_FIELDS: seq<(string, Schema)> :=
    [("field", TextOf(1, 120)),
     ("op", EnumOf([TextLiteral("eq"), TextLiteral("ne"), TextLiteral("contains"), TextLiteral("starts_with"), TextLiteral("gt"),
                    TextLiteral("gte"), TextLiteral("lt"), TextLiteral("lte"), TextLiteral("exists")])),
     ("value", PRIMITIVE_VALUE)]

  const FILTER := ObjectOf(["field", "op"], FILTER_FIELDS, [])

  const SORT_FIELDS: seq<(string, Schema)> :=
    [("field", TextOf(1, 120)), ("direction", EnumOf([TextLiteral("asc"), TextLiteral("desc")]))]

  const SORT := ObjectOf(["field"], SORT_FIELDS, [])

  const INSPECT_FIELDS: seq<(string, Schema)> :=
    [("op", EnumOf([TextLiteral("file_info"), TextLiteral("outline"), TextLiteral("tags"), TextLiteral("unresolved_links"),
                    TextLiteral("dead_ends"), TextLiteral("recent"), TextLiteral("word_count"), TextLiteral("collection")])),
     ("path", PATH), ("scope", TextUpTo(1024)), ("limit", LIMIT), ("fields", ArrayOf(32, TextOf(1, 120))),
     ("filters", ArrayOf(16, FILTER)), ("sort", SORT)]

  const INSPECT_CONDITIONS: seq<Schema> :=
    [WhenOperation("file_info", Requires(["path"])), WhenOperation("outline", Requires(["path"])),
     WhenOperation("word_count", Requires(["path"]))]

  const INSPECT := ObjectOf(["op"], INSPECT_FIELDS, INSPECT_CONDITIONS)

  const VARIABLES := ANY.(kind := Some(IsObject), maxProperties := Some(16), additional := Each(TextUpTo(1000)))

  const CREATE_FROM_TEMPLATE :=
    ANY.(required := ["templatePath"], oneOf := Shapes([Requires(["path"]), Requires(["uniqueName"])]))

  const TEMPLATE_FIELDS: seq<(string, Schema)> :=
    [("op", EnumOf([TextLiteral("list"), TextLiteral("read"), TextLiteral("preview"), TextLiteral("insert"), TextLiteral("create")])),
     ("templatePath", PATH), ("path", PATH), ("uniqueName", TextOf(1, 200)),
     ("position", EnumOf([TextLiteral("append"), TextLiteral("prepend")])), ("section", TextOf(1, 300)),
     ("variables", VARIABLES), ("maxBytes", ANY.(kind := Some(IsInteger), minimum := Some(1), maximum := Some(262_144))),
     ("limit", LIMIT), ("expectedContentHash", HASH), ("idempotencyKey", IDEMPOTENCY_KEY)]

  const TEMPLATE_CONDITIONS: seq<Schema> :=
    [WhenOperation("read", Requires(["templatePath"])), WhenOperation("preview", Requires(["templatePath"])),
     WhenOperation("insert", Requires(["path", "templatePath", "expectedContentHash"])),
     WhenOperation("create", CREATE_FROM_TEMPLATE)]

  const TEMPLATE := ObjectOf(["op"], TEMPLATE_FIELDS, TEMPLATE_CONDITIONS)

  const SYNC_STATUS := ObjectOf([], [], [])

  const ARGUMENT_FIELDS: seq<(string, Schema)> :=
    [("name", TextOf(1, 64)), ("value", PRIMITIVE_VALUE)]

  const ARGUMENT := ObjectOf(["name", "value"], ARGUMENT_FIELDS, [])

  const AUTOMATION_FIELDS: seq<(string, Schema)> :=
    [("op", EnumOf([TextLiteral("list"), TextLiteral("run")])), ("alias", PatternOf(Alias)), ("revision", TextOf(1, 128)),
     ("path", PATH), ("arguments", ArrayOf(16, ARGUMENT)), ("idempotencyKey", IDEMPOTENCY_KEY), ("limit", LIMIT)]

  const AUTOMATION_CONDITIONS: seq<Schema> :=
    [WhenOperation("run", Requires(["alias"]))]

  const AUTOMATION := ObjectOf(["op"], AUTOMATION_FIELDS, AUTOMATION_CONDITIONS)

  datatype Tool = NoteTool | PropertyTool | TaskTool | InspectTool | TemplateTool | SyncStatusTool | AutomationTool

  function SchemaOf(tool: Tool): Schema {
    match tool
    case NoteTool => NOTE
    case PropertyTool => PROPERTY
    case TaskTool => TASK
    case InspectTool => INSPECT
    case TemplateTool => TEMPLATE
    case SyncStatusTool => SYNC_STATUS
    case AutomationTool => AUTOMATION
  }

  /** `validateAgentCommandInput`: `None` when it returns, the fault when it throws. */
  function Validate(tool: Tool, input: Value): Option<Fault> {
    Check(input, SchemaOf(tool), INHERITED, 0)
  }

  // ---------------------------------------------------------------------------
  // Every shipped schema is shallow, and closed only along its properties
  // ---------------------------------------------------------------------------

  ghost predicate Leaf(s: Schema) {
    && s.items.None? && s.properties.NoProperties? && s.additional.Unlimited? && s.anyOf.NoShapes? && s.oneOf.NoShapes?
    && s.allOf == [] && s.when.None? && s.andThen.None?
  }

  /** Fit for a field, and with room for the guard when entered at `depth`. */
  ghost predicate Fine(s: Schema, depth: nat) {
    Plain(s, INHERITED) && Room(s, depth)
  }

  /** Fit for a choice or condition. */
  ghost predicate Harmless(s: Schema, depth: nat) {
    Open(s) && Room(s, depth)
  }

  /** Without any field looked up by name. */
  ghost predicate Simple(s: Schema, depth: nat) {
    Blind(s) && Room(s, depth)
  }

  ghost predicate FineFields(properties: seq<(string, Schema)>, depth: nat) {
    forall k :: 0 <= k < |properties| ==> Fine(properties[k].1, depth)
  }

  ghost predicate HarmlessAll(schemas: seq<Schema>, depth: nat) {
    forall k :: 0 <= k < |schemas| ==> Harmless(schemas[k], depth)
  }

  ghost predicate SimpleAll(schemas: seq<Schema>, depth: nat) {
    forall k :: 0 <= k < |schemas| ==> Simple(schemas[k], depth)
  }

  /** By length and first letter: a necessary condition for an inherited name. */
  predicate LooksInherited(name: string) {
    && |name| > 0
    && (|| name[0] == '_' || (name[0] == 'c' && |name| == 11) || (name[0] == 'h' && |name| == 14)
        || (name[0] == 'i' && |name| == 13) || (name[0] == 'p' && |name| == 20)
        || (name[0] == 't' && |name| in {8, 14}) || (name[0] == 'v' && |name| == 7))
  }

  lemma {:induction false} InheritedLookSo(name: string)
    requires name in INHERITED
    ensures LooksInherited(name)
  {
  }

  predicate OwnNames(properties: seq<(string, Schema)>) {
    forall k :: 0 <= k < |properties| ==> !LooksInherited(properties[k].0)
  }

  lemma {:induction false} OwnNamesListNone(properties: seq<(string, Schema)>)
    requires OwnNames(properties)
    ensures ListsNone(properties, INHERITED)
  {
    forall k | 0 <= k < |properties|
      ensures properties[k].0 !in INHERITED
    {
      if properties[k].0 in INHERITED { InheritedLookSo(properties[k].0); }
    }
  }

  lemma {:induction false} LeafIsHarmless(s: Schema, depth: nat)
    requires Leaf(s) && depth <= MAX_DEPTH
    ensures Harmless(s, depth) && Simple(s, depth)
  {
  }

  lemma {:induction false} ObjectIsFine(required: seq<string>, properties: seq<(string, Schema)>, allOf: seq<Schema>, depth: nat)
    requires 0 < depth <= MAX_DEPTH && FineFields(properties, depth) && HarmlessAll(allOf, depth) && OwnNames(properties)
    ensures Fine(ObjectOf(required, properties, allOf), depth - 1)
  {
    OwnNamesListNone(properties);
  }

  lemma {:induction false} ArrayIsFine(maxItems: nat, items: Schema, depth: nat)
    requires 0 < depth <= MAX_DEPTH && Fine(items, depth)
    ensures Fine(ArrayOf(maxItems, items), depth - 1)
  {
  }

  lemma {:induction false} ArrayIsSimple(maxItems: nat, items: Schema, depth: nat)
    requires 0 < depth <= MAX_DEPTH && Simple(items, depth)
    ensures Simple(ArrayOf(maxItems, items), depth - 1)
  {
  }

  lemma {:induction false} ChoiceIsSimple(list: seq<Schema>, depth: nat)
    requires 0 < depth <= MAX_DEPTH && SimpleAll(list, depth)
    ensures Simple(ANY.(anyOf := Shapes(list)), depth - 1)
  {
  }

  /** Exactly one of harmless shapes. */
  lemma {:induction false} ChoiceIsHarmless(required: seq<string>, list: seq<Schema>, depth: nat)
    requires 0 < depth <= MAX_DEPTH && HarmlessAll(list, depth)
    ensures Harmless(ANY.(required := required, oneOf := Shapes(list)), depth - 1)
  {
  }

  lemma {:induction false} PrimitiveIsSimple(depth: nat)
    requires depth < MAX_DEPTH
    ensures Simple(PRIMITIVE_VALUE, depth)
  {
    LeafIsHarmless(TextUpTo(10_000), depth + 1);
    LeafIsHarmless(KindOf(IsNumber), depth + 1);
    LeafIsHarmless(KindOf(IsBoolean), depth + 1);
    LeafIsHarmless(KindOf(IsNull), depth + 1);
    ChoiceIsSimple([TextUpTo(10_000), KindOf(IsNumber), KindOf(IsBoolean), KindOf(IsNull)], depth + 1);
  }

  /** A list of fields that are leaves, simple, or already known to be fine. */
  lemma {:induction false} FieldsAreFine(properties: seq<(string, Schema)>, depth: nat)
    requires depth <= MAX_DEPTH
    requires forall k :: 0 <= k < |properties| ==>
               Leaf(properties[k].1) || Simple(properties[k].1, depth) || Fine(properties[k].1, depth)
    ensures FineFields(properties, depth)
  {
    forall k | 0 <= k < |properties|
      ensures Fine(properties[k].1, depth)
    {
      if Leaf(properties[k].1) { LeafIsHarmless(properties[k].1, depth); }
    }
  }

  lemma {:induction false} WhenIsHarmless(operation: string, andThen: Schema, depth: nat)
    requires depth + 2 <= MAX_DEPTH && Harmless(andThen, depth + 1)
    ensures Harmless(WhenOperation(operation, andThen), depth)
  {
    var constant := ANY.(constant := Some(TextLiteral(operation)));
    LeafIsHarmless(constant, depth + 2);
    var when := ANY.(required := ["op"], properties := Properties([("op", constant)]));
    assert Harmless(when, depth + 1);
  }

  lemma {:induction false} WhenRequiresIsHarmless(operation: string, required: seq<string>, depth: nat)
    requires depth + 2 <= MAX_DEPTH
    ensures Harmless(WhenOperation(operation, Requires(required)), depth)
  {
    LeafIsHarmless(Requires(required), depth + 1);
    WhenIsHarmless(operation, Requires(required), depth);
  }

  lemma {:induction false} NoteTargetIsHarmless(required: seq<string>, depth: nat)
    requires depth + 2 <= MAX_DEPTH
    ensures Harmless(ANY.(required := required, oneOf := Shapes([TARGET_PATH, TARGET_DAILY])), depth)
  {
    LeafIsHarmless(TARGET_PATH, depth + 1);
    LeafIsHarmless(ANY.(constant := Some(BooleanLiteral(true))), depth + 2);
    assert Harmless(TARGET_DAILY, depth + 1);
    ChoiceIsHarmless(required, [TARGET_PATH, TARGET_DAILY], depth + 1);
  }

  lemma {:induction false} NoteFields()
    ensures FineFields(NOTE_FIELDS, 1) && OwnNames(NOTE_FIELDS)
  {
    FieldsAreFine(NOTE_FIELDS, 1);
  }

  lemma {:induction false} NoteConditionIsHarmless(operation: string, required: seq<string>)
    ensures Harmless(WhenOperation(operation, ANY.(required := required, oneOf := Shapes([TARGET_PATH, TARGET_DAILY]))), 1)
  {
    NoteTargetIsHarmless(required, 2);
    WhenIsHarmless(operation, ANY.(required := required, oneOf := Shapes([TARGET_PATH, TARGET_DAILY])), 1);
  }

  lemma {:induction false} NoteConditions()
    ensures HarmlessAll(NOTE_CONDITIONS, 1)
  {
    NoteConditionIsHarmless("state", []);
    NoteConditionIsHarmless("append", ["content", "expectedContentHash"]);
    NoteConditionIsHarmless("prepend", ["content", "expectedContentHash"]);
  }

  lemma {:induction false} NoteIsFine()
    ensures Fine(NOTE, 0)
  {
    NoteFields();
    NoteConditions();
    ObjectIsFine(["op"], NOTE_FIELDS, NOTE_CONDITIONS, 1);
  }

  lemma {:induction false} PropertyValueIsSimple()
    ensures Simple(PROPERTY_VALUE, 1)
  {
    PrimitiveIsSimple(2);
    PrimitiveIsSimple(3);
    ArrayIsSimple(100, PRIMITIVE_VALUE, 3);
    ChoiceIsSimple([PRIMITIVE_VALUE, ArrayOf(100, PRIMITIVE_VALUE)], 2);
  }

  lemma {:induction false} PropertyFields()
    ensures FineFields(PROPERTY_FIELDS, 1) && OwnNames(PROPERTY_FIELDS)
  {
    PropertyValueIsSimple();
    FieldsAreFine(PROPERTY_FIELDS, 1);
  }

  lemma {:induction false} PropertyConditions()
    ensures HarmlessAll(PROPERTY_CONDITIONS, 1)
  {
    WhenRequiresIsHarmless("set", ["value", "expectedContentHash"], 1);
    WhenRequiresIsHarmless("remove", ["expectedContentHash"], 1);
  }

  lemma {:induction false} PropertyIsFine()
    ensures Fine(PROPERTY, 0)
  {
    PropertyFields();
    PropertyConditions();
    ObjectIsFine(["op", "path", "key"], PROPERTY_FIELDS, PROPERTY_CONDITIONS, 1);
  }

  lemma {:induction false} TaskFields()
    ensures FineFields(TASK_FIELDS, 1) && OwnNames(TASK_FIELDS)
  {
    FieldsAreFine(TASK_FIELDS, 1);
  }

  lemma {:induction false} TaskConditions()
    ensures HarmlessAll(TASK_CONDITIONS, 1)
  {
    WhenRequiresIsHarmless("create", ["path", "text", "expectedContentHash"], 1);
    WhenRequiresIsHarmless("update", ["path", "line", "originalTextHash", "expectedContentHash", "text"], 1);
    WhenRequiresIsHarmless("toggle", ["path", "line", "originalTextHash", "expectedContentHash"], 1);
    WhenRequiresIsHarmless("set_status", ["path", "line", "originalTextHash", "expectedContentHash", "status"], 1);
  }

  lemma {:induction false} TaskIsFine()
    ensures Fine(TASK, 0)
  {
    TaskFields();
    TaskConditions();
    ObjectIsFine(["op"], TASK_FIELDS, TASK_CONDITIONS, 1);
  }

  lemma {:induction false} InspectFields()
    ensures FineFields(INSPECT_FIELDS, 1) && OwnNames(INSPECT_FIELDS)
  {
    FiltersAreFine();
    SortIsFine();
    LeafIsHarmless(TextOf(1, 120), 2);
    ArrayIsSimple(32, TextOf(1, 120), 2);
    FieldsAreFine(INSPECT_FIELDS, 1);
  }

  lemma {:induction false} FiltersAreFine()
    ensures Fine(ArrayOf(16, FILTER), 1)
  {
    PrimitiveIsSimple(3);
    FieldsAreFine(FILTER_FIELDS, 3);
    ObjectIsFine(["field", "op"], FILTER_FIELDS, [], 3);
    ArrayIsFine(16, FILTER, 2);
  }

  lemma {:induction false} SortIsFine()
    ensures Fine(SORT, 1)
  {
    FieldsAreFine(SORT_FIELDS, 2);
    ObjectIsFine(["field"], SORT_FIELDS, [], 2);
  }

  lemma {:induction false} InspectConditions()
    ensures HarmlessAll(INSPECT_CONDITIONS, 1)
  {
    WhenRequiresIsHarmless("file_info", ["path"], 1);
    WhenRequiresIsHarmless("outline", ["path"], 1);
    WhenRequiresIsHarmless("word_count", ["path"], 1);
  }

  lemma {:induction false} InspectIsFine()
    ensures Fine(INSPECT, 0)
  {
    InspectFields();
    InspectConditions();
    ObjectIsFine(["op"], INSPECT_FIELDS, INSPECT_CONDITIONS, 1);
  }

  lemma {:induction false} TemplateFields()
    ensures FineFields(TEMPLATE_FIELDS, 1) && OwnNames(TEMPLATE_FIELDS)
  {
    LeafIsHarmless(TextUpTo(1000), 2);
    assert Simple(VARIABLES, 1);
    FieldsAreFine(TEMPLATE_FIELDS, 1);
  }

  lemma {:induction false} CreateConditionIsHarmless()
    ensures Harmless(WhenOperation("create", CREATE_FROM_TEMPLATE), 1)
  {
    LeafIsHarmless(Requires(["path"]), 3);
    LeafIsHarmless(Requires(["uniqueName"]), 3);
    ChoiceIsHarmless(["templatePath"], [Requires(["path"]), Requires(["uniqueName"])], 3);
    WhenIsHarmless("create", CREATE_FROM_TEMPLATE, 1);
  }

  lemma {:induction false} TemplateConditions()
    ensures HarmlessAll(TEMPLATE_CONDITIONS, 1)
  {
    WhenRequiresIsHarmless("read", ["templatePath"], 1);
    WhenRequiresIsHarmless("preview", ["templatePath"], 1);
    WhenRequiresIsHarmless("insert", ["path", "templatePath", "expectedContentHash"], 1);
    CreateConditionIsHarmless();
  }

  lemma {:induction false} TemplateIsFine()
    ensures Fine(TEMPLATE, 0)
  {
    TemplateFields();
    TemplateConditions();
    ObjectIsFine(["op"], TEMPLATE_FIELDS, TEMPLATE_CONDITIONS, 1);
  }

  lemma {:induction false} AutomationFields()
    ensures FineFields(AUTOMATION_FIELDS, 1) && OwnNames(AUTOMATION_FIELDS)
  {
    PrimitiveIsSimple(3);
    FieldsAreFine(ARGUMENT_FIELDS, 3);
    ObjectIsFine(["name", "value"], ARGUMENT_FIELDS, [], 3);
    ArrayIsFine(16, ARGUMENT, 2);
    FieldsAreFine(AUTOMATION_FIELDS, 1);
  }

  lemma {:induction false} AutomationConditions()
    ensures HarmlessAll(AUTOMATION_CONDITIONS, 1)
  {
    WhenRequiresIsHarmless("run", ["alias"], 1);
  }

  lemma {:induction false} AutomationIsFine()
    ensures Fine(AUTOMATION, 0)
  {
    AutomationFields();
    AutomationConditions();
    ObjectIsFine(["op"], AUTOMATION_FIELDS, AUTOMATION_CONDITIONS, 1);
  }

  lemma {:induction false} SyncStatusIsFine()
    ensures Fine(SYNC_STATUS, 0)
  {
    ObjectIsFine([], [], [], 1);
  }

  lemma {:induction false} ShippedIsFine(tool: Tool)
    ensures Fine(SchemaOf(tool), 0)
  {
    var s := SchemaOf(tool);
    match tool {
      case NoteTool => assert Fine(s, 0) by { NoteIsFine(); }
      case PropertyTool => assert Fine(s, 0) by { PropertyIsFine(); }
      case TaskTool => assert Fine(s, 0) by { TaskIsFine(); }
      case InspectTool => assert Fine(s, 0) by { InspectIsFine(); }
      case TemplateTool => assert Fine(s, 0) by { TemplateIsFine(); }
      case SyncStatusTool => assert Fine(s, 0) by { SyncStatusIsFine(); }
      case AutomationTool => assert Fine(s, 0) by { AutomationIsFine(); }
    }
  }

  // ---------------------------------------------------------------------------
  // What validation decides
  // ---------------------------------------------------------------------------

  /** On every input of every size the validator decides its schema's keywords, and never runs into the depth guard. */
  lemma {:induction false} ValidateIsMeaning(tool: Tool, input: Value)
    ensures Validate(tool, input).None? <==> Means(input, SchemaOf(tool), INHERITED)
    ensures Validate(tool, input) != Some(TooDeep)
  {
    ShippedIsFine(tool);
    CheckIsMeaning(input, SchemaOf(tool), INHERITED, 0);
  }

  /**
   * Against the JSON Schema reading: what that reading accepts is accepted, and an accepted input satisfies it
   * exactly when no closed object in it has an unlisted field under an inherited name.
   */
  lemma {:induction false} ClosedUpToInheritedNames(tool: Tool, input: Value)
    ensures Means(input, SchemaOf(tool), {})
            <==> Validate(tool, input).None? && !Stray(input, SchemaOf(tool), INHERITED)
  {
    ShippedIsFine(tool);
    ValidateIsMeaning(tool, input);
    StrayIsTheDifference(input, SchemaOf(tool), INHERITED);
  }

  /** The difference is real: a closed schema without any field accepts `{"toString": null}`. */
  lemma {:induction false} InheritedNamePassesClosedSchema()
    ensures Validate(SyncStatusTool, STRAY_INPUT).None? && !Means(STRAY_INPUT, SchemaOf(SyncStatusTool), {})
  {
    StrayInputIsTheDifference(STRAY_INPUT, INHERITED);
    ValidateIsMeaning(SyncStatusTool, STRAY_INPUT);
    ClosedUpToInheritedNames(SyncStatusTool, STRAY_INPUT);
  }

  lemma {:induction false} StrayInputIsTheDifference(input: Value, free: set<string>)
    requires input == STRAY_INPUT && "toString" in free
    ensures Means(input, SchemaOf(SyncStatusTool), free) && Stray(input, SchemaOf(SyncStatusTool), free)
  {
    StrayInputPasses(STRAY_INPUT.fields, free);
  }

  /** But an object with symbol keys is refused there as everywhere. */
  lemma {:induction false} SymbolsAreRefusedUnderAnyName(fields: seq<(string, Value)>)
    requires |fields| == 1 && fields[0].0 in INHERITED && HasSymbols(fields[0].1)
    ensures Validate(SyncStatusTool, Record(false, fields)).Some?
  {
    var input := Record(false, fields);
    ValidateIsMeaning(SyncStatusTool, input);
    MeansInParts(input, SYNC_STATUS, INHERITED);
    assert !FieldMeans(input.fields[0].0, input.fields[0].1, SYNC_STATUS, INHERITED);
  }

  const STRAY_INPUT := Record(false, [("toString", Null)])

  lemma {:induction false} StrayInputPasses(fields: seq<(string, Value)>, free: set<string>)
    requires |fields| == 1 && fields[0].0 in free && !HasSymbols(fields[0].1)
    ensures Means(Record(false, fields), SYNC_STATUS, free) && Stray(Record(false, fields), SYNC_STATUS, free)
  {
    var input := Record(false, fields);
    assert StrayField(input.fields[0].0, input.fields[0].1, SYNC_STATUS, free);
    assert FieldMeans(input.fields[0].0, input.fields[0].1, SYNC_STATUS, free);
    MeansInParts(input, SYNC_STATUS, free);
  }

  // ---------------------------------------------------------------------------
  // Conditional parts
  // ---------------------------------------------------------------------------

  function Field(v: Value, key: string): Option<Value>
    requires v.Record?
  {
    var i := Find(v.fields, key);
    if i < 0 then None else Some(v.fields[i].1)
  }

  /** Field names of an object are distinct. */
  ghost predicate Distinct(v: Value)
    requires v.Record?
  {
    forall i, j :: 0 <= i < j < |v.fields| ==> v.fields[i].0 != v.fields[j].0
  }

  lemma {:induction false} FieldHasItsSchema(
      v: Value, required: seq<string>, properties: seq<(string, Schema)>, allOf: seq<Schema>, free: set<string>, key: string, p: nat)
    requires v.Record? && Means(v, ObjectOf(required, properties, allOf), free)
    requires Find(properties, key) == p && Field(v, key).Some?
    ensures Means(Field(v, key).value, properties[p].1, free)
  {
    MeansInParts(v, ObjectOf(required, properties, allOf), free);
    var i := Find(v.fields, key);
    assert FieldMeans(v.fields[i].0, v.fields[i].1, ObjectOf(required, properties, allOf), free);
  }

  /** A schema that lists one field with one constant: the field is there and is that constant. */
  lemma {:induction false} ConstantField(v: Value, key: string, constant: Literal, free: set<string>)
    requires v.Record? && !v.symbols && Distinct(v) && key !in free
    ensures var s := ANY.(required := [key], properties := Properties([(key, ANY.(constant := Some(constant)))]));
            Means(v, s, free)
            <==> Field(v, key).Some? && IsLiteral(Field(v, key).value, constant) && NoSymbolsUnder(v, free)
  {
    var leaf := ANY.(constant := Some(constant));
    var s := ANY.(required := [key], properties := Properties([(key, leaf)]));
    MeansInParts(v, s, free);
    assert Find(s.properties.list, key) == 0;
    forall i | 0 <= i < |v.fields|
      ensures FieldMeans(v.fields[i].0, v.fields[i].1, s, free)
              <==> && (v.fields[i].0 == key ==> IsLiteral(v.fields[i].1, constant))
                   && (v.fields[i].0 in free ==> !HasSymbols(v.fields[i].1))
    {
      LeafMeans(v.fields[i].1, constant, free);
      if v.fields[i].0 != key { assert Find(s.properties.list, v.fields[i].0) < 0; }
    }
    assert Has(v, s.required[0]) <==> Field(v, key).Some?;
  }

  lemma {:induction false} LeafMeans(v: Value, constant: Literal, free: set<string>)
    ensures Means(v, ANY.(constant := Some(constant)), free) <==> IsLiteral(v, constant) && (v.Record? ==> !v.symbols)
  {
    MeansInParts(v, ANY.(constant := Some(constant)), free);
  }

  lemma {:induction false} RequiresMeans(v: Value, required: seq<string>, free: set<string>)
    requires v.Record? && !v.symbols
    ensures Means(v, Requires(required), free) <==> forall k :: 0 <= k < |required| ==> Has(v, required[k])
  {
    MeansInParts(v, Requires(required), free);
  }

  /** A conditional part applies exactly to the records of its operation, but for symbols under an inherited name. */
  lemma {:induction false} WhenMeans(v: Value, operation: string, andThen: Schema, free: set<string>)
    requires v.Record? && !v.symbols && Distinct(v) && "op" !in free
    ensures Means(v, WhenOperation(operation, andThen), free)
            <==> (Field(v, "op") == Some(Text(operation)) && NoSymbolsUnder(v, free) ==> Means(v, andThen, free))
  {
    ConstantField(v, "op", TextLiteral(operation), free);
    MeansInParts(v, WhenOperation(operation, andThen), free);
  }

  /** Exactly one target: a path, or the daily note. */
  ghost predicate OneTarget(v: Value)
    requires v.Record?
  {
    Has(v, "path") <==> Field(v, "daily") != Some(Boolean(true))
  }

  lemma {:induction false} TargetMeans(v: Value, required: seq<string>, free: set<string>)
    requires v.Record? && !v.symbols && Distinct(v) && "daily" !in free && NoSymbolsUnder(v, free)
    ensures Means(v, ANY.(required := required, oneOf := Shapes([TARGET_PATH, TARGET_DAILY])), free)
            <==> (forall k :: 0 <= k < |required| ==> Has(v, required[k])) && OneTarget(v)
  {
    var s := ANY.(required := required, oneOf := Shapes([TARGET_PATH, TARGET_DAILY]));
    MeansInParts(v, s, free);
    RequiresMeans(v, ["path"], free);
    ConstantField(v, "daily", BooleanLiteral(true), free);
    OneOfTwo(v, s, TARGET_PATH, TARGET_DAILY, free);
    assert ["path"][0] == "path";
  }

  lemma {:induction false} OneOfTwo(v: Value, s: Schema, a: Schema, b: Schema, free: set<string>)
    requires s.oneOf == Shapes([a, b])
    ensures OneShape(v, s, free) <==> Means(v, a, free) != Means(v, b, free)
  {
    assert s.oneOf.list[0] == a && s.oneOf.list[1] == b;
  }

  lemma {:induction false} ListedNamesAreOwn()
    ensures "op" !in INHERITED && "daily" !in INHERITED
  {
    if "op" in INHERITED { InheritedLookSo("op"); }
    if "daily" in INHERITED { InheritedLookSo("daily"); }
  }
}
