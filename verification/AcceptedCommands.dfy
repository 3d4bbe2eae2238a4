/** The seven commands in plain terms: which inputs the validator accepts, field by field and operation by operation. */
module AcceptedCommands {
  import opened Text
  import opened Schema
  import opened SchemaClosure
  import opened CommandSchemas

  // ---------------------------------------------------------------------------
  // Fields
  // ---------------------------------------------------------------------------

  predicate Str(x: Value, low: nat, high: nat) {
    x.Text? && low <= |x.s| <= high
  }

  predicate OneOfTexts(x: Value, texts: seq<string>) {
    x.Text? && x.s in texts
  }

  /** An integer of at most 53 bits between the bounds; minus zero is zero. */
  predicate WholeNumber(x: Value, low: int, high: Option<int>) {
    x.Numeric? && (x.n.NegativeZero? || x.n.Finite?)
    && var value := if x.n.NegativeZero? then 0.0 else x.n.value;
       && value.Floor as real == value && -9_007_199_254_740_991 <= value.Floor <= 9_007_199_254_740_991
       && low <= value.Floor && (high.Some? ==> value.Floor <= high.value)
  }

  predicate IsHashText(x: Value) {
    x.Text? && |x.s| == 64 && forall i :: 0 <= i < 64 ==> '0' <= x.s[i] <= '9' || 'a' <= x.s[i] <= 'f' || 'A' <= x.s[i] <= 'F'
  }

  predicate IsAliasText(x: Value) {
    && x.Text? && 1 <= |x.s| <= 64 && 'a' <= x.s[0] <= 'z'
    && forall i :: 0 <= i < |x.s| ==> 'a' <= x.s[i] <= 'z' || '0' <= x.s[i] <= '9' || x.s[i] == '-'
  }

  /** A text, a finite number, a boolean or null. */
  predicate IsPrimitive(x: Value) {
    Str(x, 0, 10_000) || (x.Numeric? && (x.n.Finite? || x.n.NegativeZero?)) || x.Boolean? || x.Null?
  }

  lemma {:induction false} TextMeans(x: Value, low: nat, high: nat, free: set<string>)
    ensures Means(x, TextOf(low, high), free) <==> Str(x, low, high)
    ensures Means(x, TextUpTo(high), free) <==> Str(x, 0, high)
  {
    MeansInParts(x, TextOf(low, high), free);
    MeansInParts(x, TextUpTo(high), free);
  }

  lemma {:induction false} EnumExactly(x: Value, values: seq<Literal>, texts: seq<string>, free: set<string>)
    requires |values| == |texts| && forall k :: 0 <= k < |texts| ==> values[k] == TextLiteral(texts[k])
    ensures Means(x, EnumOf(values), free) <==> OneOfTexts(x, texts)
  {
    MeansInParts(x, EnumOf(values), free);
    if OneOfTexts(x, texts) {
      var k :| 0 <= k < |texts| && texts[k] == x.s;
      assert values[k] in values && IsLiteral(x, values[k]);
    }
  }

  lemma {:induction false} PatternMeans(x: Value, free: set<string>)
    ensures Means(x, HASH, free) <==> IsHashText(x)
    ensures Means(x, PatternOf(Alias), free) <==> IsAliasText(x)
  {
    MeansInParts(x, HASH, free);
    MeansInParts(x, PatternOf(Alias), free);
  }

  lemma {:induction false} KindMeans(x: Value, kind: Kind, free: set<string>)
    requires kind != IsObject && kind != IsArray
    ensures Means(x, KindOf(kind), free) <==> HasKind(x, kind)
  {
    MeansInParts(x, KindOf(kind), free);
  }

  lemma {:induction false} WholeMeans(x: Value, low: int, high: Option<int>, free: set<string>)
    ensures Means(x, ANY.(kind := Some(IsInteger), minimum := Some(low), maximum := high), free) <==> WholeNumber(x, low, high)
  {
    MeansInParts(x, ANY.(kind := Some(IsInteger), minimum := Some(low), maximum := high), free);
  }

  lemma {:induction false} PrimitiveMeans(x: Value, free: set<string>)
    ensures Means(x, PRIMITIVE_VALUE, free) <==> IsPrimitive(x)
  {
    var list := [TextUpTo(10_000), KindOf(IsNumber), KindOf(IsBoolean), KindOf(IsNull)];
    MeansInParts(x, PRIMITIVE_VALUE, free);
    TextMeans(x, 0, 10_000, free);
    KindMeans(x, IsNumber, free);
    KindMeans(x, IsBoolean, free);
    KindMeans(x, IsNull, free);
    AnyOfFour(x, list, free);
  }

  lemma {:induction false} AnyOfFour(x: Value, list: seq<Schema>, free: set<string>)
    requires |list| == 4
    ensures (exists k :: 0 <= k < |list| && Means(x, list[k], free))
            <==> Means(x, list[0], free) || Means(x, list[1], free) || Means(x, list[2], free) || Means(x, list[3], free)
  {
  }

  lemma {:induction false} ArrayMeans(x: Value, maxItems: nat, items: Schema, free: set<string>)
    ensures Means(x, ArrayOf(maxItems, items), free)
            <==> x.Array? && |x.items| <= maxItems && forall k :: 0 <= k < |x.items| ==> Means(x.items[k], items, free)
  {
    MeansInParts(x, ArrayOf(maxItems, items), free);
  }

  /** An array of at most `most` items of one kind. */
  predicate ArrayWith(x: Value, most: nat, item: Value -> bool) {
    x.Array? && |x.items| <= most && forall k :: 0 <= k < |x.items| ==> item(x.items[k])
  }

  // ---------------------------------------------------------------------------
  // Records
  // ---------------------------------------------------------------------------

  /** What each field of a record may be. */
  type Table = seq<(string, Value -> bool)>

  /** A listed field is as the table says; an unlisted one is only there under an inherited name, without symbols. */
  predicate FieldOk(table: Table, name: string, x: Value) {
    var i := Find(table, name);
    if i >= 0 then table[i].1(x) else name in INHERITED && !HasSymbols(x)
  }

  predicate HasAll(x: Value, names: seq<string>)
    requires x.Record?
  {
    forall k :: 0 <= k < |names| ==> Has(x, names[k])
  }

  predicate Obeys(x: Value, required: seq<string>, table: Table) {
    && x.Record? && !x.symbols && HasAll(x, required)
    && forall k :: 0 <= k < |x.fields| ==> FieldOk(table, x.fields[k].0, x.fields[k].1)
  }

  /** The table says in plain terms what the schemas mean. */
  ghost predicate Describes(table: Table, fields: seq<(string, Schema)>) {
    && |table| == |fields|
    && (forall k :: 0 <= k < |table| ==> table[k].0 == fields[k].0)
    && (forall k :: 0 <= k < |table| ==> Same(table[k].1, fields[k].1))
  }

  /** Entries `i` up to `j` of table and fields agree. */
  ghost predicate DescribesPart(table: Table, fields: seq<(string, Schema)>, i: nat, j: nat) {
    && j <= |table| && j <= |fields|
    && forall k :: i <= k < j ==> table[k].0 == fields[k].0 && Same(table[k].1, fields[k].1)
  }

  lemma {:induction false} DescribesInParts(table: Table, fields: seq<(string, Schema)>, i: nat)
    requires |table| == |fields| && i <= |table|
    requires DescribesPart(table, fields, 0, i) && DescribesPart(table, fields, i, |table|)
    ensures Describes(table, fields)
  {
  }

  ghost predicate Same(plain: Value -> bool, s: Schema) {
    forall x :: plain(x) <==> Means(x, s, INHERITED)
  }

  lemma {:induction false} SameText(plain: Value -> bool, low: nat, high: nat)
    requires forall x :: plain(x) <==> Str(x, low, high)
    ensures Same(plain, TextOf(low, high)) && (low == 0 ==> Same(plain, TextUpTo(high)))
  {
    forall x
      ensures plain(x) <==> Means(x, TextOf(low, high), INHERITED)
      ensures low == 0 ==> (plain(x) <==> Means(x, TextUpTo(high), INHERITED))
    {
      TextMeans(x, low, high, INHERITED);
    }
  }

  lemma {:induction false} SameEnum(plain: Value -> bool, values: seq<Literal>, texts: seq<string>)
    requires |values| == |texts| && forall k :: 0 <= k < |texts| ==> values[k] == TextLiteral(texts[k])
    requires forall x :: plain(x) <==> OneOfTexts(x, texts)
    ensures Same(plain, EnumOf(values))
  {
    forall x
      ensures plain(x) <==> Means(x, EnumOf(values), INHERITED)
    {
      EnumExactly(x, values, texts, INHERITED);
    }
  }

  lemma {:induction false} SameHash(plain: Value -> bool)
    requires forall x :: plain(x) <==> IsHashText(x)
    ensures Same(plain, HASH)
  {
    forall x
      ensures plain(x) <==> Means(x, HASH, INHERITED)
    {
      PatternMeans(x, INHERITED);
    }
  }

  lemma {:induction false} SameAlias(plain: Value -> bool)
    requires forall x :: plain(x) <==> IsAliasText(x)
    ensures Same(plain, PatternOf(Alias))
  {
    forall x
      ensures plain(x) <==> Means(x, PatternOf(Alias), INHERITED)
    {
      PatternMeans(x, INHERITED);
    }
  }

  lemma {:induction false} SameBoolean(plain: Value -> bool)
    requires forall x :: plain(x) <==> x.Boolean?
    ensures Same(plain, KindOf(IsBoolean))
  {
    forall x
      ensures plain(x) <==> Means(x, KindOf(IsBoolean), INHERITED)
    {
      KindMeans(x, IsBoolean, INHERITED);
    }
  }

  lemma {:induction false} SameWhole(plain: Value -> bool, low: int, high: Option<int>)
    requires forall x :: plain(x) <==> WholeNumber(x, low, high)
    ensures Same(plain, ANY.(kind := Some(IsInteger), minimum := Some(low), maximum := high))
  {
    forall x
      ensures plain(x) <==> Means(x, ANY.(kind := Some(IsInteger), minimum := Some(low), maximum := high), INHERITED)
    {
      WholeMeans(x, low, high, INHERITED);
    }
  }

  lemma {:induction false} SamePrimitive(plain: Value -> bool)
    requires forall x :: plain(x) <==> IsPrimitive(x)
    ensures Same(plain, PRIMITIVE_VALUE)
  {
    forall x
      ensures plain(x) <==> Means(x, PRIMITIVE_VALUE, INHERITED)
    {
      PrimitiveMeans(x, INHERITED);
    }
  }

  lemma {:induction false} SameArray(plain: Value -> bool, most: nat, item: Value -> bool, items: Schema)
    requires Same(item, items) && forall x :: plain(x) <==> ArrayWith(x, most, item)
    ensures Same(plain, ArrayOf(most, items))
  {
    forall x
      ensures plain(x) <==> Means(x, ArrayOf(most, items), INHERITED)
    {
      ArrayMeans(x, most, items, INHERITED);
    }
  }

  lemma {:induction false} SameObject(plain: Value -> bool, required: seq<string>, table: Table, fields: seq<(string, Schema)>)
    requires Describes(table, fields) && forall x :: plain(x) <==> Obeys(x, required, table)
    ensures Same(plain, ObjectOf(required, fields, []))
  {
    forall x
      ensures plain(x) <==> Means(x, ObjectOf(required, fields, []), INHERITED)
    {
      ObeysExactly(x, table, fields, required, []);
    }
  }

  lemma {:induction false} SameFind<T, U>(a: seq<(string, T)>, b: seq<(string, U)>, name: string)
    requires |a| == |b| && forall k :: 0 <= k < |a| ==> a[k].0 == b[k].0
    ensures Find(a, name) == Find(b, name)
  {
    if a != [] {
      SameFind(a[1..], b[1..], name);
    }
  }

  lemma {:induction false} FieldOkExactly(
      table: Table, fields: seq<(string, Schema)>, required: seq<string>, allOf: seq<Schema>, name: string, x: Value)
    requires Describes(table, fields)
    ensures FieldOk(table, name, x) <==> FieldMeans(name, x, ObjectOf(required, fields, allOf), INHERITED)
  {
    SameFind(table, fields, name);
  }

  lemma {:induction false} ObeysExactly(x: Value, table: Table, fields: seq<(string, Schema)>, required: seq<string>, allOf: seq<Schema>)
    requires Describes(table, fields)
    ensures Means(x, ObjectOf(required, fields, allOf), INHERITED)
            <==> Obeys(x, required, table) && forall k :: 0 <= k < |allOf| ==> Means(x, allOf[k], INHERITED)
  {
    MeansInParts(x, ObjectOf(required, fields, allOf), INHERITED);
    if x.Record? {
      forall k | 0 <= k < |x.fields|
        ensures FieldOk(table, x.fields[k].0, x.fields[k].1)
                <==> FieldMeans(x.fields[k].0, x.fields[k].1, ObjectOf(required, fields, allOf), INHERITED)
      {
        FieldOkExactly(table, fields, required, allOf, x.fields[k].0, x.fields[k].1);
      }
    }
  }

  lemma {:induction false} ObeysNoSymbolsUnder(x: Value, required: seq<string>, table: Table, fields: seq<(string, Schema)>)
    requires Obeys(x, required, table) && OwnNames(fields) && Describes(table, fields)
    ensures NoSymbolsUnder(x, INHERITED)
  {
    OwnNamesListNone(fields);
    forall k | 0 <= k < |x.fields| && x.fields[k].0 in INHERITED
      ensures !HasSymbols(x.fields[k].1)
    {
      assert FieldOk(table, x.fields[k].0, x.fields[k].1);
      SameFind(table, fields, x.fields[k].0);
    }
  }

  // ---------------------------------------------------------------------------
  // Operations
  // ---------------------------------------------------------------------------

  /** A command of that operation has these fields. */
  predicate Needs(x: Value, operation: string, names: seq<string>)
    requires x.Record?
  {
    Field(x, "op") == Some(Value.Text(operation)) ==> HasAll(x, names)
  }

  lemma {:induction false} NeedsExactly(x: Value, operation: string, names: seq<string>)
    requires x.Record? && !x.symbols && Distinct(x) && NoSymbolsUnder(x, INHERITED)
    ensures Means(x, WhenOperation(operation, Requires(names)), INHERITED) <==> Needs(x, operation, names)
  {
    ListedNamesAreOwn();
    WhenMeans(x, operation, Requires(names), INHERITED);
    RequiresMeans(x, names, INHERITED);
  }

  /** Which fields each operation needs. */
  predicate MeetsNeeds(x: Value, needs: seq<(string, seq<string>)>)
    requires x.Record?
  {
    forall k :: 0 <= k < |needs| ==> Needs(x, needs[k].0, needs[k].1)
  }

  predicate Requiring(conditions: seq<Schema>, needs: seq<(string, seq<string>)>) {
    |conditions| == |needs| && forall k :: 0 <= k < |needs| ==> conditions[k] == WhenOperation(needs[k].0, Requires(needs[k].1))
  }

  lemma {:induction false} MeetsNeedsExactly(x: Value, conditions: seq<Schema>, needs: seq<(string, seq<string>)>)
    requires Requiring(conditions, needs) && x.Record? && !x.symbols && Distinct(x) && NoSymbolsUnder(x, INHERITED)
    ensures (forall k :: 0 <= k < |conditions| ==> Means(x, conditions[k], INHERITED)) <==> MeetsNeeds(x, needs)
  {
    forall k | 0 <= k < |needs|
      ensures Means(x, conditions[k], INHERITED) <==> Needs(x, needs[k].0, needs[k].1)
    {
      NeedsExactly(x, needs[k].0, needs[k].1);
    }
  }

  /** A record with a table and the needs of its operations. */
  predicate Orderly(x: Value, required: seq<string>, table: Table, needs: seq<(string, seq<string>)>) {
    Obeys(x, required, table) && MeetsNeeds(x, needs)
  }

  lemma {:induction false} OrderlyExactly(
      x: Value, required: seq<string>, table: Table, needs: seq<(string, seq<string>)>, fields: seq<(string, Schema)>,
      conditions: seq<Schema>)
    requires Describes(table, fields) && OwnNames(fields) && Requiring(conditions, needs) && (x.Record? ==> Distinct(x))
    ensures Means(x, ObjectOf(required, fields, conditions), INHERITED) <==> Orderly(x, required, table, needs)
  {
    ObeysExactly(x, table, fields, required, conditions);
    if Obeys(x, required, table) {
      ObeysNoSymbolsUnder(x, required, table, fields);
      MeetsNeedsExactly(x, conditions, needs);
    }
  }

  // ---------------------------------------------------------------------------
  // The note command
  // ---------------------------------------------------------------------------

  const NOTE_TABLE: Table :=
    [("op", x => OneOfTexts(x, ["state", "append", "prepend"])), ("path", x => Str(x, 1, 1024)), ("daily", (x: Value) => x.Boolean?),
     ("content", x => Str(x, 0, 262_144)), ("section", x => Str(x, 1, 300)), ("expectedContentHash", x => IsHashText(x)),
     ("idempotencyKey", x => Str(x, 1, 128))]

  lemma {:induction false} NoteTable()
    ensures Describes(NOTE_TABLE, NOTE_FIELDS)
  {
    NoteTableBegins();
    NoteTableEnds();
    DescribesInParts(NOTE_TABLE, NOTE_FIELDS, 4);
  }

  lemma {:induction false} NoteTableBegins()
    ensures DescribesPart(NOTE_TABLE, NOTE_FIELDS, 0, 4)
  {
    SameEnum(NOTE_TABLE[0].1, [TextLiteral("state"), TextLiteral("append"), TextLiteral("prepend")], ["state", "append", "prepend"]);
    SameText(NOTE_TABLE[1].1, 1, 1024);
    SameBoolean(NOTE_TABLE[2].1);
    SameText(NOTE_TABLE[3].1, 0, 262_144);
  }

  lemma {:induction false} NoteTableEnds()
    ensures DescribesPart(NOTE_TABLE, NOTE_FIELDS, 4, 7)
  {
    SameText(NOTE_TABLE[4].1, 1, 300);
    SameHash(NOTE_TABLE[5].1);
    SameText(NOTE_TABLE[6].1, 1, 128);
  }

  /** A note command is accepted exactly when its fields are in order and it names one target, and a change its text and hash. */
  lemma {:induction false} AcceptedNote(v: Value)
    requires v.Record? ==> Distinct(v)
    ensures Validate(NoteTool, v).None? <==> Orderly(v, ["op"], NOTE_TABLE, NOTE_NEEDS) && OneTarget(v)
  {
    ValidateIsMeaning(NoteTool, v);
    NoteTable();
    NoteFields();
    ObeysExactly(v, NOTE_TABLE, NOTE_FIELDS, ["op"], NOTE_CONDITIONS);
    if Obeys(v, ["op"], NOTE_TABLE) {
      ObeysNoSymbolsUnder(v, ["op"], NOTE_TABLE, NOTE_FIELDS);
      OperationOf(v, NOTE_TABLE, ["state", "append", "prepend"]);
      NoteConditionsExactly(v);
    }
  }

  const NOTE_NEEDS: seq<(string, seq<string>)> :=
    [("append", ["content", "expectedContentHash"]), ("prepend", ["content", "expectedContentHash"])]

  lemma {:induction false} AllThree(v: Value, list: seq<Schema>, a: Schema, b: Schema, c: Schema)
    requires list == [a, b, c]
    ensures (forall k :: 0 <= k < |list| ==> Means(v, list[k], INHERITED))
            <==> Means(v, a, INHERITED) && Means(v, b, INHERITED) && Means(v, c, INHERITED)
  {
    assert list[0] == a && list[1] == b && list[2] == c;
  }

  lemma {:induction false} NoteConditionsExactly(v: Value)
    requires v.Record? && !v.symbols && Distinct(v) && NoSymbolsUnder(v, INHERITED)
    requires Field(v, "op").Some? && OneOfTexts(Field(v, "op").value, ["state", "append", "prepend"])
    ensures (forall k :: 0 <= k < |NOTE_CONDITIONS| ==> Means(v, NOTE_CONDITIONS[k], INHERITED))
            <==> MeetsNeeds(v, NOTE_NEEDS) && OneTarget(v)
  {
    AllThree(v, NOTE_CONDITIONS, WhenOperation("state", NOTE_TARGET), WhenOperation("append", NOTE_MUTATION),
      WhenOperation("prepend", NOTE_MUTATION));
    StateMeans(v);
    ChangeMeans(v, "append");
    ChangeMeans(v, "prepend");
    NoteNeeds(v);
    IsOneOfThree(v);
  }

  lemma {:induction false} NoteNeeds(v: Value)
    requires v.Record?
    ensures MeetsNeeds(v, NOTE_NEEDS)
            <==> && Needs(v, "append", ["content", "expectedContentHash"])
                 && Needs(v, "prepend", ["content", "expectedContentHash"])
  {
    assert MeetsNeeds(v, NOTE_NEEDS) <==> Needs(v, NOTE_NEEDS[0].0, NOTE_NEEDS[0].1) && Needs(v, NOTE_NEEDS[1].0, NOTE_NEEDS[1].1);
  }

  lemma {:induction false} IsOneOfThree(v: Value)
    requires v.Record? && Field(v, "op").Some? && OneOfTexts(Field(v, "op").value, ["state", "append", "prepend"])
    ensures Is(v, "state") || Is(v, "append") || Is(v, "prepend")
  {
  }

  predicate Is(v: Value, operation: string)
    requires v.Record?
  {
    Field(v, "op") == Some(Value.Text(operation))
  }

  lemma {:induction false} StateMeans(v: Value)
    requires v.Record? && !v.symbols && Distinct(v) && NoSymbolsUnder(v, INHERITED)
    ensures Means(v, WhenOperation("state", NOTE_TARGET), INHERITED) <==> (Is(v, "state") ==> OneTarget(v))
  {
    ListedNamesAreOwn();
    WhenMeans(v, "state", NOTE_TARGET, INHERITED);
    TargetMeans(v, [], INHERITED);
  }

  lemma {:induction false} ChangeMeans(v: Value, operation: string)
    requires v.Record? && !v.symbols && Distinct(v) && NoSymbolsUnder(v, INHERITED)
    ensures Means(v, WhenOperation(operation, NOTE_MUTATION), INHERITED)
            <==> Needs(v, operation, ["content", "expectedContentHash"]) && (Is(v, operation) ==> OneTarget(v))
  {
    ListedNamesAreOwn();
    WhenMeans(v, operation, NOTE_MUTATION, INHERITED);
    TargetMeans(v, ["content", "expectedContentHash"], INHERITED);
  }

  /** The operation of a command is one of its table's. */
  lemma {:induction false} OperationOf(v: Value, table: Table, operations: seq<string>)
    requires v.Record? && Obeys(v, ["op"], table) && table != [] && table[0].0 == "op"
    requires forall x :: table[0].1(x) ==> OneOfTexts(x, operations)
    ensures Field(v, "op").Some? && OneOfTexts(Field(v, "op").value, operations)
  {
    assert Has(v, ["op"][0]);
    var i := Find(v.fields, "op");
    assert FieldOk(table, v.fields[i].0, v.fields[i].1) && Find(table, "op") == 0;
  }

  // ---------------------------------------------------------------------------
  // The property command
  // ---------------------------------------------------------------------------

  const PROPERTY_TABLE: Table :=
    [("op", x => OneOfTexts(x, ["get", "set", "remove"])), ("path", x => Str(x, 1, 1024)), ("key", x => Str(x, 1, 120)),
     ("value", x => IsPrimitive(x) || ArrayWith(x, 100, y => IsPrimitive(y))),
     ("valueType", x => OneOfTexts(x, ["string", "number", "boolean", "date", "list", "null"])),
     ("expectedContentHash", x => IsHashText(x)), ("idempotencyKey", x => Str(x, 1, 128))]

  const PROPERTY_NEEDS: seq<(string, seq<string>)> :=
    [("set", ["value", "expectedContentHash"]), ("remove", ["expectedContentHash"])]

  lemma {:induction false} SamePropertyValue(plain: Value -> bool)
    requires forall x :: plain(x) <==> IsPrimitive(x) || ArrayWith(x, 100, y => IsPrimitive(y))
    ensures Same(plain, PROPERTY_VALUE)
  {
    var manyOf: Value -> bool := x => ArrayWith(x, 100, y => IsPrimitive(y));
    SamePrimitive(y => IsPrimitive(y));
    SameArray(manyOf, 100, y => IsPrimitive(y), PRIMITIVE_VALUE);
    forall x
      ensures plain(x) <==> Means(x, PROPERTY_VALUE, INHERITED)
    {
      PrimitiveMeans(x, INHERITED);
      assert manyOf(x) <==> Means(x, ArrayOf(100, PRIMITIVE_VALUE), INHERITED);
      MeansInParts(x, PROPERTY_VALUE, INHERITED);
      AnyOfTwo(x, PRIMITIVE_VALUE, ArrayOf(100, PRIMITIVE_VALUE), PROPERTY_VALUE.anyOf.list);
    }
  }

  lemma {:induction false} AnyOfTwo(x: Value, a: Schema, b: Schema, list: seq<Schema>)
    requires |list| == 2 && list[0] == a && list[1] == b
    ensures (exists k :: 0 <= k < |list| && Means(x, list[k], INHERITED)) <==> Means(x, a, INHERITED) || Means(x, b, INHERITED)
  {
  }

  lemma {:induction false} PropertyTable()
    ensures Describes(PROPERTY_TABLE, PROPERTY_FIELDS)
  {
    PropertyTableBegins();
    PropertyTableEnds();
    DescribesInParts(PROPERTY_TABLE, PROPERTY_FIELDS, 4);
  }

  lemma {:induction false} PropertyTableBegins()
    ensures DescribesPart(PROPERTY_TABLE, PROPERTY_FIELDS, 0, 4)
  {
    SameEnum(PROPERTY_TABLE[0].1, [TextLiteral("get"), TextLiteral("set"), TextLiteral("remove")], ["get", "set", "remove"]);
    SameText(PROPERTY_TABLE[1].1, 1, 1024);
    SameText(PROPERTY_TABLE[2].1, 1, 120);
    SamePropertyValue(PROPERTY_TABLE[3].1);
  }

  lemma {:induction false} PropertyTableEnds()
    ensures DescribesPart(PROPERTY_TABLE, PROPERTY_FIELDS, 4, 7)
  {
    SameEnum(PROPERTY_TABLE[4].1,
      [TextLiteral("string"), TextLiteral("number"), TextLiteral("boolean"), TextLiteral("date"), TextLiteral("list"), TextLiteral("null")],
      ["string", "number", "boolean", "date", "list", "null"]);
    SameHash(PROPERTY_TABLE[5].1);
    SameText(PROPERTY_TABLE[6].1, 1, 128);
  }

  /** A property command names note and key; setting needs the value and the note's hash, removing the hash. */
  lemma {:induction false} AcceptedProperty(v: Value)
    requires v.Record? ==> Distinct(v)
    ensures Validate(PropertyTool, v).None? <==> Orderly(v, ["op", "path", "key"], PROPERTY_TABLE, PROPERTY_NEEDS)
  {
    ValidateIsMeaning(PropertyTool, v);
    PropertyTable();
    PropertyFields();
    OrderlyExactly(v, ["op", "path", "key"], PROPERTY_TABLE, PROPERTY_NEEDS, PROPERTY_FIELDS, PROPERTY_CONDITIONS);
  }

  // ---------------------------------------------------------------------------
  // The task command
  // ---------------------------------------------------------------------------

  const TASK_TABLE: Table :=
    [("op", x => OneOfTexts(x, ["list", "create", "update", "toggle", "set_status"])), ("path", x => Str(x, 1, 1024)),
     ("scope", x => Str(x, 0, 1024)), ("line", x => WholeNumber(x, 1, None)), ("originalTextHash", x => IsHashText(x)),
     ("expectedContentHash", x => IsHashText(x)), ("text", x => Str(x, 0, 10_000)), ("status", x => Str(x, 1, 1)),
     ("section", x => Str(x, 1, 300)), ("limit", x => WholeNumber(x, 1, Some(200))), ("idempotencyKey", x => Str(x, 1, 128))]

  const TASK_NEEDS: seq<(string, seq<string>)> :=
    [("create", ["path", "text", "expectedContentHash"]),
     ("update", ["path", "line", "originalTextHash", "expectedContentHash", "text"]),
     ("toggle", ["path", "line", "originalTextHash", "expectedContentHash"]),
     ("set_status", ["path", "line", "originalTextHash", "expectedContentHash", "status"])]

  lemma {:induction false} TaskTable()
    ensures Describes(TASK_TABLE, TASK_FIELDS)
  {
    TaskTableBegins();
    TaskTableEnds();
    DescribesInParts(TASK_TABLE, TASK_FIELDS, 5);
  }

  lemma {:induction false} TaskTableBegins()
    ensures DescribesPart(TASK_TABLE, TASK_FIELDS, 0, 5)
  {
    SameEnum(TASK_TABLE[0].1,
      [TextLiteral("list"), TextLiteral("create"), TextLiteral("update"), TextLiteral("toggle"), TextLiteral("set_status")],
      ["list", "create", "update", "toggle", "set_status"]);
    SameText(TASK_TABLE[1].1, 1, 1024);
    SameText(TASK_TABLE[2].1, 0, 1024);
    SameWhole(TASK_TABLE[3].1, 1, None);
    SameHash(TASK_TABLE[4].1);
  }

  lemma {:induction false} TaskTableEnds()
    ensures DescribesPart(TASK_TABLE, TASK_FIELDS, 5, 11)
  {
    SameHash(TASK_TABLE[5].1);
    SameText(TASK_TABLE[6].1, 0, 10_000);
    SameText(TASK_TABLE[7].1, 1, 1);
    SameText(TASK_TABLE[8].1, 1, 300);
    SameWhole(TASK_TABLE[9].1, 1, Some(200));
    SameText(TASK_TABLE[10].1, 1, 128);
  }

  /** A task command that changes a task gives its place, its old text's hash and the note's; one that creates, its text. */
  lemma {:induction false} AcceptedTask(v: Value)
    requires v.Record? ==> Distinct(v)
    ensures Validate(TaskTool, v).None? <==> Orderly(v, ["op"], TASK_TABLE, TASK_NEEDS)
  {
    ValidateIsMeaning(TaskTool, v);
    TaskTable();
    TaskFields();
    OrderlyExactly(v, ["op"], TASK_TABLE, TASK_NEEDS, TASK_FIELDS, TASK_CONDITIONS);
  }

  // ---------------------------------------------------------------------------
  // The inspect command
  // ---------------------------------------------------------------------------

  const FILTER_TABLE: Table :=
    [("field", x => Str(x, 1, 120)),
     ("op", x => OneOfTexts(x, ["eq", "ne", "contains", "starts_with", "gt", "gte", "lt", "lte", "exists"])),
     ("value", x => IsPrimitive(x))]

  const SORT_TABLE: Table := [("field", x => Str(x, 1, 120)), ("direction", x => OneOfTexts(x, ["asc", "desc"]))]

  const INSPECT_TABLE: Table :=
    [("op", x => OneOfTexts(x, ["file_info", "outline", "tags", "unresolved_links", "dead_ends", "recent", "word_count", "collection"])),
     ("path", x => Str(x, 1, 1024)), ("scope", x => Str(x, 0, 1024)), ("limit", x => WholeNumber(x, 1, Some(200))),
     ("fields", x => ArrayWith(x, 32, y => Str(y, 1, 120))),
     ("filters", x => ArrayWith(x, 16, y => Obeys(y, ["field", "op"], FILTER_TABLE))),
     ("sort", x => Obeys(x, ["field"], SORT_TABLE))]

  const INSPECT_NEEDS: seq<(string, seq<string>)> := [("file_info", ["path"]), ("outline", ["path"]), ("word_count", ["path"])]

  lemma {:induction false} FilterTable()
    ensures Describes(FILTER_TABLE, FILTER_FIELDS)
  {
    SameText(FILTER_TABLE[0].1, 1, 120);
    SameEnum(FILTER_TABLE[1].1,
      [TextLiteral("eq"), TextLiteral("ne"), TextLiteral("contains"), TextLiteral("starts_with"), TextLiteral("gt"),
       TextLiteral("gte"), TextLiteral("lt"), TextLiteral("lte"), TextLiteral("exists")],
      ["eq", "ne", "contains", "starts_with", "gt", "gte", "lt", "lte", "exists"]);
    SamePrimitive(FILTER_TABLE[2].1);
  }

  lemma {:induction false} SortTable()
    ensures Describes(SORT_TABLE, SORT_FIELDS)
  {
    SameText(SORT_TABLE[0].1, 1, 120);
    SameEnum(SORT_TABLE[1].1, [TextLiteral("asc"), TextLiteral("desc")], ["asc", "desc"]);
  }

  lemma {:induction false} SameFilters(plain: Value -> bool)
    requires forall x :: plain(x) <==> ArrayWith(x, 16, y => Obeys(y, ["field", "op"], FILTER_TABLE))
    ensures Same(plain, ArrayOf(16, FILTER))
  {
    var item: Value -> bool := y => Obeys(y, ["field", "op"], FILTER_TABLE);
    FilterTable();
    SameObject(item, ["field", "op"], FILTER_TABLE, FILTER_FIELDS);
    forall x
      ensures plain(x) <==> ArrayWith(x, 16, item)
    {
      assert forall y :: item(y) <==> Obeys(y, ["field", "op"], FILTER_TABLE);
    }
    SameArray(plain, 16, item, FILTER);
  }

  lemma {:induction false} SameTexts(plain: Value -> bool, most: nat, low: nat, high: nat)
    requires forall x :: plain(x) <==> ArrayWith(x, most, y => Str(y, low, high))
    ensures Same(plain, ArrayOf(most, TextOf(low, high)))
  {
    SameText(y => Str(y, low, high), low, high);
    SameArray(plain, most, y => Str(y, low, high), TextOf(low, high));
  }

  lemma {:induction false} InspectTable()
    ensures Describes(INSPECT_TABLE, INSPECT_FIELDS)
  {
    InspectTableBegins();
    InspectTableEnds();
    DescribesInParts(INSPECT_TABLE, INSPECT_FIELDS, 4);
  }

  lemma {:induction false} InspectTableBegins()
    ensures DescribesPart(INSPECT_TABLE, INSPECT_FIELDS, 0, 4)
  {
    SameEnum(INSPECT_TABLE[0].1,
      [TextLiteral("file_info"), TextLiteral("outline"), TextLiteral("tags"), TextLiteral("unresolved_links"),
       TextLiteral("dead_ends"), TextLiteral("recent"), TextLiteral("word_count"), TextLiteral("collection")],
      ["file_info", "outline", "tags", "unresolved_links", "dead_ends", "recent", "word_count", "collection"]);
    SameText(INSPECT_TABLE[1].1, 1, 1024);
    SameText(INSPECT_TABLE[2].1, 0, 1024);
    SameWhole(INSPECT_TABLE[3].1, 1, Some(200));
  }

  lemma {:induction false} InspectTableEnds()
    ensures DescribesPart(INSPECT_TABLE, INSPECT_FIELDS, 4, 7)
  {
    SameTexts(INSPECT_TABLE[4].1, 32, 1, 120);
    SameFilters(INSPECT_TABLE[5].1);
    SortTable();
    SameObject(INSPECT_TABLE[6].1, ["field"], SORT_TABLE, SORT_FIELDS);
  }

  /** An inspect command about one file names it. */
  lemma {:induction false} AcceptedInspect(v: Value)
    requires v.Record? ==> Distinct(v)
    ensures Validate(InspectTool, v).None? <==> Orderly(v, ["op"], INSPECT_TABLE, INSPECT_NEEDS)
  {
    ValidateIsMeaning(InspectTool, v);
    InspectTable();
    InspectFields();
    OrderlyExactly(v, ["op"], INSPECT_TABLE, INSPECT_NEEDS, INSPECT_FIELDS, INSPECT_CONDITIONS);
  }

  // ---------------------------------------------------------------------------
  // The template command
  // ---------------------------------------------------------------------------

  /** At most 16 variables, each a text; any name will do. */
  predicate IsVariables(x: Value) {
    x.Record? && !x.symbols && |x.fields| <= 16 && forall k :: 0 <= k < |x.fields| ==> Str(x.fields[k].1, 0, 1000)
  }

  const TEMPLATE_TABLE: Table :=
    [("op", x => OneOfTexts(x, ["list", "read", "preview", "insert", "create"])), ("templatePath", x => Str(x, 1, 1024)),
     ("path", x => Str(x, 1, 1024)), ("uniqueName", x => Str(x, 1, 200)), ("position", x => OneOfTexts(x, ["append", "prepend"])),
     ("section", x => Str(x, 1, 300)), ("variables", x => IsVariables(x)), ("maxBytes", x => WholeNumber(x, 1, Some(262_144))),
     ("limit", x => WholeNumber(x, 1, Some(200))), ("expectedContentHash", x => IsHashText(x)), ("idempotencyKey", x => Str(x, 1, 128))]

  const TEMPLATE_NEEDS: seq<(string, seq<string>)> :=
    [("read", ["templatePath"]), ("preview", ["templatePath"]), ("insert", ["path", "templatePath", "expectedContentHash"])]

  lemma {:induction false} SameVariables(plain: Value -> bool)
    requires forall x :: plain(x) <==> IsVariables(x)
    ensures Same(plain, VARIABLES)
  {
    forall x
      ensures plain(x) <==> Means(x, VARIABLES, INHERITED)
    {
      MeansInParts(x, VARIABLES, INHERITED);
      if x.Record? {
        forall k | 0 <= k < |x.fields|
          ensures FieldMeans(x.fields[k].0, x.fields[k].1, VARIABLES, INHERITED) <==> Str(x.fields[k].1, 0, 1000)
        {
          TextMeans(x.fields[k].1, 0, 1000, INHERITED);
        }
      }
    }
  }

  lemma {:induction false} TemplateTable()
    ensures Describes(TEMPLATE_TABLE, TEMPLATE_FIELDS)
  {
    TemplateTableBegins();
    TemplateTableEnds();
    DescribesInParts(TEMPLATE_TABLE, TEMPLATE_FIELDS, 5);
  }

  lemma {:induction false} TemplateTableBegins()
    ensures DescribesPart(TEMPLATE_TABLE, TEMPLATE_FIELDS, 0, 5)
  {
    SameEnum(TEMPLATE_TABLE[0].1,
      [TextLiteral("list"), TextLiteral("read"), TextLiteral("preview"), TextLiteral("insert"), TextLiteral("create")],
      ["list", "read", "preview", "insert", "create"]);
    SameText(TEMPLATE_TABLE[1].1, 1, 1024);
    SameText(TEMPLATE_TABLE[2].1, 1, 1024);
    SameText(TEMPLATE_TABLE[3].1, 1, 200);
    SameEnum(TEMPLATE_TABLE[4].1, [TextLiteral("append"), TextLiteral("prepend")], ["append", "prepend"]);
  }

  lemma {:induction false} TemplateTableEnds()
    ensures DescribesPart(TEMPLATE_TABLE, TEMPLATE_FIELDS, 5, 11)
  {
    SameText(TEMPLATE_TABLE[5].1, 1, 300);
    SameVariables(TEMPLATE_TABLE[6].1);
    SameWhole(TEMPLATE_TABLE[7].1, 1, Some(262_144));
    SameWhole(TEMPLATE_TABLE[8].1, 1, Some(200));
    SameHash(TEMPLATE_TABLE[9].1);
    SameText(TEMPLATE_TABLE[10].1, 1, 128);
  }

  /** A note to create has a path or a unique name, not both. */
  predicate OneName(v: Value)
    requires v.Record?
  {
    Field(v, "op") == Some(Value.Text("create")) ==> (Has(v, "path") <==> !Has(v, "uniqueName"))
  }

  lemma {:induction false} NameMeans(v: Value, schema: Schema)
    requires v.Record? && !v.symbols && schema == CREATE_FROM_TEMPLATE
    ensures Means(v, schema, INHERITED) <==> HasAll(v, ["templatePath"]) && (Has(v, "path") <==> !Has(v, "uniqueName"))
  {
    MeansInParts(v, schema, INHERITED);
    RequiresMeans(v, ["path"], INHERITED);
    RequiresMeans(v, ["uniqueName"], INHERITED);
    OneOfTwo(v, schema, Requires(["path"]), Requires(["uniqueName"]), INHERITED);
    assert ["path"][0] == "path" && ["uniqueName"][0] == "uniqueName";
  }

  lemma {:induction false} CreateMeans(v: Value)
    requires v.Record? && !v.symbols && Distinct(v) && NoSymbolsUnder(v, INHERITED)
    ensures Means(v, WhenOperation("create", CREATE_FROM_TEMPLATE), INHERITED)
            <==> Needs(v, "create", ["templatePath"]) && OneName(v)
  {
    ListedNamesAreOwn();
    WhenMeans(v, "create", CREATE_FROM_TEMPLATE, INHERITED);
    NameMeans(v, CREATE_FROM_TEMPLATE);
  }

  /** Conditions that need fields, and one more. */
  lemma {:induction false} OneMore(v: Value, conditions: seq<Schema>, needs: seq<(string, seq<string>)>, last: Schema)
    requires v.Record? && !v.symbols && Distinct(v) && NoSymbolsUnder(v, INHERITED) && Requiring(conditions, needs)
    ensures (forall k :: 0 <= k < |conditions + [last]| ==> Means(v, (conditions + [last])[k], INHERITED))
            <==> MeetsNeeds(v, needs) && Means(v, last, INHERITED)
  {
    MeetsNeedsExactly(v, conditions, needs);
    var all := conditions + [last];
    assert all[|conditions|] == last;
    assert forall k :: 0 <= k < |conditions| ==> all[k] == conditions[k];
  }

  lemma {:induction false} TemplateConditionsAre()
    ensures TEMPLATE_CONDITIONS
            == [WhenOperation("read", Requires(["templatePath"])), WhenOperation("preview", Requires(["templatePath"])),
                WhenOperation("insert", Requires(["path", "templatePath", "expectedContentHash"]))]
               + [WhenOperation("create", CREATE_FROM_TEMPLATE)]
  {
  }

  lemma {:induction false} TemplateConditionsExactly(v: Value)
    requires v.Record? && !v.symbols && Distinct(v) && NoSymbolsUnder(v, INHERITED)
    ensures (forall k :: 0 <= k < |TEMPLATE_CONDITIONS| ==> Means(v, TEMPLATE_CONDITIONS[k], INHERITED))
            <==> MeetsNeeds(v, TEMPLATE_NEEDS) && Needs(v, "create", ["templatePath"]) && OneName(v)
  {
    OneMore(v,
      [WhenOperation("read", Requires(["templatePath"])), WhenOperation("preview", Requires(["templatePath"])),
       WhenOperation("insert", Requires(["path", "templatePath", "expectedContentHash"]))],
      TEMPLATE_NEEDS, WhenOperation("create", CREATE_FROM_TEMPLATE));
    TemplateConditionsAre();
    CreateMeans(v);
  }

  /** A template command names its template, and what it makes: an insertion a note and its hash, a creation one name. */
  lemma {:induction false} AcceptedTemplate(v: Value)
    requires v.Record? ==> Distinct(v)
    ensures Validate(TemplateTool, v).None?
            <==> Orderly(v, ["op"], TEMPLATE_TABLE, TEMPLATE_NEEDS) && Needs(v, "create", ["templatePath"]) && OneName(v)
  {
    ValidateIsMeaning(TemplateTool, v);
    TemplateTable();
    TemplateFields();
    ObeysExactly(v, TEMPLATE_TABLE, TEMPLATE_FIELDS, ["op"], TEMPLATE_CONDITIONS);
    if Obeys(v, ["op"], TEMPLATE_TABLE) {
      ObeysNoSymbolsUnder(v, ["op"], TEMPLATE_TABLE, TEMPLATE_FIELDS);
      TemplateConditionsExactly(v);
    }
  }

  // ---------------------------------------------------------------------------
  // The sync status and automation commands
  // ---------------------------------------------------------------------------

  /** A sync status command has no field of its own. */
  lemma {:induction false} AcceptedSyncStatus(v: Value)
    requires v.Record? ==> Distinct(v)
    ensures Validate(SyncStatusTool, v).None? <==> Obeys(v, [], [])
  {
    ValidateIsMeaning(SyncStatusTool, v);
    ObeysExactly(v, [], [], [], []);
  }

  const ARGUMENT_TABLE: Table := [("name", x => Str(x, 1, 64)), ("value", x => IsPrimitive(x))]

  const AUTOMATION_TABLE: Table :=
    [("op", x => OneOfTexts(x, ["list", "run"])), ("alias", x => IsAliasText(x)), ("revision", x => Str(x, 1, 128)),
     ("path", x => Str(x, 1, 1024)), ("arguments", x => ArrayWith(x, 16, y => Obeys(y, ["name", "value"], ARGUMENT_TABLE))),
     ("idempotencyKey", x => Str(x, 1, 128)), ("limit", x => WholeNumber(x, 1, Some(200)))]

  const AUTOMATION_NEEDS: seq<(string, seq<string>)> := [("run", ["alias"])]

  lemma {:induction false} SameArguments(plain: Value -> bool)
    requires forall x :: plain(x) <==> ArrayWith(x, 16, y => Obeys(y, ["name", "value"], ARGUMENT_TABLE))
    ensures Same(plain, ArrayOf(16, ARGUMENT))
  {
    var item: Value -> bool := y => Obeys(y, ["name", "value"], ARGUMENT_TABLE);
    SameText(ARGUMENT_TABLE[0].1, 1, 64);
    SamePrimitive(ARGUMENT_TABLE[1].1);
    SameObject(item, ["name", "value"], ARGUMENT_TABLE, ARGUMENT_FIELDS);
    forall x
      ensures plain(x) <==> ArrayWith(x, 16, item)
    {
      assert forall y :: item(y) <==> Obeys(y, ["name", "value"], ARGUMENT_TABLE);
    }
    SameArray(plain, 16, item, ARGUMENT);
  }

  lemma {:induction false} AutomationTable()
    ensures Describes(AUTOMATION_TABLE, AUTOMATION_FIELDS)
  {
    AutomationTableBegins();
    AutomationTableEnds();
    DescribesInParts(AUTOMATION_TABLE, AUTOMATION_FIELDS, 4);
  }

  lemma {:induction false} AutomationTableBegins()
    ensures DescribesPart(AUTOMATION_TABLE, AUTOMATION_FIELDS, 0, 4)
  {
    SameEnum(AUTOMATION_TABLE[0].1, [TextLiteral("list"), TextLiteral("run")], ["list", "run"]);
    SameAlias(AUTOMATION_TABLE[1].1);
    SameText(AUTOMATION_TABLE[2].1, 1, 128);
    SameText(AUTOMATION_TABLE[3].1, 1, 1024);
  }

  lemma {:induction false} AutomationTableEnds()
    ensures DescribesPart(AUTOMATION_TABLE, AUTOMATION_FIELDS, 4, 7)
  {
    SameArguments(AUTOMATION_TABLE[4].1);
    SameText(AUTOMATION_TABLE[5].1, 1, 128);
    SameWhole(AUTOMATION_TABLE[6].1, 1, Some(200));
  }

  /** A run names its alias. */
  lemma {:induction false} AcceptedAutomation(v: Value)
    requires v.Record? ==> Distinct(v)
    ensures Validate(AutomationTool, v).None? <==> Orderly(v, ["op"], AUTOMATION_TABLE, AUTOMATION_NEEDS)
  {
    ValidateIsMeaning(AutomationTool, v);
    AutomationTable();
    AutomationFields();
    OrderlyExactly(v, ["op"], AUTOMATION_TABLE, AUTOMATION_NEEDS, AUTOMATION_FIELDS, AUTOMATION_CONDITIONS);
  }
}
