/** The validator of agent-command input: a recursive checker with early returns, and what its keywords mean. */
module Schema {
  import opened Text

  // ---------------------------------------------------------------------------
  // Values and schemas
  // ---------------------------------------------------------------------------

  datatype Number = Finite(value: real) | NegativeZero | NaN | Infinite(positive: bool)

  /**
   * A value as the checker can tell it apart. `Record` is an object whose prototype is `Object.prototype` or null,
   * with its own fields in order; `Exotic` is everything else (functions, dates, class instances, big integers).
   */
  datatype Value =
    | Undefined | Null | Boolean(b: bool) | Numeric(n: Number) | Text(s: string)
    | Array(items: seq<Value>) | Record(symbols: bool, fields: seq<(string, Value)>) | Exotic

  datatype Kind = IsObject | IsArray | IsString | IsNumber | IsInteger | IsBoolean | IsNull

  datatype Literal = TextLiteral(s: string) | BooleanLiteral(b: bool)

  /** The two formats in use: 64 hexadecimal digits, and a lower-case alias of at most 64 characters. */
  datatype Pattern = Hash | Alias

  datatype Additional = Unlimited | Forbidden | Each(schema: Schema)

  datatype Shapes = NoShapes | Shapes(list: seq<Schema>)

  datatype Properties = NoProperties | Properties(list: seq<(string, Schema)>)

  datatype Schema = Schema(
    kind: Option<Kind>, constant: Option<Literal>, oneOfValues: Option<seq<Literal>>,
    minLength: Option<nat>, maxLength: Option<nat>, pattern: Option<Pattern>, minimum: Option<int>, maximum: Option<int>,
    maxItems: Option<nat>, items: Option<Schema>,
    maxProperties: Option<nat>, required: seq<string>, properties: Properties, additional: Additional,
    anyOf: Shapes, oneOf: Shapes, allOf: seq<Schema>, when: Option<Schema>, andThen: Option<Schema>)

  const ANY := Schema(None, None, None, None, None, None, None, None, None, None, None, [], NoProperties, Unlimited, NoShapes, NoShapes, [], None, None)

  const MAX_DEPTH := 64
  const MAX_SAFE_INTEGER := 9007199254740991

  /** Names every object inherits, which a lookup in a `properties` object therefore finds. */
  const INHERITED: set<string> := {
    "constructor", "hasOwnProperty", "isPrototypeOf", "propertyIsEnumerable", "toLocaleString", "toString", "valueOf",
    "__proto__", "__defineGetter__", "__defineSetter__", "__lookupGetter__", "__lookupSetter__"}

  // ---------------------------------------------------------------------------
  // Keywords that look at the value alone
  // ---------------------------------------------------------------------------

  predicate HasKind(v: Value, kind: Kind) {
    match kind
    case IsObject => v.Record?
    case IsArray => v.Array?
    case IsString => v.Text?
    case IsNumber => v.Numeric? && (v.n.Finite? || v.n.NegativeZero?)
    case IsInteger =>
      v.Numeric? && (v.n.NegativeZero? ||
                     (v.n.Finite? && v.n.value.Floor as real == v.n.value
                      && -MAX_SAFE_INTEGER <= v.n.value.Floor <= MAX_SAFE_INTEGER))
    case IsBoolean => v.Boolean?
    case IsNull => v.Null?
  }

  predicate IsLiteral(v: Value, l: Literal) {
    if l.TextLiteral? then v.Text? && v.s == l.s else v.Boolean? && v.b == l.b
  }

  predicate IsHexDigit(c: char) { '0' <= c <= '9' || 'a' <= c <= 'f' || 'A' <= c <= 'F' }

  predicate IsAliasChar(c: char) { 'a' <= c <= 'z' || '0' <= c <= '9' || c == '-' }

  predicate Fits(s: string, pattern: Pattern) {
    match pattern
    case Hash => |s| == 64 && forall i :: 0 <= i < |s| ==> IsHexDigit(s[i])
    case Alias => 1 <= |s| <= 64 && 'a' <= s[0] <= 'z' && forall i :: 0 <= i < |s| ==> IsAliasChar(s[i])
  }

  datatype Fault =
    | TooDeep | WrongType | NotTheConstant | NotInEnum | TooShort | TooLong | BadFormat | TooSmall | TooLarge
    | TooManyItems | Unsupported | TooManyFields | Missing(key: string) | NoShape | NotOneShape

  function TextFault(text: string, s: Schema): Option<Fault> {
    if s.minLength.Some? && |text| < s.minLength.value then Some(TooShort)
    else if s.maxLength.Some? && |text| > s.maxLength.value then Some(TooLong)
    else if s.pattern.Some? && !Fits(text, s.pattern.value) then Some(BadFormat)
    else None
  }

  function NumberFault(n: Number, s: Schema): Option<Fault> {
    if n.NaN? || n.Infinite? then None
    else
      var r := if n.Finite? then n.value else 0.0;
      if s.minimum.Some? && r < s.minimum.value as real then Some(TooSmall)
      else if s.maximum.Some? && r > s.maximum.value as real then Some(TooLarge)
      else None
  }

  function LocalFault(v: Value, s: Schema): Option<Fault> {
    if s.kind.Some? && !HasKind(v, s.kind.value) then Some(WrongType)
    else if s.constant.Some? && !IsLiteral(v, s.constant.value) then Some(NotTheConstant)
    else if s.oneOfValues.Some? && !(exists l :: l in s.oneOfValues.value && IsLiteral(v, l)) then Some(NotInEnum)
    else if v.Text? then TextFault(v.s, s)
    else if v.Numeric? then NumberFault(v.n, s)
    else None
  }

  // ---------------------------------------------------------------------------
  // The checker
  // ---------------------------------------------------------------------------

  function Find<T>(pairs: seq<(string, T)>, key: string): (i: int)
    ensures -1 <= i < |pairs|
    ensures i >= 0 ==> pairs[i].0 == key
    ensures i < 0 <==> forall j :: 0 <= j < |pairs| ==> pairs[j].0 != key
  {
    if pairs == [] then -1
    else if pairs[0].0 == key then 0
    else
      var i := Find(pairs[1..], key);
      if i < 0 then -1 else i + 1
  }

  predicate Has(v: Value, key: string)
    requires v.Record?
  {
    Find(v.fields, key) >= 0
  }

  predicate HasSymbols(v: Value) {
    v.Record? && v.symbols
  }

  function FirstMissing(v: Value, required: seq<string>): Option<Fault>
    requires v.Record?
  {
    if required == [] then None
    else if !Has(v, required[0]) then Some(Missing(required[0]))
    else FirstMissing(v, required[1..])
  }

  function ItemsFault(items: seq<Value>, s: Schema, free: set<string>, k: nat, depth: nat): Option<Fault>
    requires k <= |items| && s.items.Some?
    decreases s, 0, |items| - k
  {
    if k == |items| then None
    else
      var f := Check(items[k], s.items.value, free, depth + 1);
      if f.Some? then f else ItemsFault(items, s, free, k + 1, depth)
  }

  /**
   * A field's schema is looked up by plain property access, so inherited names are found in any `properties`. What is
   * found there has no keyword, and all it refuses is an object with symbol keys.
   */
  function FieldFault(key: string, v: Value, s: Schema, free: set<string>, depth: nat): Option<Fault>
    decreases s, 0, 0
  {
    var p := if s.properties.Properties? then Find(s.properties.list, key) else -1;
    if p >= 0 then Check(v, s.properties.list[p].1, free, depth + 1)
    else if s.properties.Properties? && key in free then
      (if depth + 1 > MAX_DEPTH then Some(TooDeep) else if HasSymbols(v) then Some(Unsupported) else None)
    else match s.additional
      case Unlimited => None
      case Forbidden => Some(Unsupported)
      case Each(schema) => Check(v, schema, free, depth + 1)
  }

  function FieldsFault(fields: seq<(string, Value)>, s: Schema, free: set<string>, k: nat, depth: nat): Option<Fault>
    requires k <= |fields|
    decreases s, 1, |fields| - k
  {
    if k == |fields| then None
    else
      var f := FieldFault(fields[k].0, fields[k].1, s, free, depth);
      if f.Some? then f else FieldsFault(fields, s, free, k + 1, depth)
  }

  function AnyMatch(v: Value, s: Schema, free: set<string>, k: nat, depth: nat): bool
    requires s.anyOf.Shapes? && k <= |s.anyOf.list|
    decreases s, 0, |s.anyOf.list| - k
  {
    k < |s.anyOf.list| && (Check(v, s.anyOf.list[k], free, depth + 1).None? || AnyMatch(v, s, free, k + 1, depth))
  }

  function Answers(v: Value, s: Schema, free: set<string>, depth: nat): (bs: seq<bool>)
    requires s.oneOf.Shapes?
    decreases s, 0, 0
  {
    seq(|s.oneOf.list|, i requires 0 <= i < |s.oneOf.list| => Check(v, s.oneOf.list[i], free, depth + 1).None?)
  }

  function Trues(bs: seq<bool>): nat {
    if bs == [] then 0 else (if bs[0] then 1 else 0) + Trues(bs[1..])
  }

  function AllFault(v: Value, s: Schema, free: set<string>, k: nat, depth: nat): Option<Fault>
    requires k <= |s.allOf|
    decreases s, 0, |s.allOf| - k
  {
    if k == |s.allOf| then None
    else
      var f := Check(v, s.allOf[k], free, depth + 1);
      if f.Some? then f else AllFault(v, s, free, k + 1, depth)
  }

  function ArrayFault(v: Value, s: Schema, free: set<string>, depth: nat): Option<Fault>
    requires v.Array?
    decreases s, 2, 0
  {
    if s.maxItems.Some? && |v.items| > s.maxItems.value then Some(TooManyItems)
    else if s.items.Some? then ItemsFault(v.items, s, free, 0, depth)
    else None
  }

  function RecordFault(v: Value, s: Schema, free: set<string>, depth: nat): Option<Fault>
    requires v.Record?
    decreases s, 2, 0
  {
    if v.symbols then Some(Unsupported)
    else if s.maxProperties.Some? && |v.fields| > s.maxProperties.value then Some(TooManyFields)
    else
      var missing := FirstMissing(v, s.required);
      if missing.Some? then missing else FieldsFault(v.fields, s, free, 0, depth)
  }

  function ShapeFault(v: Value, s: Schema, free: set<string>, depth: nat): Option<Fault>
    decreases s, 2, 0
  {
    var choice := ChoiceFault(v, s, free, depth);
    if choice.Some? then choice
    else
      var f := AllFault(v, s, free, 0, depth);
      if f.Some? then f else ConditionFault(v, s, free, depth)
  }

  function ChoiceFault(v: Value, s: Schema, free: set<string>, depth: nat): Option<Fault>
    decreases s, 1, 0
  {
    if s.anyOf.Shapes? && !AnyMatch(v, s, free, 0, depth) then Some(NoShape)
    else if s.oneOf.Shapes? && Trues(Answers(v, s, free, depth)) != 1 then Some(NotOneShape)
    else None
  }

  function ConditionFault(v: Value, s: Schema, free: set<string>, depth: nat): Option<Fault>
    decreases s, 1, 0
  {
    if s.when.Some? && s.andThen.Some? && Check(v, s.when.value, free, depth + 1).None?
    then Check(v, s.andThen.value, free, depth + 1)
    else None
  }

  /** `schemaError`: the first fault found, or `None`. */
  function Check(v: Value, s: Schema, free: set<string>, depth: nat): Option<Fault>
    decreases s, 3, 0
  {
    if depth > MAX_DEPTH then Some(TooDeep)
    else
      var f := LocalFault(v, s);
      if f.Some? then f
      else
        var inside := if v.Array? then ArrayFault(v, s, free, depth) else if v.Record? then RecordFault(v, s, free, depth) else None;
        if inside.Some? then inside else ShapeFault(v, s, free, depth)
  }

  // ---------------------------------------------------------------------------
  // What a schema means
  // ---------------------------------------------------------------------------

  /** The keywords that look at the value alone, each as its own condition. */
  ghost predicate Local(v: Value, s: Schema) {
    && (s.kind.Some? ==> HasKind(v, s.kind.value))
    && (s.constant.Some? ==> IsLiteral(v, s.constant.value))
    && (s.oneOfValues.Some? ==> exists l :: l in s.oneOfValues.value && IsLiteral(v, l))
    && (v.Text? && s.minLength.Some? ==> |v.s| >= s.minLength.value)
    && (v.Text? && s.maxLength.Some? ==> |v.s| <= s.maxLength.value)
    && (v.Text? && s.pattern.Some? ==> Fits(v.s, s.pattern.value))
    && (v.Numeric? && s.minimum.Some? ==> !LessThan(v.n, s.minimum.value))
    && (v.Numeric? && s.maximum.Some? ==> !GreaterThan(v.n, s.maximum.value))
  }

  predicate LessThan(n: Number, bound: int) {
    (n.Finite? && n.value < bound as real) || (n.NegativeZero? && 0 < bound)
  }

  predicate GreaterThan(n: Number, bound: int) {
    (n.Finite? && n.value > bound as real) || (n.NegativeZero? && 0 > bound)
  }

  /**
   * The declarative meaning. `free` are field names that a `properties` keyword leaves unconstrained, but for symbol
   * keys, without listing them: none in the JSON Schema sense of the keyword.
   */
  ghost predicate Means(v: Value, s: Schema, free: set<string>)
    decreases s, 1
  {
    && Local(v, s)
    && (v.Array? && s.maxItems.Some? ==> |v.items| <= s.maxItems.value)
    && (v.Array? && s.items.Some? ==> forall k :: 0 <= k < |v.items| ==> Means(v.items[k], s.items.value, free))
    && (v.Record? ==>
          && !v.symbols
          && (s.maxProperties.Some? ==> |v.fields| <= s.maxProperties.value)
          && (forall k :: 0 <= k < |s.required| ==> Has(v, s.required[k]))
          && (forall k :: 0 <= k < |v.fields| ==> FieldMeans(v.fields[k].0, v.fields[k].1, s, free)))
    && (s.anyOf.Shapes? ==> exists k :: 0 <= k < |s.anyOf.list| && Means(v, s.anyOf.list[k], free))
    && (s.oneOf.Shapes? ==> exists k :: 0 <= k < |s.oneOf.list| && Means(v, s.oneOf.list[k], free))
    && (s.oneOf.Shapes? ==>
          forall i, j :: 0 <= i < j < |s.oneOf.list| ==> !(Means(v, s.oneOf.list[i], free) && Means(v, s.oneOf.list[j], free)))
    && (forall k :: 0 <= k < |s.allOf| ==> Means(v, s.allOf[k], free))
    && (s.when.Some? && s.andThen.Some? && Means(v, s.when.value, free) ==> Means(v, s.andThen.value, free))
  }

  /** A listed field has its own schema; any other has the schema for additional fields. */
  ghost predicate FieldMeans(key: string, v: Value, s: Schema, free: set<string>)
    decreases s, 0
  {
    var p := if s.properties.Properties? then Find(s.properties.list, key) else -1;
    if p >= 0 then Means(v, s.properties.list[p].1, free)
    else if s.properties.Properties? && key in free then !HasSymbols(v)
    else match s.additional
      case Unlimited => true
      case Forbidden => false
      case Each(schema) => Means(v, schema, free)
  }

  /** Entered at `depth`, no schema inside `s` is reached deeper than the guard allows. */
  ghost predicate Room(s: Schema, depth: nat)
    decreases s
  {
    && depth <= MAX_DEPTH
    && (s.items.Some? ==> Room(s.items.value, depth + 1))
    && (s.properties.Properties? ==> depth < MAX_DEPTH && forall k :: 0 <= k < |s.properties.list| ==> Room(s.properties.list[k].1, depth + 1))
    && (s.additional.Each? ==> Room(s.additional.schema, depth + 1))
    && (s.anyOf.Shapes? ==> forall k :: 0 <= k < |s.anyOf.list| ==> Room(s.anyOf.list[k], depth + 1))
    && (s.oneOf.Shapes? ==> forall k :: 0 <= k < |s.oneOf.list| ==> Room(s.oneOf.list[k], depth + 1))
    && (forall k :: 0 <= k < |s.allOf| ==> Room(s.allOf[k], depth + 1))
    && (s.when.Some? ==> Room(s.when.value, depth + 1))
    && (s.andThen.Some? ==> Room(s.andThen.value, depth + 1))
  }

  // ---------------------------------------------------------------------------
  // The checker finds no fault exactly when the meaning holds
  // ---------------------------------------------------------------------------

  lemma {:induction false} LocalAgrees(v: Value, s: Schema)
    ensures LocalFault(v, s).None? <==> Local(v, s)
    ensures LocalFault(v, s) != Some(TooDeep)
  {
  }

  lemma {:induction false} MissingAgrees(v: Value, required: seq<string>)
    requires v.Record?
    ensures FirstMissing(v, required).None? <==> forall k :: 0 <= k < |required| ==> Has(v, required[k])
    ensures FirstMissing(v, required) != Some(TooDeep)
  {
    if required != [] {
      MissingAgrees(v, required[1..]);
      assert required == [required[0]] + required[1..];
    }
  }

  lemma {:induction false} ItemsAgree(items: seq<Value>, s: Schema, free: set<string>, k: nat, depth: nat)
    requires k <= |items| && s.items.Some? && Room(s, depth)
    ensures ItemsFault(items, s, free, k, depth).None? <==> forall i :: k <= i < |items| ==> Means(items[i], s.items.value, free)
    ensures ItemsFault(items, s, free, k, depth) != Some(TooDeep)
    decreases s, 0, |items| - k
  {
    if k < |items| {
      CheckIsMeaning(items[k], s.items.value, free, depth + 1);
      ItemsAgree(items, s, free, k + 1, depth);
    }
  }

  lemma {:induction false} FieldAgrees(key: string, v: Value, s: Schema, free: set<string>, depth: nat)
    requires Room(s, depth)
    ensures FieldFault(key, v, s, free, depth).None? <==> FieldMeans(key, v, s, free)
    ensures FieldFault(key, v, s, free, depth) != Some(TooDeep)
    decreases s, 0, 0
  {
    var p := if s.properties.Properties? then Find(s.properties.list, key) else -1;
    if p >= 0 {
      CheckIsMeaning(v, s.properties.list[p].1, free, depth + 1);
    } else if s.additional.Each? {
      CheckIsMeaning(v, s.additional.schema, free, depth + 1);
    }
  }

  lemma {:induction false} FieldsAgree(fields: seq<(string, Value)>, s: Schema, free: set<string>, k: nat, depth: nat)
    requires k <= |fields| && Room(s, depth)
    ensures FieldsFault(fields, s, free, k, depth).None?
            <==> forall i :: k <= i < |fields| ==> FieldMeans(fields[i].0, fields[i].1, s, free)
    ensures FieldsFault(fields, s, free, k, depth) != Some(TooDeep)
    decreases s, 1, |fields| - k
  {
    if k < |fields| {
      FieldAgrees(fields[k].0, fields[k].1, s, free, depth);
      FieldsAgree(fields, s, free, k + 1, depth);
    }
  }

  lemma {:induction false} AnyAgrees(v: Value, s: Schema, free: set<string>, k: nat, depth: nat)
    requires s.anyOf.Shapes? && k <= |s.anyOf.list| && Room(s, depth)
    ensures AnyMatch(v, s, free, k, depth) <==> exists i :: k <= i < |s.anyOf.list| && Means(v, s.anyOf.list[i], free)
    decreases s, 0, |s.anyOf.list| - k
  {
    if k < |s.anyOf.list| {
      CheckIsMeaning(v, s.anyOf.list[k], free, depth + 1);
      AnyAgrees(v, s, free, k + 1, depth);
    }
  }

  lemma {:induction false} NoneTrue(bs: seq<bool>)
    ensures Trues(bs) == 0 <==> forall j :: 0 <= j < |bs| ==> !bs[j]
  {
    if bs != [] {
      NoneTrue(bs[1..]);
      assert bs == [bs[0]] + bs[1..];
    }
  }

  lemma {:induction false} OneTrue(bs: seq<bool>)
    ensures Trues(bs) == 1
            <==> (exists k :: 0 <= k < |bs| && bs[k]) && (forall i, j :: 0 <= i < j < |bs| ==> !(bs[i] && bs[j]))
  {
    if bs != [] {
      OneTrue(bs[1..]);
      NoneTrue(bs[1..]);
      assert bs == [bs[0]] + bs[1..];
      assert forall k :: 0 < k < |bs| ==> bs[k] == bs[1..][k - 1];
    }
  }

  lemma {:induction false} AnswersAgree(v: Value, s: Schema, free: set<string>, depth: nat)
    requires s.oneOf.Shapes? && Room(s, depth)
    ensures |Answers(v, s, free, depth)| == |s.oneOf.list|
    ensures forall i :: 0 <= i < |s.oneOf.list| ==> (Answers(v, s, free, depth)[i] <==> Means(v, s.oneOf.list[i], free))
    decreases s, 0, 0
  {
    forall i | 0 <= i < |s.oneOf.list|
      ensures Answers(v, s, free, depth)[i] <==> Means(v, s.oneOf.list[i], free)
    {
      CheckIsMeaning(v, s.oneOf.list[i], free, depth + 1);
    }
  }

  lemma {:induction false} OneOfAgrees(v: Value, s: Schema, free: set<string>, depth: nat)
    requires s.oneOf.Shapes? && Room(s, depth)
    ensures Trues(Answers(v, s, free, depth)) == 1 <==> OneShape(v, s, free)
    decreases s, 1, 0
  {
    AnswersAgree(v, s, free, depth);
    OneTrue(Answers(v, s, free, depth));
  }

  ghost predicate OneShape(v: Value, s: Schema, free: set<string>)
    requires s.oneOf.Shapes?
  {
    && (exists k :: 0 <= k < |s.oneOf.list| && Means(v, s.oneOf.list[k], free))
    && (forall i, j :: 0 <= i < j < |s.oneOf.list| ==> !(Means(v, s.oneOf.list[i], free) && Means(v, s.oneOf.list[j], free)))
  }

  lemma {:induction false} AllAgree(v: Value, s: Schema, free: set<string>, k: nat, depth: nat)
    requires k <= |s.allOf| && Room(s, depth)
    ensures AllFault(v, s, free, k, depth).None? <==> forall i :: k <= i < |s.allOf| ==> Means(v, s.allOf[i], free)
    ensures AllFault(v, s, free, k, depth) != Some(TooDeep)
    decreases s, 0, |s.allOf| - k
  {
    if k < |s.allOf| {
      CheckIsMeaning(v, s.allOf[k], free, depth + 1);
      AllAgree(v, s, free, k + 1, depth);
    }
  }

  ghost predicate InsideMeans(v: Value, s: Schema, free: set<string>) {
    && (v.Array? && s.maxItems.Some? ==> |v.items| <= s.maxItems.value)
    && (v.Array? && s.items.Some? ==> forall k :: 0 <= k < |v.items| ==> Means(v.items[k], s.items.value, free))
    && (v.Record? ==>
          && !v.symbols
          && (s.maxProperties.Some? ==> |v.fields| <= s.maxProperties.value)
          && (forall k :: 0 <= k < |s.required| ==> Has(v, s.required[k]))
          && (forall k :: 0 <= k < |v.fields| ==> FieldMeans(v.fields[k].0, v.fields[k].1, s, free)))
  }

  ghost predicate ShapeMeans(v: Value, s: Schema, free: set<string>) {
    && ChoiceMeans(v, s, free)
    && (forall k :: 0 <= k < |s.allOf| ==> Means(v, s.allOf[k], free))
    && ConditionMeans(v, s, free)
  }

  lemma {:induction false} MeansInParts(v: Value, s: Schema, free: set<string>)
    ensures Means(v, s, free) <==> Local(v, s) && InsideMeans(v, s, free) && ShapeMeans(v, s, free)
  {
  }

  lemma {:induction false} InsideAgrees(v: Value, s: Schema, free: set<string>, depth: nat)
    requires Room(s, depth)
    ensures v.Array? ==> (ArrayFault(v, s, free, depth).None? <==> InsideMeans(v, s, free)) && ArrayFault(v, s, free, depth) != Some(TooDeep)
    ensures v.Record? ==> (RecordFault(v, s, free, depth).None? <==> InsideMeans(v, s, free)) && RecordFault(v, s, free, depth) != Some(TooDeep)
    decreases s, 2, 0
  {
    if v.Array? && s.items.Some? { ItemsAgree(v.items, s, free, 0, depth); }
    if v.Record? {
      MissingAgrees(v, s.required);
      FieldsAgree(v.fields, s, free, 0, depth);
    }
  }

  ghost predicate ChoiceMeans(v: Value, s: Schema, free: set<string>) {
    && (s.anyOf.Shapes? ==> exists k :: 0 <= k < |s.anyOf.list| && Means(v, s.anyOf.list[k], free))
    && (s.oneOf.Shapes? ==> OneShape(v, s, free))
  }

  lemma {:induction false} ChoiceAgrees(v: Value, s: Schema, free: set<string>, depth: nat)
    requires Room(s, depth)
    ensures ChoiceFault(v, s, free, depth).None? <==> ChoiceMeans(v, s, free)
    ensures ChoiceFault(v, s, free, depth) != Some(TooDeep)
    decreases s, 2, 0
  {
    if s.anyOf.Shapes? { AnyAgrees(v, s, free, 0, depth); }
    if s.oneOf.Shapes? { OneOfAgrees(v, s, free, depth); }
  }

  lemma {:induction false} ConditionAgrees(v: Value, s: Schema, free: set<string>, depth: nat)
    requires Room(s, depth)
    ensures ConditionFault(v, s, free, depth).None? <==> ConditionMeans(v, s, free)
    ensures ConditionFault(v, s, free, depth) != Some(TooDeep)
    decreases s, 1, 0
  {
    if s.when.Some? && s.andThen.Some? {
      CheckIsMeaning(v, s.when.value, free, depth + 1);
      CheckIsMeaning(v, s.andThen.value, free, depth + 1);
    }
  }

  ghost predicate ConditionMeans(v: Value, s: Schema, free: set<string>) {
    s.when.Some? && s.andThen.Some? && Means(v, s.when.value, free) ==> Means(v, s.andThen.value, free)
  }

  lemma {:induction false} ShapeAgrees(v: Value, s: Schema, free: set<string>, depth: nat)
    requires Room(s, depth)
    ensures ShapeFault(v, s, free, depth).None? <==> ShapeMeans(v, s, free)
    ensures ShapeFault(v, s, free, depth) != Some(TooDeep)
    decreases s, 3, 0
  {
    ChoiceAgrees(v, s, free, depth);
    AllAgree(v, s, free, 0, depth);
    ConditionAgrees(v, s, free, depth);
  }

  /**
   * The checker accepts a value exactly when the schema's keywords hold of it, reading `properties` as the code
   * does; and while the schema nests no deeper than the room left, the depth guard fires on no value of any size.
   */
  lemma {:induction false} CheckIsMeaning(v: Value, s: Schema, free: set<string>, depth: nat)
    requires Room(s, depth)
    ensures Check(v, s, free, depth).None? <==> Means(v, s, free)
    ensures Check(v, s, free, depth) != Some(TooDeep)
    decreases s, 4, 0
  {
    LocalAgrees(v, s);
    InsideAgrees(v, s, free, depth);
    ShapeAgrees(v, s, free, depth);
    MeansInParts(v, s, free);
  }
}
