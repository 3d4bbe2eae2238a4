/** How far `additionalProperties: false` closes a schema: exactly up to the names every object inherits. */
module SchemaClosure {
  import opened Schema

  /** No schema in `s` has `properties`: no field is looked up by name. */
  ghost predicate Blind(s: Schema)
    decreases s
  {
    && s.properties.NoProperties?
    && (s.items.Some? ==> Blind(s.items.value))
    && (s.additional.Each? ==> Blind(s.additional.schema))
    && (s.anyOf.Shapes? ==> forall k :: 0 <= k < |s.anyOf.list| ==> Blind(s.anyOf.list[k]))
    && (s.oneOf.Shapes? ==> forall k :: 0 <= k < |s.oneOf.list| ==> Blind(s.oneOf.list[k]))
    && (forall k :: 0 <= k < |s.allOf| ==> Blind(s.allOf[k]))
    && (s.when.Some? ==> Blind(s.when.value))
    && (s.andThen.Some? ==> Blind(s.andThen.value))
  }

  /** A choice or condition: it may look at the value's own fields, limits no others, and looks no deeper. */
  ghost predicate Open(s: Schema)
    decreases s
  {
    && s.additional.Unlimited?
    && (s.items.Some? ==> Blind(s.items.value))
    && (s.properties.Properties? ==> forall k :: 0 <= k < |s.properties.list| ==> Blind(s.properties.list[k].1))
    && (s.anyOf.Shapes? ==> forall k :: 0 <= k < |s.anyOf.list| ==> Open(s.anyOf.list[k]))
    && (s.oneOf.Shapes? ==> forall k :: 0 <= k < |s.oneOf.list| ==> Open(s.oneOf.list[k]))
    && (forall k :: 0 <= k < |s.allOf| ==> Open(s.allOf[k]))
    && (s.when.Some? ==> Open(s.when.value))
    && (s.andThen.Some? ==> Open(s.andThen.value))
  }

  ghost predicate OpenShapes(s: Schema) {
    && (s.anyOf.Shapes? ==> forall k :: 0 <= k < |s.anyOf.list| ==> Open(s.anyOf.list[k]))
    && (s.oneOf.Shapes? ==> forall k :: 0 <= k < |s.oneOf.list| ==> Open(s.oneOf.list[k]))
    && (forall k :: 0 <= k < |s.allOf| ==> Open(s.allOf[k]))
    && (s.when.Some? ==> Open(s.when.value))
    && (s.andThen.Some? ==> Open(s.andThen.value))
  }

  predicate NoShapesIn(s: Schema) {
    s.anyOf.NoShapes? && s.oneOf.NoShapes? && s.allOf == [] && s.when.None? && s.andThen.None?
  }

  /** No listed field has one of the names `free`. */
  predicate ListsNone(properties: seq<(string, Schema)>, free: set<string>) {
    forall k :: 0 <= k < |properties| ==> properties[k].0 !in free
  }

  /** Built up of blind schemas, arrays and closed objects, the latter with open choices and conditions beside them. */
  ghost predicate Plain(s: Schema, free: set<string>)
    decreases s, 1
  {
    || Blind(s)
    || (s.items.Some? && Plain(s.items.value, free)
        && s.properties.NoProperties? && s.additional.Unlimited? && NoShapesIn(s))
    || Closed(s, free)
  }

  /** A closed object: all its properties are plain, and none is named like a free name. */
  ghost predicate Closed(s: Schema, free: set<string>)
    decreases s, 0
  {
    && s.properties.Properties? && s.additional.Forbidden? && s.items.None? && ListsNone(s.properties.list, free)
    && OpenShapes(s)
    && forall k :: 0 <= k < |s.properties.list| ==> Plain(s.properties.list[k].1, free)
  }

  // ---------------------------------------------------------------------------
  // Where no field is looked up
  // ---------------------------------------------------------------------------

  lemma {:induction false} BlindInside(v: Value, s: Schema, free: set<string>)
    requires Blind(s)
    ensures InsideMeans(v, s, free) <==> InsideMeans(v, s, {})
    decreases s, 1
  {
    if v.Array? && s.items.Some? {
      forall k | 0 <= k < |v.items|
        ensures Means(v.items[k], s.items.value, free) <==> Means(v.items[k], s.items.value, {})
      {
        BlindIndifferent(v.items[k], s.items.value, free);
      }
    }
    if v.Record? {
      forall k | 0 <= k < |v.fields|
        ensures FieldMeans(v.fields[k].0, v.fields[k].1, s, free) <==> FieldMeans(v.fields[k].0, v.fields[k].1, s, {})
      {
        BlindField(v.fields[k].0, v.fields[k].1, s, free);
      }
    }
  }

  lemma {:induction false} BlindField(key: string, v: Value, s: Schema, free: set<string>)
    requires Blind(s)
    ensures FieldMeans(key, v, s, free) <==> FieldMeans(key, v, s, {})
    decreases s, 0
  {
    if s.additional.Each? { BlindIndifferent(v, s.additional.schema, free); }
  }

  lemma {:induction false} BlindChoice(v: Value, s: Schema, free: set<string>)
    requires Blind(s)
    ensures ChoiceMeans(v, s, free) <==> ChoiceMeans(v, s, {})
    decreases s, 1
  {
    if s.anyOf.Shapes? {
      forall k | 0 <= k < |s.anyOf.list|
        ensures Means(v, s.anyOf.list[k], free) <==> Means(v, s.anyOf.list[k], {})
      {
        BlindIndifferent(v, s.anyOf.list[k], free);
      }
    }
    if s.oneOf.Shapes? {
      forall k | 0 <= k < |s.oneOf.list|
        ensures Means(v, s.oneOf.list[k], free) <==> Means(v, s.oneOf.list[k], {})
      {
        BlindIndifferent(v, s.oneOf.list[k], free);
      }
    }
  }

  lemma {:induction false} BlindShape(v: Value, s: Schema, free: set<string>)
    requires Blind(s)
    ensures ShapeMeans(v, s, free) <==> ShapeMeans(v, s, {})
    decreases s, 2
  {
    BlindChoice(v, s, free);
    forall k | 0 <= k < |s.allOf|
      ensures Means(v, s.allOf[k], free) <==> Means(v, s.allOf[k], {})
    {
      BlindIndifferent(v, s.allOf[k], free);
    }
    if s.when.Some? { BlindIndifferent(v, s.when.value, free); }
    if s.andThen.Some? { BlindIndifferent(v, s.andThen.value, free); }
  }

  /** Where no field is looked up by name, inherited names change nothing. */
  lemma {:induction false} BlindIndifferent(v: Value, s: Schema, free: set<string>)
    requires Blind(s)
    ensures Means(v, s, free) <==> Means(v, s, {})
    decreases s, 3
  {
    BlindInside(v, s, free);
    BlindShape(v, s, free);
    MeansInParts(v, s, free);
    MeansInParts(v, s, {});
  }

  // ---------------------------------------------------------------------------
  // Choices and conditions
  // ---------------------------------------------------------------------------

  /** No field under one of the names `free` holds an object with symbol keys. */
  ghost predicate NoSymbolsUnder(v: Value, free: set<string>) {
    v.Record? ==> forall k :: 0 <= k < |v.fields| && v.fields[k].0 in free ==> !HasSymbols(v.fields[k].1)
  }

  lemma {:induction false} OpenField(key: string, v: Value, s: Schema, free: set<string>)
    requires Open(s) && (key in free ==> !HasSymbols(v))
    ensures FieldMeans(key, v, s, free) <==> FieldMeans(key, v, s, {})
  {
    var p := if s.properties.Properties? then Find(s.properties.list, key) else -1;
    if p >= 0 { BlindIndifferent(v, s.properties.list[p].1, free); }
  }

  lemma {:induction false} OpenInside(v: Value, s: Schema, free: set<string>)
    requires Open(s) && NoSymbolsUnder(v, free)
    ensures InsideMeans(v, s, free) <==> InsideMeans(v, s, {})
  {
    if v.Array? && s.items.Some? {
      forall k | 0 <= k < |v.items|
        ensures Means(v.items[k], s.items.value, free) <==> Means(v.items[k], s.items.value, {})
      {
        BlindIndifferent(v.items[k], s.items.value, free);
      }
    }
    if v.Record? {
      forall k | 0 <= k < |v.fields|
        ensures FieldMeans(v.fields[k].0, v.fields[k].1, s, free) <==> FieldMeans(v.fields[k].0, v.fields[k].1, s, {})
      {
        OpenField(v.fields[k].0, v.fields[k].1, s, free);
      }
    }
  }

  lemma {:induction false} OpenChoice(v: Value, s: Schema, free: set<string>)
    requires OpenShapes(s) && NoSymbolsUnder(v, free)
    ensures ChoiceMeans(v, s, free) <==> ChoiceMeans(v, s, {})
    decreases s, 1
  {
    if s.anyOf.Shapes? {
      forall k | 0 <= k < |s.anyOf.list|
        ensures Means(v, s.anyOf.list[k], free) <==> Means(v, s.anyOf.list[k], {})
      {
        OpenIndifferent(v, s.anyOf.list[k], free);
      }
    }
    if s.oneOf.Shapes? {
      forall k | 0 <= k < |s.oneOf.list|
        ensures Means(v, s.oneOf.list[k], free) <==> Means(v, s.oneOf.list[k], {})
      {
        OpenIndifferent(v, s.oneOf.list[k], free);
      }
    }
  }

  lemma {:induction false} OpenShape(v: Value, s: Schema, free: set<string>)
    requires OpenShapes(s) && NoSymbolsUnder(v, free)
    ensures ShapeMeans(v, s, free) <==> ShapeMeans(v, s, {})
    decreases s, 2
  {
    OpenChoice(v, s, free);
    forall k | 0 <= k < |s.allOf|
      ensures Means(v, s.allOf[k], free) <==> Means(v, s.allOf[k], {})
    {
      OpenIndifferent(v, s.allOf[k], free);
    }
    if s.when.Some? { OpenIndifferent(v, s.when.value, free); }
    if s.andThen.Some? { OpenIndifferent(v, s.andThen.value, free); }
  }

  /** Where nothing is closed, inherited names change nothing, but for objects with symbol keys under them. */
  lemma {:induction false} OpenIndifferent(v: Value, s: Schema, free: set<string>)
    requires Open(s) && NoSymbolsUnder(v, free)
    ensures Means(v, s, free) <==> Means(v, s, {})
    decreases s, 3
  {
    OpenInside(v, s, free);
    OpenShape(v, s, free);
    MeansInParts(v, s, free);
    MeansInParts(v, s, {});
  }

  // ---------------------------------------------------------------------------
  // Closed objects
  // ---------------------------------------------------------------------------

  /** Somewhere inside `v` a closed object has an unlisted field with one of the names `free`. */
  ghost predicate Stray(v: Value, s: Schema, free: set<string>)
    decreases s, 1
  {
    || (v.Array? && s.items.Some? && exists k :: 0 <= k < |v.items| && Stray(v.items[k], s.items.value, free))
    || (v.Record? && exists k :: 0 <= k < |v.fields| && StrayField(v.fields[k].0, v.fields[k].1, s, free))
  }

  ghost predicate StrayField(key: string, v: Value, s: Schema, free: set<string>)
    decreases s, 0
  {
    var p := if s.properties.Properties? then Find(s.properties.list, key) else -1;
    if p >= 0 then Stray(v, s.properties.list[p].1, free)
    else if s.properties.Properties? && key in free then s.additional.Forbidden?
    else s.additional.Each? && Stray(v, s.additional.schema, free)
  }

  lemma {:induction false} BlindHasNoStray(v: Value, s: Schema, free: set<string>)
    requires Blind(s)
    ensures !Stray(v, s, free)
    decreases s
  {
    if v.Array? && s.items.Some? {
      forall k | 0 <= k < |v.items|
        ensures !Stray(v.items[k], s.items.value, free)
      {
        BlindHasNoStray(v.items[k], s.items.value, free);
      }
    }
    if v.Record? && s.additional.Each? {
      forall k | 0 <= k < |v.fields|
        ensures !StrayField(v.fields[k].0, v.fields[k].1, s, free)
      {
        BlindHasNoStray(v.fields[k].1, s.additional.schema, free);
      }
    }
  }

  lemma {:induction false} ItemsDiffer(v: Value, s: Schema, free: set<string>)
    requires s.items.Some? && Plain(s.items.value, free)
    requires s.properties.NoProperties? && s.additional.Unlimited? && NoShapesIn(s)
    ensures Means(v, s, {}) <==> Means(v, s, free) && !Stray(v, s, free)
    decreases s, 1
  {
    MeansInParts(v, s, free);
    MeansInParts(v, s, {});
    if v.Array? {
      forall k | 0 <= k < |v.items|
        ensures Means(v.items[k], s.items.value, {})
                <==> Means(v.items[k], s.items.value, free) && !Stray(v.items[k], s.items.value, free)
      {
        StrayIsTheDifference(v.items[k], s.items.value, free);
      }
    }
  }

  lemma {:induction false} ClosedField(key: string, v: Value, s: Schema, free: set<string>)
    requires Closed(s, free)
    ensures FieldMeans(key, v, s, {}) <==> FieldMeans(key, v, s, free) && !StrayField(key, v, s, free)
    ensures FieldMeans(key, v, s, {}) ==> key !in free
    ensures FieldMeans(key, v, s, free) && key in free ==> !HasSymbols(v)
    decreases s, 0
  {
    var p := Find(s.properties.list, key);
    if p >= 0 { StrayIsTheDifference(v, s.properties.list[p].1, free); }
  }

  lemma {:induction false} ClosedInside(v: Value, s: Schema, free: set<string>)
    requires Closed(s, free)
    ensures InsideMeans(v, s, {}) <==> InsideMeans(v, s, free) && !Stray(v, s, free)
    ensures InsideMeans(v, s, free) ==> NoSymbolsUnder(v, free)
    decreases s, 1
  {
    if v.Record? {
      forall k | 0 <= k < |v.fields|
        ensures FieldMeans(v.fields[k].0, v.fields[k].1, s, {})
                <==> FieldMeans(v.fields[k].0, v.fields[k].1, s, free) && !StrayField(v.fields[k].0, v.fields[k].1, s, free)
        ensures FieldMeans(v.fields[k].0, v.fields[k].1, s, free) && v.fields[k].0 in free ==> !HasSymbols(v.fields[k].1)
      {
        ClosedField(v.fields[k].0, v.fields[k].1, s, free);
      }
    }
  }

  lemma {:induction false} ClosedDiffers(v: Value, s: Schema, free: set<string>)
    requires Closed(s, free)
    ensures Means(v, s, {}) <==> Means(v, s, free) && !Stray(v, s, free)
    decreases s, 2
  {
    MeansInParts(v, s, free);
    MeansInParts(v, s, {});
    ClosedInside(v, s, free);
    if InsideMeans(v, s, free) { OpenShape(v, s, free); }
  }

  /**
   * Reading `properties` through inherited names accepts whatever the JSON Schema reading accepts, and besides it
   * exactly the values with a stray inherited name in a closed object.
   */
  lemma {:induction false} StrayIsTheDifference(v: Value, s: Schema, free: set<string>)
    requires Plain(s, free)
    ensures Means(v, s, {}) <==> Means(v, s, free) && !Stray(v, s, free)
    decreases s, 3
  {
    if Blind(s) {
      BlindIndifferent(v, s, free);
      BlindHasNoStray(v, s, free);
    } else if s.items.Some? {
      ItemsDiffer(v, s, free);
    } else {
      ClosedDiffers(v, s, free);
    }
  }
}
