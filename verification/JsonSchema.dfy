/** The JSON-Schema subset validator of `scripts/versioning.py`, with `$ref` recursion. */
module JsonSchema {
  import opened Common

  datatype Json =
    | JNull
    | JBool(flag: bool)
    | JInt(whole: int)
    | JFloat(number: real)
    | JString(text: string)
    | JArray(items: seq<Json>)
    | JObject(fields: map<string, Json>)

  type Object = map<string, Json>

  const REF_PREFIX := "#/$defs/"

  /** `fields.get(key)`: a missing key and an explicit null are the same. */
  function Get(fields: Object, key: string): Json {
    if key in fields then fields[key] else JNull
  }

  // ---------------------------------------------------------------- references

  datatype Reference = NoRef | BadRef | Target(schema: Json)

  /** Where the `$ref` of a schema leads, if it has one. */
  function Follow(root: Object, schema: Object): (r: Reference)
    ensures r.Target? ==> r.schema.JObject?
  {
    var reference := Get(schema, "$ref");
    if reference.JNull? then NoRef
    else if !reference.JString? || !(REF_PREFIX <= reference.text) then BadRef
    else
      var definitions := Get(root, "$defs");
      var target := if definitions.JObject? then Get(definitions.fields, reference.text[|REF_PREFIX|..]) else JNull;
      if target.JObject? then Target(target) else BadRef
  }

  /** The schema under `name` in the definitions. */
  ghost predicate Defines(root: Object, name: string, target: Json) {
    && "$defs" in root && root["$defs"].JObject? && name in root["$defs"].fields
    && root["$defs"].fields[name] == target && target.JObject?
  }

  /** A reference is absent if it is missing or null; it leads where its text after "#/$defs/" names an object. */
  lemma {:induction false} FollowMeans(root: Object, schema: Object, target: Json)
    ensures Follow(root, schema) == NoRef <==> "$ref" !in schema || schema["$ref"] == JNull
    ensures Follow(root, schema) == Target(target) <==>
            exists name ::
              "$ref" in schema && schema["$ref"] == JString("#/$defs/" + name) && Defines(root, name, target)
  {
    var reference := Get(schema, "$ref");
    if reference.JString? && REF_PREFIX <= reference.text {
      var name := reference.text[|REF_PREFIX|..];
      assert reference.text == REF_PREFIX + name;
      assert forall other :: reference.text == REF_PREFIX + other ==> other == reference.text[|REF_PREFIX|..];
    }
  }

  /** Following references from `schema` ends within `n` hops. */
  ghost predicate EndsIn(root: Object, schema: Json, n: nat)
    decreases n
  {
    schema.JObject? && Follow(root, schema.fields).Target? ==>
      n > 0 && EndsIn(root, Follow(root, schema.fields).schema, n - 1)
  }

  ghost predicate Ends(root: Object, schema: Json) {
    exists n: nat :: EndsIn(root, schema, n)
  }

  ghost predicate EndsExactly(root: Object, schema: Json, n: nat) {
    EndsIn(root, schema, n) && forall k: nat :: k < n ==> !EndsIn(root, schema, k)
  }

  /** The schemas the validator can go on to from this one. */
  ghost function Children(root: Object, schema: Json): set<Json> {
    if !schema.JObject? then {}
    else match Follow(root, schema.fields)
      case BadRef => {}
      case Target(target) => {target}
      case NoRef => {Get(schema.fields, "items")} + Properties(schema.fields).Values
  }

  /** No schema at most `depth` steps away starts an endless chain of references. */
  ghost predicate EndWithin(root: Object, schema: Json, depth: nat)
    decreases depth
  {
    Ends(root, schema) &&
    (depth > 0 ==> forall child :: child in Children(root, schema) ==> EndWithin(root, child, depth - 1))
  }

  /** No schema the validator can reach from this one starts an endless chain of references. */
  ghost predicate AllEnd(root: Object, schema: Json) {
    Ends(root, schema) && forall depth: nat :: EndWithin(root, schema, depth)
  }

  lemma ChildEnds(root: Object, schema: Json, child: Json)
    requires AllEnd(root, schema) && child in Children(root, schema)
    ensures AllEnd(root, child)
  {
    forall depth: nat ensures EndWithin(root, child, depth) {
      assert EndWithin(root, schema, depth + 1);
    }
    assert EndWithin(root, child, 0);
  }

  lemma ChildrenEnd(root: Object, fields: Object)
    requires AllEnd(root, JObject(fields))
    ensures Follow(root, fields).Target? ==> AllEnd(root, Follow(root, fields).schema)
    ensures Follow(root, fields).NoRef? ==> AllEnd(root, Get(fields, "items"))
    ensures Follow(root, fields).NoRef? ==>
              forall key :: key in Properties(fields) ==> AllEnd(root, Properties(fields)[key])
  {
    var schema := JObject(fields);
    match Follow(root, fields)
    case BadRef =>
    case Target(target) => ChildEnds(root, schema, target);
    case NoRef =>
      ChildEnds(root, schema, Get(fields, "items"));
      forall key | key in Properties(fields) ensures AllEnd(root, Properties(fields)[key]) {
        ChildEnds(root, schema, Properties(fields)[key]);
      }
  }

  lemma {:induction false} LeastHops(root: Object, schema: Json, n: nat) returns (least: nat)
    requires EndsIn(root, schema, n)
    ensures EndsExactly(root, schema, least)
  {
    if k: nat :| k < n && EndsIn(root, schema, k) {
      least := LeastHops(root, schema, k);
    } else {
      least := n;
    }
  }

  lemma HopsExist(root: Object, schema: Json)
    requires Ends(root, schema)
    ensures exists n: nat :: EndsExactly(root, schema, n)
  {
    var n: nat :| EndsIn(root, schema, n);
    var least := LeastHops(root, schema, n);
  }

  /** How many references lie between `schema` and one that has none. */
  ghost function Hops(root: Object, schema: Json): (n: nat)
    requires Ends(root, schema)
    ensures EndsExactly(root, schema, n)
  {
    HopsExist(root, schema);
    var n: nat :| EndsExactly(root, schema, n);
    n
  }

  lemma HopDecreases(root: Object, schema: Object)
    requires Ends(root, JObject(schema)) && Follow(root, schema).Target?
    ensures Ends(root, Follow(root, schema).schema)
    ensures Hops(root, Follow(root, schema).schema) < Hops(root, JObject(schema))
  {
    var n := Hops(root, JObject(schema));
    assert EndsIn(root, Follow(root, schema).schema, n - 1);
  }

  // ---------------------------------------------------------------- the declarative meaning

  predicate HasType(value: Json, expected: string) {
    match expected
    case "array" => value.JArray?
    case "boolean" => value.JBool?
    case "integer" => value.JInt?
    case "number" => value.JInt? || value.JFloat?
    case "object" => value.JObject?
    case "string" => value.JString?
    case _ => false
  }

  /** Python counts booleans among the numbers when it inspects a bound. */
  predicate IsNumber(v: Json) { v.JInt? || v.JFloat? || v.JBool? }

  function NumberOf(v: Json): real
    requires IsNumber(v)
  {
    match v case JInt(i) => i as real case JFloat(r) => r case JBool(b) => if b then 1.0 else 0.0
  }

  predicate IsInteger(v: Json) { v.JInt? || v.JBool? }

  function IntegerOf(v: Json): int
    requires IsInteger(v)
  {
    match v case JInt(i) => i case JBool(b) => if b then 1 else 0
  }

  /** Python's `==` on decoded JSON: numbers and booleans compare by value, containers element by element. */
  predicate Same(a: Json, b: Json)
    decreases a
  {
    if IsNumber(a) && IsNumber(b) then NumberOf(a) == NumberOf(b)
    else if a.JArray? && b.JArray? then
      |a.items| == |b.items| && forall i :: 0 <= i < |a.items| ==> Same(a.items[i], b.items[i])
    else if a.JObject? && b.JObject? then
      a.fields.Keys == b.fields.Keys && forall key :: key in a.fields ==> Same(a.fields[key], b.fields[key])
    else a == b
  }

  /** Every number and boolean as the number it stands for, all the way down. */
  ghost function Canonical(v: Json): Json
    decreases v
  {
    match v
    case JBool(flag) => JFloat(if flag then 1.0 else 0.0)
    case JInt(whole) => JFloat(whole as real)
    case JArray(items) => JArray(seq(|items|, i requires 0 <= i < |items| => Canonical(items[i])))
    case JObject(fields) => JObject(map key | key in fields :: Canonical(fields[key]))
    case _ => v
  }

  /** So `==` is equality of canonical forms, hence an equivalence. */
  lemma {:induction false} SameMeans(a: Json, b: Json)
    ensures Same(a, b) <==> Canonical(a) == Canonical(b)
    decreases a
  {
    if a.JArray? && b.JArray? {
      forall i | 0 <= i < |a.items| && i < |b.items|
        ensures Same(a.items[i], b.items[i]) <==> Canonical(a.items[i]) == Canonical(b.items[i])
      {
        SameMeans(a.items[i], b.items[i]);
      }
      ArraysSame(a, b);
    } else if a.JObject? && b.JObject? {
      forall key | key in a.fields && key in b.fields
        ensures Same(a.fields[key], b.fields[key]) <==> Canonical(a.fields[key]) == Canonical(b.fields[key])
      {
        SameMeans(a.fields[key], b.fields[key]);
      }
      ObjectsSame(a, b);
    }
  }

  lemma {:induction false} ArraysSame(a: Json, b: Json)
    requires a.JArray? && b.JArray?
    ensures Canonical(a) == Canonical(b) <==>
            && |a.items| == |b.items|
            && forall i :: 0 <= i < |a.items| ==> Canonical(a.items[i]) == Canonical(b.items[i])
  {
    var x, y := Canonical(a).items, Canonical(b).items;
    if x == y {
      forall i | 0 <= i < |a.items| ensures Canonical(a.items[i]) == Canonical(b.items[i]) {
        assert x[i] == y[i];
      }
    }
  }

  lemma {:induction false} ObjectsSame(a: Json, b: Json)
    requires a.JObject? && b.JObject?
    ensures Canonical(a) == Canonical(b) <==>
            && a.fields.Keys == b.fields.Keys
            && forall key :: key in a.fields ==> Canonical(a.fields[key]) == Canonical(b.fields[key])
  {
    var x, y := Canonical(a).fields, Canonical(b).fields;
    assert x.Keys == a.fields.Keys && y.Keys == b.fields.Keys;
    if x == y {
      forall key | key in a.fields ensures Canonical(a.fields[key]) == Canonical(b.fields[key]) {
        assert x[key] == y[key];
      }
    }
  }

  /** The type names a value goes by. */
  ghost function Types(v: Json): set<string> {
    match v
    case JNull => {}
    case JBool(_) => {"boolean"}
    case JInt(_) => {"integer", "number"}
    case JFloat(_) => {"number"}
    case JString(_) => {"string"}
    case JArray(_) => {"array"}
    case JObject(_) => {"object"}
  }

  lemma HasTypeMeans(v: Json, expected: string)
    ensures HasType(v, expected) <==> expected in Types(v)
  {
  }

  /** `instance in items`. */
  predicate Among(instance: Json, items: seq<Json>) {
    exists i :: 0 <= i < |items| && Same(instance, items[i])
  }

  /** The keywords that look at the instance as a whole. */
  ghost predicate FlatOk(instance: Json, schema: Object, matches: (string, string) -> bool) {
    && (Get(schema, "type").JString? ==> Get(schema, "type").text in Types(instance))
    && ("const" in schema ==> Canonical(instance) == Canonical(schema["const"]))
    && (Get(schema, "enum").JArray? ==>
          exists i :: 0 <= i < |Get(schema, "enum").items| &&
            Canonical(instance) == Canonical(Get(schema, "enum").items[i]))
    && (instance.JString? && Get(schema, "pattern").JString? ==> matches(Get(schema, "pattern").text, instance.text))
    && ((instance.JInt? || instance.JFloat?) && Canonical(Get(schema, "minimum")).JFloat? ==>
          Canonical(instance).number >= Canonical(Get(schema, "minimum")).number)
  }

  /** The keywords on arrays that do not look inside the items. */
  ghost predicate ShapeOfArrayOk(items: seq<Json>, schema: Object) {
    && (Get(schema, "minItems").JInt? ==> |items| >= Get(schema, "minItems").whole)
    && (Get(schema, "minItems") == JBool(true) ==> items != [])
    && (Get(schema, "uniqueItems") == JBool(true) ==> NoDuplicates(items))
  }

  function Properties(schema: Object): Object {
    if Get(schema, "properties").JObject? then Get(schema, "properties").fields else map[]
  }

  lemma {:induction false} PropertiesMean(schema: Object, key: string, child: Json)
    ensures key in Properties(schema) && Properties(schema)[key] == child <==>
            exists properties ::
              "properties" in schema && schema["properties"] == JObject(properties)
              && key in properties && properties[key] == child
  {
    if "properties" in schema && schema["properties"].JObject? {
      assert schema["properties"] == JObject(schema["properties"].fields);
    }
  }

  ghost predicate Required(key: Json, fields: Object) {
    key.JString? && key.text in fields
  }

  /** The keywords on objects that do not look inside the members. */
  ghost predicate ShapeOfObjectOk(fields: Object, schema: Object) {
    && (Get(schema, "required").JArray? ==>
          forall key :: key in Get(schema, "required").items ==> Required(key, fields))
    && (Get(schema, "additionalProperties") == JBool(false) ==>
          forall key :: key in fields ==> key in Properties(schema))
  }

  /** What it means for an instance to satisfy a schema. Keywords beside a `$ref` are ignored. */
  ghost predicate Satisfies(instance: Json, schema: Json, root: Object, matches: (string, string) -> bool)
    requires AllEnd(root, schema)
    decreases instance, Hops(root, schema)
  {
    schema.JObject? && (ChildrenEnd(root, schema.fields);
    match Follow(root, schema.fields)
    case BadRef => false
    case Target(target) =>
      HopDecreases(root, schema.fields);
      Satisfies(instance, target, root, matches)
    case NoRef =>
      && FlatOk(instance, schema.fields, matches)
      && (instance.JArray? ==>
            && ShapeOfArrayOk(instance.items, schema.fields)
            && (!Get(schema.fields, "items").JNull? ==>
                  forall i :: 0 <= i < |instance.items| ==>
                    Satisfies(instance.items[i], Get(schema.fields, "items"), root, matches)))
      && (instance.JObject? ==>
            && ShapeOfObjectOk(instance.fields, schema.fields)
            && (forall key :: key in instance.fields && Get(Properties(schema.fields), key).JObject? ==>
                  Satisfies(instance.fields[key], Get(Properties(schema.fields), key), root, matches))))
  }

  /** The schema after `n` references, as long as there is one to follow. */
  ghost function AfterHops(root: Object, schema: Json, n: nat): Option<Json>
    decreases n
  {
    if n == 0 then Some(schema)
    else if schema.JObject? && Follow(root, schema.fields).Target? then
      AfterHops(root, Follow(root, schema.fields).schema, n - 1)
    else None
  }

  /** A schema means what any schema along its chain of references means, whatever keywords stand beside the
      references passed on the way. */
  lemma {:induction false} MeansItsReference(instance: Json, schema: Json, n: nat, root: Object,
                                             matches: (string, string) -> bool)
    requires AllEnd(root, schema) && AfterHops(root, schema, n).Some?
    ensures AllEnd(root, AfterHops(root, schema, n).value)
    ensures Satisfies(instance, schema, root, matches) <==>
            Satisfies(instance, AfterHops(root, schema, n).value, root, matches)
    decreases n
  {
    if n > 0 {
      ChildrenEnd(root, schema.fields);
      HopDecreases(root, schema.fields);
      MeansItsReference(instance, Follow(root, schema.fields).schema, n - 1, root, matches);
    }
  }

  // ---------------------------------------------------------------- the validator

  lemma {:induction false} EnumMeans(instance: Json, closed: Json)
    ensures closed.JArray? ==>
              (Among(instance, closed.items) <==>
               exists i :: 0 <= i < |closed.items| && Canonical(instance) == Canonical(closed.items[i]))
  {
    if closed.JArray? {
      forall i | 0 <= i < |closed.items|
        ensures Same(instance, closed.items[i]) <==> Canonical(instance) == Canonical(closed.items[i])
      {
        SameMeans(instance, closed.items[i]);
      }
    }
  }

  method CheckFlat(instance: Json, schema: Object, matches: (string, string) -> bool) returns (error: Option<string>)
    ensures error.None? <==> FlatOk(instance, schema, matches)
  {
    var expected := Get(schema, "type");
    if expected.JString? {
      HasTypeMeans(instance, expected.text);
    }
    if "const" in schema {
      SameMeans(instance, schema["const"]);
    }
    EnumMeans(instance, Get(schema, "enum"));
    if expected.JString? && !HasType(instance, expected.text) {
      return Some("expected JSON type");
    }
    if "const" in schema && !Same(instance, schema["const"]) {
      return Some("value does not match const");
    }
    var closed := Get(schema, "enum");
    if closed.JArray? && !Among(instance, closed.items) {
      return Some("value is outside the closed enum");
    }
    if instance.JString? {
      var pattern := Get(schema, "pattern");
      if pattern.JString? && !matches(pattern.text, instance.text) {
        return Some("string does not match pattern");
      }
    } else if instance.JInt? || instance.JFloat? {
      var minimum := Get(schema, "minimum");
      if IsNumber(minimum) && NumberOf(instance) < NumberOf(minimum) {
        return Some("number is below minimum");
      }
    }
    return None;
  }

  method CheckArrayShape(items: seq<Json>, schema: Object) returns (error: Option<string>)
    ensures error.None? <==> ShapeOfArrayOk(items, schema)
  {
    var minimum := Get(schema, "minItems");
    if IsInteger(minimum) && |items| < IntegerOf(minimum) {
      return Some("array is shorter than minItems");
    }
    if Get(schema, "uniqueItems") == JBool(true) {
      var repeats := HasRepeats(items);
      if repeats {
        return Some("array items are not unique");
      }
    }
    return None;
  }

  method CheckObjectShape(fields: Object, schema: Object) returns (error: Option<string>)
    ensures error.None? <==> ShapeOfObjectOk(fields, schema)
  {
    var required := Get(schema, "required");
    if required.JArray? {
      for i := 0 to |required.items|
        invariant forall j :: 0 <= j < i ==> Required(required.items[j], fields)
      {
        var key := required.items[i];
        if !key.JString? || key.text !in fields {
          assert key in required.items && !Required(key, fields);
          return Some("missing required property");
        }
      }
    }
    if Get(schema, "additionalProperties") == JBool(false) {
      var extra := fields.Keys - Properties(schema).Keys;
      if extra != {} {
        return Some("unexpected property");
      }
      assert forall key :: key in fields ==> key !in extra;
    }
    return None;
  }

  /** `_validate_json_schema_instance`: ends on every instance when no chain of references goes on for
      ever, and finds no error exactly when the instance satisfies the schema. */
  method Validate(instance: Json, schema: Json, root: Object, matches: (string, string) -> bool)
    returns (error: Option<string>)
    requires AllEnd(root, schema)
    ensures error.None? <==> Satisfies(instance, schema, root, matches)
    decreases instance, Hops(root, schema), 1
  {
    if !schema.JObject? {
      return Some("JSON Schema node must be an object");
    }
    var reference := Follow(root, schema.fields);
    if reference.BadRef? {
      return Some("unsupported or unresolved JSON Schema reference");
    }
    ChildrenEnd(root, schema.fields);
    if reference.Target? {
      HopDecreases(root, schema.fields);
      error := Validate(instance, reference.schema, root, matches);
      return;
    }
    error := CheckFlat(instance, schema.fields, matches);
    if error.Some? {
      return;
    }
    if instance.JArray? {
      error := ValidateItems(instance, schema, root, matches);
    } else if instance.JObject? {
      error := ValidateMembers(instance, schema, root, matches);
    }
  }

  method ValidateItems(instance: Json, schema: Json, root: Object, matches: (string, string) -> bool)
    returns (error: Option<string>)
    requires AllEnd(root, schema) && instance.JArray? && schema.JObject? && Follow(root, schema.fields).NoRef?
    requires FlatOk(instance, schema.fields, matches)
    ensures error.None? <==> Satisfies(instance, schema, root, matches)
    decreases instance, Hops(root, schema), 0
  {
    ChildrenEnd(root, schema.fields);
    error := CheckArrayShape(instance.items, schema.fields);
    if error.Some? {
      return;
    }
    var itemSchema := Get(schema.fields, "items");
    if itemSchema.JNull? {
      return;
    }
    for i := 0 to |instance.items|
      invariant forall j :: 0 <= j < i ==> Satisfies(instance.items[j], itemSchema, root, matches)
    {
      error := Validate(instance.items[i], itemSchema, root, matches);
      if error.Some? {
        return;
      }
    }
    return None;
  }

  method ValidateMembers(instance: Json, schema: Json, root: Object, matches: (string, string) -> bool)
    returns (error: Option<string>)
    requires AllEnd(root, schema) && instance.JObject? && schema.JObject? && Follow(root, schema.fields).NoRef?
    requires FlatOk(instance, schema.fields, matches)
    ensures error.None? <==> Satisfies(instance, schema, root, matches)
    decreases instance, Hops(root, schema), 0
  {
    ChildrenEnd(root, schema.fields);
    error := CheckObjectShape(instance.fields, schema.fields);
    if error.Some? {
      return;
    }
    var properties := Properties(schema.fields);
    var remaining := instance.fields.Keys;
    while remaining != {}
      invariant remaining <= instance.fields.Keys
      invariant forall key :: key in instance.fields && key !in remaining && Get(properties, key).JObject? ==>
                  Satisfies(instance.fields[key], Get(properties, key), root, matches)
      decreases remaining
    {
      var key :| key in remaining;
      var child := Get(properties, key);
      if child.JObject? {
        error := Validate(instance.fields[key], child, root, matches);
        if error.Some? {
          return;
        }
      }
      remaining := remaining - {key};
    }
    return None;
  }

  // ---------------------------------------------------------------- the condition is necessary

  lemma {:induction false} NeverEnds(root: Object, schema: Json, n: nat)
    requires !EndsIn(root, schema, n)
    ensures AfterHops(root, schema, n + 1).Some?
    decreases n
  {
    if n > 0 {
      NeverEnds(root, Follow(root, schema.fields).schema, n - 1);
    }
  }

  /** `path` leads from schema to schema the way the validator can go. */
  ghost predicate Leads(root: Object, path: seq<Json>) {
    forall i :: 0 <= i < |path| - 1 ==> path[i + 1] in Children(root, path[i])
  }

  lemma {:induction false} PathToEndless(root: Object, schema: Json, depth: nat) returns (path: seq<Json>)
    requires !EndWithin(root, schema, depth)
    ensures path != [] && path[0] == schema && Leads(root, path) && !Ends(root, path[|path| - 1])
    decreases depth
  {
    if !Ends(root, schema) {
      path := [schema];
    } else {
      var child :| child in Children(root, schema) && !EndWithin(root, child, depth - 1);
      var rest := PathToEndless(root, child, depth - 1);
      path := [schema] + rest;
    }
  }

  /** The schema leads from reference to reference without end, so the validator recurses on it with an unchanged
      instance for ever, whatever the instance is. */
  ghost predicate Endless(root: Object, schema: Json) {
    forall n: nat :: AfterHops(root, schema, n).Some?
  }

  /** `path` is a way the validator can go from `schema` to an endless one. */
  ghost predicate ReachesEndless(root: Object, schema: Json, path: seq<Json>) {
    path != [] && path[0] == schema && Leads(root, path) && Endless(root, path[|path| - 1])
  }

  lemma {:induction false} EndsOrEndless(root: Object, schema: Json)
    ensures Ends(root, schema) <==> !Endless(root, schema)
  {
    if n: nat :| EndsIn(root, schema, n) {
      StopsAfter(root, schema, n);
    } else {
      forall n: nat ensures AfterHops(root, schema, n).Some? {
        if n > 0 { NeverEnds(root, schema, n - 1); }
      }
    }
  }

  lemma {:induction false} StopsAfter(root: Object, schema: Json, n: nat)
    requires EndsIn(root, schema, n)
    ensures AfterHops(root, schema, n + 1).None?
    decreases n
  {
    if n > 0 && schema.JObject? && Follow(root, schema.fields).Target? {
      StopsAfter(root, Follow(root, schema.fields).schema, n - 1);
    }
  }

  lemma {:induction false} PathEnds(root: Object, path: seq<Json>)
    requires path != [] && Leads(root, path) && AllEnd(root, path[0])
    ensures AllEnd(root, path[|path| - 1])
  {
    if |path| > 1 {
      ChildEnds(root, path[0], path[1]);
      assert forall i :: 0 <= i < |path[1..]| ==> path[1..][i] == path[i + 1];
      PathEnds(root, path[1..]);
    }
  }

  /** The condition under which the validator always ends is exactly that no way leads to an endless schema. */
  lemma {:induction false} EndlessExactly(root: Object, schema: Json)
    ensures AllEnd(root, schema) <==> !exists path :: ReachesEndless(root, schema, path)
  {
    if AllEnd(root, schema) {
      forall path | ReachesEndless(root, schema, path) ensures false {
        PathEnds(root, path);
        EndsOrEndless(root, path[|path| - 1]);
      }
    } else {
      var path := [schema];
      if Ends(root, schema) {
        var depth: nat :| !EndWithin(root, schema, depth);
        path := PathToEndless(root, schema, depth);
      }
      EndsOrEndless(root, path[|path| - 1]);
      assert ReachesEndless(root, schema, path);
    }
  }
}
