/** Laws of the validator's accepted sets: monotonicity in every sub-schema, and where they agree with the
    JSON Schema standard (section 6 of JSON Schema Validation and section 10.2.1.2 of JSON Schema Core,
    draft 2020-12). */
module ValidatorLaws {
  import opened Options
  import opened Validator

  // ---- strengthening -----------------------------------------------------------------------------------

  /** A schema with one sub-schema left open. */
  datatype Context =
    | Hole
    | InAnyOf(base: Schema, before: seq<Schema>, inner: Context, after: seq<Schema>)
    | InItems(base: Schema, inner: Context)
    | InProperty(base: Schema, key: string, inner: Context)

  function Plug(c: Context, s: Schema): Schema {
    match c
    case Hole => s
    case InAnyOf(base, before, inner, after) => base.(anyOf := AnyOf(before + [Plug(inner, s)] + after))
    case InItems(base, inner) => base.(items := Some(Plug(inner, s)))
    case InProperty(base, key, inner) => base.(properties := base.properties[key := Plug(inner, s)])
  }

  /** Everything s accepts, t accepts. */
  ghost predicate Stronger(s: Schema, t: Schema, matches: Matcher) {
    forall v :: Conforms(v, s, matches) ==> Conforms(v, t, matches)
  }

  /** Strengthening a sub-schema anywhere, at any depth, only shrinks what the whole schema accepts. */
  lemma {:induction false} StrengtheningShrinks(c: Context, s: Schema, t: Schema, matches: Matcher)
    requires Stronger(s, t, matches)
    ensures Stronger(Plug(c, s), Plug(c, t), matches)
    decreases c
  {
    if !c.Hole? {
      StrengtheningShrinks(c.inner, s, t, matches);
      forall v | Conforms(v, Plug(c, s), matches) ensures Conforms(v, Plug(c, t), matches) {
        LiftOne(c, Plug(c.inner, s), Plug(c.inner, t), v, matches);
      }
    }
  }

  function Wrap(c: Context, s: Schema): Schema
    requires !c.Hole?
  {
    match c
    case InAnyOf(base, before, _, after) => base.(anyOf := AnyOf(before + [s] + after))
    case InItems(base, _) => base.(items := Some(s))
    case InProperty(base, key, _) => base.(properties := base.properties[key := s])
  }

  lemma LiftOne(c: Context, s: Schema, t: Schema, v: Json, matches: Matcher)
    requires !c.Hole? && Stronger(s, t, matches) && Conforms(v, Wrap(c, s), matches)
    ensures Conforms(v, Wrap(c, t), matches)
  {
    if c.InAnyOf? {
      var from, to := c.before + [s] + c.after, c.before + [t] + c.after;
      var i :| 0 <= i < |from| && Conforms(v, from[i], matches);
      assert Conforms(v, to[i], matches);
    }
  }

  // ---- the standard ------------------------------------------------------------------------------------

  predicate WholeFloat(v: Json) { v.Float? && v.r == v.r.Floor as real }

  /** The standard's type keyword: a float with no fractional part is an integer too. */
  predicate StandardType(v: Json, expected: string) {
    match v
    case Null => expected == "null"
    case Bool(_) => expected == "boolean"
    case Int(_) => expected == "integer" || expected == "number"
    case Float(_) => expected == "number" || (expected == "integer" && WholeFloat(v))
    case Str(_) => expected == "string"
    case Arr(_) => expected == "array"
    case Obj(_) => expected == "object"
  }

  /** The standard's equality (section 4.2.2 of JSON Schema Core, draft 2020-12): booleans are not numbers. */
  predicate JsonEq(a: Json, b: Json) {
    match (a, b)
    case (Null, Null) => true
    case (Bool(x), Bool(y)) => x == y
    case (Int(x), Int(y)) => x == y
    case (Int(x), Float(y)) => x as real == y
    case (Float(x), Int(y)) => x == y as real
    case (Float(x), Float(y)) => x == y
    case (Str(s), Str(t)) => s == t
    case (Arr(xs), Arr(ys)) => |xs| == |ys| && forall i :: 0 <= i < |xs| ==> JsonEq(xs[i], ys[i])
    case (Obj(f), Obj(g)) => f.Keys == g.Keys && forall k :: k in f ==> JsonEq(f[k], g[k])
    case _ => false
  }

  predicate StandardTypes(v: Json, t: Types) {
    match t
    case NoType => true
    case OneType(name) => StandardType(v, name)
    case AnyType(names) => exists i :: 0 <= i < |names| && StandardType(v, names[i])
  }

  predicate StandardValue(v: Json, s: Schema) {
    && (s.constant.Some? ==> JsonEq(v, s.constant.value))
    && (s.values.Some? ==> exists i :: 0 <= i < |s.values.value| && JsonEq(v, s.values.value[i]))
  }

  predicate Within(r: real, low: Option<real>, high: Option<real>) {
    (low == None || low.value <= r) && (high == None || r <= high.value)
  }

  /** The keywords for one kind of value each: minLength and pattern, minimum and maximum, minItems, required. */
  predicate StandardScalar(v: Json, s: Schema, matches: Matcher) {
    match v
    case Int(n) => Within(n as real, s.minimum, s.maximum)
    case Float(r) => Within(r, s.minimum, s.maximum)
    case Str(text) => |text| >= s.minLength && (s.pattern == "" || matches(s.pattern, text))
    case Arr(items) => |items| >= s.minItems
    case Obj(fields) => forall i :: 0 <= i < |s.required| ==> s.required[i] in fields
    case _ => true
  }

  /** Every keyword constrains the value, anyOf like the others. */
  predicate Standard(v: Json, s: Schema, matches: Matcher)
    decreases s
  {
    && (s.anyOf.AnyOf? ==> exists i :: 0 <= i < |s.anyOf.schemas| && Standard(v, s.anyOf.schemas[i], matches))
    && StandardTypes(v, s.types) && StandardValue(v, s)
    && StandardScalar(v, s, matches)
    && (v.Arr? && s.items.Some? ==> forall i :: 0 <= i < |v.items| ==> Standard(v.items[i], s.items.value, matches))
    && (v.Obj? ==> forall k :: k in v.fields ==>
          if k in s.properties then Standard(v.fields[k], s.properties[k], matches) else !s.closed)
  }

  predicate KnownType(name: string) {
    name in {"object", "array", "string", "boolean", "integer", "number", "null"}
  }

  // ---- one value against one constant --------------------------------------------------------------------

  /** Where both hold a number or a boolean, both hold a boolean or neither does. */
  predicate SameKinds(v: Json, c: Json)
    decreases c
  {
    match (v, c)
    case (Arr(xs), Arr(ys)) => |xs| == |ys| ==> forall i :: 0 <= i < |ys| ==> SameKinds(xs[i], ys[i])
    case (Obj(f), Obj(g)) => forall k :: k in g && k in f ==> SameKinds(f[k], g[k])
    case _ => !(v.Bool? && (c.Int? || c.Float?)) && !(c.Bool? && (v.Int? || v.Float?))
  }

  /** The standard's equality is Python's between values of the same kinds. */
  lemma {:induction false} JsonEqExactly(v: Json, c: Json)
    ensures JsonEq(v, c) <==> PyEq(v, c) && SameKinds(v, c)
    decreases c
  {
    match (v, c) {
      case (Arr(xs), Arr(ys)) =>
        forall i | 0 <= i < |xs| && i < |ys|
          ensures JsonEq(xs[i], ys[i]) <==> PyEq(xs[i], ys[i]) && SameKinds(xs[i], ys[i])
        {
          JsonEqExactly(xs[i], ys[i]);
        }
      case (Obj(f), Obj(g)) =>
        forall k | k in f && k in g ensures JsonEq(f[k], g[k]) <==> PyEq(f[k], g[k]) && SameKinds(f[k], g[k]) {
          JsonEqExactly(f[k], g[k]);
        }
      case _ =>
    }
  }

  /** The program's comparison with c says of v what the standard says. */
  predicate Unconfused(v: Json, c: Json) { PyEq(v, c) ==> SameKinds(v, c) }

  lemma ComparisonAgreesExactly(v: Json, c: Json)
    ensures (PyEq(v, c) <==> JsonEq(v, c)) <==> Unconfused(v, c)
  {
    JsonEqExactly(v, c);
  }

  /** The constant true is confused with the number 1 and with nothing else, the constant false with 0. */
  lemma BooleanConstant(v: Json, b: bool)
    ensures Unconfused(v, Bool(b)) <==> v !in (if b then {Int(1), Float(1.0)} else {Int(0), Float(0.0)})
  {
  }

  // ---- constants that no value is confused with ----------------------------------------------------------

  /** A constant that Python equality cannot confuse: no boolean and no 0 or 1 inside. */
  predicate Unmistakable(c: Json) {
    match c
    case Bool(_) => false
    case Int(n) => n != 0 && n != 1
    case Float(r) => r != 0.0 && r != 1.0
    case Arr(items) => forall i :: 0 <= i < |items| ==> Unmistakable(items[i])
    case Obj(fields) => forall k :: k in fields ==> Unmistakable(fields[k])
    case _ => true
  }

  /** The same value with booleans and the numbers 0 and 1 exchanged throughout. */
  function Twin(c: Json): Json {
    match c
    case Bool(b) => Int(if b then 1 else 0)
    case Int(n) => if n == 0 then Bool(false) else if n == 1 then Bool(true) else c
    case Float(r) => if r == 0.0 then Bool(false) else if r == 1.0 then Bool(true) else c
    case Arr(items) => Arr(seq(|items|, i requires 0 <= i < |items| => Twin(items[i])))
    case Obj(fields) => Obj(map k | k in fields :: Twin(fields[k]))
    case _ => c
  }

  /** No value at all is confused with an unmistakable constant. */
  lemma {:induction false} UnmistakableIsUnconfused(v: Json, c: Json)
    requires Unmistakable(c)
    ensures Unconfused(v, c)
    decreases c
  {
    match (v, c) {
      case (Arr(xs), Arr(ys)) =>
        if PyEq(v, c) {
          forall i | 0 <= i < |ys| ensures SameKinds(xs[i], ys[i]) { UnmistakableIsUnconfused(xs[i], ys[i]); }
        }
      case (Obj(f), Obj(g)) =>
        if PyEq(v, c) {
          forall k | k in g ensures SameKinds(f[k], g[k]) { UnmistakableIsUnconfused(f[k], g[k]); }
        }
      case _ =>
    }
  }

  lemma {:induction false} TwinConfuses(c: Json)
    ensures PyEq(Twin(c), c)
    ensures JsonEq(Twin(c), c) <==> Unmistakable(c)
  {
    match c {
      case Arr(items) => forall i | 0 <= i < |items| { TwinConfuses(items[i]); }
      case Obj(fields) => forall k | k in fields { TwinConfuses(fields[k]); }
      case _ =>
    }
  }

  /** A const or an enum entry means what the standard says, for every value, exactly when it holds no boolean
      and no 0 or 1. So {"const": true} also admits the number 1. */
  lemma ConstantAgreesExactly(c: Json)
    ensures (forall v :: PyEq(v, c) <==> JsonEq(v, c)) <==> Unmistakable(c)
  {
    if Unmistakable(c) {
      forall v ensures PyEq(v, c) <==> JsonEq(v, c) {
        UnmistakableIsUnconfused(v, c);
        ComparisonAgreesExactly(v, c);
      }
    } else {
      TwinConfuses(c);
    }
  }

  // ---- whole schemas -------------------------------------------------------------------------------------

  /** The name means for v what it means in the standard. */
  predicate PlainType(v: Json, name: string) { KnownType(name) && !(name == "integer" && WholeFloat(v)) }

  predicate PlainTypes(v: Json, t: Types) {
    match t
    case NoType => true
    case OneType(name) => PlainType(v, name)
    case AnyType(names) => forall i :: 0 <= i < |names| ==> PlainType(v, names[i])
  }

  predicate PlainValue(v: Json, s: Schema) {
    && (s.constant.Some? ==> Unconfused(v, s.constant.value))
    && (s.values.Some? ==> forall i :: 0 <= i < |s.values.value| ==> Unconfused(v, s.values.value[i]))
  }

  /** anyOf stands alone; and wherever v meets a type name, a const or an enum entry, the two readings agree. */
  predicate Aligned(v: Json, s: Schema)
    decreases s
  {
    if s.anyOf.AnyOf? then
      s == ANY.(anyOf := s.anyOf) && forall i :: 0 <= i < |s.anyOf.schemas| ==> Aligned(v, s.anyOf.schemas[i])
    else
      && PlainTypes(v, s.types) && PlainValue(v, s)
      && (v.Arr? && s.items.Some? ==> forall i :: 0 <= i < |v.items| ==> Aligned(v.items[i], s.items.value))
      && (v.Obj? ==> forall k :: k in v.fields && k in s.properties ==> Aligned(v.fields[k], s.properties[k]))
  }

  lemma ValuesAgree(v: Json, s: Schema)
    requires PlainValue(v, s)
    ensures ValueAllowed(v, s) <==> StandardValue(v, s)
  {
    if s.constant.Some? { ComparisonAgreesExactly(v, s.constant.value); }
    if s.values.Some? {
      forall i | 0 <= i < |s.values.value| ensures PyEq(v, s.values.value[i]) <==> JsonEq(v, s.values.value[i]) {
        ComparisonAgreesExactly(v, s.values.value[i]);
      }
    }
  }

  lemma PartsAgree(v: Json, s: Schema, matches: Matcher)
    requires s.anyOf.NoAnyOf?
    requires TypeAllowed(v, s.types) <==> StandardTypes(v, s.types)
    requires ValueAllowed(v, s) <==> StandardValue(v, s)
    requires v.Arr? && s.items.Some? ==> forall i :: 0 <= i < |v.items| ==>
               (Conforms(v.items[i], s.items.value, matches) <==> Standard(v.items[i], s.items.value, matches))
    requires v.Obj? ==> forall k :: k in v.fields && k in s.properties ==>
               (Conforms(v.fields[k], s.properties[k], matches) <==> Standard(v.fields[k], s.properties[k], matches))
    ensures Conforms(v, s, matches) <==> Standard(v, s, matches)
  {
  }

  /** The validator decides what the standard defines for every schema and value that are aligned. */
  lemma {:induction false} AgreesWithStandard(v: Json, s: Schema, matches: Matcher)
    requires Aligned(v, s)
    ensures Conforms(v, s, matches) <==> Standard(v, s, matches)
    decreases s
  {
    if s.anyOf.AnyOf? {
      forall i | 0 <= i < |s.anyOf.schemas|
        ensures Conforms(v, s.anyOf.schemas[i], matches) <==> Standard(v, s.anyOf.schemas[i], matches)
      {
        AgreesWithStandard(v, s.anyOf.schemas[i], matches);
      }
    } else {
      ValuesAgree(v, s);
      if v.Arr? && s.items.Some? {
        forall i | 0 <= i < |v.items|
          ensures Conforms(v.items[i], s.items.value, matches) <==> Standard(v.items[i], s.items.value, matches)
        {
          AgreesWithStandard(v.items[i], s.items.value, matches);
        }
      }
      if v.Obj? {
        forall k | k in v.fields && k in s.properties
          ensures Conforms(v.fields[k], s.properties[k], matches) <==> Standard(v.fields[k], s.properties[k], matches)
        {
          AgreesWithStandard(v.fields[k], s.properties[k], matches);
        }
      }
      PartsAgree(v, s, matches);
    }
  }

  /** No value inside is a float without a fractional part. */
  predicate NoWholeFloats(v: Json) {
    match v
    case Float(_) => !WholeFloat(v)
    case Arr(items) => forall i :: 0 <= i < |items| ==> NoWholeFloats(items[i])
    case Obj(fields) => forall k :: k in fields ==> NoWholeFloats(fields[k])
    case _ => true
  }

  /** anyOf stands alone, types are the standard's, constants are unmistakable; here and in every sub-schema. */
  predicate PlainSchema(s: Schema)
    decreases s
  {
    && (s.anyOf.AnyOf? ==> s == ANY.(anyOf := s.anyOf)
                           && forall i :: 0 <= i < |s.anyOf.schemas| ==> PlainSchema(s.anyOf.schemas[i]))
    && (s.types.OneType? ==> KnownType(s.types.name))
    && (s.types.AnyType? ==> forall i :: 0 <= i < |s.types.names| ==> KnownType(s.types.names[i]))
    && (s.constant.Some? ==> Unmistakable(s.constant.value))
    && (s.values.Some? ==> forall i :: 0 <= i < |s.values.value| ==> Unmistakable(s.values.value[i]))
    && (s.items.Some? ==> PlainSchema(s.items.value))
    && (forall k :: k in s.properties ==> PlainSchema(s.properties[k]))
  }

  lemma PlainValues(v: Json, s: Schema)
    requires PlainSchema(s)
    ensures PlainValue(v, s)
  {
    if s.constant.Some? { UnmistakableIsUnconfused(v, s.constant.value); }
    if s.values.Some? {
      forall i | 0 <= i < |s.values.value| ensures Unconfused(v, s.values.value[i]) {
        UnmistakableIsUnconfused(v, s.values.value[i]);
      }
    }
  }

  /** A plain schema is aligned with every value that has no such floats. */
  lemma {:induction false} PlainSchemaIsAligned(v: Json, s: Schema)
    requires PlainSchema(s) && NoWholeFloats(v)
    ensures Aligned(v, s)
    decreases s
  {
    if s.anyOf.AnyOf? {
      forall i | 0 <= i < |s.anyOf.schemas| ensures Aligned(v, s.anyOf.schemas[i]) {
        PlainSchemaIsAligned(v, s.anyOf.schemas[i]);
      }
    } else {
      PlainValues(v, s);
      if v.Arr? && s.items.Some? {
        forall i | 0 <= i < |v.items| ensures Aligned(v.items[i], s.items.value) {
          PlainSchemaIsAligned(v.items[i], s.items.value);
        }
      }
      if v.Obj? {
        forall k | k in v.fields && k in s.properties ensures Aligned(v.fields[k], s.properties[k]) {
          PlainSchemaIsAligned(v.fields[k], s.properties[k]);
        }
      }
    }
  }

  // ---- what the standard accepts -------------------------------------------------------------------------

  /** Wherever v meets the type name integer, it is not a float without a fractional part. */
  predicate IntegersAreWritten(v: Json, s: Schema)
    decreases s
  {
    && (s.anyOf.AnyOf? ==> forall i :: 0 <= i < |s.anyOf.schemas| ==> IntegersAreWritten(v, s.anyOf.schemas[i]))
    && (WholeFloat(v) ==> s.types != OneType("integer") && !(s.types.AnyType? && "integer" in s.types.names))
    && (v.Arr? && s.items.Some? ==> forall i :: 0 <= i < |v.items| ==> IntegersAreWritten(v.items[i], s.items.value))
    && (v.Obj? ==> forall k :: k in v.fields && k in s.properties ==> IntegersAreWritten(v.fields[k], s.properties[k]))
  }

  lemma ValuesAreAccepted(v: Json, s: Schema)
    requires StandardValue(v, s)
    ensures ValueAllowed(v, s)
  {
    if s.constant.Some? { JsonEqExactly(v, s.constant.value); }
    if s.values.Some? {
      var i :| 0 <= i < |s.values.value| && JsonEq(v, s.values.value[i]);
      JsonEqExactly(v, s.values.value[i]);
    }
  }

  /** For every schema, whatever its constants and whatever stands beside anyOf: but for integers written with a
      fractional point, the validator accepts all that the standard accepts. */
  lemma {:induction false} StandardIsAccepted(v: Json, s: Schema, matches: Matcher)
    requires IntegersAreWritten(v, s) && Standard(v, s, matches)
    ensures Conforms(v, s, matches)
    decreases s
  {
    if s.anyOf.AnyOf? {
      var i :| 0 <= i < |s.anyOf.schemas| && Standard(v, s.anyOf.schemas[i], matches);
      StandardIsAccepted(v, s.anyOf.schemas[i], matches);
    } else {
      ValuesAreAccepted(v, s);
      if v.Arr? && s.items.Some? {
        forall i | 0 <= i < |v.items| ensures Conforms(v.items[i], s.items.value, matches) {
          StandardIsAccepted(v.items[i], s.items.value, matches);
        }
      }
      if v.Obj? {
        forall k | k in v.fields && k in s.properties ensures Conforms(v.fields[k], s.properties[k], matches) {
          StandardIsAccepted(v.fields[k], s.properties[k], matches);
        }
      }
    }
  }

  /** The type keyword differs from the standard exactly on integers written with a fractional point,
      and on type names the standard does not know. */
  lemma TypeAgreesExactly(v: Json, name: string)
    ensures (JsonType(v, name) <==> StandardType(v, name)) <==>
            && name in {"object", "array", "string", "boolean", "integer", "number", "null"}
            && !(name == "integer" && v.Float? && v.r == v.r.Floor as real)
  {
  }

  /** Keywords beside anyOf are ignored, so where the alternatives agree the whole schema agrees with the standard
      exactly if an accepted value also meets the other keywords. */
  lemma SiblingsAgreeExactly(v: Json, s: Schema, matches: Matcher)
    requires s.anyOf.AnyOf?
    requires forall i :: 0 <= i < |s.anyOf.schemas| ==>
               (Conforms(v, s.anyOf.schemas[i], matches) <==> Standard(v, s.anyOf.schemas[i], matches))
    ensures Conforms(v, s, matches) <==> Conforms(v, ANY.(anyOf := s.anyOf), matches)
    ensures (Conforms(v, s, matches) <==> Standard(v, s, matches)) <==>
            (Conforms(v, s, matches) ==> Standard(v, s.(anyOf := NoAnyOf), matches))
  {
    StandardSplits(v, s, matches);
  }

  lemma StandardSplits(v: Json, s: Schema, matches: Matcher)
    requires s.anyOf.AnyOf?
    ensures Standard(v, s, matches) <==>
            Standard(v, s.(anyOf := NoAnyOf), matches)
            && exists i :: 0 <= i < |s.anyOf.schemas| && Standard(v, s.anyOf.schemas[i], matches)
  {
  }

  /** A value that the standard rejects for a keyword beside anyOf, and the validator accepts. */
  lemma SiblingIgnored(matches: Matcher) returns (v: Json, s: Schema)
    ensures Aligned(v, s.(anyOf := NoAnyOf)) && Conforms(v, s, matches) && !Standard(v, s, matches)
  {
    v, s := Null, ANY.(anyOf := AnyOf([ANY]), types := OneType("string"));
    assert Conforms(v, s.anyOf.schemas[0], matches);
  }
}
