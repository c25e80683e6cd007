/** The JSON Schema subset validator. Patterns are matched by a parameter. Floating-point numbers are reals. */
module Validator {
  import opened Options

  datatype Json =
    | Null
    | Bool(b: bool)
    | Int(n: int)
    | Float(r: real)
    | Str(s: string)
    | Arr(items: seq<Json>)
    | Obj(fields: map<string, Json>)

  datatype Alternatives = NoAnyOf | AnyOf(schemas: seq<Schema>)

  datatype Types = NoType | OneType(name: string) | AnyType(names: seq<string>)

  /** A schema's keywords; an absent keyword has its neutral value ("" for no pattern). */
  datatype Schema = Schema(
    anyOf: Alternatives, types: Types, constant: Option<Json>, values: Option<seq<Json>>,
    minLength: int, pattern: string, minimum: Option<real>, maximum: Option<real>,
    minItems: int, items: Option<Schema>, required: seq<string>, properties: map<string, Schema>, closed: bool)

  const ANY := Schema(NoAnyOf, NoType, None, None, 0, "", None, None, 0, None, [], map[], false)

  type Matcher = (string, string) -> bool

  // ---- values ------------------------------------------------------------------------------------------

  predicate Numeric(v: Json) { v.Bool? || v.Int? || v.Float? }

  function Number(v: Json): real
    requires Numeric(v)
  {
    match v
    case Bool(b) => if b then 1.0 else 0.0
    case Int(n) => n as real
    case Float(r) => r
  }

  /** Python equality: booleans are the numbers 0 and 1. */
  predicate PyEq(a: Json, b: Json) {
    if Numeric(a) && Numeric(b) then Number(a) == Number(b)
    else
      match (a, b)
      case (Null, Null) => true
      case (Str(s), Str(t)) => s == t
      case (Arr(xs), Arr(ys)) => |xs| == |ys| && forall i :: 0 <= i < |xs| ==> PyEq(xs[i], ys[i])
      case (Obj(f), Obj(g)) => f.Keys == g.Keys && forall k :: k in f ==> PyEq(f[k], g[k])
      case _ => false
  }

  predicate JsonType(v: Json, expected: string) {
    if expected == "object" then v.Obj?
    else if expected == "array" then v.Arr?
    else if expected == "string" then v.Str?
    else if expected == "boolean" then v.Bool?
    else if expected == "integer" then v.Int?
    else if expected == "number" then v.Int? || v.Float?
    else if expected == "null" then v.Null?
    else true
  }

  // ---- conformance, stated apart from the algorithm ----------------------------------------------------

  predicate TypeAllowed(v: Json, t: Types) {
    match t
    case NoType => true
    case OneType(name) => JsonType(v, name)
    case AnyType(names) => exists i :: 0 <= i < |names| && JsonType(v, names[i])
  }

  predicate ValueAllowed(v: Json, s: Schema) {
    && (s.constant.Some? ==> PyEq(v, s.constant.value))
    && (s.values.Some? ==> exists i :: 0 <= i < |s.values.value| && PyEq(v, s.values.value[i]))
  }

  predicate TextAllowed(v: Json, s: Schema, matches: Matcher) {
    v.Str? ==> |v.s| >= s.minLength && (s.pattern != "" ==> matches(s.pattern, v.s))
  }

  predicate RangeAllowed(v: Json, s: Schema) {
    v.Int? || v.Float? ==>
      (s.minimum.Some? ==> Number(v) >= s.minimum.value) && (s.maximum.Some? ==> Number(v) <= s.maximum.value)
  }

  predicate MembersAllowed(v: Json, s: Schema) {
    && (v.Arr? ==> |v.items| >= s.minItems)
    && (v.Obj? ==> forall k :: k in s.required ==> k in v.fields)
  }

  predicate ScalarsAllowed(v: Json, s: Schema, matches: Matcher) {
    ValueAllowed(v, s) && TextAllowed(v, s, matches) && RangeAllowed(v, s) && MembersAllowed(v, s)
  }

  predicate Conforms(v: Json, s: Schema, matches: Matcher)
    decreases s
  {
    if s.anyOf.AnyOf? then exists i :: 0 <= i < |s.anyOf.schemas| && Conforms(v, s.anyOf.schemas[i], matches)
    else
      && TypeAllowed(v, s.types) && ScalarsAllowed(v, s, matches)
      && (v.Arr? && s.items.Some? ==> forall i :: 0 <= i < |v.items| ==> Conforms(v.items[i], s.items.value, matches))
      && (v.Obj? ==> forall k :: k in v.fields ==>
            if k in s.properties then Conforms(v.fields[k], s.properties[k], matches) else !s.closed)
  }

  // ---- the algorithm -----------------------------------------------------------------------------------

  datatype Step = Key(key: string) | Index(index: nat)

  /** Where in the document: the steps from the root, rendered by the program as $.key[index]. */
  type Pointer = seq<Step>

  datatype Problem = NoAlternative | WrongType | NotConstant | NotInEnum | TooShort | NoMatch | BelowMinimum
                   | AboveMaximum | TooFewItems | MissingProperty(name: string) | UnknownProperty(name: string)

  datatype Report = Report(pointer: Pointer, problem: Problem)

  // ---- what is to be reported, stated apart from the algorithm -------------------------------------------

  /** Python equality with one of the values. */
  predicate AmongValues(v: Json, values: seq<Json>) { exists i :: 0 <= i < |values| && PyEq(v, values[i]) }

  /** The problems of a value itself, once its type is allowed. */
  predicate Problematic(v: Json, s: Schema, matches: Matcher, problem: Problem) {
    match problem
    case NotConstant => s.constant.Some? && !PyEq(v, s.constant.value)
    case NotInEnum => s.values.Some? && !AmongValues(v, s.values.value)
    case TooShort => v.Str? && |v.s| < s.minLength
    case NoMatch => v.Str? && s.pattern != "" && !matches(s.pattern, v.s)
    case BelowMinimum =>
      s.minimum.Some? && ((v.Int? && v.n as real < s.minimum.value) || (v.Float? && v.r < s.minimum.value))
    case AboveMaximum =>
      s.maximum.Some? && ((v.Int? && v.n as real > s.maximum.value) || (v.Float? && v.r > s.maximum.value))
    case TooFewItems => v.Arr? && |v.items| < s.minItems
    case MissingProperty(name) => v.Obj? && name in s.required && name !in v.fields
    case UnknownProperty(name) => v.Obj? && s.closed && name in v.fields && name !in s.properties
    case _ => false
  }

  /** The problem stands at the end of these steps. A value that no alternative accepts, or of a wrong type, has no
      other problem and is not entered. */
  predicate Violation(v: Json, s: Schema, matches: Matcher, steps: Pointer, problem: Problem)
    decreases s
  {
    if s.anyOf.AnyOf? then
      steps == [] && problem == NoAlternative
      && forall i :: 0 <= i < |s.anyOf.schemas| ==> !Conforms(v, s.anyOf.schemas[i], matches)
    else if !TypeAllowed(v, s.types) then steps == [] && problem == WrongType
    else if steps == [] then Problematic(v, s, matches, problem)
    else
      match steps[0]
      case Index(i) =>
        v.Arr? && s.items.Some? && i < |v.items| && Violation(v.items[i], s.items.value, matches, steps[1..], problem)
      case Key(k) =>
        v.Obj? && k in v.fields && k in s.properties
        && Violation(v.fields[k], s.properties[k], matches, steps[1..], problem)
  }

  ghost predicate Reports(errors: seq<Report>, v: Json, s: Schema, matches: Matcher, p: Pointer) {
    forall r :: r in errors <==> p <= r.pointer && Violation(v, s, matches, r.pointer[|p|..], r.problem)
  }

  /** The reports at p itself about these kinds of problem. */
  ghost predicate ReportsHere(errors: seq<Report>, v: Json, s: Schema, matches: Matcher, p: Pointer,
                              kinds: Problem -> bool)
  {
    forall r :: r in errors <==> r.pointer == p && kinds(r.problem) && Problematic(v, s, matches, r.problem)
  }

  predicate OfValue(q: Problem) { q.NotConstant? || q.NotInEnum? }

  predicate OfText(q: Problem) { q.TooShort? || q.NoMatch? }

  predicate OfRange(q: Problem) { q.BelowMinimum? || q.AboveMaximum? }

  predicate OfMembers(q: Problem) { q.TooFewItems? || q.MissingProperty? }

  /** The steps enter one of the first n items. */
  predicate ItemViolation(v: Json, s: Schema, matches: Matcher, steps: Pointer, problem: Problem, n: nat) {
    && v.Arr? && s.items.Some? && steps != [] && steps[0].Index? && steps[0].index < n <= |v.items|
    && Violation(v.items[steps[0].index], s.items.value, matches, steps[1..], problem)
  }

  ghost predicate ItemsReported(errors: seq<Report>, v: Json, s: Schema, matches: Matcher, p: Pointer, n: nat) {
    forall r :: r in errors <==> p <= r.pointer && ItemViolation(v, s, matches, r.pointer[|p|..], r.problem, n)
  }

  /** The steps enter one of these properties, or it is unknown where none may be. */
  predicate PropertyViolation(v: Json, s: Schema, matches: Matcher, steps: Pointer, problem: Problem,
                              keys: set<string>)
    requires v.Obj? && keys <= v.fields.Keys
  {
    if steps == [] then problem.UnknownProperty? && problem.name in keys && problem.name !in s.properties && s.closed
    else steps[0].Key? && steps[0].key in keys && steps[0].key in s.properties
         && Violation(v.fields[steps[0].key], s.properties[steps[0].key], matches, steps[1..], problem)
  }

  ghost predicate PropertiesReported(errors: seq<Report>, v: Json, s: Schema, matches: Matcher, p: Pointer,
                                     keys: set<string>)
    requires v.Obj? && keys <= v.fields.Keys
  {
    forall r :: r in errors <==> p <= r.pointer && PropertyViolation(v, s, matches, r.pointer[|p|..], r.problem, keys)
  }

  lemma Deeper(p: Pointer, step: Step, q: Pointer)
    ensures p + [step] <= q <==> p <= q && |q| > |p| && q[|p|] == step
    ensures p + [step] <= q ==> q[|p + [step]|..] == q[|p|..][1..] && q[|p|..][0] == step
  {
    if p <= q && |q| > |p| && q[|p|] == step { assert q[..|p| + 1] == p + [step]; }
    if p + [step] <= q { assert q[|p|] == (p + [step])[|p|] && q[..|p|] == (p + [step])[..|p|]; }
  }

  lemma NextItem(errors: seq<Report>, found: seq<Report>, v: Json, s: Schema, matches: Matcher, p: Pointer, i: nat)
    requires v.Arr? && s.items.Some? && i < |v.items| && ItemsReported(errors, v, s, matches, p, i)
    requires Reports(found, v.items[i], s.items.value, matches, p + [Index(i)])
    ensures ItemsReported(errors + found, v, s, matches, p, i + 1)
  {
    forall r ensures r in errors + found <==>
                     p <= r.pointer && ItemViolation(v, s, matches, r.pointer[|p|..], r.problem, i + 1) {
      Deeper(p, Index(i), r.pointer);
    }
  }

  lemma NextProperty(errors: seq<Report>, found: seq<Report>, v: Json, s: Schema, matches: Matcher, p: Pointer,
                     keys: set<string>, k: string)
    requires v.Obj? && keys <= v.fields.Keys && k in v.fields && k !in keys && k in s.properties
    requires PropertiesReported(errors, v, s, matches, p, keys)
    requires Reports(found, v.fields[k], s.properties[k], matches, p + [Key(k)])
    ensures PropertiesReported(errors + found, v, s, matches, p, keys + {k})
  {
    forall r ensures r in errors + found <==>
                     p <= r.pointer && PropertyViolation(v, s, matches, r.pointer[|p|..], r.problem, keys + {k}) {
      Deeper(p, Key(k), r.pointer);
    }
  }

  /** A value that is not entered has at most the one report. */
  lemma NothingBelow(v: Json, s: Schema, matches: Matcher, p: Pointer, errors: seq<Report>)
    requires s.anyOf.AnyOf? || !TypeAllowed(v, s.types)
    requires errors == if Conforms(v, s, matches) then []
                       else [Report(p, if s.anyOf.AnyOf? then NoAlternative else WrongType)]
    ensures Reports(errors, v, s, matches, p)
  {
    forall r ensures r in errors <==> p <= r.pointer && Violation(v, s, matches, r.pointer[|p|..], r.problem) {
      assert r.pointer == p <==> p <= r.pointer && r.pointer[|p|..] == [];
    }
  }

  lemma NextUnknown(errors: seq<Report>, v: Json, s: Schema, matches: Matcher, p: Pointer, keys: set<string>, k: string)
    requires v.Obj? && keys <= v.fields.Keys && k in v.fields && k !in keys && k !in s.properties
    requires PropertiesReported(errors, v, s, matches, p, keys)
    ensures PropertiesReported(errors + if s.closed then [Report(p, UnknownProperty(k))] else [], v, s, matches, p,
                               keys + {k})
  {
    var more := if s.closed then [Report(p, UnknownProperty(k))] else [];
    forall r ensures r in errors + more <==>
                     p <= r.pointer && PropertyViolation(v, s, matches, r.pointer[|p|..], r.problem, keys + {k}) {
      assert r.pointer == p <==> p <= r.pointer && r.pointer[|p|..] == [];
      assert r.problem.UnknownProperty? && r.problem.name == k <==> r.problem == UnknownProperty(k);
    }
  }

  /** The steps lead to a sub-value. */
  predicate Leads(v: Json, steps: Pointer)
    decreases |steps|
  {
    if steps == [] then true
    else
      match steps[0]
      case Key(k) => v.Obj? && k in v.fields && Leads(v.fields[k], steps[1..])
      case Index(i) => v.Arr? && i < |v.items| && Leads(v.items[i], steps[1..])
  }

  /** A violation stands at a sub-value. */
  lemma {:induction false} ViolationLeads(v: Json, s: Schema, matches: Matcher, steps: Pointer, problem: Problem)
    requires Violation(v, s, matches, steps, problem)
    ensures Leads(v, steps)
    decreases s
  {
    if steps != [] {
      match steps[0] {
        case Key(k) => ViolationLeads(v.fields[k], s.properties[k], matches, steps[1..], problem);
        case Index(i) => ViolationLeads(v.items[i], s.items.value, matches, steps[1..], problem);
      }
    }
  }

  // ---- the reports on the value itself -------------------------------------------------------------------

  method ValueReports(v: Json, s: Schema, p: Pointer, matches: Matcher) returns (errors: seq<Report>)
    ensures errors == [] <==> ValueAllowed(v, s)
    ensures ReportsHere(errors, v, s, matches, p, OfValue)
  {
    errors := [];
    if s.constant.Some? && !PyEq(v, s.constant.value) { errors := errors + [Report(p, NotConstant)]; }
    if s.values.Some? && !(exists i :: 0 <= i < |s.values.value| && PyEq(v, s.values.value[i])) {
      errors := errors + [Report(p, NotInEnum)];
    }
  }

  method TextReports(v: Json, s: Schema, p: Pointer, matches: Matcher) returns (errors: seq<Report>)
    ensures errors == [] <==> TextAllowed(v, s, matches)
    ensures ReportsHere(errors, v, s, matches, p, OfText)
  {
    errors := [];
    if v.Str? {
      if |v.s| < s.minLength { errors := errors + [Report(p, TooShort)]; }
      if s.pattern != "" && !matches(s.pattern, v.s) { errors := errors + [Report(p, NoMatch)]; }
    }
  }

  method RangeReports(v: Json, s: Schema, p: Pointer, matches: Matcher) returns (errors: seq<Report>)
    ensures errors == [] <==> RangeAllowed(v, s)
    ensures ReportsHere(errors, v, s, matches, p, OfRange)
  {
    errors := [];
    if v.Int? || v.Float? {
      if s.minimum.Some? && Number(v) < s.minimum.value { errors := errors + [Report(p, BelowMinimum)]; }
      if s.maximum.Some? && Number(v) > s.maximum.value { errors := errors + [Report(p, AboveMaximum)]; }
    }
  }

  method MemberReports(v: Json, s: Schema, p: Pointer, matches: Matcher) returns (errors: seq<Report>)
    ensures errors == [] <==> MembersAllowed(v, s)
    ensures ReportsHere(errors, v, s, matches, p, OfMembers)
  {
    errors := [];
    if v.Arr? && |v.items| < s.minItems { errors := [Report(p, TooFewItems)]; }
    if v.Obj? {
      for i := 0 to |s.required|
        invariant forall r :: r in errors <==>
                    r.pointer == p && r.problem.MissingProperty? && r.problem.name in s.required[..i]
                    && r.problem.name !in v.fields
        invariant errors == [] <==> forall j :: 0 <= j < i ==> s.required[j] in v.fields
      {
        assert s.required[..i + 1] == s.required[..i] + [s.required[i]];
        if s.required[i] !in v.fields { errors := errors + [Report(p, MissingProperty(s.required[i]))]; }
      }
      assert s.required[..|s.required|] == s.required;
    }
  }

  /** Whether some alternative accepts the value. */
  method Accepted(v: Json, s: Schema, p: Pointer, matches: Matcher) returns (accepted: bool)
    requires s.anyOf.AnyOf?
    ensures accepted <==> exists i :: 0 <= i < |s.anyOf.schemas| && Conforms(v, s.anyOf.schemas[i], matches)
    decreases s, 0
  {
    accepted := false;
    for i := 0 to |s.anyOf.schemas|
      invariant accepted <==> exists j :: 0 <= j < i && Conforms(v, s.anyOf.schemas[j], matches)
    {
      var alternative := ValidateValue(v, s.anyOf.schemas[i], p, matches);
      accepted := accepted || alternative == [];
    }
  }

  predicate ItemsConform(v: Json, s: Schema, matches: Matcher) {
    v.Arr? && s.items.Some? ==> forall i :: 0 <= i < |v.items| ==> Conforms(v.items[i], s.items.value, matches)
  }

  predicate PropertyConforms(v: Json, k: string, s: Schema, matches: Matcher)
    requires v.Obj? && k in v.fields
  {
    if k in s.properties then Conforms(v.fields[k], s.properties[k], matches) else !s.closed
  }

  predicate PropertiesConform(v: Json, s: Schema, matches: Matcher) {
    v.Obj? ==> forall k :: k in v.fields ==> PropertyConforms(v, k, s, matches)
  }

  method ItemReports(v: Json, s: Schema, p: Pointer, matches: Matcher) returns (errors: seq<Report>)
    ensures errors == [] <==> ItemsConform(v, s, matches)
    ensures ItemsReported(errors, v, s, matches, p, if v.Arr? then |v.items| else 0)
    decreases s, 0
  {
    errors := [];
    if v.Arr? && s.items.Some? {
      for i := 0 to |v.items|
        invariant ItemsReported(errors, v, s, matches, p, i)
        invariant errors == [] <==> forall j :: 0 <= j < i ==> Conforms(v.items[j], s.items.value, matches)
      {
        var found := ValidateValue(v.items[i], s.items.value, p + [Index(i)], matches);
        NextItem(errors, found, v, s, matches, p, i);
        errors := errors + found;
      }
    }
  }

  method PropertyReports(v: Json, s: Schema, p: Pointer, matches: Matcher) returns (errors: seq<Report>)
    ensures errors == [] <==> PropertiesConform(v, s, matches)
    ensures if v.Obj? then PropertiesReported(errors, v, s, matches, p, v.fields.Keys) else errors == []
    decreases s, 0
  {
    errors := [];
    if v.Obj? {
      var pending := v.fields.Keys;
      while pending != {}
        invariant pending <= v.fields.Keys && PropertiesReported(errors, v, s, matches, p, v.fields.Keys - pending)
        invariant errors == [] <==>
                  forall k :: k in v.fields && k !in pending ==> PropertyConforms(v, k, s, matches)
        decreases pending
      {
        var k :| k in pending;
        ghost var seen := v.fields.Keys - pending;
        pending := pending - {k};
        assert v.fields.Keys - pending == seen + {k};
        if k in s.properties {
          var found := ValidateValue(v.fields[k], s.properties[k], p + [Key(k)], matches);
          NextProperty(errors, found, v, s, matches, p, seen, k);
          errors := errors + found;
        } else {
          NextUnknown(errors, v, s, matches, p, seen, k);
          if s.closed { errors := errors + [Report(p, UnknownProperty(k))]; }
        }
      }
      assert v.fields.Keys - pending == v.fields.Keys;
    }
  }

  /** The reports at p and below it are together all that there is to report. */
  lemma AllReported(v: Json, s: Schema, matches: Matcher, p: Pointer, value: seq<Report>, text: seq<Report>,
                    range: seq<Report>, members: seq<Report>, items: seq<Report>, properties: seq<Report>)
    requires s.anyOf.NoAnyOf? && TypeAllowed(v, s.types)
    requires ReportsHere(value, v, s, matches, p, OfValue) && ReportsHere(text, v, s, matches, p, OfText)
    requires ReportsHere(range, v, s, matches, p, OfRange) && ReportsHere(members, v, s, matches, p, OfMembers)
    requires ItemsReported(items, v, s, matches, p, if v.Arr? then |v.items| else 0)
    requires if v.Obj? then PropertiesReported(properties, v, s, matches, p, v.fields.Keys) else properties == []
    ensures Reports(value + text + range + members + items + properties, v, s, matches, p)
  {
    forall r ensures r in value + text + range + members + items + properties <==>
                     p <= r.pointer && Violation(v, s, matches, r.pointer[|p|..], r.problem) {
      assert r.pointer == p <==> p <= r.pointer && r.pointer[|p|..] == [];
    }
  }

  /** No report exactly when the value conforms; the reports are exactly the violations, each with the steps to the
      sub-value where it stands. */
  method ValidateValue(v: Json, s: Schema, p: Pointer, matches: Matcher) returns (errors: seq<Report>)
    ensures errors == [] <==> Conforms(v, s, matches)
    ensures Reports(errors, v, s, matches, p)
    decreases s, 1
  {
    if s.anyOf.AnyOf? {
      var accepted := Accepted(v, s, p, matches);
      errors := if accepted then [] else [Report(p, NoAlternative)];
      NothingBelow(v, s, matches, p, errors);
      return;
    }
    if !TypeAllowed(v, s.types) {
      errors := [Report(p, WrongType)];
      NothingBelow(v, s, matches, p, errors);
      return;
    }
    var value := ValueReports(v, s, p, matches);
    var text := TextReports(v, s, p, matches);
    var range := RangeReports(v, s, p, matches);
    var members := MemberReports(v, s, p, matches);
    var items := ItemReports(v, s, p, matches);
    var properties := PropertyReports(v, s, p, matches);
    AllReported(v, s, matches, p, value, text, range, members, items, properties);
    errors := value + text + range + members + items + properties;
  }
}
