/** The two snapshot sanitizers. Objects keep their insertion order, as the program's dictionaries do;
    the keys of an object are distinct. */
module Sanitizer {
  import Sensitive

  datatype Json = Null | Bool(b: bool) | Num(r: real) | Str(s: string) | Arr(items: seq<Json>) | Obj(fields: seq<Field>)

  datatype Field = Field(key: string, value: Json)

  /** Snapshot keeps the status of an object for the dashboard; Manifest drops it. */
  datatype Mode = Snapshot | Manifest

  /** How other values print, which environment names are runtime settings, and the order of sorted keys. */
  datatype Rules = Rules(show: Json -> string, runtimeName: string -> bool, sorted: set<string> -> seq<string>)

  const REDACTED := Str("<redacted>")

  function Text(v: Json, rules: Rules): string { if v.Str? then v.s else rules.show(v) }

  // ---- dictionaries ------------------------------------------------------------------------------------

  predicate Has(fields: seq<Field>, key: string) { exists i :: 0 <= i < |fields| && fields[i].key == key }

  function IndexOf(fields: seq<Field>, key: string): (i: nat)
    requires Has(fields, key)
    ensures i < |fields| && fields[i].key == key
  {
    if fields[0].key == key then 0 else 1 + IndexOf(fields[1..], key)
  }

  /** Assignment to a key: in place if present, else at the end. */
  function Put(fields: seq<Field>, f: Field): seq<Field> {
    if Has(fields, f.key) then fields[IndexOf(fields, f.key) := f] else fields + [f]
  }

  function Keys(fields: seq<Field>): set<string> { set f | f in fields :: f.key }

  // ---- metadata and environment ------------------------------------------------------------------------

  predicate Volatile(key: string) {
    key in {"managedFields", "resourceVersion", "uid", "generation", "creationTimestamp", "selfLink"}
  }

  function RedactAnnotations(fields: seq<Field>): seq<Field> {
    seq(|fields|, i requires 0 <= i < |fields| =>
      if Sensitive.Matches(fields[i].key) then Field(fields[i].key, REDACTED) else fields[i])
  }

  function CleanMetadata(fields: seq<Field>): seq<Field> {
    if fields == [] then []
    else
      var f := fields[0];
      (if Volatile(f.key) then []
       else if f.key == "annotations" && f.value.Obj? then [Field(f.key, Obj(RedactAnnotations(f.value.fields)))]
       else [f]) + CleanMetadata(fields[1..])
  }

  predicate Withheld(name: string, rules: Rules) { !rules.runtimeName(name) || Sensitive.Matches(name) }

  function SafeValue(name: string, value: string, rules: Rules): string {
    if Withheld(name, rules) || Sensitive.Matches(value) then REDACTED.s else Sensitive.Truncate(value)
  }

  function NameOf(entry: seq<Field>, rules: Rules): string {
    if Has(entry, "name") then Text(entry[IndexOf(entry, "name")].value, rules) else ""
  }

  function SanitizeEntry(entry: seq<Field>, rules: Rules): seq<Field> {
    var name := NameOf(entry, rules);
    seq(|entry|, i requires 0 <= i < |entry| =>
      if entry[i].key == "value" then Field("value", Str(SafeValue(name, Text(entry[i].value, rules), rules)))
      else entry[i])
  }

  function SanitizeEnv(env: seq<Json>, rules: Rules): seq<Json> {
    if env == [] then []
    else (if env[0].Obj? then [Obj(SanitizeEntry(env[0].fields, rules))] else []) + SanitizeEnv(env[1..], rules)
  }

  // ---- the tree ----------------------------------------------------------------------------------------

  predicate DataKey(key: string) { key in {"data", "stringData", "binaryData"} }

  predicate RedactedKey(key: string) {
    Sensitive.Matches(key) && key !in {"secretName", "secretKeyRef", "imagePullSecrets"}
  }

  predicate Dropped(key: string, mode: Mode) { key == "managedFields" || (mode.Manifest? && key == "status") }

  function KeyList(fields: seq<Field>, rules: Rules): Json {
    var names := rules.sorted(Keys(fields));
    Arr(seq(|names|, i requires 0 <= i < |names| => Str(names[i])))
  }

  function Sanitize(v: Json, mode: Mode, rules: Rules): Json
    decreases v, 1
  {
    match v
    case Arr(items) => Arr(seq(|items|, i requires 0 <= i < |items| => Sanitize(items[i], mode, rules)))
    case Obj(fields) => Obj(SanitizeFields(fields, mode, rules))
    case _ => v
  }

  /** The dictionary built so far, after the loop has gone through these fields. */
  function SanitizeFields(fields: seq<Field>, mode: Mode, rules: Rules): seq<Field>
    decreases fields, 0
  {
    if fields == [] then []
    else
      var result, f := SanitizeFields(fields[..|fields| - 1], mode, rules), fields[|fields| - 1];
      if Dropped(f.key, mode) then result else Put(result, Emit(f, mode, rules))
  }

  /** What one retained key contributes. */
  function Emit(f: Field, mode: Mode, rules: Rules): Field
    decreases f, 0
  {
    if f.key == "metadata" && f.value.Obj? then Field(f.key, Obj(CleanMetadata(f.value.fields)))
    else if f.key == "env" && f.value.Arr? then Field(f.key, Arr(SanitizeEnv(f.value.items, rules)))
    else if DataKey(f.key) then
      if f.value.Obj? then Field(f.key + "Keys", KeyList(f.value.fields, rules)) else Field(f.key, REDACTED)
    else if RedactedKey(f.key) then Field(f.key, REDACTED)
    else Field(f.key, Sanitize(f.value, mode, rules))
  }
}
