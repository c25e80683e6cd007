/** What comes out of the sanitizers, part by part: metadata and environments entry by entry, and an object's fields
    by their keys. */
module SanitizerExactly {
  import opened Sanitizer
  import opened SanitizerLaws
  import Sensitive

  // ---- metadata and environment --------------------------------------------------------------------------

  /** Metadata is cleaned field by field, in order. */
  lemma MetadataParts(fields: seq<Field>)
    ensures CleanMetadata([]) == []
    ensures fields != [] ==> CleanMetadata(fields) == CleanMetadata([fields[0]]) + CleanMetadata(fields[1..])
  {
    if fields != [] { assert [fields[0]][1..] == []; }
  }

  /** A volatile field goes; annotations keep their keys, and the values under harmless ones; any other field stays. */
  lemma MetadataField(f: Field)
    ensures f.key in {"managedFields", "resourceVersion", "uid", "generation", "creationTimestamp", "selfLink"} ==>
              CleanMetadata([f]) == []
    ensures && f.key !in {"managedFields", "resourceVersion", "uid", "generation", "creationTimestamp", "selfLink"}
            && !(f.key == "annotations" && f.value.Obj?)
            ==> CleanMetadata([f]) == [f]
    ensures f.key == "annotations" && f.value.Obj? ==>
              && |CleanMetadata([f])| == 1 && CleanMetadata([f])[0].key == "annotations"
              && CleanMetadata([f])[0].value.Obj?
              && var before, after := f.value.fields, CleanMetadata([f])[0].value.fields;
                 && |after| == |before|
                 && forall i :: 0 <= i < |before| ==>
                      after[i] == if Sensitive.Matches(before[i].key) then Field(before[i].key, Str("<redacted>"))
                                  else before[i]
  {
    assert [f][1..] == [];
  }

  /** Environments are sanitized entry by entry; what is no object goes. */
  lemma EnvParts(env: seq<Json>, rules: Rules)
    ensures SanitizeEnv([], rules) == []
    ensures env != [] ==> SanitizeEnv(env, rules) == SanitizeEnv([env[0]], rules) + SanitizeEnv(env[1..], rules)
  {
    if env != [] { assert [env[0]][1..] == []; }
  }

  /** n is where the entry's name stands, or -1. */
  predicate NameAt(entry: seq<Field>, n: int, name: string, rules: Rules) {
    if 0 <= n < |entry| then
      && entry[n].key == "name" && (forall j :: 0 <= j < n ==> entry[j].key != "name")
      && name == match entry[n].value case Str(s) => s case other => rules.show(other)
    else name == "" && forall j :: 0 <= j < |entry| ==> entry[j].key != "name"
  }

  lemma {:induction false} FirstName(entry: seq<Field>, n: int, name: string, rules: Rules)
    requires NameAt(entry, n, name, rules)
    ensures NameOf(entry, rules) == name
  {
    if 0 <= n < |entry| { FirstIndex(entry, n); }
  }

  lemma {:induction false} FirstIndex(fields: seq<Field>, n: nat)
    requires n < |fields| && forall j :: 0 <= j < n ==> fields[j].key != fields[n].key
    ensures Has(fields, fields[n].key) && IndexOf(fields, fields[n].key) == n
  {
    if n > 0 { FirstIndex(fields[1..], n - 1); }
  }

  /** Only the value of an entry changes: it shows if the name is a runtime setting and neither name nor value is
      sensitive, cut after 600 characters; otherwise it is redacted. */
  lemma EnvEntry(x: Json, n: int, name: string, rules: Rules)
    requires x.Obj? ==> NameAt(x.fields, n, name, rules)
    ensures !x.Obj? ==> SanitizeEnv([x], rules) == []
    ensures x.Obj? ==>
      && |SanitizeEnv([x], rules)| == 1 && SanitizeEnv([x], rules)[0].Obj?
      && var before, after := x.fields, SanitizeEnv([x], rules)[0].fields;
         && |after| == |before|
         && forall i :: 0 <= i < |before| ==>
              if before[i].key != "value" then after[i] == before[i]
              else ShownValue(name, before[i].value, after[i], rules)
  {
    assert [x][1..] == [];
    if x.Obj? {
      FirstName(x.fields, n, name, rules);
      var after := SanitizeEntry(x.fields, rules);
      forall i | 0 <= i < |x.fields| && x.fields[i].key == "value"
        ensures ShownValue(name, x.fields[i].value, after[i], rules)
      {
      }
    }
  }

  predicate ShownValue(name: string, value: Json, shown: Field, rules: Rules) {
    var text := match value case Str(s) => s case other => rules.show(other);
    && shown.key == "value" && shown.value.Str?
    && if !rules.runtimeName(name) || Sensitive.Matches(name) || Sensitive.Matches(text)
       then shown.value.s == "<redacted>"
       else if |text| <= 600 then shown.value.s == text
       else shown.value.s == text[..600] + "..."
  }

  // ---- fields --------------------------------------------------------------------------------------------

  predicate IsData(f: Field) { f.key == "data" || f.key == "stringData" || f.key == "binaryData" }

  predicate IsSecret(f: Field) {
    && Sensitive.Matches(f.key)
    && f.key != "secretName" && f.key != "secretKeyRef" && f.key != "imagePullSecrets"
  }

  /** A field that is not left out. */
  predicate Retained(f: Field, mode: Mode) { f.key != "managedFields" && (f.key == "status" ==> mode == Snapshot) }

  /** The key under which a field comes out. */
  function OutKey(f: Field): string { if IsData(f) && f.value.Obj? then f.key + "Keys" else f.key }

  /** What a retained field comes out as. */
  lemma EmitExactly(f: Field, mode: Mode, rules: Rules)
    ensures Retained(f, mode) <==> !Dropped(f.key, mode)
    ensures Emit(f, mode, rules).key == OutKey(f)
    ensures f.key == "metadata" && f.value.Obj? ==>
              Emit(f, mode, rules).value == Obj(CleanMetadata(f.value.fields))
    ensures f.key == "env" && f.value.Arr? ==> Emit(f, mode, rules).value == Arr(SanitizeEnv(f.value.items, rules))
    ensures IsData(f) && f.value.Obj? ==>
              && Emit(f, mode, rules).value.Arr?
              && var names, listed := rules.sorted(Keys(f.value.fields)), Emit(f, mode, rules).value.items;
                 |listed| == |names| && forall i :: 0 <= i < |names| ==> listed[i] == Str(names[i])
    ensures IsData(f) && !f.value.Obj? ==> Emit(f, mode, rules).value == Str("<redacted>")
    ensures !(f.key == "metadata" && f.value.Obj?) && !(f.key == "env" && f.value.Arr?) && !IsData(f) ==>
              Emit(f, mode, rules).value == if IsSecret(f) then Str("<redacted>") else Sanitize(f.value, mode, rules)
  {
  }

  /** The last retained field with an output key gives the field that comes out under it; with FieldsAreDistinct,
      which says that no key comes out twice and nothing else comes out, this fixes the object. */
  lemma {:induction false} LastFieldComesOut(fields: seq<Field>, i: nat, mode: Mode, rules: Rules)
    requires i < |fields| && Retained(fields[i], mode)
    requires forall j :: i < j < |fields| && Retained(fields[j], mode) ==> OutKey(fields[j]) != OutKey(fields[i])
    ensures Emit(fields[i], mode, rules) in SanitizeFields(fields, mode, rules)
    decreases |fields|
  {
    var init, last := fields[..|fields| - 1], fields[|fields| - 1];
    var result := SanitizeFields(init, mode, rules);
    FieldsAreDistinct(init, mode, rules);
    EmitExactly(fields[i], mode, rules);
    EmitExactly(last, mode, rules);
    if i == |init| {
      PutHolds(result, Emit(last, mode, rules), Emit(last, mode, rules));
    } else {
      LastFieldComesOut(init, i, mode, rules);
      if Retained(last, mode) { PutHolds(result, Emit(last, mode, rules), Emit(fields[i], mode, rules)); }
    }
  }

  lemma PutHolds(fields: seq<Field>, f: Field, g: Field)
    requires g == f || (g in fields && g.key != f.key)
    ensures g in Put(fields, f)
  {
    var put, k := Put(fields, f), if Has(fields, f.key) then IndexOf(fields, f.key) else |fields|;
    assert put[k] == f;
    if g in fields && g.key != f.key {
      var i :| 0 <= i < |fields| && fields[i] == g;
      assert put[i] == g;
    }
  }

  /** A list comes out item by item, and a value that is neither list nor object as it is. */
  lemma SanitizeExactly(v: Json, mode: Mode, rules: Rules)
    ensures v.Arr? ==>
      && Sanitize(v, mode, rules).Arr? && |Sanitize(v, mode, rules).items| == |v.items|
      && forall i :: 0 <= i < |v.items| ==> Sanitize(v, mode, rules).items[i] == Sanitize(v.items[i], mode, rules)
    ensures v.Obj? ==> Sanitize(v, mode, rules) == Obj(SanitizeFields(v.fields, mode, rules))
    ensures !v.Arr? && !v.Obj? ==> Sanitize(v, mode, rules) == v
  {
  }
}
