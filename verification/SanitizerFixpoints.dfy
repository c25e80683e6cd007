/** Which trees the sanitizers leave alone. With idempotence this says both what they remove and that they
    remove nothing else: every output is clean, and a clean tree comes out as it went in. */
module SanitizerFixpoints {
  import opened Sanitizer
  import opened SanitizerLaws
  import Sensitive

  // ---- clean trees, stated apart from the sanitizers -----------------------------------------------------

  predicate CleanAnnotations(fields: seq<Field>) {
    forall i :: 0 <= i < |fields| && Sensitive.Matches(fields[i].key) ==>
      fields[i].value == Str("<redacted>")
  }

  predicate CleanMetadataField(f: Field) {
    f.key !in {"managedFields", "resourceVersion", "uid", "generation", "creationTimestamp", "selfLink"}
    && (f.key == "annotations" && f.value.Obj? ==> CleanAnnotations(f.value.fields))
  }

  predicate AllCleanMetadata(fields: seq<Field>) { forall i :: 0 <= i < |fields| ==> CleanMetadataField(fields[i]) }

  predicate Short(s: string) {
    |s| <= 600 || (|s| == 603 && s[600..] == "...")
  }

  /** An environment value that may be seen. */
  predicate Presentable(name: string, v: Json, rules: Rules) {
    || v == Str("<redacted>")
    || (v.Str? && rules.runtimeName(name) && !Sensitive.Matches(name) && !Sensitive.Matches(v.s) && Short(v.s))
  }

  predicate CleanEntry(entry: Json, rules: Rules) {
    entry.Obj? && forall i :: 0 <= i < |entry.fields| && entry.fields[i].key == "value" ==>
                    Presentable(NameOf(entry.fields, rules), entry.fields[i].value, rules)
  }

  predicate CleanEnv(env: seq<Json>, rules: Rules) { forall i :: 0 <= i < |env| ==> CleanEntry(env[i], rules) }

  predicate Clean(v: Json, mode: Mode, rules: Rules)
    decreases v, 1
  {
    match v
    case Arr(items) => forall i :: 0 <= i < |items| ==> Clean(items[i], mode, rules)
    case Obj(fields) => Distinct(fields) && forall i :: 0 <= i < |fields| ==> CleanField(fields[i], mode, rules)
    case _ => true
  }

  predicate CleanField(f: Field, mode: Mode, rules: Rules)
    decreases f, 0
  {
    && f.key != "managedFields" && !(f.key == "status" && mode == Manifest)
    && if f.key == "metadata" && f.value.Obj? then AllCleanMetadata(f.value.fields)
       else if f.key == "env" && f.value.Arr? then CleanEnv(f.value.items, rules)
       else if f.key in {"data", "stringData", "binaryData"} then f.value == Str("<redacted>")
       else if Sensitive.Matches(f.key) && f.key !in {"secretName", "secretKeyRef", "imagePullSecrets"} then
         f.value == Str("<redacted>")
       else Clean(f.value, mode, rules)
  }

  // ---- the leaves --------------------------------------------------------------------------------------

  lemma AnnotationsFixed(fields: seq<Field>)
    ensures RedactAnnotations(fields) == fields <==> CleanAnnotations(fields)
  {
    var redacted := RedactAnnotations(fields);
    if CleanAnnotations(fields) {
      assert forall i :: 0 <= i < |fields| ==> redacted[i] == fields[i];
    } else {
      var i :| 0 <= i < |fields| && Sensitive.Matches(fields[i].key) && fields[i].value != REDACTED;
      assert redacted[i] != fields[i];
    }
  }

  lemma {:induction false} MetadataShrinks(fields: seq<Field>)
    ensures |CleanMetadata(fields)| <= |fields|
  {
    if fields != [] { MetadataShrinks(fields[1..]); }
  }

  lemma {:induction false} MetadataFixed(fields: seq<Field>)
    ensures CleanMetadata(fields) == fields <==> AllCleanMetadata(fields)
  {
    if fields != [] {
      var f, rest := fields[0], fields[1..];
      assert fields == [f] + rest;
      MetadataFixed(rest);
      MetadataShrinks(rest);
      if f.value.Obj? { AnnotationsFixed(f.value.fields); }
      assert AllCleanMetadata(fields) <==> CleanMetadataField(f) && AllCleanMetadata(rest);
      if !Volatile(f.key) {
        var head := CleanMetadata(fields)[0];
        assert CleanMetadata(fields) == [head] + CleanMetadata(rest);
        assert CleanMetadata(fields)[1..] == CleanMetadata(rest);
      }
    }
  }

  lemma ShortStays(s: string)
    ensures Sensitive.Truncate(s) == s <==> Short(s)
  {
    if Short(s) && |s| > Sensitive.LIMIT { assert s == s[..Sensitive.LIMIT] + s[Sensitive.LIMIT..]; }
  }

  lemma ValueFixed(name: string, v: Json, rules: Rules)
    ensures Str(SafeValue(name, Text(v, rules), rules)) == v <==> Presentable(name, v, rules)
  {
    assert !Sensitive.Matches(REDACTED.s) by { RedactedIsHarmless(); }
    if v.Str? { ShortStays(v.s); }
  }

  lemma RedactedIsHarmless()
    ensures !Sensitive.Matches("<redacted>")
  {
    var s := "<redacted>";
    forall i | 0 <= i < |s| - 1 ensures !WordStart(Sensitive.Fold(s[i]), Sensitive.Fold(s[i + 1])) {
    }
    if Sensitive.Matches(s) { var i := MatchHasStart(s); }
  }

  lemma EntryFixed(entry: Json, rules: Rules)
    requires entry.Obj?
    ensures Obj(SanitizeEntry(entry.fields, rules)) == entry <==> CleanEntry(entry, rules)
  {
    var fields, once := entry.fields, SanitizeEntry(entry.fields, rules);
    forall i | 0 <= i < |fields|
      ensures once[i] == fields[i] <==>
              (fields[i].key == "value" ==> Presentable(NameOf(fields, rules), fields[i].value, rules))
    {
      ValueFixed(NameOf(fields, rules), fields[i].value, rules);
    }
    if CleanEntry(entry, rules) {
      assert once == fields;
    } else {
      var i :| 0 <= i < |fields| && fields[i].key == "value"
               && !Presentable(NameOf(fields, rules), fields[i].value, rules);
      assert once[i] != fields[i];
    }
  }

  lemma {:induction false} EnvShrinks(env: seq<Json>, rules: Rules)
    ensures |SanitizeEnv(env, rules)| <= |env|
  {
    if env != [] { EnvShrinks(env[1..], rules); }
  }

  lemma {:induction false} EnvFixed(env: seq<Json>, rules: Rules)
    ensures SanitizeEnv(env, rules) == env <==> CleanEnv(env, rules)
  {
    if env != [] {
      var rest := env[1..];
      assert env == [env[0]] + rest;
      EnvFixed(rest, rules);
      EnvShrinks(rest, rules);
      assert CleanEnv(env, rules) <==> CleanEntry(env[0], rules) && CleanEnv(rest, rules);
      if env[0].Obj? {
        EntryFixed(env[0], rules);
        var head := SanitizeEnv(env, rules)[0];
        assert SanitizeEnv(env, rules) == [head] + SanitizeEnv(rest, rules);
        assert SanitizeEnv(env, rules)[1..] == SanitizeEnv(rest, rules);
      }
    }
  }

  // ---- the tree ----------------------------------------------------------------------------------------

  lemma PutGrows(fields: seq<Field>, f: Field)
    ensures |Put(fields, f)| <= |fields| + 1
    ensures |Put(fields, f)| == |fields| + 1 ==> Put(fields, f) == fields + [f]
  {
  }

  /** Every field is kept, under an entry of its own. */
  predicate AllEmitted(fields: seq<Field>, result: seq<Field>, mode: Mode, rules: Rules) {
    |result| == |fields| && forall i :: 0 <= i < |fields| ==>
      !Dropped(fields[i].key, mode) && result[i] == Emit(fields[i], mode, rules)
  }

  /** The dictionary loop keeps its length only if it drops and merges nothing. */
  lemma {:induction false} NothingLost(fields: seq<Field>, mode: Mode, rules: Rules)
    ensures |SanitizeFields(fields, mode, rules)| <= |fields|
    ensures |SanitizeFields(fields, mode, rules)| == |fields| ==>
              AllEmitted(fields, SanitizeFields(fields, mode, rules), mode, rules)
    decreases |fields|
  {
    if fields != [] {
      var init, last := fields[..|fields| - 1], fields[|fields| - 1];
      NothingLost(init, mode, rules);
      if !Dropped(last.key, mode) {
        NextEmitted(init, last, SanitizeFields(init, mode, rules), mode, rules);
        assert fields == init + [last];
      }
    }
  }

  lemma NextEmitted(init: seq<Field>, last: Field, result: seq<Field>, mode: Mode, rules: Rules)
    requires !Dropped(last.key, mode) && |result| <= |init|
    requires |result| == |init| ==> AllEmitted(init, result, mode, rules)
    ensures var put := Put(result, Emit(last, mode, rules));
            |put| <= |init| + 1 && (|put| == |init| + 1 ==> AllEmitted(init + [last], put, mode, rules))
  {
    PutGrows(result, Emit(last, mode, rules));
  }

  lemma FieldsFixed(fields: seq<Field>, mode: Mode, rules: Rules)
    ensures SanitizeFields(fields, mode, rules) == fields <==>
            Distinct(fields) && forall i :: 0 <= i < |fields| ==> Stable(fields[i], mode, rules)
  {
    if SanitizeFields(fields, mode, rules) == fields {
      FieldsAreDistinct(fields, mode, rules);
      NothingLost(fields, mode, rules);
    } else if Distinct(fields) && forall i :: 0 <= i < |fields| ==> Stable(fields[i], mode, rules) {
      StableFieldsStay(fields, mode, rules);
    }
  }

  lemma {:induction false} FieldFixed(f: Field, mode: Mode, rules: Rules)
    ensures Stable(f, mode, rules) <==> CleanField(f, mode, rules)
    decreases f, 0
  {
    if f.key == "metadata" && f.value.Obj? {
      MetadataFixed(f.value.fields);
    } else if f.key == "env" && f.value.Arr? {
      EnvFixed(f.value.items, rules);
    } else if DataKey(f.key) {
      assert |f.key + "Keys"| != |f.key|;
    } else if !RedactedKey(f.key) {
      FixedExactly(f.value, mode, rules);
    }
  }

  /** A tree comes out unchanged exactly when it is clean. */
  lemma {:induction false} FixedExactly(v: Json, mode: Mode, rules: Rules)
    ensures Sanitize(v, mode, rules) == v <==> Clean(v, mode, rules)
    decreases v, 1
  {
    match v {
      case Arr(items) =>
        var once := Sanitize(v, mode, rules).items;
        forall i | 0 <= i < |items| ensures once[i] == items[i] <==> Clean(items[i], mode, rules) {
          FixedExactly(items[i], mode, rules);
        }
        assert once == items <==> forall i :: 0 <= i < |items| ==> once[i] == items[i];
      case Obj(fields) =>
        FieldsFixed(fields, mode, rules);
        forall i | 0 <= i < |fields| ensures Stable(fields[i], mode, rules) <==> CleanField(fields[i], mode, rules) {
          FieldFixed(fields[i], mode, rules);
        }
      case _ =>
    }
  }

  /** Whatever goes in, a clean tree comes out. */
  lemma OutputIsClean(v: Json, mode: Mode, rules: Rules)
    ensures Clean(Sanitize(v, mode, rules), mode, rules)
  {
    SanitizeTwice(v, mode, rules);
    FixedExactly(Sanitize(v, mode, rules), mode, rules);
  }
}
