/** What the sanitizers guarantee on every JSON tree. */
module SanitizerLaws {
  import Sensitive
  import opened Sanitizer

  // ---- dictionaries ------------------------------------------------------------------------------------

  predicate Distinct(fields: seq<Field>) {
    forall i, j :: 0 <= i < j < |fields| ==> fields[i].key != fields[j].key
  }

  lemma PutKeepsDistinct(fields: seq<Field>, f: Field)
    requires Distinct(fields)
    ensures Distinct(Put(fields, f))
    ensures forall g :: g in Put(fields, f) ==> g == f || g in fields
    ensures Keys(Put(fields, f)) == Keys(fields) + {f.key}
  {
    var put := Put(fields, f);
    var k := if Has(fields, f.key) then IndexOf(fields, f.key) else |fields|;
    assert put[k] == f;
    if Has(fields, f.key) {
      forall g | g in fields ensures g.key in Keys(put) {
        var i :| 0 <= i < |fields| && fields[i] == g;
        assert put[i] in put;
      }
    }
  }

  lemma HasIsInKeys(fields: seq<Field>, key: string)
    ensures Has(fields, key) <==> key in Keys(fields)
  {
    if Has(fields, key) {
      assert fields[IndexOf(fields, key)] in fields;
    }
  }

  lemma {:induction false} IndexIsUnique(fields: seq<Field>, i: nat)
    requires Distinct(fields) && i < |fields|
    ensures Has(fields, fields[i].key) && IndexOf(fields, fields[i].key) == i
  {
    if i > 0 { IndexIsUnique(fields[1..], i - 1); }
  }

  /** The last assignment to a key wins. */
  lemma PutTwice(fields: seq<Field>, f: Field, g: Field)
    requires Distinct(fields) && f.key == g.key
    ensures Put(Put(fields, f), g) == Put(fields, g)
  {
    PutKeepsDistinct(fields, f);
    var once := Put(fields, f);
    var k := if Has(fields, f.key) then IndexOf(fields, f.key) else |fields|;
    IndexIsUnique(once, k);
  }

  /** Assignments to two keys commute once the first key is there. */
  lemma PutsCommute(fields: seq<Field>, f: Field, g: Field)
    requires Distinct(fields) && f.key != g.key && Has(fields, f.key)
    ensures Put(Put(fields, f), g) == Put(Put(fields, g), f)
  {
    var k := IndexOf(fields, f.key);
    var one := fields[k := f];
    if Has(fields, g.key) {
      var j := IndexOf(fields, g.key);
      PutAt(one, j, g);
      PutAt(fields[j := g], k, f);
      assert one[j := g] == fields[j := g][k := f];
    } else {
      assert forall i :: 0 <= i < |one| ==> one[i].key == fields[i].key;
      assert !Has(one, g.key);
      PutAt(fields + [g], k, f);
    }
  }

  lemma PutAt(fields: seq<Field>, k: nat, f: Field)
    requires Distinct(fields) && k < |fields| && fields[k].key == f.key
    ensures Put(fields, f) == fields[k := f]
  {
    IndexIsUnique(fields, k);
  }

  lemma PutAtEnd(init: seq<Field>, last: Field, f: Field)
    requires Distinct(init + [last])
    ensures f.key == last.key ==> Put(init + [last], f) == init + [f]
    ensures f.key != last.key && Has(init, f.key) ==> Put(init + [last], f) == Put(init, f) + [last]
    ensures !Has(init + [last], f.key) ==> Put(init + [last], f) == init + [last] + [f]
  {
    var all := init + [last];
    if f.key == last.key {
      IndexIsUnique(all, |init|);
    } else if Has(init, f.key) {
      IndexIsUnique(all, IndexOf(init, f.key));
    }
  }

  // ---- the dictionary loop -----------------------------------------------------------------------------

  lemma {:induction false} FieldsAreDistinct(fields: seq<Field>, mode: Mode, rules: Rules)
    ensures Distinct(SanitizeFields(fields, mode, rules))
    ensures forall g :: g in SanitizeFields(fields, mode, rules) ==>
              exists f :: f in fields && !Dropped(f.key, mode) && g == Emit(f, mode, rules)
    decreases |fields|
  {
    if fields != [] {
      var init, last := fields[..|fields| - 1], fields[|fields| - 1];
      assert fields == init + [last];
      FieldsAreDistinct(init, mode, rules);
      var result := SanitizeFields(init, mode, rules);
      PutKeepsDistinct(result, Emit(last, mode, rules));
      forall g | g in SanitizeFields(fields, mode, rules)
        ensures exists f :: f in fields && !Dropped(f.key, mode) && g == Emit(f, mode, rules)
      {
        if g in result {
          var f :| f in init && !Dropped(f.key, mode) && g == Emit(f, mode, rules);
          assert f in fields;
        } else {
          assert last in fields;
        }
      }
    }
  }

  predicate Stable(f: Field, mode: Mode, rules: Rules) { !Dropped(f.key, mode) && Emit(f, mode, rules) == f }

  lemma {:induction false} StableFieldsStay(fields: seq<Field>, mode: Mode, rules: Rules)
    requires Distinct(fields) && forall f :: f in fields ==> Stable(f, mode, rules)
    ensures SanitizeFields(fields, mode, rules) == fields
    decreases |fields|
  {
    if fields != [] {
      var init, last := fields[..|fields| - 1], fields[|fields| - 1];
      assert fields == init + [last] && last in fields;
      StableFieldsStay(init, mode, rules);
      assert !Has(init, last.key);
    }
  }

  // ---- the leaves --------------------------------------------------------------------------------------

  lemma {:induction false} MetadataTwice(fields: seq<Field>)
    ensures CleanMetadata(CleanMetadata(fields)) == CleanMetadata(fields)
  {
    if fields != [] {
      MetadataTwice(fields[1..]);
      var f := fields[0];
      if !Volatile(f.key) {
        var head := CleanMetadata(fields)[0];
        assert CleanMetadata(fields)[1..] == CleanMetadata(fields[1..]);
        if f.key == "annotations" && f.value.Obj? {
          assert RedactAnnotations(head.value.fields) == head.value.fields;
        }
      } else {
        assert CleanMetadata(fields) == CleanMetadata(fields[1..]);
      }
    }
  }

  lemma SafeValueTwice(name: string, value: string, rules: Rules)
    ensures SafeValue(name, SafeValue(name, value, rules), rules) == SafeValue(name, value, rules)
  {
    if !Withheld(name, rules) && !Sensitive.Matches(value) {
      Sensitive.TruncationStaysClean(value);
    }
  }

  lemma EntryTwice(entry: seq<Field>, rules: Rules)
    ensures SanitizeEntry(SanitizeEntry(entry, rules), rules) == SanitizeEntry(entry, rules)
  {
    var once := SanitizeEntry(entry, rules);
    SameName(entry, once, rules);
    forall i | 0 <= i < |entry| ensures SanitizeEntry(once, rules)[i] == once[i] {
      SafeValueTwice(NameOf(entry, rules), Text(entry[i].value, rules), rules);
    }
  }

  /** Entries that agree outside their value have the same name. */
  lemma {:induction false} SameName(entry: seq<Field>, other: seq<Field>, rules: Rules)
    requires |entry| == |other|
    requires forall i :: 0 <= i < |entry| ==>
               entry[i].key == other[i].key && (entry[i].key != "value" ==> entry[i] == other[i])
    ensures NameOf(entry, rules) == NameOf(other, rules)
  {
    if Has(other, "name") {
      assert entry[IndexOf(other, "name")].key == "name";
    }
    if Has(entry, "name") {
      assert other[IndexOf(entry, "name")].key == "name";
      SameIndex(entry, other, "name");
    }
  }

  lemma {:induction false} SameIndex(entry: seq<Field>, other: seq<Field>, key: string)
    requires |entry| == |other| && Has(entry, key) && Has(other, key)
    requires forall i :: 0 <= i < |entry| ==> entry[i].key == other[i].key
    ensures IndexOf(entry, key) == IndexOf(other, key)
  {
    if entry[0].key != key { SameIndex(entry[1..], other[1..], key); }
  }

  lemma {:induction false} EnvTwice(env: seq<Json>, rules: Rules)
    ensures SanitizeEnv(SanitizeEnv(env, rules), rules) == SanitizeEnv(env, rules)
  {
    if env != [] {
      EnvTwice(env[1..], rules);
      if env[0].Obj? {
        EntryTwice(env[0].fields, rules);
        assert SanitizeEnv(env, rules)[1..] == SanitizeEnv(env[1..], rules);
      } else {
        assert SanitizeEnv(env, rules) == SanitizeEnv(env[1..], rules);
      }
    }
  }

  lemma KeyListStays(fields: seq<Field>, mode: Mode, rules: Rules)
    ensures Sanitize(KeyList(fields, rules), mode, rules) == KeyList(fields, rules)
  {
  }

  /** A match begins with the first two letters of one of the words. */
  predicate WordStart(a: char, b: char) {
    (a == 'p' && (b == 'a' || b == 'r')) || (a == 't' && b == 'o') || (a == 's' && b == 'e')
    || (a == 'c' && (b == 'r' || b == 'l' || b == 'o')) || (a == 'a' && b == 'p')
  }

  lemma StartOf(s: string, i: nat, word: string)
    requires |word| >= 2 && WordStart(word[0], word[1])
    ensures Sensitive.At(s, i, word) ==> i + 1 < |s| && WordStart(Sensitive.Fold(s[i]), Sensitive.Fold(s[i + 1]))
  {
    if Sensitive.At(s, i, word) {
      assert Sensitive.Fold(s[i + 0]) == word[0] && Sensitive.Fold(s[i + 1]) == word[1];
    }
  }

  lemma MatchHasStart(s: string) returns (i: nat)
    requires Sensitive.Matches(s)
    ensures i + 1 < |s| && WordStart(Sensitive.Fold(s[i]), Sensitive.Fold(s[i + 1]))
  {
    i :| 0 <= i < |s| && Sensitive.MatchesAt(s, i);
    StartOf(s, i, "password");
    StartOf(s, i, "passwd");
    StartOf(s, i, "token");
    StartOf(s, i, "secret");
    StartOf(s, i, "credential");
    StartOf(s, i, "private");
    StartOf(s, i, "api");
    StartOf(s, i, "client");
    StartOf(s, i, "connection");
  }

  /** The keys under which key lists are stored are ordinary ones. */
  lemma KeyListKeys(key: string)
    requires DataKey(key)
    ensures !Sensitive.Matches(key + "Keys") && !DataKey(key + "Keys")
    ensures key + "Keys" !in {"metadata", "env", "managedFields", "status"}
  {
    var s := key + "Keys";
    assert s == "dataKeys" || s == "stringDataKeys" || s == "binaryDataKeys";
    forall i | 0 <= i < |s| - 1 ensures !WordStart(Sensitive.Fold(s[i]), Sensitive.Fold(s[i + 1])) {
    }
    if Sensitive.Matches(s) { var i := MatchHasStart(s); }
  }

  // ---- idempotence -------------------------------------------------------------------------------------

  /** What one pass emits, the next pass leaves alone. */
  lemma {:induction false} EmittedIsStable(f: Field, mode: Mode, rules: Rules)
    requires !Dropped(f.key, mode)
    ensures Stable(Emit(f, mode, rules), mode, rules)
    decreases f, 0
  {
    if f.key == "metadata" && f.value.Obj? {
      MetadataTwice(f.value.fields);
    } else if f.key == "env" && f.value.Arr? {
      EnvTwice(f.value.items, rules);
    } else if DataKey(f.key) {
      KeyListKeys(f.key);
      if f.value.Obj? { KeyListStays(f.value.fields, mode, rules); }
    } else if !RedactedKey(f.key) {
      SanitizeTwice(f.value, mode, rules);
    }
  }

  /** Sanitizing a sanitized tree changes nothing: the pass at ingestion and the pass when the snapshot is
      written back agree. */
  lemma {:induction false} SanitizeTwice(v: Json, mode: Mode, rules: Rules)
    ensures Sanitize(Sanitize(v, mode, rules), mode, rules) == Sanitize(v, mode, rules)
    decreases v, 1
  {
    match v {
      case Arr(items) =>
        forall i | 0 <= i < |items|
          ensures Sanitize(Sanitize(items[i], mode, rules), mode, rules) == Sanitize(items[i], mode, rules)
        {
          SanitizeTwice(items[i], mode, rules);
        }
      case Obj(fields) =>
        FieldsAreDistinct(fields, mode, rules);
        forall f | f in fields && !Dropped(f.key, mode) ensures Stable(Emit(f, mode, rules), mode, rules) {
          EmittedIsStable(f, mode, rules);
        }
        StableFieldsStay(SanitizeFields(fields, mode, rules), mode, rules);
      case _ =>
    }
  }

  // ---- the manifest view does not depend on the earlier pass --------------------------------------------

  /** f comes out of the manifest pass under its own key, or is dropped for it. */
  predicate Keyed(f: Field, rules: Rules) { !Dropped(f.key, Manifest) ==> Emit(f, Manifest, rules).key == f.key }

  lemma {:induction false} ManifestKeys(fields: seq<Field>, rules: Rules)
    requires forall f :: f in fields ==> Keyed(f, rules)
    ensures forall key :: key in Keys(SanitizeFields(fields, Manifest, rules)) <==>
                          key in Keys(fields) && !Dropped(key, Manifest)
    decreases |fields|
  {
    if fields != [] {
      var init, last := fields[..|fields| - 1], fields[|fields| - 1];
      assert fields == init + [last] && last in fields;
      ManifestKeys(init, rules);
      FieldsAreDistinct(init, Manifest, rules);
      if !Dropped(last.key, Manifest) {
        PutKeepsDistinct(SanitizeFields(init, Manifest, rules), Emit(last, Manifest, rules));
      }
    }
  }

  function PutUnlessDropped(fields: seq<Field>, f: Field, rules: Rules): seq<Field> {
    if Dropped(f.key, Manifest) then fields else Put(fields, Emit(f, Manifest, rules))
  }

  lemma ManifestOfAppend(init: seq<Field>, f: Field, rules: Rules)
    ensures SanitizeFields(init + [f], Manifest, rules)
              == PutUnlessDropped(SanitizeFields(init, Manifest, rules), f, rules)
  {
    assert (init + [f])[..|init|] == init;
  }

  lemma EmittedPutsCommute(init: seq<Field>, f: Field, last: Field, rules: Rules)
    requires Keyed(f, rules) && Keyed(last, rules) && forall g :: g in init ==> Keyed(g, rules)
    requires f.key != last.key && Has(init, f.key)
    ensures var before := SanitizeFields(init, Manifest, rules);
            PutUnlessDropped(PutUnlessDropped(before, f, rules), last, rules)
            == PutUnlessDropped(PutUnlessDropped(before, last, rules), f, rules)
  {
    var before := SanitizeFields(init, Manifest, rules);
    FieldsAreDistinct(init, Manifest, rules);
    if !Dropped(f.key, Manifest) && !Dropped(last.key, Manifest) {
      ManifestKeys(init, rules);
      HasIsInKeys(init, f.key);
      HasIsInKeys(before, f.key);
      PutsCommute(before, Emit(f, Manifest, rules), Emit(last, Manifest, rules));
    }
  }

  lemma LastReplaced(init: seq<Field>, last: Field, f: Field, rules: Rules)
    requires Keyed(f, rules) && Keyed(last, rules) && f.key == last.key
    ensures SanitizeFields(init + [f], Manifest, rules)
            == PutUnlessDropped(SanitizeFields(init + [last], Manifest, rules), f, rules)
  {
    ManifestOfAppend(init, last, rules);
    ManifestOfAppend(init, f, rules);
    if !Dropped(f.key, Manifest) {
      FieldsAreDistinct(init, Manifest, rules);
      PutTwice(SanitizeFields(init, Manifest, rules), Emit(last, Manifest, rules), Emit(f, Manifest, rules));
    }
  }

  lemma EarlierReplaced(init: seq<Field>, last: Field, f: Field, rules: Rules)
    requires Keyed(f, rules) && Keyed(last, rules) && (forall g :: g in init ==> Keyed(g, rules))
    requires f.key != last.key && Has(init, f.key)
    requires SanitizeFields(Put(init, f), Manifest, rules)
             == PutUnlessDropped(SanitizeFields(init, Manifest, rules), f, rules)
    ensures SanitizeFields(Put(init, f) + [last], Manifest, rules)
            == PutUnlessDropped(SanitizeFields(init + [last], Manifest, rules), f, rules)
  {
    ManifestOfAppend(init, last, rules);
    ManifestOfAppend(Put(init, f), last, rules);
    EmittedPutsCommute(init, f, last, rules);
  }

  lemma HasEarlier(init: seq<Field>, last: Field, key: string)
    requires Has(init + [last], key) && last.key != key
    ensures Has(init, key)
  {
    var i := IndexOf(init + [last], key);
    assert init[i].key == key;
  }

  /** Assigning a key before the manifest pass or after it comes to the same. */
  lemma {:induction false} ManifestOfPut(fields: seq<Field>, f: Field, rules: Rules)
    requires Distinct(fields) && Keyed(f, rules) && forall g :: g in fields ==> Keyed(g, rules)
    ensures SanitizeFields(Put(fields, f), Manifest, rules)
            == PutUnlessDropped(SanitizeFields(fields, Manifest, rules), f, rules)
    decreases |fields|
  {
    if !Has(fields, f.key) {
      ManifestOfAppend(fields, f, rules);
    } else {
      var init, last := fields[..|fields| - 1], fields[|fields| - 1];
      assert fields == init + [last] && last in fields;
      if f.key == last.key {
        PutAtEnd(init, last, f);
        LastReplaced(init, last, f, rules);
      } else {
        HasEarlier(init, last, f.key);
        PutAtEnd(init, last, f);
        ManifestOfPut(init, f, rules);
        EarlierReplaced(init, last, f, rules);
      }
    }
  }

  /** A field that went through the snapshot pass looks the same to the manifest pass as the original. */
  lemma {:induction false} EmitAfterSnapshot(f: Field, rules: Rules)
    requires !Dropped(f.key, Snapshot)
    ensures var g := Emit(f, Snapshot, rules);
            && Keyed(g, rules)
            && (Dropped(g.key, Manifest) <==> Dropped(f.key, Manifest))
            && (!Dropped(f.key, Manifest) ==> Emit(g, Manifest, rules) == Emit(f, Manifest, rules))
    decreases f, 0
  {
    if f.key == "metadata" && f.value.Obj? {
      MetadataTwice(f.value.fields);
    } else if f.key == "env" && f.value.Arr? {
      EnvTwice(f.value.items, rules);
    } else if DataKey(f.key) {
      KeyListKeys(f.key);
      if f.value.Obj? { KeyListStays(f.value.fields, Manifest, rules); }
    } else if !RedactedKey(f.key) {
      ManifestAfterSnapshot(f.value, rules);
    }
  }

  lemma {:induction false} FieldsAfterSnapshot(fields: seq<Field>, rules: Rules)
    ensures SanitizeFields(SanitizeFields(fields, Snapshot, rules), Manifest, rules)
              == SanitizeFields(fields, Manifest, rules)
    ensures forall g :: g in SanitizeFields(fields, Snapshot, rules) ==> Keyed(g, rules)
    decreases fields, 0
  {
    if fields != [] {
      var init, last := fields[..|fields| - 1], fields[|fields| - 1];
      FieldsAfterSnapshot(init, rules);
      FieldsAreDistinct(init, Snapshot, rules);
      if !Dropped(last.key, Snapshot) {
        var result, g := SanitizeFields(init, Snapshot, rules), Emit(last, Snapshot, rules);
        EmitAfterSnapshot(last, rules);
        PutKeepsDistinct(result, g);
        ManifestOfPut(result, g, rules);
      }
    }
  }

  /** The published manifests come out the same whether they are taken from the live objects or from the
      snapshot already sanitized on disk. */
  lemma {:induction false} ManifestAfterSnapshot(v: Json, rules: Rules)
    ensures Sanitize(Sanitize(v, Snapshot, rules), Manifest, rules) == Sanitize(v, Manifest, rules)
    decreases v, 1
  {
    match v {
      case Arr(items) =>
        forall i | 0 <= i < |items|
          ensures Sanitize(Sanitize(items[i], Snapshot, rules), Manifest, rules) == Sanitize(items[i], Manifest, rules)
        {
          ManifestAfterSnapshot(items[i], rules);
        }
      case Obj(fields) => FieldsAfterSnapshot(fields, rules);
      case _ =>
    }
  }

  // ---- nothing withheld shows --------------------------------------------------------------------------

  /** Two trees an observer of the output may not tell apart. */
  predicate Alike(v: Json, w: Json, mode: Mode, rules: Rules)
    decreases v, 1
  {
    match (v, w)
    case (Arr(xs), Arr(ys)) => |xs| == |ys| && forall i :: 0 <= i < |xs| ==> Alike(xs[i], ys[i], mode, rules)
    case (Obj(fs), Obj(gs)) => |fs| == |gs| && forall i :: 0 <= i < |fs| ==> AlikeField(fs[i], gs[i], mode, rules)
    case _ => v == w
  }

  predicate AlikeField(f: Field, g: Field, mode: Mode, rules: Rules)
    decreases f, 0
  {
    && f.key == g.key
    && (Dropped(f.key, mode)
        || if f.key == "metadata" && (f.value.Obj? || g.value.Obj?) then
             f.value.Obj? && g.value.Obj? && AlikeMetadata(f.value.fields, g.value.fields)
           else if f.key == "env" && (f.value.Arr? || g.value.Arr?) then
             f.value.Arr? && g.value.Arr? && AlikeEnv(f.value.items, g.value.items, rules)
           else if DataKey(f.key) then
             if f.value.Obj? then g.value.Obj? && Keys(f.value.fields) == Keys(g.value.fields) else !g.value.Obj?
           else RedactedKey(f.key) || Alike(f.value, g.value, mode, rules))
  }

  /** Metadata may differ in volatile fields and in the values of annotations with sensitive names. */
  predicate AlikeMetadata(fs: seq<Field>, gs: seq<Field>) {
    |fs| == |gs| && forall i :: 0 <= i < |fs| ==>
      && fs[i].key == gs[i].key
      && (Volatile(fs[i].key) || fs[i] == gs[i]
          || (fs[i].key == "annotations" && fs[i].value.Obj? && gs[i].value.Obj?
              && AlikeAnnotations(fs[i].value.fields, gs[i].value.fields)))
  }

  predicate AlikeAnnotations(fs: seq<Field>, gs: seq<Field>) {
    |fs| == |gs| && forall i :: 0 <= i < |fs| ==>
      fs[i].key == gs[i].key && (Sensitive.Matches(fs[i].key) || fs[i] == gs[i])
  }

  /** Environment entries may differ in the values of names that are not plain runtime settings, and in values that are
      sensitive themselves. */
  predicate AlikeEnv(xs: seq<Json>, ys: seq<Json>, rules: Rules) {
    |xs| == |ys| && forall i :: 0 <= i < |xs| ==>
      if xs[i].Obj? then ys[i].Obj? && AlikeEntry(xs[i].fields, ys[i].fields, rules) else !ys[i].Obj?
  }

  predicate AlikeEntry(fs: seq<Field>, gs: seq<Field>, rules: Rules) {
    |fs| == |gs| && forall i :: 0 <= i < |fs| ==>
      && fs[i].key == gs[i].key
      && (fs[i] == gs[i] || (fs[i].key == "value" && AlikeValue(fs, fs[i].value, gs[i].value, rules)))
  }

  predicate AlikeValue(entry: seq<Field>, v: Json, w: Json, rules: Rules) {
    Withheld(NameOf(entry, rules), rules)
    || (Sensitive.Matches(Text(v, rules)) && Sensitive.Matches(Text(w, rules)))
  }

  lemma {:induction false} MetadataHides(fs: seq<Field>, gs: seq<Field>)
    requires AlikeMetadata(fs, gs)
    ensures CleanMetadata(fs) == CleanMetadata(gs)
  {
    if fs != [] {
      MetadataHides(fs[1..], gs[1..]);
      if !Volatile(fs[0].key) && fs[0] != gs[0] {
        assert RedactAnnotations(fs[0].value.fields) == RedactAnnotations(gs[0].value.fields);
      }
    }
  }

  lemma EntryHides(fs: seq<Field>, gs: seq<Field>, rules: Rules)
    requires AlikeEntry(fs, gs, rules)
    ensures SanitizeEntry(fs, rules) == SanitizeEntry(gs, rules)
  {
    SameName(fs, gs, rules);
  }

  lemma {:induction false} EnvHides(xs: seq<Json>, ys: seq<Json>, rules: Rules)
    requires AlikeEnv(xs, ys, rules)
    ensures SanitizeEnv(xs, rules) == SanitizeEnv(ys, rules)
  {
    if xs != [] {
      EnvHides(xs[1..], ys[1..], rules);
      if xs[0].Obj? { EntryHides(xs[0].fields, ys[0].fields, rules); }
    }
  }

  lemma {:induction false} FieldHides(f: Field, g: Field, mode: Mode, rules: Rules)
    requires AlikeField(f, g, mode, rules) && !Dropped(f.key, mode)
    ensures Emit(f, mode, rules) == Emit(g, mode, rules)
    decreases f, 0
  {
    if f.key == "metadata" && f.value.Obj? {
      MetadataHides(f.value.fields, g.value.fields);
    } else if f.key == "env" && f.value.Arr? {
      EnvHides(f.value.items, g.value.items, rules);
    } else if !DataKey(f.key) && !RedactedKey(f.key) {
      SanitizeHides(f.value, g.value, mode, rules);
    }
  }

  lemma {:induction false} FieldsHide(fs: seq<Field>, gs: seq<Field>, mode: Mode, rules: Rules)
    requires |fs| == |gs| && forall i :: 0 <= i < |fs| ==> AlikeField(fs[i], gs[i], mode, rules)
    ensures SanitizeFields(fs, mode, rules) == SanitizeFields(gs, mode, rules)
    decreases fs, 0
  {
    if fs != [] {
      var n := |fs| - 1;
      FieldsHide(fs[..n], gs[..n], mode, rules);
      if !Dropped(fs[n].key, mode) { FieldHides(fs[n], gs[n], mode, rules); }
    }
  }

  /** Two trees that differ only in withheld places come out identical, so the output reveals nothing about them. */
  lemma {:induction false} SanitizeHides(v: Json, w: Json, mode: Mode, rules: Rules)
    requires Alike(v, w, mode, rules)
    ensures Sanitize(v, mode, rules) == Sanitize(w, mode, rules)
    decreases v, 1
  {
    match (v, w) {
      case (Arr(xs), Arr(ys)) =>
        forall i | 0 <= i < |xs| ensures Sanitize(xs[i], mode, rules) == Sanitize(ys[i], mode, rules) {
          SanitizeHides(xs[i], ys[i], mode, rules);
        }
      case (Obj(fs), Obj(gs)) => FieldsHide(fs, gs, mode, rules);
      case _ =>
    }
  }
}
