/** Layered configuration: conf.d files are merged key by key into one TOML document. */
module Config {
  import opened Headers

  /** A table lists its fields in key order. */
  type Fields = seq<(string, Value)>

  datatype Value = Scalar(text: string) | Array(items: seq<Value>) | Table(fields: Fields)

  const ADDITIVE_FIELDS: seq<string> := ["seed_peers", "include_ips", "exclude_ips"]

  const SUFFIX: string := "_add"

  function Find(t: Fields, k: string): Option<Value> {
    if t == [] then None else if Last(t).0 == k then Some(Last(t).1) else Find(t[..|t| - 1], k)
  }

  function Set(t: Fields, k: string, v: Value): Fields {
    if t == [] then [(k, v)]
    else if Last(t).0 == k then t[..|t| - 1] + [(k, v)]
    else Set(t[..|t| - 1], k, v) + [Last(t)]
  }

  /** `f` when `k` is `f` with the suffix and `f` is one of the additive fields. */
  function Additive(k: string): Option<string> {
    if |k| >= |SUFFIX| && k[|k| - |SUFFIX|..] == SUFFIX && k[..|k| - |SUFFIX|] in ADDITIVE_FIELDS
    then Some(k[..|k| - |SUFFIX|]) else None
  }

  /** The three fields by name, and no others. */
  lemma AdditiveIff(k: string, f: string)
    ensures Additive(k) == Some(f) <==> k == f + "_add" && (f == "seed_peers" || f == "include_ips" || f == "exclude_ips")
  {
    if k == f + "_add" {
      assert k[..|k| - 4] == f && k[|k| - 4..] == "_add";
    }
    if Additive(k) == Some(f) {
      assert k == k[..|k| - 4] + k[|k| - 4..];
    }
  }

  // ---- Merging ----

  function Items(v: Option<Value>): seq<Value> {
    if v.Some? && v.value.Array? then v.value.items else []
  }

  function Inner(v: Option<Value>): Fields {
    if v.Some? && v.value.Table? then v.value.fields else []
  }

  function AppendAdditive(acc: Fields, f: string, v: Value): Fields {
    if v.Array? then Set(acc, f, Array(Items(Find(acc, f)) + v.items)) else acc
  }

  /** Layer `overlay` onto `acc`, field by field in key order. */
  function Merge(acc: Fields, overlay: Fields): Fields
    decreases overlay
  {
    if overlay == [] then acc
    else Apply(Merge(acc, overlay[..|overlay| - 1]), overlay[|overlay| - 1])
  }

  function Apply(acc: Fields, field: (string, Value)): Fields
    decreases field
  {
    if Additive(field.0).Some? then AppendAdditive(acc, Additive(field.0).value, field.1)
    else Set(acc, field.0, Replace(Find(acc, field.0), field.1))
  }

  /** Tables are merged so that sibling keys survive; everything else replaces what was there. */
  function Replace(before: Option<Value>, v: Value): Value
    decreases v
  {
    if v.Table? then Table(Merge(Inner(before), v.fields)) else v
  }

  lemma MergeStep(acc: Fields, overlay: Fields, i: nat)
    requires i < |overlay|
    ensures Merge(acc, overlay[..i + 1]) == Apply(Merge(acc, overlay[..i]), overlay[i])
  {
    var next := overlay[..i + 1];
    assert next[..|next| - 1] == overlay[..i] && next[|next| - 1] == overlay[i];
  }

  method MergeInner(acc: Fields, field: (string, Value)) returns (merged: Fields)
    requires field.1.Table?
    ensures merged == Set(acc, field.0, Replace(Find(acc, field.0), field.1))
    decreases field
  {
    var inner := MergeConfigTable(Inner(Find(acc, field.0)), field.1.fields);
    merged := Set(acc, field.0, Table(inner));
  }

  method MergeConfigTable(acc: Fields, overlay: Fields) returns (merged: Fields)
    ensures merged == Merge(acc, overlay)
    decreases overlay
  {
    merged := acc;
    for i := 0 to |overlay|
      invariant merged == Merge(acc, overlay[..i])
    {
      var (key, val) := overlay[i];
      MergeStep(acc, overlay, i);
      if Additive(key).Some? {
        merged := AppendAdditive(merged, Additive(key).value, val);
      } else if val.Table? {
        merged := MergeInner(merged, overlay[i]);
      } else {
        merged := Set(merged, key, val);
      }
    }
    assert overlay[..|overlay|] == overlay;
  }

  // ---- Key order ----

  predicate Less(a: string, b: string) {
    b != [] && (a == [] || a[0] < b[0] || (a[0] == b[0] && Less(a[1..], b[1..])))
  }

  /** Keys in strictly rising order, at every table depth. */
  ghost predicate Ordered(t: Fields)
    decreases t
  {
    && (forall i, j :: 0 <= i < j < |t| ==> Less(t[i].0, t[j].0))
    && (forall i {:trigger t[i]} :: 0 <= i < |t| ==> OrderedInside(t[i]))
  }

  ghost predicate OrderedInside(field: (string, Value))
    decreases field
  {
    field.1.Table? ==> Ordered(field.1.fields)
  }

  lemma {:induction false} LessIsStrict(a: string, b: string)
    ensures !(Less(a, b) && Less(b, a)) && (Less(a, b) ==> a != b)
    decreases |a|
  {
    if a != [] && b != [] && a[0] == b[0] {
      LessIsStrict(a[1..], b[1..]);
      assert a == [a[0]] + a[1..] && b == [b[0]] + b[1..];
    }
  }

  lemma {:induction false} ExtensionIsGreater(a: string, more: string)
    requires more != []
    ensures Less(a, a + more)
  {
    if a != [] {
      ExtensionIsGreater(a[1..], more);
      assert (a + more)[1..] == a[1..] + more;
    }
  }

  // ---- One layer ----

  lemma {:induction false} FindSet(t: Fields, k: string, v: Value, other: string)
    ensures Find(Set(t, k, v), other) == if other == k then Some(v) else Find(t, other)
  {
    if t != [] && Last(t).0 != k {
      FindSet(t[..|t| - 1], k, v, other);
      var next := Set(t, k, v);
      assert next[..|next| - 1] == Set(t[..|t| - 1], k, v);
    } else if t != [] {
      var next := Set(t, k, v);
      assert next[..|next| - 1] == t[..|t| - 1];
    }
  }

  lemma {:induction false} FindNone(t: Fields, k: string)
    requires forall i :: 0 <= i < |t| ==> t[i].0 != k
    ensures Find(t, k).None?
  {
    if t != [] {
      FindNone(t[..|t| - 1], k);
    }
  }

  /** What a layer's own field makes of the value so far. */
  function Bare(before: Option<Value>, own: Option<Value>): Option<Value> {
    if own.Some? then Some(Replace(before, own.value)) else before
  }

  /** What a layer's `_add` array makes of it. */
  function WithAdd(before: Option<Value>, add: Option<Value>): Option<Value> {
    if add.Some? && add.value.Array? then Some(Array(Items(before) + add.value.items)) else before
  }

  /** What one layer makes of the value at `k`. */
  function Layered(before: Option<Value>, layer: Fields, k: string): Option<Value> {
    if Additive(k).Some? then before
    else if k in ADDITIVE_FIELDS then WithAdd(Bare(before, Find(layer, k)), Find(layer, k + SUFFIX))
    else Bare(before, Find(layer, k))
  }

  lemma AdditiveKey(f: string)
    requires f in ADDITIVE_FIELDS
    ensures Additive(f + SUFFIX) == Some(f) && Additive(f).None?
  {
    var k := f + SUFFIX;
    assert k[|k| - |SUFFIX|..] == SUFFIX && k[..|k| - |SUFFIX|] == f;
  }

  lemma AdditiveIs(k: string, f: string)
    requires Additive(k) == Some(f)
    ensures k == f + SUFFIX && f in ADDITIVE_FIELDS
  {
    assert k == k[..|k| - |SUFFIX|] + k[|k| - |SUFFIX|..];
  }

  /** A layer changes each key as it says and leaves its siblings alone. */
  lemma {:induction false} MergeFind(acc: Fields, overlay: Fields, k: string)
    requires Ordered(overlay)
    ensures Find(Merge(acc, overlay), k) == Layered(Find(acc, k), overlay, k)
    decreases |overlay|
  {
    if overlay != [] {
      var n := |overlay| - 1;
      var init, last := overlay[..n], overlay[n];
      MergeFind(acc, init, k);
      LastIsNew(overlay);
      var before := Merge(acc, init);
      if Additive(last.0).Some? {
        var f := Additive(last.0).value;
        AdditiveIs(last.0, f);
        AdditiveKey(f);
        if last.1.Array? {
          FindSet(before, f, Array(Items(Find(before, f)) + last.1.items), k);
        }
        if k != f {
          SuffixKey(k, f);
        }
      } else {
        FindSet(before, last.0, Replace(Find(before, last.0), last.1), k);
        if k in ADDITIVE_FIELDS {
          AdditiveKey(k);
          if k == last.0 {
            AddComesLater(overlay, k);
          }
        }
      }
    }
  }

  lemma SuffixKey(k: string, f: string)
    requires k != f
    ensures k + SUFFIX != f + SUFFIX
  {
    assert (k + SUFFIX)[..|k + SUFFIX| - |SUFFIX|] == k && (f + SUFFIX)[..|f + SUFFIX| - |SUFFIX|] == f;
  }

  lemma LastIsNew(t: Fields)
    requires Ordered(t) && t != []
    ensures Ordered(t[..|t| - 1]) && Find(t[..|t| - 1], Last(t).0).None?
    ensures forall k {:trigger Find(t, k)} :: Find(t, k) == if k == Last(t).0 then Some(Last(t).1) else Find(t[..|t| - 1], k)
  {
    var init := t[..|t| - 1];
    forall i | 0 <= i < |init|
      ensures init[i].0 != Last(t).0 && OrderedInside(init[i])
    {
      assert init[i] == t[i];
      LessIsStrict(t[i].0, Last(t).0);
    }
    FindNone(init, Last(t).0);
  }

  /** In key order a field comes before its `_add`. */
  lemma AddComesLater(t: Fields, f: string)
    requires Ordered(t) && t != [] && Last(t).0 == f
    ensures Find(t[..|t| - 1], f + SUFFIX).None?
  {
    var init := t[..|t| - 1];
    ExtensionIsGreater(f, SUFFIX);
    forall i | 0 <= i < |init|
      ensures init[i].0 != f + SUFFIX
    {
      assert init[i] == t[i];
      LessIsStrict(t[i].0, f);
    }
    FindNone(init, f + SUFFIX);
  }

  // ---- Nothing additive is left ----

  /** No additive `_add` key at any table depth. */
  ghost predicate Clean(t: Fields)
    decreases t
  {
    forall i {:trigger t[i]} :: 0 <= i < |t| ==> CleanInside(t[i])
  }

  ghost predicate CleanInside(field: (string, Value))
    decreases field
  {
    Additive(field.0).None? && (field.1.Table? ==> Clean(field.1.fields))
  }

  lemma {:induction false} SetClean(t: Fields, k: string, v: Value)
    requires Clean(t) && CleanInside((k, v))
    ensures Clean(Set(t, k, v))
  {
    if t != [] {
      var init := t[..|t| - 1];
      assert Clean(init) by {
        assert forall i {:trigger init[i]} :: 0 <= i < |init| ==> init[i] == t[i];
      }
      SetClean(init, k, v);
      assert CleanInside(t[|t| - 1]);
    }
  }

  lemma {:induction false} FindClean(t: Fields, k: string)
    requires Clean(t)
    ensures Clean(Inner(Find(t, k)))
  {
    if t != [] {
      assert CleanInside(t[|t| - 1]);
      var init := t[..|t| - 1];
      assert Clean(init) by {
        assert forall i {:trigger init[i]} :: 0 <= i < |init| ==> init[i] == t[i];
      }
      FindClean(init, k);
    }
  }

  /** Whatever the layers say, no additive `_add` key survives at any table depth. */
  lemma {:induction false} MergeClean(acc: Fields, overlay: Fields)
    requires Clean(acc)
    ensures Clean(Merge(acc, overlay))
    decreases overlay
  {
    if overlay != [] {
      MergeClean(acc, overlay[..|overlay| - 1]);
      ApplyClean(Merge(acc, overlay[..|overlay| - 1]), overlay[|overlay| - 1]);
    }
  }

  lemma {:induction false} ApplyClean(acc: Fields, field: (string, Value))
    requires Clean(acc)
    ensures Clean(Apply(acc, field))
    decreases field
  {
    if Additive(field.0).Some? {
      var f := Additive(field.0).value;
      AdditiveIs(field.0, f);
      AdditiveKey(f);
      if field.1.Array? {
        SetClean(acc, f, Array(Items(Find(acc, f)) + field.1.items));
      }
    } else {
      if field.1.Table? {
        FindClean(acc, field.0);
        MergeClean(Inner(Find(acc, field.0)), field.1.fields);
      }
      SetClean(acc, field.0, Replace(Find(acc, field.0), field.1));
    }
  }

  // ---- All layers ----

  function MergeAll(layers: seq<Fields>): Fields {
    if layers == [] then [] else Merge(MergeAll(layers[..|layers| - 1]), Last(layers))
  }

  ghost predicate AllOrdered(layers: seq<Fields>) {
    forall i {:trigger layers[i]} :: 0 <= i < |layers| ==> Ordered(layers[i])
  }

  lemma MergeAllPush(layers: seq<Fields>, layer: Fields)
    ensures MergeAll(layers + [layer]) == Merge(MergeAll(layers), layer)
  {
    assert (layers + [layer])[..|layers + [layer]| - 1] == layers;
  }

  /** The last layer has the last word on every key. */
  lemma LastWord(layers: seq<Fields>, k: string)
    requires AllOrdered(layers) && layers != []
    ensures AllOrdered(layers[..|layers| - 1])
    ensures Find(MergeAll(layers), k) == Layered(Find(MergeAll(layers[..|layers| - 1]), k), Last(layers), k)
  {
    var init := layers[..|layers| - 1];
    assert forall i {:trigger init[i]} :: 0 <= i < |init| ==> init[i] == layers[i];
    assert Ordered(layers[|layers| - 1]);
    MergeFind(MergeAll(init), Last(layers), k);
  }

  lemma {:induction false} NothingAdditiveSurvives(layers: seq<Fields>)
    ensures Clean(MergeAll(layers))
  {
    if layers != [] {
      NothingAdditiveSurvives(layers[..|layers| - 1]);
      MergeClean(MergeAll(layers[..|layers| - 1]), Last(layers));
    }
  }

  predicate Ordinary(k: string) {
    Additive(k).None? && k !in ADDITIVE_FIELDS
  }

  /** The last value that a layer gives to `k`. */
  function LastSet(layers: seq<Fields>, k: string): Option<Value> {
    if layers == [] then None
    else if Find(Last(layers), k).Some? then Find(Last(layers), k)
    else LastSet(layers[..|layers| - 1], k)
  }

  /** The tables that the layers give to `k`. */
  function Project(layers: seq<Fields>, k: string): seq<Fields> {
    if layers == [] then []
    else
      var own := Find(Last(layers), k);
      Project(layers[..|layers| - 1], k) + if own.Some? && own.value.Table? then [own.value.fields] else []
  }

  ghost predicate NeverTable(layers: seq<Fields>, k: string) {
    forall i {:trigger layers[i]} :: 0 <= i < |layers| ==> Find(layers[i], k).Some? ==> !Find(layers[i], k).value.Table?
  }

  ghost predicate AlwaysTable(layers: seq<Fields>, k: string) {
    forall i {:trigger layers[i]} :: 0 <= i < |layers| ==> Find(layers[i], k).Some? ==> Find(layers[i], k).value.Table?
  }

  lemma {:induction false} OrdinaryKey(layers: seq<Fields>, k: string)
    requires AllOrdered(layers) && Ordinary(k) && NeverTable(layers, k)
    ensures Find(MergeAll(layers), k) == LastSet(layers, k)
  {
    if layers != [] {
      var init := layers[..|layers| - 1];
      assert forall i {:trigger init[i]} :: 0 <= i < |init| ==> init[i] == layers[i];
      LastWord(layers, k);
      OrdinaryKey(init, k);
      assert layers[|layers| - 1] == Last(layers);
    }
  }

  /** A key under which the layers only ever put tables holds those tables, layered the same way. */
  lemma {:induction false} TableKey(layers: seq<Fields>, k: string)
    requires AllOrdered(layers) && Ordinary(k) && AlwaysTable(layers, k)
    ensures Find(MergeAll(layers), k) == if Project(layers, k) == [] then None else Some(Table(MergeAll(Project(layers, k))))
  {
    if layers != [] {
      var init, own := layers[..|layers| - 1], Find(Last(layers), k);
      assert AlwaysTable(init, k) by {
        assert forall i {:trigger init[i]} :: 0 <= i < |init| ==> init[i] == layers[i];
      }
      LastWord(layers, k);
      TableKey(init, k);
      if own.Some? {
        assert layers[|layers| - 1] == Last(layers);
        MergeAllPush(Project(init, k), own.value.fields);
      } else {
        assert Project(init, k) + [] == Project(init, k);
      }
    }
  }

  /** Items of the `_add` arrays of `f`, layer by layer. */
  function Adds(layers: seq<Fields>, f: string): seq<Value> {
    if layers == [] then [] else Adds(layers[..|layers| - 1], f) + Items(Find(Last(layers), f + SUFFIX))
  }

  /**
   An additive list is the last bare array followed by all `_add` arrays from that layer on, in
   file order: `k` is the last layer that gives `f` outright.
   */
  lemma {:induction false} AdditiveKeyFrom(layers: seq<Fields>, k: nat, f: string, bare: seq<Value>)
    requires AllOrdered(layers) && f in ADDITIVE_FIELDS
    requires k < |layers| && Find(layers[k], f) == Some(Array(bare)) && NeverGiven(layers[k + 1..], f)
    ensures Find(MergeAll(layers), f) == Some(Array(bare + Adds(layers[k..], f)))
    decreases |layers|
  {
    var n := |layers| - 1;
    var init := layers[..n];
    LastWord(layers, f);
    if k == n {
      assert layers[k..] == [] + [Last(layers)];
      FirstArray(Find(MergeAll(init), f), Last(layers), f, bare);
    } else {
      AllButLast(layers, k, f);
      AdditiveKeyFrom(init, k, f, bare);
      NextArray(init[k..], Last(layers), f, bare);
    }
  }

  /** No layer gives `f` outright. */
  ghost predicate NeverGiven(layers: seq<Fields>, f: string) {
    forall i {:trigger layers[i]} :: 0 <= i < |layers| ==> Find(layers[i], f).None?
  }

  lemma AllButLast(layers: seq<Fields>, k: nat, f: string)
    requires k + 1 < |layers| && NeverGiven(layers[k + 1..], f)
    ensures var init := layers[..|layers| - 1];
            init[k] == layers[k] && NeverGiven(init[k + 1..], f) && layers[k..] == init[k..] + [Last(layers)]
    ensures Find(Last(layers), f).None?
  {
    var init := layers[..|layers| - 1];
    assert layers[k + 1..] == init[k + 1..] + [Last(layers)];
    assert forall i {:trigger init[k + 1..][i]} :: 0 <= i < |init[k + 1..]| ==> init[k + 1..][i] == layers[k + 1..][i];
    assert layers[k + 1..][|layers| - k - 2] == Last(layers);
  }

  lemma FirstArray(before: Option<Value>, layer: Fields, f: string, bare: seq<Value>)
    requires f in ADDITIVE_FIELDS && Find(layer, f) == Some(Array(bare))
    ensures Layered(before, layer, f) == Some(Array(bare + Adds([] + [layer], f)))
  {
    AddsPush([], layer, f);
    AdditiveRestart(before, layer, f, bare);
  }

  lemma NextArray(from: seq<Fields>, layer: Fields, f: string, bare: seq<Value>)
    requires f in ADDITIVE_FIELDS && Find(layer, f).None?
    ensures Layered(Some(Array(bare + Adds(from, f))), layer, f) == Some(Array(bare + Adds(from + [layer], f)))
  {
    AddsPush(from, layer, f);
    AdditiveGrow(bare + Adds(from, f), layer, f);
    assert bare + Adds(from, f) + Items(Find(layer, f + SUFFIX)) == bare + (Adds(from, f) + Items(Find(layer, f + SUFFIX)));
  }

  lemma AdditiveRestart(before: Option<Value>, layer: Fields, f: string, bare: seq<Value>)
    requires f in ADDITIVE_FIELDS && Find(layer, f) == Some(Array(bare))
    ensures Layered(before, layer, f) == Some(Array(bare + ([] + Items(Find(layer, f + SUFFIX)))))
  {
    AdditiveKey(f);
    WithAddItems(bare, Find(layer, f + SUFFIX));
    assert [] + Items(Find(layer, f + SUFFIX)) == Items(Find(layer, f + SUFFIX));
  }

  lemma AdditiveGrow(items: seq<Value>, layer: Fields, f: string)
    requires f in ADDITIVE_FIELDS && Find(layer, f).None?
    ensures Layered(Some(Array(items)), layer, f) == Some(Array(items + Items(Find(layer, f + SUFFIX))))
  {
    AdditiveKey(f);
    WithAddItems(items, Find(layer, f + SUFFIX));
  }

  lemma WithAddItems(items: seq<Value>, add: Option<Value>)
    ensures WithAdd(Some(Array(items)), add) == Some(Array(items + Items(add)))
  {
    assert items + [] == items;
  }

  lemma AddsPush(layers: seq<Fields>, layer: Fields, f: string)
    ensures Adds(layers + [layer], f) == Adds(layers, f) + Items(Find(layer, f + SUFFIX))
  {
    assert (layers + [layer])[..|layers + [layer]| - 1] == layers;
  }

  /** Some layer has an `_add` array for `f`. */
  predicate AnyAdds(layers: seq<Fields>, f: string) {
    layers != [] && (AnyAdds(layers[..|layers| - 1], f) || (Find(Last(layers), f + SUFFIX).Some? && Find(Last(layers), f + SUFFIX).value.Array?))
  }

  /** Without a bare array it is all the `_add` arrays, and absent if there are none. */
  lemma {:induction false} AdditiveKeyAlone(layers: seq<Fields>, f: string)
    requires AllOrdered(layers) && f in ADDITIVE_FIELDS && NeverGiven(layers, f)
    ensures Find(MergeAll(layers), f) == if AnyAdds(layers, f) then Some(Array(Adds(layers, f))) else None
    ensures !AnyAdds(layers, f) ==> Adds(layers, f) == []
  {
    AdditiveKey(f);
    if layers != [] {
      var init := layers[..|layers| - 1];
      assert forall i {:trigger init[i]} :: 0 <= i < |init| ==> init[i] == layers[i];
      LastWord(layers, f);
      AdditiveKeyAlone(init, f);
      assert Find(layers[|layers| - 1], f).None?;
      var add := Find(Last(layers), f + SUFFIX);
      assert [] + Items(add) == Items(add);
      WithAddItems(Adds(init, f), add);
    }
  }

  // ---- Nested tables ----

  function Descend(t: Fields, path: seq<string>): Option<Fields>
    decreases |path|
  {
    if path == [] then Some(t)
    else
      match Find(t, path[0])
      case Some(Table(inner)) => Descend(inner, path[1..])
      case _ => None
  }

  function ProjectAll(layers: seq<Fields>, path: seq<string>): seq<Fields>
    decreases |path|
  {
    if path == [] then layers else ProjectAll(Project(layers, path[0]), path[1..])
  }

  /** Along the path some layer has a table, and no layer replaces it by anything else. */
  ghost predicate TablesAlong(layers: seq<Fields>, path: seq<string>)
    decreases |path|
  {
    path == [] ||
    (Ordinary(path[0]) && AlwaysTable(layers, path[0]) && Project(layers, path[0]) != [] && TablesAlong(Project(layers, path[0]), path[1..]))
  }

  lemma {:induction false} ProjectOrdered(layers: seq<Fields>, k: string)
    requires AllOrdered(layers)
    ensures AllOrdered(Project(layers, k))
  {
    if layers != [] {
      var init := layers[..|layers| - 1];
      assert forall i {:trigger init[i]} :: 0 <= i < |init| ==> init[i] == layers[i];
      ProjectOrdered(init, k);
      assert Ordered(layers[|layers| - 1]);
      FindOrdered(Last(layers), k);
    }
  }

  lemma {:induction false} FindOrdered(t: Fields, k: string)
    requires Ordered(t)
    ensures Ordered(Inner(Find(t, k)))
    decreases |t|
  {
    if t != [] {
      LastIsNew(t);
      assert OrderedInside(t[|t| - 1]);
      FindOrdered(t[..|t| - 1], k);
    }
  }

  /** At every table depth the document is the layering of what the layers say there. */
  lemma {:induction false} LayersMeet(layers: seq<Fields>, path: seq<string>)
    requires AllOrdered(layers) && TablesAlong(layers, path)
    ensures Descend(MergeAll(layers), path) == Some(MergeAll(ProjectAll(layers, path)))
    ensures AllOrdered(ProjectAll(layers, path))
    decreases |path|
  {
    if path != [] {
      TableKey(layers, path[0]);
      ProjectOrdered(layers, path[0]);
      LayersMeet(Project(layers, path[0]), path[1..]);
    }
  }
}
