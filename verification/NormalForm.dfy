// Decoded YAML mappings may have keys that are not text; normalizeYAML
// (internal/configctl/manager.go) renders them before trees are compared.
// Two keys that render alike leave the outcome to Go's map order.
module NormalForm {
  import opened Prelude
  import opened Diff

  // What the YAML decoder hands over.
  datatype Decoded =
    | Nil
    | Leaf(atom: Atom)
    | Items(items: seq<Decoded>)
    | TextMap(entries: map<string, Decoded>)
    | AnyMap(pairs: map<Atom, Decoded>)

  // fmt.Sprint on a key.
  type Render = Atom -> string

  // v is a result normalizeYAML can return for d.
  ghost predicate IsNormalForm(d: Decoded, v: Value, render: Render)
    decreases d, 1
  {
    match d
    case Nil => v == Null
    case Leaf(a) => v == Scalar(a)
    case Items(ds) => v.List? && |v.items| == |ds| && forall i :: 0 <= i < |ds| ==> IsNormalForm(ds[i], v.items[i], render)
    case TextMap(m) => v.Mapping? && v.entries.Keys == m.Keys && forall k :: k in m ==> IsNormalForm(m[k], v.entries[k], render)
    case AnyMap(m) =>
      && v.Mapping?
      && (forall k :: k in m ==> render(k) in v.entries)
      && forall text :: text in v.entries ==> Supplied(d, text, v.entries[text], render)
  }

  ghost predicate Supplied(d: Decoded, text: string, v: Value, render: Render)
    requires d.AnyMap?
    decreases d, 0, 1
  {
    exists k :: Supplies(d, k, text, v, render)
  }

  // The entry `text` of the result comes from key k.
  ghost predicate Supplies(d: Decoded, k: Atom, text: string, v: Value, render: Render)
    requires d.AnyMap?
    decreases d, 0, 0
  {
    k in d.pairs && render(k) == text && IsNormalForm(d.pairs[k], v, render)
  }

  method NormalizeYAML(d: Decoded, render: Render) returns (v: Value)
    ensures IsNormalForm(d, v, render)
    decreases d, 1
  {
    match d {
      case Nil => v := Null;
      case Leaf(a) => v := Scalar(a);
      case Items(ds) =>
        var out: seq<Value> := [];
        for i := 0 to |ds|
          invariant |out| == i && forall j :: 0 <= j < i ==> IsNormalForm(ds[j], out[j], render)
        {
          var item := NormalizeYAML(ds[i], render);
          out := out + [item];
        }
        v := List(out);
      case TextMap(m) =>
        var out: map<string, Value> := map[];
        var todo := m.Keys;
        while todo != {}
          invariant todo <= m.Keys && out.Keys == m.Keys - todo
          invariant forall k :: k in out ==> IsNormalForm(m[k], out[k], render)
          decreases todo
        {
          var k :| k in todo;
          var item := NormalizeYAML(m[k], render);
          out := out[k := item];
          todo := todo - {k};
        }
        v := Mapping(out);
      case AnyMap(m) =>
        var out: map<string, Value> := map[];
        var todo := m.Keys;
        while todo != {}
          invariant todo <= m.Keys
          invariant forall k :: k in m && k !in todo ==> render(k) in out
          invariant forall text :: text in out ==> Supplied(d, text, out[text], render)
          decreases todo
        {
          var k :| k in todo;
          var item := NormalizeYAML(m[k], render);
          ghost var before := out;
          out := out[render(k) := item];
          forall text | text in out ensures Supplied(d, text, out[text], render) {
            if text == render(k) {
              assert Supplies(d, k, text, out[text], render);
            } else {
              var l :| Supplies(d, l, text, before[text], render);
              assert Supplies(d, l, text, out[text], render);
            }
          }
          todo := todo - {k};
        }
        v := Mapping(out);
    }
  }

  // ------------------------------------------------ is the outcome decided?

  // No mapping has two keys that render alike.
  ghost predicate NoClash(d: Decoded, render: Render)
    decreases d
  {
    match d
    case Nil => true
    case Leaf(_) => true
    case Items(ds) => forall i :: 0 <= i < |ds| ==> NoClash(ds[i], render)
    case TextMap(m) => forall k :: k in m ==> NoClash(m[k], render)
    case AnyMap(m) =>
      && (forall k :: k in m ==> NoClash(m[k], render))
      && forall k, l :: k in m && l in m && render(k) == render(l) ==> k == l
  }

  lemma Supplier(d: Decoded, text: string, v: Value, render: Render) returns (k: Atom)
    requires d.AnyMap? && IsNormalForm(d, v, render) && text in v.entries
    ensures Supplies(d, k, text, v.entries[text], render)
  {
    assert Supplied(d, text, v.entries[text], render);
    k :| Supplies(d, k, text, v.entries[text], render);
  }

  // Without clashing keys the result does not depend on the map order.
  lemma {:induction false} NormalFormIsUnique(d: Decoded, v: Value, w: Value, render: Render)
    requires NoClash(d, render) && IsNormalForm(d, v, render) && IsNormalForm(d, w, render)
    ensures v == w
    decreases d
  {
    match d {
      case Nil =>
      case Leaf(_) =>
      case Items(ds) =>
        forall i | 0 <= i < |ds| ensures v.items[i] == w.items[i] { NormalFormIsUnique(ds[i], v.items[i], w.items[i], render); }
        assert v.items == w.items;
      case TextMap(m) =>
        forall k | k in m ensures v.entries[k] == w.entries[k] { NormalFormIsUnique(m[k], v.entries[k], w.entries[k], render); }
        assert v.entries == w.entries;
      case AnyMap(m) =>
        forall text ensures text in v.entries <==> text in w.entries {
          if text in v.entries { var k := Supplier(d, text, v, render); }
          if text in w.entries { var k := Supplier(d, text, w, render); }
        }
        forall text | text in v.entries ensures v.entries[text] == w.entries[text] {
          var k := Supplier(d, text, v, render);
          var l := Supplier(d, text, w, render);
          NormalFormIsUnique(m[k], v.entries[text], w.entries[text], render);
        }
        assert v.entries == w.entries;
    }
  }

  // Where two keys render alike, either one's value can be the outcome.
  lemma ClashIsUndecided(m: map<Atom, Decoded>, k: Atom, l: Atom, v: Value, w: Value, u: Value, render: Render)
    requires k in m && l in m && render(k) == render(l)
    requires IsNormalForm(m[k], v, render) && IsNormalForm(m[l], w, render) && IsNormalForm(AnyMap(m), u, render)
    ensures IsNormalForm(AnyMap(m), Mapping(u.entries[render(k) := v]), render)
    ensures IsNormalForm(AnyMap(m), Mapping(u.entries[render(k) := w]), render)
  {
    Overwrites(m, k, v, u, render);
    Overwrites(m, l, w, u, render);
  }

  lemma Overwrites(m: map<Atom, Decoded>, k: Atom, v: Value, u: Value, render: Render)
    requires k in m && IsNormalForm(m[k], v, render) && IsNormalForm(AnyMap(m), u, render)
    ensures IsNormalForm(AnyMap(m), Mapping(u.entries[render(k) := v]), render)
  {
    var d := AnyMap(m);
    var out := u.entries[render(k) := v];
    forall text | text in out ensures Supplied(d, text, out[text], render) {
      if text == render(k) {
        assert Supplies(d, k, text, out[text], render);
      } else {
        var l := Supplier(d, text, u, render);
        assert Supplies(d, l, text, out[text], render);
      }
    }
  }
}
