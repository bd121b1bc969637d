/** Writing a layer of a vector tile: features refer to its tables of keys and values by number. A text
    stands for its UTF-8 bytes. */
module VectorLayer {
  import opened Seqs
  import opened Varints
  import opened Protobuf

  const EXTENT := 4096

  type Text = seq<byte>

  datatype Property = Property(key: Text, value: Scalar)

  datatype Scalar = Str(text: Text) | Int(n: nat)

  datatype Feature = Feature(identity: nat, properties: seq<Property>, kind: nat, geometry: seq<nat>)

  // ----- tables: a dictionary that numbers its keys in the order of their first use

  function Interned<T(==)>(table: seq<T>, x: T): seq<T> {
    if x in table then table else table + [x]
  }

  function Place<T(==)>(table: seq<T>, x: T): (i: nat)
    ensures i <= |table| && (x in table <==> i < |table|) && (i < |table| ==> table[i] == x)
  {
    if table == [] || table[0] == x then 0 else 1 + Place(table[1..], x)
  }

  predicate Starts<T(==)>(a: seq<T>, b: seq<T>) {
    |a| <= |b| && b[..|a|] == a
  }

  lemma StartsTwice<T>(a: seq<T>, b: seq<T>, c: seq<T>)
    requires Starts(a, b) && Starts(b, c)
    ensures Starts(a, c)
  {
    TakeTake(c, |a|, |b|);
  }

  /** The number of a key names it from now on. */
  lemma InternedAt<T>(table: seq<T>, x: T)
    ensures Starts(table, Interned(table, x))
    ensures Place(table, x) < |Interned(table, x)| && Interned(table, x)[Place(table, x)] == x
  {
    if x in table { Whole(table); } else { TakeAppended(table, x); }
  }

  // ----- the tags of a feature

  datatype Tables = Tables(keys: seq<Text>, values: seq<Scalar>)

  ghost predicate Grown(a: Tables, b: Tables) {
    Starts(a.keys, b.keys) && Starts(a.values, b.values)
  }

  function Added(t: Tables, p: Property): Tables {
    Tables(Interned(t.keys, p.key), Interned(t.values, p.value))
  }

  function TagPair(t: Tables, p: Property): seq<nat> {
    [Place(t.keys, p.key), Place(t.values, p.value)]
  }

  function TablesAfter(t: Tables, ps: seq<Property>): Tables {
    if ps == [] then t else Added(TablesAfter(t, ps[..|ps| - 1]), ps[|ps| - 1])
  }

  function Tags(t: Tables, ps: seq<Property>): seq<nat> {
    if ps == [] then [] else
      var n := |ps| - 1;
      Tags(t, ps[..n]) + TagPair(TablesAfter(t, ps[..n]), ps[n])
  }

  // ----- features

  function FeatureFields(f: Feature, tags: seq<nat>): seq<Field> {
    [Field(1, Number(f.identity)), Field(2, Payload(Join(tags))),
     Field(3, Number(f.kind)), Field(4, Payload(Join(f.geometry)))]
  }

  function FeatureField(f: Feature, tags: seq<nat>): Field {
    Field(2, Payload(EncodeAll(FeatureFields(f, tags))))
  }

  /** What a layer holds after some features. */
  datatype Contents = Contents(tables: Tables, features: seq<byte>)

  function WithFeature(c: Contents, f: Feature): Contents {
    Contents(TablesAfter(c.tables, f.properties),
             c.features + Encode(FeatureField(f, Tags(c.tables, f.properties))))
  }

  function ContentsOf(fs: seq<Feature>): Contents {
    if fs == [] then Contents(Tables([], []), []) else WithFeature(ContentsOf(fs[..|fs| - 1]), fs[|fs| - 1])
  }

  function KeyField(key: Text): Field {
    Field(3, Payload(key))
  }

  /** Strings are field 1 and integers field 5 of a tile value. */
  function ScalarField(v: Scalar): Field {
    Field(4, Payload(Encode(if v.Str? then Field(1, Payload(v.text)) else Field(5, Number(v.n)))))
  }

  function KeyFields(keys: seq<Text>): seq<Field> {
    if keys == [] then [] else KeyFields(keys[..|keys| - 1]) + [KeyField(keys[|keys| - 1])]
  }

  function ScalarFields(values: seq<Scalar>): seq<Field> {
    if values == [] then [] else ScalarFields(values[..|values| - 1]) + [ScalarField(values[|values| - 1])]
  }

  /** The bytes of a layer as field 3 of a tile. */
  function LayerField(name: Text, c: Contents): Field {
    Field(3, Payload(Encode(Field(15, Number(2))) + Encode(Field(1, Payload(name))) + c.features
      + EncodeAll(KeyFields(c.tables.keys)) + EncodeAll(ScalarFields(c.tables.values))
      + Encode(Field(5, Number(EXTENT)))))
  }

  class Layer {
    const name: Text
    var keys: seq<Text>
    var values: seq<Scalar>
    var features: seq<byte>

    ghost function Holds(): Contents
      reads this
    {
      Contents(Tables(keys, values), features)
    }

    constructor (name: Text)
      ensures this.name == name && Holds() == ContentsOf([])
    {
      this.name := name;
      keys, values, features := [], [], [];
    }

    method Add(f: Feature)
      modifies this
      ensures Holds() == WithFeature(old(Holds()), f)
    {
      hide Added, TagPair, FeatureField;
      var tags := [];
      ghost var t := Tables(keys, values);
      var ps := f.properties;
      for i := 0 to |ps|
        invariant Tables(keys, values) == TablesAfter(t, ps[..i]) && tags == Tags(t, ps[..i])
        invariant features == old(features)
      {
        Snoc(ps, i + 1);
        TakeTake(ps, i, i + 1);
        var tag := Tag(ps[i]);
        tags := tags + tag;
      }
      Whole(ps);
      features := features + Encode(FeatureField(f, tags));
    }

    /** Numbers a key and a value, new ones after all others. */
    method Tag(p: Property) returns (tag: seq<nat>)
      modifies this`keys, this`values
      ensures Tables(keys, values) == Added(Tables(old(keys), old(values)), p)
      ensures tag == TagPair(Tables(old(keys), old(values)), p)
    {
      tag := [Place(keys, p.key), Place(values, p.value)];
      if p.key !in keys { keys := keys + [p.key]; }
      if p.value !in values { values := values + [p.value]; }
    }

    /** The bytes are those of a protobuf message with the fields of the layer. */
    method EncodeLayer() returns (data: seq<byte>)
      ensures data == Encode(LayerField(name, Holds()))
    {
      hide Encode;
      var head := Encode(Field(15, Number(2))) + Encode(Field(1, Payload(name))) + features;
      var keyBytes := EncodedKeys();
      var valueBytes := EncodedValues();
      data := Encode(Field(3, Payload(head + keyBytes + valueBytes + Encode(Field(5, Number(EXTENT))))));
    }

    method EncodedKeys() returns (data: seq<byte>)
      ensures data == EncodeAll(KeyFields(keys))
    {
      hide Encode;
      data := [];
      for i := 0 to |keys|
        invariant data == EncodeAll(KeyFields(keys[..i]))
      {
        Snoc(keys, i + 1);
        TakeTake(keys, i, i + 1);
        EncodeSnoc(KeyFields(keys[..i]), KeyField(keys[i]));
        data := data + Encode(KeyField(keys[i]));
      }
      Whole(keys);
    }

    method EncodedValues() returns (data: seq<byte>)
      ensures data == EncodeAll(ScalarFields(values))
    {
      hide Encode, ScalarField;
      data := [];
      for i := 0 to |values|
        invariant data == EncodeAll(ScalarFields(values[..i]))
      {
        Snoc(values, i + 1);
        TakeTake(values, i, i + 1);
        EncodeSnoc(ScalarFields(values[..i]), ScalarField(values[i]));
        data := data + Encode(ScalarField(values[i]));
      }
      Whole(values);
    }
  }

  /** A layer to which features are added one after another. */
  method WriteLayer(name: Text, fs: seq<Feature>) returns (data: seq<byte>)
    ensures data == Encode(LayerField(name, ContentsOf(fs)))
  {
    hide WithFeature, LayerField, Encode;
    var layer := new Layer(name);
    for i := 0 to |fs|
      invariant layer.Holds() == ContentsOf(fs[..i])
    {
      Snoc(fs, i + 1);
      TakeTake(fs, i, i + 1);
      layer.Add(fs[i]);
    }
    Whole(fs);
    data := layer.EncodeLayer();
  }

  lemma EncodeSnoc(fields: seq<Field>, f: Field)
    ensures EncodeAll(fields + [f]) == EncodeAll(fields) + Encode(f)
  {
    EncodeAppended(fields, [f]);
    EncodeOne(f);
  }

  lemma EncodeOne(f: Field)
    ensures EncodeAll([f]) == Encode(f)
  {
    hide Encode;
    assert [f][1..] == [];
    assert EncodeAll([f]) == Encode(f) + [];
  }

  // ----- the tables name what was added

  /** Tags that name properties in some tables: key and value in turn. */
  ghost predicate Names(tags: seq<nat>, ps: seq<Property>, t: Tables) {
    |tags| == 2 * |ps|
    && forall i | 0 <= i < |ps| :: NamesOne(tags[2 * i], tags[2 * i + 1], ps[i], t)
  }

  ghost predicate NamesOne(k: nat, v: nat, p: Property, t: Tables) {
    k < |t.keys| && v < |t.values| && t.keys[k] == p.key && t.values[v] == p.value
  }

  lemma NamesMore(tags: seq<nat>, ps: seq<Property>, t: Tables, u: Tables)
    requires Names(tags, ps, t) && Grown(t, u)
    ensures Names(tags, ps, u)
  {
    assert forall k | 0 <= k < |t.keys| :: u.keys[k] == u.keys[..|t.keys|][k];
    assert forall v | 0 <= v < |t.values| :: u.values[v] == u.values[..|t.values|][v];
  }

  lemma {:induction false} TagsName(t: Tables, ps: seq<Property>)
    ensures Grown(t, TablesAfter(t, ps)) && Names(Tags(t, ps), ps, TablesAfter(t, ps))
  {
    if ps == [] {
      Whole(t.keys);
      Whole(t.values);
    } else {
      var n := |ps| - 1;
      var u := TablesAfter(t, ps[..n]);
      TagsName(t, ps[..n]);
      AddedNames(u, ps[n]);
      GrownTwice(t, u, Added(u, ps[n]));
      NamesMore(Tags(t, ps[..n]), ps[..n], u, Added(u, ps[n]));
      NamesSnoc(Tags(t, ps[..n]), TagPair(u, ps[n]), ps[..n], ps[n], Added(u, ps[n]));
      Snoc(ps, |ps|);
      Whole(ps);
      hide Grown, Names, TagPair, Added;
    }
  }

  lemma AddedNames(t: Tables, p: Property)
    ensures Grown(t, Added(t, p))
    ensures |TagPair(t, p)| == 2 && NamesOne(TagPair(t, p)[0], TagPair(t, p)[1], p, Added(t, p))
  {
    InternedAt(t.keys, p.key);
    InternedAt(t.values, p.value);
    hide Interned, Place, Starts;
  }

  lemma GrownTwice(a: Tables, b: Tables, c: Tables)
    requires Grown(a, b) && Grown(b, c)
    ensures Grown(a, c)
  {
    StartsTwice(a.keys, b.keys, c.keys);
    StartsTwice(a.values, b.values, c.values);
    hide Starts;
  }

  lemma NamesSnoc(tags: seq<nat>, tag: seq<nat>, ps: seq<Property>, p: Property, t: Tables)
    requires Names(tags, ps, t) && |tag| == 2 && NamesOne(tag[0], tag[1], p, t)
    ensures Names(tags + tag, ps + [p], t)
  {
    hide NamesOne;
    forall i | 0 <= i < |ps + [p]|
      ensures NamesOne((tags + tag)[2 * i], (tags + tag)[2 * i + 1], (ps + [p])[i], t)
    {
      if i < |ps| { assert NamesOne(tags[2 * i], tags[2 * i + 1], ps[i], t); }
    }
  }
}
