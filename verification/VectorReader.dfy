/** A reader of section 4.2 (Features) and 4.4 (Feature Attributes) of the Mapbox Vector Tile Specification
    2.1, and what it gives for the layers that `Layer` writes. */
module VectorReader {
  import opened Wrappers
  import opened Seqs
  import opened Varints
  import opened Protobuf
  import opened VectorLayer
  import opened VectorLines
  import L = LabelTexts

  // ----- the reader

  /** A feature message: its attributes are pairs of indices into the tables of the layer. */
  datatype Message = Message(id: nat, tags: seq<nat>, kind: nat, geometry: seq<nat>)

  /** A layer message as far as it is read. */
  datatype LayerMessage = LayerMessage(
    name: Option<Text>, version: Option<nat>, extent: Option<nat>, features: seq<Message>, keys: seq<Text>,
    values: seq<Scalar>)

  /** A decoded layer: each feature with its attributes in order. */
  datatype DecodedLayer = DecodedLayer(name: Text, version: nat, extent: nat, features: seq<Feature>)

  function Integers(v: Value): Option<seq<nat>> {
    if v.Payload? then PackedAt(v.data, 0) else None
  }

  /** One field of a feature: id 1, tags 2, type 3, geometry 4. */
  function WithFeatureField(m: Message, f: Field): Option<Message> {
    if f.number == 1 then (if f.value.Number? then Some(m.(id := f.value.n)) else None)
    else if f.number == 2 then
      var tags := Integers(f.value);
      if tags.None? then None else Some(m.(tags := tags.value))
    else if f.number == 3 then (if f.value.Number? then Some(m.(kind := f.value.n)) else None)
    else if f.number == 4 then
      var geometry := Integers(f.value);
      if geometry.None? then None else Some(m.(geometry := geometry.value))
    else Some(m)
  }

  function FeatureOf(fields: seq<Field>): Option<Message> {
    if fields == [] then Some(Message(0, [], 0, [])) else
      var k := |fields| - 1;
      var m := FeatureOf(fields[..k]);
      if m.None? then None else WithFeatureField(m.value, fields[k])
  }

  /** A value: a string in field 1, or an unsigned integer in field 5. */
  function ScalarOf(fields: seq<Field>): Option<Scalar> {
    if |fields| != 1 then None
    else if fields[0].number == 1 && fields[0].value.Payload? then Some(Str(fields[0].value.data))
    else if fields[0].number == 5 && fields[0].value.Number? then Some(Int(fields[0].value.n))
    else None
  }

  function Submessage<T>(v: Value, read: seq<Field> -> Option<T>): Option<T> {
    if v.Payload? && FieldsOf(v.data).whole then read(FieldsOf(v.data).fields) else None
  }

  /** One field of a layer: name 1, feature 2, key 3, value 4, extent 5, version 15. */
  function WithLayerField(m: LayerMessage, f: Field): Option<LayerMessage> {
    if f.number == 1 then (if f.value.Payload? then Some(m.(name := Some(f.value.data))) else None)
    else if f.number == 2 then
      var feature := Submessage(f.value, FeatureOf);
      if feature.None? then None else Some(m.(features := m.features + [feature.value]))
    else if f.number == 3 then (if f.value.Payload? then Some(m.(keys := m.keys + [f.value.data])) else None)
    else if f.number == 4 then
      var scalar := Submessage(f.value, ScalarOf);
      if scalar.None? then None else Some(m.(values := m.values + [scalar.value]))
    else if f.number == 5 then (if f.value.Number? then Some(m.(extent := Some(f.value.n))) else None)
    else if f.number == 15 then (if f.value.Number? then Some(m.(version := Some(f.value.n))) else None)
    else Some(m)
  }

  const NOTHING := LayerMessage(None, None, None, [], [], [])

  function LayerOf(fields: seq<Field>): Option<LayerMessage> {
    if fields == [] then Some(NOTHING) else
      var k := |fields| - 1;
      var m := LayerOf(fields[..k]);
      if m.None? then None else WithLayerField(m.value, fields[k])
  }

  /** The attributes of the first n pairs of tags. */
  function Attributes(tags: seq<nat>, keys: seq<Text>, values: seq<Scalar>, n: nat): Option<seq<Property>> {
    if n == 0 then Some([])
    else if 2 * n > |tags| || tags[2 * n - 2] >= |keys| || tags[2 * n - 1] >= |values| then None
    else
      var before := Attributes(tags, keys, values, n - 1);
      if before.None? then None
      else Some(before.value + [Property(keys[tags[2 * n - 2]], values[tags[2 * n - 1]])])
  }

  /** A feature with its attributes looked up; an odd number of tags is an error. */
  function Resolved(m: Message, keys: seq<Text>, values: seq<Scalar>): Option<Feature> {
    var ps := if |m.tags| % 2 == 0 then Attributes(m.tags, keys, values, |m.tags| / 2) else None;
    if ps.None? then None else Some(Feature(m.id, ps.value, m.kind, m.geometry))
  }

  function AllResolved(ms: seq<Message>, keys: seq<Text>, values: seq<Scalar>): Option<seq<Feature>> {
    if ms == [] then Some([]) else
      var k := |ms| - 1;
      var before, f := AllResolved(ms[..k], keys, values), Resolved(ms[k], keys, values);
      if before.None? || f.None? then None else Some(before.value + [f.value])
  }

  /** The layer in some bytes. */
  function DecodeLayer(data: seq<byte>): Option<DecodedLayer> {
    var y := FieldsOf(data);
    var m := if y.whole then LayerOf(y.fields) else None;
    if m.None? || m.value.name.None? || m.value.version.None? || m.value.extent.None? then None else
      var features := AllResolved(m.value.features, m.value.keys, m.value.values);
      if features.None? then None
      else Some(DecodedLayer(m.value.name.value, m.value.version.value, m.value.extent.value, features.value))
  }

  // ----- reading what was written

  lemma FeatureSnoc(fields: seq<Field>, f: Field, m: Message)
    requires FeatureOf(fields) == Some(m)
    ensures FeatureOf(fields + [f]) == WithFeatureField(m, f)
  {
    hide WithFeatureField;
    TakeAppended(fields, f);
  }

  lemma FeatureReads(f: Feature, tags: seq<nat>)
    ensures FeatureOf(FeatureFields(f, tags)) == Some(Message(f.identity, tags, f.kind, f.geometry))
  {
    PackedRoundTrip(tags);
    PackedRoundTrip(f.geometry);
    hide FeatureOf, Join, PackedAt;
    var a, b, c, d := Field(1, Number(f.identity)), Field(2, Payload(Join(tags))),
                      Field(3, Number(f.kind)), Field(4, Payload(Join(f.geometry)));
    NoFeature();
    FeatureSnoc([], a, Message(0, [], 0, []));
    FeatureSnoc([] + [a], b, Message(f.identity, [], 0, []));
    FeatureSnoc([] + [a] + [b], c, Message(f.identity, tags, 0, []));
    FeatureSnoc([] + [a] + [b] + [c], d, Message(f.identity, tags, f.kind, []));
    assert [] + [a] + [b] + [c] + [d] == [a, b, c, d];
  }

  lemma NoFeature()
    ensures FeatureOf([]) == Some(Message(0, [], 0, []))
  {
  }

  lemma FeatureFieldReads(m: LayerMessage, f: Feature, tags: seq<nat>)
    ensures WithLayerField(m, FeatureField(f, tags))
         == Some(m.(features := m.features + [Message(f.identity, tags, f.kind, f.geometry)]))
  {
    var fields := FeatureFields(f, tags);
    assert Writable(fields);
    hide FieldsOf, FeatureOf, FeatureFields, EncodeAll, Writable;
    FieldsRoundTrip(fields);
    FeatureReads(f, tags);
  }

  lemma ScalarReads(m: LayerMessage, v: Scalar)
    ensures WithLayerField(m, ScalarField(v)) == Some(m.(values := m.values + [v]))
  {
    hide FieldsOf, Encode;
    var f := if v.Str? then Field(1, Payload(v.text)) else Field(5, Number(v.n));
    EncodeOne(f);
    FieldsRoundTrip([f]);
    hide EncodeAll;
    assert [f][0] == f;
  }

  lemma LayerSnoc(fields: seq<Field>, f: Field, m: LayerMessage)
    requires LayerOf(fields) == Some(m)
    ensures LayerOf(fields + [f]) == WithLayerField(m, f)
  {
    hide WithLayerField;
    TakeAppended(fields, f);
  }

  /** The messages of some features. */
  function Messages(fs: seq<Feature>): seq<Message> {
    if fs == [] then [] else
      var n := |fs| - 1;
      var tags := Tags(ContentsOf(fs[..n]).tables, fs[n].properties);
      Messages(fs[..n]) + [Message(fs[n].identity, tags, fs[n].kind, fs[n].geometry)]
  }

  lemma {:induction false} FeaturesRead(fields: seq<Field>, m: LayerMessage, fs: seq<Feature>)
    requires LayerOf(fields) == Some(m)
    ensures LayerOf(fields + L.FeatureList(fs)) == Some(m.(features := m.features + Messages(fs)))
    decreases |fs|
  {
    hide LayerOf, WithLayerField, FeatureField, Tags, ContentsOf;
    if fs == [] {
      assert fields + [] == fields && m.features + [] == m.features;
    } else {
      var n := |fs| - 1;
      FeaturesRead(fields, m, fs[..n]);
      var tags := Tags(ContentsOf(fs[..n]).tables, fs[n].properties);
      var sofar := m.(features := m.features + Messages(fs[..n]));
      LayerSnoc(fields + L.FeatureList(fs[..n]), FeatureField(fs[n], tags), sofar);
      FeatureFieldReads(sofar, fs[n], tags);
      Associated(fields, L.FeatureList(fs[..n]), [FeatureField(fs[n], tags)]);
      Associated(m.features, Messages(fs[..n]), [Message(fs[n].identity, tags, fs[n].kind, fs[n].geometry)]);
    }
  }

  lemma {:induction false} KeysRead(fields: seq<Field>, m: LayerMessage, keys: seq<Text>)
    requires LayerOf(fields) == Some(m)
    ensures LayerOf(fields + KeyFields(keys)) == Some(m.(keys := m.keys + keys))
    decreases |keys|
  {
    hide LayerOf;
    if keys == [] {
      assert fields + [] == fields && m.keys + keys == m.keys;
    } else {
      var n := |keys| - 1;
      KeysRead(fields, m, keys[..n]);
      LayerSnoc(fields + KeyFields(keys[..n]), KeyField(keys[n]), m.(keys := m.keys + keys[..n]));
      Associated(fields, KeyFields(keys[..n]), [KeyField(keys[n])]);
      Associated(m.keys, keys[..n], [keys[n]]);
      Snoc(keys, |keys|);
      Whole(keys);
    }
  }

  lemma {:induction false} ScalarsRead(fields: seq<Field>, m: LayerMessage, values: seq<Scalar>)
    requires LayerOf(fields) == Some(m)
    ensures LayerOf(fields + ScalarFields(values)) == Some(m.(values := m.values + values))
    decreases |values|
  {
    hide LayerOf, WithLayerField, ScalarField;
    if values == [] {
      assert fields + [] == fields && m.values + values == m.values;
    } else {
      var n := |values| - 1;
      ScalarsRead(fields, m, values[..n]);
      var sofar := m.(values := m.values + values[..n]);
      LayerSnoc(fields + ScalarFields(values[..n]), ScalarField(values[n]), sofar);
      ScalarReads(sofar, values[n]);
      Associated(fields, ScalarFields(values[..n]), [ScalarField(values[n])]);
      Associated(m.values, values[..n], [values[n]]);
      Snoc(values, |values|);
      Whole(values);
    }
  }

  lemma HeadReads(name: Text)
    ensures LayerOf([Field(15, Number(2)), Field(1, Payload(name))])
         == Some(LayerMessage(Some(name), Some(2), None, [], [], []))
  {
    var a, b := Field(15, Number(2)), Field(1, Payload(name));
    assert LayerOf([]) == Some(NOTHING);
    hide LayerOf;
    LayerSnoc([], a, NOTHING);
    assert [] + [a] == [a];
    LayerSnoc([a], b, NOTHING.(version := Some(2)));
    assert [a] + [b] == [a, b];
  }

  lemma LayerReads(name: Text, fs: seq<Feature>)
    ensures var t := ContentsOf(fs).tables;
      LayerOf(L.LayerFields(name, fs))
      == Some(LayerMessage(Some(name), Some(2), Some(4096), Messages(fs), t.keys, t.values))
  {
    hide LayerOf, ContentsOf, KeyFields, ScalarFields, L.FeatureList, Messages;
    HeadReads(name);
    var t := ContentsOf(fs).tables;
    var head := [Field(15, Number(2)), Field(1, Payload(name))];
    var end := Field(5, Number(EXTENT));
    var m := LayerMessage(Some(name), Some(2), None, [], [], []);
    FeaturesRead(head, m, fs);
    assert [] + Messages(fs) == Messages(fs) && [] + t.keys == t.keys && [] + t.values == t.values;
    var m1 := m.(features := Messages(fs));
    KeysRead(head + L.FeatureList(fs), m1, t.keys);
    var m2 := m1.(keys := t.keys);
    ScalarsRead(head + L.FeatureList(fs) + KeyFields(t.keys), m2, t.values);
    var m3 := m2.(values := t.values);
    LayerSnoc(head + L.FeatureList(fs) + KeyFields(t.keys) + ScalarFields(t.values), end, m3);
  }

  // ----- the attributes

  lemma {:induction false} AttributesOfNames(tags: seq<nat>, ps: seq<Property>, t: Tables, n: nat)
    requires Names(tags, ps, t) && n <= |ps|
    ensures Attributes(tags, t.keys, t.values, n) == Some(ps[..n])
  {
    if n > 0 {
      AttributesOfNames(tags, ps, t, n - 1);
      assert NamesOne(tags[2 * (n - 1)], tags[2 * (n - 1) + 1], ps[n - 1], t);
      hide Names;
      Snoc(ps, n);
    }
  }

  lemma {:induction false} MessagesResolve(fs: seq<Feature>, t: Tables)
    requires Grown(ContentsOf(fs).tables, t)
    ensures AllResolved(Messages(fs), t.keys, t.values) == Some(fs)
  {
    if fs != [] {
      var n := |fs| - 1;
      var before, ps := ContentsOf(fs[..n]).tables, fs[n].properties;
      var after := TablesAfter(before, ps);
      TagsName(before, ps);
      GrownTwice(before, after, t);
      MessagesResolve(fs[..n], t);
      NamesMore(Tags(before, ps), ps, after, t);
      MessageResolves(fs[n], Tags(before, ps), t);
      hide Tags, TablesAfter, Grown, Names, Resolved, ContentsOf;
      Snoc(fs, |fs|);
      Whole(fs);
      TakeAppended(Messages(fs[..n]), Message(fs[n].identity, Tags(before, ps), fs[n].kind, fs[n].geometry));
    }
  }

  lemma MessageResolves(f: Feature, tags: seq<nat>, t: Tables)
    requires Names(tags, f.properties, t)
    ensures Resolved(Message(f.identity, tags, f.kind, f.geometry), t.keys, t.values) == Some(f)
  {
    AttributesOfNames(tags, f.properties, t, |f.properties|);
    Whole(f.properties);
    assert |tags| == 2 * |f.properties|;
    hide Names, Attributes;
  }

  lemma GrownToItself(t: Tables)
    ensures Grown(t, t)
  {
  }

  /** For every sequence of features, the layer reads back whole: name, version, extent, and each feature
      with its identity, kind, geometry and properties, in order. */
  lemma LayerRoundTrip(name: Text, fs: seq<Feature>)
    ensures LayerField(name, ContentsOf(fs)).number == 3 && LayerField(name, ContentsOf(fs)).value.Payload?
    ensures DecodeLayer(LayerField(name, ContentsOf(fs)).value.data) == Some(DecodedLayer(name, 2, 4096, fs))
  {
    L.LayerBytes(name, fs);
    L.LayerWritable(name, fs);
    hide FieldsOf, LayerOf, LayerField, L.LayerFields, ContentsOf, AllResolved, Messages, EncodeAll, Writable, Grown;
    FieldsRoundTrip(L.LayerFields(name, fs));
    LayerReads(name, fs);
    GrownToItself(ContentsOf(fs).tables);
    MessagesResolve(fs, ContentsOf(fs).tables);
    NumberOfLayer(name, ContentsOf(fs));
  }

  lemma NumberOfLayer(name: Text, c: Contents)
    ensures LayerField(name, c).number == 3
  {
  }

  /** The parts of a line, read from the geometry of a feature of the decoded layer, are the parts that were
      drawn, without the empty ones. */
  lemma LinesComeBack(name: Text, fs: seq<Feature>, i: nat, parts: seq<Part>)
    requires i < |fs| && fs[i].geometry == LineCommands(parts)
    ensures LayerField(name, ContentsOf(fs)).value.Payload?
    ensures var d := DecodeLayer(LayerField(name, ContentsOf(fs)).value.data);
      && d.Some? && |d.value.features| == |fs|
      && Decode(d.value.features[i].geometry, State(Point(0, 0), [], 0, false)) == Some(Filled(parts))
  {
    LayerRoundTrip(name, fs);
    LineRoundTrip(parts);
    hide DecodeLayer, LayerField, ContentsOf, Decode, LineCommands;
  }
}
