/** The reader of label strings, and what it gives for the tiles that `Layer` writes. */
module LabelTexts {
  import opened Wrappers
  import opened Seqs
  import opened Varints
  import opened Protobuf
  import opened VectorLayer

  // ----- the reader

  /** What the reader collects from a layer; a value that is no string is None. */
  datatype Labels = Labels(keys: seq<Text>, values: seq<Option<Text>>, pairs: set<(nat, nat)>)

  const BLANK := Labels([], [], {})

  /** The first field 1 of a value; nothing after it is read. The outer None is an error. */
  function FirstText(y: Yielded): Option<Option<Text>>
    decreases |y.fields|
  {
    if y.fields == [] then (if y.whole then Some(None) else None)
    else if y.fields[0].number != 1 then FirstText(Yielded(y.fields[1..], y.whole))
    else match y.fields[0].value
      case Payload(text) => Some(Some(text))
      case _ => None
  }

  /** Tags in pairs of a key and a value; a last one alone is dropped. */
  function Pairs(tags: seq<nat>): set<(nat, nat)> {
    if |tags| < 2 then {} else Pairs(tags[2..]) + {(tags[0], tags[1])}
  }

  function PackedPairs(f: Field): Option<set<(nat, nat)>> {
    if f.number != 2 then Some({})
    else match f.value
      case Payload(data) => (match PackedAt(data, 0) case None => None case Some(tags) => Some(Pairs(tags)))
      case _ => None
  }

  function Joined(a: Option<set<(nat, nat)>>, b: Option<set<(nat, nat)>>): Option<set<(nat, nat)>> {
    if a.None? || b.None? then None else Some(a.value + b.value)
  }

  function FieldPairs(fields: seq<Field>): Option<set<(nat, nat)>> {
    if fields == [] then Some({}) else
      var n := |fields| - 1;
      Joined(FieldPairs(fields[..n]), PackedPairs(fields[n]))
  }

  /** The pairs of a feature. */
  function FeaturePairs(data: seq<byte>): Option<set<(nat, nat)>> {
    var y := FieldsOf(data);
    if y.whole then FieldPairs(y.fields) else None
  }

  function ReadField(l: Labels, f: Field): Option<Labels> {
    if f.number == 3 then
      match f.value
      case Payload(key) => Some(Labels(l.keys + [key], l.values, l.pairs))
      case _ => None
    else if f.number == 4 then
      match f.value
      case Payload(data) =>
        (match FirstText(FieldsOf(data))
         case None => None
         case Some(text) => Some(Labels(l.keys, l.values + [text], l.pairs)))
      case _ => None
    else if f.number == 2 then
      match f.value
      case Payload(data) =>
        (match FeaturePairs(data)
         case None => None
         case Some(pairs) => Some(Labels(l.keys, l.values, l.pairs + pairs)))
      case _ => None
    else Some(l)
  }

  function ReadFields(fields: seq<Field>): Option<Labels> {
    if fields == [] then Some(BLANK) else
      var n := |fields| - 1;
      match ReadFields(fields[..n])
      case None => None
      case Some(l) => ReadField(l, fields[n])
  }

  /** Whether a pair names strings that the reader can look up; a value is looked up only for a wanted key. */
  predicate InTables(l: Labels, q: (nat, nat), wanted: set<Text>) {
    q.0 < |l.keys| && (l.keys[q.0] in wanted ==> q.1 < |l.values|)
  }

  predicate Shown(l: Labels, q: (nat, nat), wanted: set<Text>) {
    && q.0 < |l.keys| && l.keys[q.0] in wanted
    && q.1 < |l.values| && l.values[q.1].Some? && l.values[q.1].value != []
  }

  function TextOf(l: Labels, q: (nat, nat)): Text {
    if q.1 < |l.values| && l.values[q.1].Some? then l.values[q.1].value else []
  }

  function Texts(l: Labels, wanted: set<Text>): Option<set<Text>> {
    if forall q | q in l.pairs :: InTables(l, q, wanted)
    then Some(set q | q in l.pairs && Shown(l, q, wanted) :: TextOf(l, q)) else None
  }

  /** The strings of one layer. */
  function LayerTexts(data: seq<byte>, wanted: set<Text>): Option<set<Text>> {
    var y := FieldsOf(data);
    if !y.whole then None else
      match ReadFields(y.fields)
      case None => None
      case Some(l) => Texts(l, wanted)
  }

  /** The strings of each layer of a tile. */
  function TileTexts(fields: seq<Field>, wanted: set<Text>): Option<seq<set<Text>>> {
    if fields == [] then Some([]) else
      var n := |fields| - 1;
      match TileTexts(fields[..n], wanted)
      case None => None
      case Some(texts) =>
        if fields[n].number != 3 then Some(texts)
        else match fields[n].value
          case Payload(layer) =>
            (match LayerTexts(layer, wanted) case None => None case Some(t) => Some(texts + [t]))
          case _ => None
  }

  function TextsOfTile(tile: seq<byte>, wanted: set<Text>): Option<seq<set<Text>>> {
    var y := FieldsOf(tile);
    if y.whole then TileTexts(y.fields, wanted) else None
  }

  // ----- the reading loops

  lemma {:induction false} PairsFail(fields: seq<Field>, m: nat)
    requires m <= |fields| && FieldPairs(fields[..m]) == None
    ensures FieldPairs(fields) == None
    decreases |fields|
  {
    if m < |fields| {
      TakeTake(fields, m, |fields| - 1);
      PairsFail(fields[..|fields| - 1], m);
    } else {
      Whole(fields);
    }
  }

  method ReadFeature(data: seq<byte>) returns (r: Option<set<(nat, nat)>>)
    ensures r == FeaturePairs(data)
  {
    hide PackedPairs;
    var y := Fields(data);
    var pairs := {};
    for i := 0 to |y.fields|
      invariant FieldPairs(y.fields[..i]) == Some(pairs)
    {
      Snoc(y.fields, i + 1);
      TakeTake(y.fields, i, i + 1);
      var more := PackedField(y.fields[i]);
      if more.None? {
        PairsFail(y.fields, i + 1);
        return None;
      }
      pairs := pairs + more.value;
    }
    Whole(y.fields);
    return if y.whole then Some(pairs) else None;
  }

  method PackedField(f: Field) returns (r: Option<set<(nat, nat)>>)
    ensures r == PackedPairs(f)
  {
    if f.number != 2 { return Some({}); }
    if !f.value.Payload? { return None; }
    var tags := Packed(f.value.data);
    if tags.None? { return None; }
    return Some(Pairs(tags.value));
  }

  lemma {:induction false} ReadFails(fields: seq<Field>, m: nat)
    requires m <= |fields| && ReadFields(fields[..m]) == None
    ensures ReadFields(fields) == None
    decreases |fields|
  {
    if m < |fields| {
      TakeTake(fields, m, |fields| - 1);
      ReadFails(fields[..|fields| - 1], m);
    } else {
      Whole(fields);
    }
  }

  method ReadOne(l: Labels, f: Field) returns (r: Option<Labels>)
    ensures r == ReadField(l, f)
  {
    hide FirstText, FeaturePairs, FieldsOf;
    if f.number !in {2, 3, 4} { return Some(l); }
    if !f.value.Payload? { return None; }
    var data := f.value.data;
    if f.number == 3 { return Some(Labels(l.keys + [data], l.values, l.pairs)); }
    if f.number == 4 {
      var y := Fields(data);
      var text := FirstText(y);
      return if text.None? then None else Some(Labels(l.keys, l.values + [text.value], l.pairs));
    }
    var pairs := ReadFeature(data);
    return if pairs.None? then None else Some(Labels(l.keys, l.values, l.pairs + pairs.value));
  }

  method ReadLayer(data: seq<byte>, wanted: set<Text>) returns (r: Option<set<Text>>)
    ensures r == LayerTexts(data, wanted)
  {
    hide ReadField, Texts, FieldsOf;
    var y := Fields(data);
    var l := BLANK;
    for i := 0 to |y.fields|
      invariant ReadFields(y.fields[..i]) == Some(l)
    {
      Snoc(y.fields, i + 1);
      TakeTake(y.fields, i, i + 1);
      var next := ReadOne(l, y.fields[i]);
      if next.None? {
        ReadFails(y.fields, i + 1);
        return None;
      }
      l := next.value;
    }
    Whole(y.fields);
    return if y.whole then Texts(l, wanted) else None;
  }

  lemma {:induction false} TileFails(fields: seq<Field>, m: nat, wanted: set<Text>)
    requires m <= |fields| && TileTexts(fields[..m], wanted) == None
    ensures TileTexts(fields, wanted) == None
    decreases |fields|
  {
    hide LayerTexts;
    if m < |fields| {
      TakeTake(fields, m, |fields| - 1);
      TileFails(fields[..|fields| - 1], m, wanted);
    } else {
      Whole(fields);
    }
  }

  /** The strings of a tile, a set for each layer. */
  method ReadTile(tile: seq<byte>, wanted: set<Text>) returns (r: Option<seq<set<Text>>>)
    ensures r == TextsOfTile(tile, wanted)
  {
    hide LayerTexts, FieldsOf;
    var y := Fields(tile);
    var texts := [];
    for i := 0 to |y.fields|
      invariant TileTexts(y.fields[..i], wanted) == Some(texts)
    {
      Snoc(y.fields, i + 1);
      TakeTake(y.fields, i, i + 1);
      var f := y.fields[i];
      if f.number == 3 {
        var layer := None;
        if f.value.Payload? { layer := ReadLayer(f.value.data, wanted); }
        if layer.None? {
          TileFails(y.fields, i + 1, wanted);
          return None;
        }
        texts := texts + [layer.value];
      }
    }
    Whole(y.fields);
    return if y.whole then Some(texts) else None;
  }

  // ----- reading back the parts of a layer

  lemma ReadSnoc(fields: seq<Field>, f: Field, l: Labels)
    requires ReadFields(fields) == Some(l)
    ensures ReadFields(fields + [f]) == ReadField(l, f)
  {
    hide ReadField;
    TakeAppended(fields, f);
  }

  lemma {:induction false} ReadKeys(fields: seq<Field>, l: Labels, keys: seq<Text>)
    requires ReadFields(fields) == Some(l)
    ensures ReadFields(fields + KeyFields(keys)) == Some(Labels(l.keys + keys, l.values, l.pairs))
    decreases |keys|
  {
    hide ReadFields;
    if keys == [] {
      assert fields + [] == fields && l.keys + keys == l.keys;
    } else {
      var n := |keys| - 1;
      ReadKeys(fields, l, keys[..n]);
      var m := Labels(l.keys + keys[..n], l.values, l.pairs);
      ReadSnoc(fields + KeyFields(keys[..n]), KeyField(keys[n]), m);
      Associated(fields, KeyFields(keys[..n]), [KeyField(keys[n])]);
      Associated(l.keys, keys[..n], [keys[n]]);
      Snoc(keys, |keys|);
      Whole(keys);
    }
  }

  function Stringly(values: seq<Scalar>): seq<Option<Text>> {
    if values == [] then [] else
      var n := |values| - 1;
      Stringly(values[..n]) + [if values[n].Str? then Some(values[n].text) else None]
  }

  lemma {:induction false} StringlyAt(values: seq<Scalar>, i: nat)
    requires i < |values|
    ensures |Stringly(values)| == |values|
    ensures Stringly(values)[i] == if values[i].Str? then Some(values[i].text) else None
  {
    var n := |values| - 1;
    if i < n { StringlyAt(values[..n], i); }
    StringlyLength(values[..n]);
  }

  lemma {:induction false} StringlyLength(values: seq<Scalar>)
    ensures |Stringly(values)| == |values|
  {
    if values != [] { StringlyLength(values[..|values| - 1]); }
  }

  lemma FirstOfOne(f: Field)
    requires f.value != Skipped && (f.number == 1 ==> f.value.Payload?)
    ensures FirstText(FieldsOf(Encode(f))) == Some(if f.number == 1 then Some(f.value.data) else None)
  {
    EncodeOne(f);
    FieldsRoundTrip([f]);
    hide FieldsOf, Encode;
    var y := Yielded([f], true);
    assert y.fields[0] == f && y.fields[1..] == [];
    assert FirstText(Yielded([], true)) == Some(None);
  }

  /** A value reads back as its string, or as none. */
  lemma ReadScalar(v: Scalar, l: Labels)
    ensures ReadField(l, ScalarField(v))
         == Some(Labels(l.keys, l.values + [if v.Str? then Some(v.text) else None], l.pairs))
  {
    hide FieldsOf, Encode, FirstText;
    FirstOfOne(if v.Str? then Field(1, Payload(v.text)) else Field(5, Number(v.n)));
  }

  lemma {:induction false} ReadScalars(fields: seq<Field>, l: Labels, values: seq<Scalar>)
    requires ReadFields(fields) == Some(l)
    ensures ReadFields(fields + ScalarFields(values)) == Some(Labels(l.keys, l.values + Stringly(values), l.pairs))
    decreases |values|
  {
    hide ReadFields, ReadField, ScalarField;
    if values == [] {
      assert fields + [] == fields && l.values + [] == l.values;
    } else {
      var n := |values| - 1;
      ReadScalars(fields, l, values[..n]);
      var m := Labels(l.keys, l.values + Stringly(values[..n]), l.pairs);
      ReadSnoc(fields + ScalarFields(values[..n]), ScalarField(values[n]), m);
      ReadScalar(values[n], m);
      Associated(fields, ScalarFields(values[..n]), [ScalarField(values[n])]);
      Associated(l.values, Stringly(values[..n]), [if values[n].Str? then Some(values[n].text) else None]);
    }
  }

  /** The pairs of a feature read back as its tags. */
  lemma ReadFeatureField(f: Feature, tags: seq<nat>, l: Labels)
    ensures ReadField(l, FeatureField(f, tags)) == Some(Labels(l.keys, l.values, l.pairs + Pairs(tags)))
  {
    hide FeaturePairs, EncodeAll, FeatureFields;
    FeatureRoundTrip(f, tags);
  }

  lemma FeatureRoundTrip(f: Feature, tags: seq<nat>)
    ensures FeaturePairs(EncodeAll(FeatureFields(f, tags))) == Some(Pairs(tags))
  {
    var fields := FeatureFields(f, tags);
    assert Writable(fields);
    hide FieldsOf, FieldPairs, FeatureFields, EncodeAll, Writable;
    FieldsRoundTrip(fields);
    FeatureFieldPairs(f, tags);
  }

  lemma PairsSnoc(fields: seq<Field>, f: Field)
    ensures FieldPairs(fields + [f]) == Joined(FieldPairs(fields), PackedPairs(f))
  {
    hide PackedPairs;
    TakeAppended(fields, f);
  }

  lemma FeatureFieldPairs(f: Feature, tags: seq<nat>)
    ensures FieldPairs(FeatureFields(f, tags)) == Some(Pairs(tags))
  {
    PackedRoundTrip(tags);
    var a, b, c, d := Field(1, Number(f.identity)), Field(2, Payload(Join(tags))),
                      Field(3, Number(f.kind)), Field(4, Payload(Join(f.geometry)));
    assert FieldPairs([]) == Some({});
    hide Join, PackedAt, Pairs, FieldPairs;
    PairsSnoc([], a);
    PairsSnoc([] + [a], b);
    PairsSnoc([] + [a] + [b], c);
    PairsSnoc([] + [a] + [b] + [c], d);
    assert [] + [a] + [b] + [c] + [d] == [a, b, c, d];
    assert {} + {} + Pairs(tags) + {} + {} == Pairs(tags);
  }

  // ----- all features

  function FeatureList(fs: seq<Feature>): seq<Field> {
    if fs == [] then [] else
      var n := |fs| - 1;
      FeatureList(fs[..n]) + [FeatureField(fs[n], Tags(ContentsOf(fs[..n]).tables, fs[n].properties))]
  }

  function AllPairs(fs: seq<Feature>): set<(nat, nat)> {
    if fs == [] then {} else
      var n := |fs| - 1;
      AllPairs(fs[..n]) + Pairs(Tags(ContentsOf(fs[..n]).tables, fs[n].properties))
  }

  function AllProperties(fs: seq<Feature>): seq<Property> {
    if fs == [] then [] else AllProperties(fs[..|fs| - 1]) + fs[|fs| - 1].properties
  }

  lemma {:induction false} FeatureBytes(fs: seq<Feature>)
    ensures ContentsOf(fs).features == EncodeAll(FeatureList(fs))
  {
    hide FeatureField, Tags, TablesAfter, Encode;
    if fs != [] {
      var n := |fs| - 1;
      FeatureBytes(fs[..n]);
      EncodeSnoc(FeatureList(fs[..n]), FeatureField(fs[n], Tags(ContentsOf(fs[..n]).tables, fs[n].properties)));
    }
  }

  lemma {:induction false} ReadFeatures(fields: seq<Field>, fs: seq<Feature>)
    requires ReadFields(fields) == Some(BLANK)
    ensures ReadFields(fields + FeatureList(fs)) == Some(Labels([], [], AllPairs(fs)))
    decreases |fs|
  {
    hide ReadFields, ReadField, FeatureField, Tags, ContentsOf, Pairs;
    if fs == [] {
      assert fields + [] == fields;
    } else {
      var n := |fs| - 1;
      ReadFeatures(fields, fs[..n]);
      var tags, m := Tags(ContentsOf(fs[..n]).tables, fs[n].properties), Labels([], [], AllPairs(fs[..n]));
      ReadSnoc(fields + FeatureList(fs[..n]), FeatureField(fs[n], tags), m);
      ReadFeatureField(fs[n], tags, m);
      Associated(fields, FeatureList(fs[..n]), [FeatureField(fs[n], tags)]);
    }
  }

  // ----- pairs name properties

  /** Each pair names a property, and each property has a pair that names it. */
  ghost predicate Covers(pairs: set<(nat, nat)>, ps: seq<Property>, t: Tables) {
    && (forall q | q in pairs :: NamesSome(q, ps, t))
    && (forall p | p in ps :: Named(p, pairs, t))
  }

  ghost predicate NamesSome(q: (nat, nat), ps: seq<Property>, t: Tables) {
    exists p | p in ps :: NamesOne(q.0, q.1, p, t)
  }

  ghost predicate Named(p: Property, pairs: set<(nat, nat)>, t: Tables) {
    exists q | q in pairs :: NamesOne(q.0, q.1, p, t)
  }

  lemma CoversBoth(a: set<(nat, nat)>, b: set<(nat, nat)>, ps: seq<Property>, qs: seq<Property>, t: Tables)
    requires Covers(a, ps, t) && Covers(b, qs, t)
    ensures Covers(a + b, ps + qs, t)
  {
    hide NamesSome, Named;
    forall q | q in a + b ensures NamesSome(q, ps + qs, t) { NamesEither(q, ps, qs, t); }
    forall p | p in ps + qs ensures Named(p, a + b, t) { NamedByEither(p, a, b, t); }
  }

  lemma NamesEither(q: (nat, nat), ps: seq<Property>, qs: seq<Property>, t: Tables)
    ensures NamesSome(q, ps, t) || NamesSome(q, qs, t) ==> NamesSome(q, ps + qs, t)
  {
    hide NamesOne;
    if NamesSome(q, ps, t) {
      var p :| p in ps && NamesOne(q.0, q.1, p, t);
      assert p in ps + qs;
    } else if NamesSome(q, qs, t) {
      var p :| p in qs && NamesOne(q.0, q.1, p, t);
      assert p in ps + qs;
    }
  }

  lemma NamedByEither(p: Property, a: set<(nat, nat)>, b: set<(nat, nat)>, t: Tables)
    ensures Named(p, a, t) || Named(p, b, t) ==> Named(p, a + b, t)
  {
    hide NamesOne;
    if Named(p, a, t) {
      var q: (nat, nat) :| q in a && NamesOne(q.0, q.1, p, t);
      assert q in a + b;
    } else if Named(p, b, t) {
      var q: (nat, nat) :| q in b && NamesOne(q.0, q.1, p, t);
      assert q in a + b;
    }
  }

  lemma CoversMore(pairs: set<(nat, nat)>, ps: seq<Property>, t: Tables, u: Tables)
    requires Covers(pairs, ps, t) && Grown(t, u)
    ensures Covers(pairs, ps, u)
  {
    forall k: nat, v: nat, p | NamesOne(k, v, p, t) ensures NamesOne(k, v, p, u) {
      assert u.keys[k] == u.keys[..|t.keys|][k] && u.values[v] == u.values[..|t.values|][v];
    }
    hide NamesOne, Grown;
    forall q | q in pairs ensures NamesSome(q, ps, u) {
      var p :| p in ps && NamesOne(q.0, q.1, p, t);
      assert NamesOne(q.0, q.1, p, u);
    }
    forall p | p in ps ensures Named(p, pairs, u) {
      var q: (nat, nat) :| q in pairs && NamesOne(q.0, q.1, p, t);
      assert NamesOne(q.0, q.1, p, u);
    }
  }

  lemma {:induction false} TagsCover(tags: seq<nat>, ps: seq<Property>, t: Tables)
    requires Names(tags, ps, t)
    ensures Covers(Pairs(tags), ps, t)
    decreases |tags|
  {
    hide NamesOne, Covers;
    if ps == [] {
      CoversNone(t);
    } else {
      assert NamesOne(tags[2 * 0], tags[2 * 0 + 1], ps[0], t);
      NamesRest(tags, ps, t);
      TagsCover(tags[2..], ps[1..], t);
      var q := (tags[0], tags[1]);
      hide Names;
      CoversOne(q, ps[0], t);
      CoversBoth({q}, Pairs(tags[2..]), [ps[0]], ps[1..], t);
      assert ps == [ps[0]] + ps[1..];
      assert Pairs(tags) == {q} + Pairs(tags[2..]);
    }
  }

  lemma CoversNone(t: Tables)
    ensures Covers({}, [], t)
  {
  }

  lemma CoversOne(q: (nat, nat), p: Property, t: Tables)
    requires NamesOne(q.0, q.1, p, t)
    ensures Covers({q}, [p], t)
  {
    hide NamesOne;
    assert p in [p] && q in {q};
  }

  lemma NamesRest(tags: seq<nat>, ps: seq<Property>, t: Tables)
    requires Names(tags, ps, t) && ps != []
    ensures Names(tags[2..], ps[1..], t)
  {
    hide NamesOne;
    forall i | 0 <= i < |ps[1..]|
      ensures NamesOne(tags[2..][2 * i], tags[2..][2 * i + 1], ps[1..][i], t)
    {
      assert NamesOne(tags[2 * (i + 1)], tags[2 * (i + 1) + 1], ps[i + 1], t);
    }
  }

  lemma {:induction false} FeaturesCover(fs: seq<Feature>)
    ensures Covers(AllPairs(fs), AllProperties(fs), ContentsOf(fs).tables)
  {
    if fs != [] {
      var n := |fs| - 1;
      var before, ps := ContentsOf(fs[..n]).tables, fs[n].properties;
      var after, tags := TablesAfter(before, ps), Tags(before, ps);
      FeaturesCover(fs[..n]);
      TagsName(before, ps);
      TagsCover(tags, ps, after);
      CoversMore(AllPairs(fs[..n]), AllProperties(fs[..n]), before, after);
      CoversBoth(AllPairs(fs[..n]), Pairs(tags), AllProperties(fs[..n]), ps, after);
      hide Covers, Pairs, Tags, TablesAfter, Encode, FeatureField;
    }
  }

  // ----- the strings of a layer

  /** The string of some property with a wanted key. */
  ghost predicate Asked(p: Property, wanted: set<Text>, text: Text) {
    p.key in wanted && p.value == Str(text) && text != []
  }

  ghost predicate Exactly(texts: set<Text>, ps: seq<Property>, wanted: set<Text>) {
    forall text: Text :: text in texts <==> exists p | p in ps :: Asked(p, wanted, text)
  }

  lemma NamedText(q: (nat, nat), p: Property, t: Tables, l: Labels, wanted: set<Text>, text: Text)
    requires NamesOne(q.0, q.1, p, t) && l.keys == t.keys && l.values == Stringly(t.values)
    ensures InTables(l, q, wanted)
    ensures Asked(p, wanted, text) <==> Shown(l, q, wanted) && TextOf(l, q) == text
  {
    StringlyAt(t.values, q.1);
    hide Stringly;
  }

  lemma CoveredTexts(pairs: set<(nat, nat)>, ps: seq<Property>, t: Tables, wanted: set<Text>)
    requires Covers(pairs, ps, t)
    ensures var r := Texts(Labels(t.keys, Stringly(t.values), pairs), wanted);
      r.Some? && Exactly(r.value, ps, wanted)
  {
    hide NamesOne, Stringly, InTables, Shown, TextOf, Asked;
    var l := Labels(t.keys, Stringly(t.values), pairs);
    forall q | q in pairs ensures InTables(l, q, wanted) {
      assert NamesSome(q, ps, t);
      var p :| p in ps && NamesOne(q.0, q.1, p, t);
      NamedText(q, p, t, l, wanted, []);
    }
    var texts := Texts(l, wanted).value;
    forall text: Text ensures text in texts <==> exists p | p in ps :: Asked(p, wanted, text) {
      if text in texts { ShownIsAsked(l, ps, t, wanted, text); }
      if exists p | p in ps :: Asked(p, wanted, text) { AskedIsShown(l, ps, t, wanted, text); }
    }
  }

  lemma ShownIsAsked(l: Labels, ps: seq<Property>, t: Tables, wanted: set<Text>, text: Text)
    requires Covers(l.pairs, ps, t) && l.keys == t.keys && l.values == Stringly(t.values)
    requires exists q | q in l.pairs :: Shown(l, q, wanted) && TextOf(l, q) == text
    ensures exists p | p in ps :: Asked(p, wanted, text)
  {
    hide NamesOne, Stringly, Shown, TextOf, Asked;
    var q :| q in l.pairs && Shown(l, q, wanted) && TextOf(l, q) == text;
    assert NamesSome(q, ps, t);
    var p :| p in ps && NamesOne(q.0, q.1, p, t);
    NamedText(q, p, t, l, wanted, text);
  }

  lemma AskedIsShown(l: Labels, ps: seq<Property>, t: Tables, wanted: set<Text>, text: Text)
    requires Covers(l.pairs, ps, t) && l.keys == t.keys && l.values == Stringly(t.values)
    requires exists p | p in ps :: Asked(p, wanted, text)
    ensures exists q | q in l.pairs :: Shown(l, q, wanted) && TextOf(l, q) == text
  {
    hide NamesOne, Stringly, Shown, TextOf, Asked;
    var p :| p in ps && Asked(p, wanted, text);
    assert Named(p, l.pairs, t);
    var q: (nat, nat) :| q in l.pairs && NamesOne(q.0, q.1, p, t);
    NamedText(q, p, t, l, wanted, text);
  }

  /** The fields of an encoded layer. */
  function LayerFields(name: Text, fs: seq<Feature>): seq<Field> {
    var t := ContentsOf(fs).tables;
    [Field(15, Number(2)), Field(1, Payload(name))] + FeatureList(fs) + KeyFields(t.keys) + ScalarFields(t.values)
    + [Field(5, Number(EXTENT))]
  }

  lemma LayerBytes(name: Text, fs: seq<Feature>)
    ensures LayerField(name, ContentsOf(fs)).value == Payload(EncodeAll(LayerFields(name, fs)))
  {
    hide Encode, ContentsOf;
    var a, b, c := Field(15, Number(2)), Field(1, Payload(name)), Field(5, Number(EXTENT));
    var t := ContentsOf(fs).tables;
    EncodeOne(a);
    EncodeSnoc([a], b);
    assert [a] + [b] == [a, b];
    FeatureBytes(fs);
    EncodeAppended([a, b], FeatureList(fs));
    EncodeAppended([a, b] + FeatureList(fs), KeyFields(t.keys));
    EncodeAppended([a, b] + FeatureList(fs) + KeyFields(t.keys), ScalarFields(t.values));
    EncodeSnoc([a, b] + FeatureList(fs) + KeyFields(t.keys) + ScalarFields(t.values), c);
    hide EncodeAll, FeatureList, KeyFields, ScalarFields;
  }

  lemma LayerWritable(name: Text, fs: seq<Feature>)
    ensures Writable(LayerFields(name, fs))
  {
    WritableFeatures(fs);
    WritableKeys(ContentsOf(fs).tables.keys);
    WritableScalars(ContentsOf(fs).tables.values);
    hide FeatureList, KeyFields, ScalarFields, ContentsOf;
  }

  lemma {:induction false} WritableFeatures(fs: seq<Feature>)
    ensures Writable(FeatureList(fs))
  {
    hide Tags, ContentsOf, EncodeAll;
    if fs != [] { WritableFeatures(fs[..|fs| - 1]); }
  }

  lemma {:induction false} WritableKeys(keys: seq<Text>)
    ensures Writable(KeyFields(keys))
  {
    if keys != [] { WritableKeys(keys[..|keys| - 1]); }
  }

  lemma {:induction false} WritableScalars(values: seq<Scalar>)
    ensures Writable(ScalarFields(values))
  {
    hide Encode;
    if values != [] { WritableScalars(values[..|values| - 1]); }
  }

  lemma LayerReads(name: Text, fs: seq<Feature>)
    ensures var t := ContentsOf(fs).tables;
      ReadFields(LayerFields(name, fs)) == Some(Labels(t.keys, Stringly(t.values), AllPairs(fs)))
  {
    var a, b, c := Field(15, Number(2)), Field(1, Payload(name)), Field(5, Number(EXTENT));
    hide ReadFields, ReadField, ContentsOf, KeyFields, ScalarFields, FeatureList, AllPairs, Stringly;
    ReadHead(a, b);
    var t := ContentsOf(fs).tables;
    var features := [a, b] + FeatureList(fs);
    ReadFeatures([a, b], fs);
    ReadKeys(features, Labels([], [], AllPairs(fs)), t.keys);
    ReadScalars(features + KeyFields(t.keys), Labels([] + t.keys, [], AllPairs(fs)), t.values);
    assert [] + t.keys == t.keys && [] + Stringly(t.values) == Stringly(t.values);
    var all := Labels(t.keys, Stringly(t.values), AllPairs(fs));
    ReadSnoc(features + KeyFields(t.keys) + ScalarFields(t.values), c, all);
    ReadNothing(all, c);
  }

  lemma ReadNothing(l: Labels, f: Field)
    requires f.number !in {2, 3, 4}
    ensures ReadField(l, f) == Some(l)
  {
  }

  lemma ReadHead(a: Field, b: Field)
    requires a.number !in {2, 3, 4} && b.number !in {2, 3, 4}
    ensures ReadFields([a, b]) == Some(BLANK)
  {
    assert ReadFields([]) == Some(BLANK);
    hide ReadFields, ReadField;
    ReadNothing(BLANK, a);
    ReadNothing(BLANK, b);
    ReadSnoc([], a, BLANK);
    assert [] + [a] == [a];
    ReadSnoc([a], b, BLANK);
    assert [a] + [b] == [a, b];
  }

  /** For every sequence of features, the reader gives exactly the non-empty strings of the wanted keys. */
  lemma LayerRoundTrip(name: Text, fs: seq<Feature>, wanted: set<Text>)
    ensures LayerField(name, ContentsOf(fs)).value.Payload?
    ensures var r := LayerTexts(LayerField(name, ContentsOf(fs)).value.data, wanted);
      r.Some? && Exactly(r.value, AllProperties(fs), wanted)
  {
    LayerBytes(name, fs);
    LayerWritable(name, fs);
    FieldsRoundTrip(LayerFields(name, fs));
    LayerReads(name, fs);
    FeaturesCover(fs);
    CoveredTexts(AllPairs(fs), AllProperties(fs), ContentsOf(fs).tables, wanted);
    hide FieldsOf, ReadFields, LayerField, LayerFields, ContentsOf, Texts, Exactly, Covers, AllPairs, AllProperties;
  }

  /** The properties are those of the features. */
  lemma {:induction false} PropertiesOfFeatures(fs: seq<Feature>, p: Property)
    ensures p in AllProperties(fs) <==> exists f | f in fs :: p in f.properties
  {
    if fs != [] {
      var n := |fs| - 1;
      PropertiesOfFeatures(fs[..n], p);
      Snoc(fs, |fs|);
      Whole(fs);
      assert forall f :: f in fs <==> f in fs[..n] || f == fs[n];
    }
  }

  // ----- a tile of layers

  datatype Source = Source(name: Text, features: seq<Feature>)

  function TileFields(layers: seq<Source>): seq<Field> {
    if layers == [] then [] else
      var n := |layers| - 1;
      TileFields(layers[..n]) + [LayerField(layers[n].name, ContentsOf(layers[n].features))]
  }

  lemma {:induction false} TileFieldsRead(layers: seq<Source>, wanted: set<Text>)
    ensures Writable(TileFields(layers))
    ensures var r := TileTexts(TileFields(layers), wanted);
      r.Some? && |r.value| == |layers|
      && forall i | 0 <= i < |layers| :: Exactly(r.value[i], AllProperties(layers[i].features), wanted)
  {
    hide LayerTexts, Exactly, AllProperties, LayerField, ContentsOf;
    if layers != [] {
      var n := |layers| - 1;
      TileFieldsRead(layers[..n], wanted);
      LayerRoundTrip(layers[n].name, layers[n].features, wanted);
      LayerNumber(layers[n].name, ContentsOf(layers[n].features));
      TakeAppended(TileFields(layers[..n]), LayerField(layers[n].name, ContentsOf(layers[n].features)));
    }
  }

  lemma LayerNumber(name: Text, c: Contents)
    ensures LayerField(name, c).number == 3
  {
  }

  /** A tile of any layers reads back as the strings of each, in order. */
  lemma TileRoundTrip(layers: seq<Source>, wanted: set<Text>)
    ensures var r := TextsOfTile(EncodeAll(TileFields(layers)), wanted);
      r.Some? && |r.value| == |layers|
      && forall i | 0 <= i < |layers| :: Exactly(r.value[i], AllProperties(layers[i].features), wanted)
  {
    TileFieldsRead(layers, wanted);
    hide TileFields, TileTexts, Exactly, AllProperties, FieldsOf, EncodeAll, Writable;
    FieldsRoundTrip(TileFields(layers));
  }
}
