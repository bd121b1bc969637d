/** The cache of decoded leaf directories of a PMTiles archive: at most four, by leaf offset, the most
    recently used one last. */
module LeafCache {
  import opened PMTilesDirectory

  datatype Error = BadUrl | CannotParse | TooLong | CannotDecode

  datatype Result<T> = Ok(value: T) | Err(error: Error)

  const CAPACITY := 4

  datatype Item = Item(offset: int, entries: seq<Entry>)

  type Cache = seq<Item>

  /** The decoder of the leaf with an offset and a length. */
  type Leaf = (int, int) -> Result<seq<Entry>>

  datatype Pointer = Pointer(offset: int, length: int)

  function Find(cache: Cache, offset: int): (i: nat)
    ensures i <= |cache|
    ensures i < |cache| ==> cache[i].offset == offset
    ensures forall j | 0 <= j < i :: cache[j].offset != offset
  {
    if cache == [] || cache[0].offset == offset then 0 else 1 + Find(cache[1..], offset)
  }

  /** The directory that a request gets. */
  function Served(cache: Cache, leaf: Leaf, p: Pointer): Result<seq<Entry>> {
    var i := Find(cache, p.offset);
    if i < |cache| then Ok(cache[i].entries) else leaf(p.offset, p.length)
  }

  /** The cache after a request. */
  function Next(cache: Cache, leaf: Leaf, p: Pointer): Cache {
    var i, d := Find(cache, p.offset), leaf(p.offset, p.length);
    if i < |cache| then cache[..i] + cache[i + 1..] + [cache[i]]
    else if d.Err? then cache
    else Added(cache, Item(p.offset, d.value))
  }

  /** The cache with a leaf more, without the oldest one where there are too many. */
  function Added(cache: Cache, item: Item): Cache {
    var all := cache + [item];
    if |all| > CAPACITY then all[1..] else all
  }

  ghost predicate Distinct(cache: Cache) {
    forall i, j | 0 <= i < j < |cache| :: cache[i].offset != cache[j].offset
  }

  /** Every item is the true decode of a pointer. */
  ghost predicate True(cache: Cache, leaf: Leaf, pointers: iset<Pointer>) {
    && |cache| <= CAPACITY && Distinct(cache)
    && forall i | 0 <= i < |cache| :: IsDecodeOf(cache[i], leaf, pointers)
  }

  ghost predicate IsDecodeOf(item: Item, leaf: Leaf, pointers: iset<Pointer>) {
    exists p | p in pointers :: p.offset == item.offset && leaf(p.offset, p.length) == Ok(item.entries)
  }

  /** Pointers with one offset decode alike, unless neither decodes. */
  ghost predicate Agree(leaf: Leaf, pointers: iset<Pointer>) {
    forall p, q | p in pointers && q in pointers && p.offset == q.offset && leaf(p.offset, p.length).Ok? ::
      leaf(q.offset, q.length) == leaf(p.offset, p.length)
  }

  lemma ServedIsTrue(cache: Cache, leaf: Leaf, pointers: iset<Pointer>, p: Pointer)
    requires Agree(leaf, pointers) && True(cache, leaf, pointers) && p in pointers
    ensures Served(cache, leaf, p) == leaf(p.offset, p.length)
  {
    var i := Find(cache, p.offset);
    if i < |cache| {
      assert IsDecodeOf(cache[i], leaf, pointers);
      var q :| q in pointers && q.offset == cache[i].offset && leaf(q.offset, q.length) == Ok(cache[i].entries);
    }
  }

  /** A request keeps the cache true, of at most four distinct offsets. */
  lemma NextIsTrue(cache: Cache, leaf: Leaf, pointers: iset<Pointer>, p: Pointer)
    requires True(cache, leaf, pointers) && p in pointers
    ensures True(Next(cache, leaf, p), leaf, pointers)
  {
    var i, d := Find(cache, p.offset), leaf(p.offset, p.length);
    if i < |cache| {
      MovedIsTrue(cache, leaf, pointers, i);
    } else if d.Ok? {
      assert IsDecodeOf(Item(p.offset, d.value), leaf, pointers);
    }
  }

  lemma MovedIsTrue(cache: Cache, leaf: Leaf, pointers: iset<Pointer>, i: nat)
    requires True(cache, leaf, pointers) && i < |cache|
    ensures True(cache[..i] + cache[i + 1..] + [cache[i]], leaf, pointers)
  {
  }

  // ----- whole runs

  /** The answers to a run of requests. */
  function Answers(cache: Cache, leaf: Leaf, requests: seq<Pointer>): (r: seq<Result<seq<Entry>>>)
    ensures |r| == |requests|
    decreases requests
  {
    if requests == [] then []
    else [Served(cache, leaf, requests[0])] + Answers(Next(cache, leaf, requests[0]), leaf, requests[1..])
  }

  ghost predicate Truthful(leaf: Leaf, requests: seq<Pointer>) {
    forall i | 0 <= i < |requests| ::
      Answers([], leaf, requests)[i] == leaf(requests[i].offset, requests[i].length)
  }

  lemma {:induction false} AnswersAreTrue(cache: Cache, leaf: Leaf, pointers: iset<Pointer>, requests: seq<Pointer>)
    requires Agree(leaf, pointers) && True(cache, leaf, pointers)
    requires forall i | 0 <= i < |requests| :: requests[i] in pointers
    ensures forall i | 0 <= i < |requests| ::
              Answers(cache, leaf, requests)[i] == leaf(requests[i].offset, requests[i].length)
    decreases requests
  {
    hide Agree, True, Served, Next;
    if requests != [] {
      var p, rest := requests[0], requests[1..];
      ServedIsTrue(cache, leaf, pointers, p);
      NextIsTrue(cache, leaf, pointers, p);
      AnswersAreTrue(Next(cache, leaf, p), leaf, pointers, rest);
      forall i | 0 <= i < |requests|
        ensures Answers(cache, leaf, requests)[i] == leaf(requests[i].offset, requests[i].length)
      {
        assert i > 0 ==> requests[i] == rest[i - 1];
      }
    }
  }

  /** The cache looks only at the offset, so the answers of every run are true exactly when pointers with
      one offset decode alike. */
  lemma TruthfulIffAgree(leaf: Leaf, pointers: iset<Pointer>)
    ensures Agree(leaf, pointers) <==>
            forall requests: seq<Pointer> | forall i | 0 <= i < |requests| :: requests[i] in pointers ::
              Truthful(leaf, requests)
  {
    if Agree(leaf, pointers) {
      forall requests: seq<Pointer> | forall i | 0 <= i < |requests| :: requests[i] in pointers
        ensures Truthful(leaf, requests)
      {
        AnswersAreTrue([], leaf, pointers, requests);
      }
    } else {
      var p, q :| p in pointers && q in pointers && p.offset == q.offset && leaf(p.offset, p.length).Ok?
                  && leaf(q.offset, q.length) != leaf(p.offset, p.length);
      SecondIsWrong(leaf, p, q);
      assert forall i | 0 <= i < 2 :: [p, q][i] in pointers;
      assert !Truthful(leaf, [p, q]);
    }
  }

  /** Two pointers with one offset that decode differently: the second one gets the leaf of the first one,
      which is not its own. */
  lemma SecondIsWrong(leaf: Leaf, p: Pointer, q: Pointer)
    requires p.offset == q.offset && leaf(p.offset, p.length).Ok?
    requires leaf(q.offset, q.length) != leaf(p.offset, p.length)
    ensures Answers([], leaf, [p, q])[1] == leaf(p.offset, p.length) != leaf(q.offset, q.length)
  {
    var d := leaf(p.offset, p.length).value;
    assert Next([], leaf, p) == [Item(p.offset, d)];
    assert [p, q][1..] == [q];
    assert Answers(Next([], leaf, p), leaf, [q])[0] == Ok(d);
  }

  /** Pointers with one offset have one length. */
  ghost predicate OneLength(pointers: iset<Pointer>) {
    forall p, q | p in pointers && q in pointers && p.offset == q.offset :: p.length == q.length
  }

  lemma OneLengthAgrees(leaf: Leaf, pointers: iset<Pointer>)
    requires OneLength(pointers)
    ensures Agree(leaf, pointers)
  {
  }

  // ----- which leaves are kept

  function Offsets(cache: Cache): (r: seq<int>)
    ensures |r| == |cache| && forall i | 0 <= i < |r| :: r[i] == cache[i].offset
  {
    seq(|cache|, i requires 0 <= i < |cache| => cache[i].offset)
  }

  function Without(offsets: seq<int>, o: int): seq<int> {
    if offsets == [] then [] else
      var n := |offsets| - 1;
      Without(offsets[..n], o) + if offsets[n] == o then [] else [offsets[n]]
  }

  /** The offsets of a run of requests, each at the place of its last use. */
  function LastUses(requests: seq<Pointer>): seq<int> {
    if requests == [] then [] else
      var n := |requests| - 1;
      Without(LastUses(requests[..n]), requests[n].offset) + [requests[n].offset]
  }

  function CacheAfter(leaf: Leaf, requests: seq<Pointer>): Cache {
    if requests == [] then [] else
      var n := |requests| - 1;
      Next(CacheAfter(leaf, requests[..n]), leaf, requests[n])
  }

  /** The last four of a list, or all. */
  function LastFour(s: seq<int>): seq<int> {
    if |s| <= 4 then s else s[|s| - 4..]
  }

  ghost predicate NoTwice(s: seq<int>) {
    forall i, j | 0 <= i < j < |s| :: s[i] != s[j]
  }

  lemma {:induction false} WithoutMembers(s: seq<int>, o: int)
    ensures forall x :: x in Without(s, o) <==> x in s && x != o
  {
    if s != [] {
      var n := |s| - 1;
      WithoutMembers(s[..n], o);
      assert s == s[..n] + [s[n]];
    }
  }

  lemma {:induction false} WithoutAbsent(s: seq<int>, o: int)
    requires o !in s
    ensures Without(s, o) == s
  {
    if s != [] {
      var n := |s| - 1;
      assert s == s[..n] + [s[n]];
      WithoutAbsent(s[..n], o);
    }
  }

  lemma {:induction false} WithoutJoined(a: seq<int>, b: seq<int>, o: int)
    ensures Without(a + b, o) == Without(a, o) + Without(b, o)
  {
    if b == [] {
      assert a + b == a;
    } else {
      var n := |b| - 1;
      WithoutJoined(a, b[..n], o);
      assert (a + b)[..|a + b| - 1] == a + b[..n];
    }
  }

  lemma {:induction false} WithoutUnique(s: seq<int>, o: int)
    requires NoTwice(s)
    ensures NoTwice(Without(s, o))
    ensures |Without(s, o)| == if o in s then |s| - 1 else |s|
  {
    if s != [] {
      var n := |s| - 1;
      var rest := s[..n];
      assert s == rest + [s[n]] && s[n] !in rest;
      WithoutUnique(rest, o);
      WithoutMembers(rest, o);
    }
  }

  lemma {:induction false} LastUsesUnique(requests: seq<Pointer>)
    ensures NoTwice(LastUses(requests))
  {
    if requests != [] {
      var n := |requests| - 1;
      var before := LastUses(requests[..n]);
      LastUsesUnique(requests[..n]);
      WithoutUnique(before, requests[n].offset);
      WithoutMembers(before, requests[n].offset);
    }
  }

  lemma WithoutUse(a: seq<int>, o: int, b: seq<int>)
    requires o !in a && o !in b
    ensures Without(a + [o] + b, o) == a + b
  {
    var use := [o];
    WithoutOnly(o);
    hide Without;
    WithoutAbsent(a, o);
    WithoutAbsent(b, o);
    WithoutJoined(a + use, b, o);
    WithoutJoined(a, use, o);
    assert a + [] == a;
  }

  lemma WithoutOnly(o: int)
    ensures Without([o], o) == []
  {
    assert [o][..0] == [];
  }

  /** The offsets after a request for a leaf that is kept. */
  lemma HitOffsets(cache: Cache, leaf: Leaf, p: Pointer)
    requires |cache| <= 4 && NoTwice(Offsets(cache)) && Find(cache, p.offset) < |cache|
    ensures Offsets(Next(cache, leaf, p)) == LastFour(Without(Offsets(cache), p.offset) + [p.offset])
  {
    hide Without, Find, Offsets, NoTwice, Next, LastFour;
    var i := Find(cache, p.offset);
    var a, b := cache[..i], cache[i + 1..];
    assert cache == a + [cache[i]] + b;
    NextOnHit(cache, leaf, p);
    OffsetsJoined(cache, a, cache[i], b);
    NeitherSide(Offsets(a), p.offset, Offsets(b));
    WithoutUse(Offsets(a), p.offset, Offsets(b));
    OffsetsMoved(a, cache[i], b);
    ShortIsWhole(Offsets(a + b + [cache[i]]));
  }

  lemma ShortIsWhole(s: seq<int>)
    requires |s| <= 4
    ensures LastFour(s) == s
  {
  }

  lemma NextOnHit(cache: Cache, leaf: Leaf, p: Pointer)
    requires Find(cache, p.offset) < |cache|
    ensures var i := Find(cache, p.offset);
            Next(cache, leaf, p) == cache[..i] + cache[i + 1..] + [cache[i]]
  {
    hide Find, Added;
  }

  lemma OffsetsJoined(cache: Cache, a: Cache, item: Item, b: Cache)
    requires cache == a + [item] + b
    ensures Offsets(cache) == Offsets(a) + [item.offset] + Offsets(b)
  {
  }

  lemma OffsetsMoved(a: Cache, item: Item, b: Cache)
    ensures Offsets(a + b + [item]) == Offsets(a) + Offsets(b) + [item.offset]
  {
  }

  lemma NeitherSide(a: seq<int>, o: int, b: seq<int>)
    requires NoTwice(a + [o] + b)
    ensures o !in a && o !in b
  {
    var s := a + [o] + b;
    assert s[|a|] == o;
    assert forall i | 0 <= i < |a| :: s[i] == a[i];
    assert forall i | 0 <= i < |b| :: s[|a| + 1 + i] == b[i];
  }

  /** The offsets after a request for a leaf that is not kept. */
  lemma MissOffsets(cache: Cache, leaf: Leaf, p: Pointer)
    requires leaf(p.offset, p.length).Ok? && |cache| <= 4 && Find(cache, p.offset) == |cache|
    ensures Offsets(Next(cache, leaf, p)) == LastFour(Without(Offsets(cache), p.offset) + [p.offset])
  {
    hide Without, Find, Added, LastFour;
    assert p.offset !in Offsets(cache);
    WithoutAbsent(Offsets(cache), p.offset);
    AddedOffsets(cache, Item(p.offset, leaf(p.offset, p.length).value));
  }

  lemma AddedOffsets(cache: Cache, item: Item)
    requires |cache| <= 4
    ensures Offsets(Added(cache, item)) == LastFour(Offsets(cache) + [item.offset])
  {
  }

  /** The offsets after a request whose leaf decodes. */
  lemma NextOffsets(cache: Cache, leaf: Leaf, p: Pointer)
    requires leaf(p.offset, p.length).Ok? && |cache| <= 4 && NoTwice(Offsets(cache))
    ensures Offsets(Next(cache, leaf, p)) == LastFour(Without(Offsets(cache), p.offset) + [p.offset])
  {
    hide Without, Next, LastFour, Offsets;
    if Find(cache, p.offset) < |cache| {
      HitOffsets(cache, leaf, p);
    } else {
      MissOffsets(cache, leaf, p);
    }
  }

  /** Cutting to four before or after a use is the same. */
  lemma LastFourUses(s: seq<int>, o: int)
    requires NoTwice(s)
    ensures LastFour(Without(LastFour(s), o) + [o]) == LastFour(Without(s, o) + [o])
  {
    hide Without, NoTwice;
    if |s| > 4 {
      var a, b := s[..|s| - 4], s[|s| - 4..];
      assert s == a + b;
      WithoutJoined(a, b, o);
      if o in b {
        NotBoth(a, b, o);
        WithoutAbsent(a, o);
        OneLess(a, b, o);
        EndIsKept(a, Without(b, o) + [o]);
        assert a + Without(b, o) + [o] == a + (Without(b, o) + [o]);
      } else {
        WithoutAbsent(b, o);
        EndIsKept(Without(a, o), b + [o]);
        assert Without(a, o) + b + [o] == Without(a, o) + (b + [o]);
      }
    }
  }

  lemma EndIsKept(a: seq<int>, b: seq<int>)
    requires |b| >= 4
    ensures LastFour(a + b) == LastFour(b)
  {
  }

  lemma NotBoth(a: seq<int>, b: seq<int>, o: int)
    requires NoTwice(a + b) && o in b
    ensures o !in a
  {
    var j :| 0 <= j < |b| && b[j] == o;
    assert (a + b)[|a| + j] == o;
    assert forall i | 0 <= i < |a| :: (a + b)[i] == a[i];
  }

  lemma OneLess(a: seq<int>, b: seq<int>, o: int)
    requires NoTwice(a + b) && o in b
    ensures |Without(b, o)| == |b| - 1
  {
    hide Without;
    assert forall i | 0 <= i < |b| :: (a + b)[|a| + i] == b[i];
    WithoutUnique(b, o);
  }

  /** After any requests whose leaves decode, the cache holds the last four different offsets that were asked for,
      the latest one last. */
  lemma {:induction false} CacheIsRecent(leaf: Leaf, requests: seq<Pointer>)
    requires forall i | 0 <= i < |requests| :: leaf(requests[i].offset, requests[i].length).Ok?
    ensures Offsets(CacheAfter(leaf, requests)) == LastFour(LastUses(requests))
  {
    if requests != [] {
      var n := |requests| - 1;
      var uses := LastUses(requests[..n]);
      CacheIsRecent(leaf, requests[..n]);
      LastUsesUnique(requests[..n]);
      hide Next, Offsets, Without;
      LastFourUnique(uses);
      NextOffsets(CacheAfter(leaf, requests[..n]), leaf, requests[n]);
      LastFourUses(uses, requests[n].offset);
    }
  }

  lemma LastFourUnique(s: seq<int>)
    requires NoTwice(s)
    ensures NoTwice(LastFour(s)) && |LastFour(s)| <= 4
  {
  }
}
