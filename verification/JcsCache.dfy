/**
 The cache of the JCS canonicalizer. Its key is JSON text restricted to the payload's own key
 names, so that names that occur only deeper in a payload are not part of the key.
 */
module JcsCache {
  import opened Wrappers
  import opened Seqs
  import opened JsMaps
  import opened Jcs

  // ------------------------------------------------------------ the cache key

  function Find(ms: seq<Member>, k: Key): (r: Option<Member>)
    ensures r.Some? ==> r.value in ms && r.value.key == k
    ensures r.None? ==> forall m | m in ms :: m.key != k
  {
    if ms == [] then None
    else if ms[0].key == k then Some(ms[0])
    else Find(ms[1..], k)
  }

  /** The members with the listed keys, in the order of the list. */
  function Pick(ms: seq<Member>, allow: seq<Key>): seq<Member> {
    if allow == [] then []
    else
      var rest := Pick(ms, allow[1..]);
      match Find(ms, allow[0])
      case Some(m) => [m] + rest
      case None => rest
  }

  /** What an object inherits as "__proto__": the common prototype, of which nothing else is listed. */
  const PROTOTYPE := Object([Member(PROTO, Null)])

  /** The members and, where "__proto__" is listed but not among them, the inherited one. */
  function Completed(ms: seq<Member>, allow: seq<Key>): seq<Member> {
    if PROTO in allow && PROTO !in KeysOf(ms) then ms + [Member(PROTO, PROTOTYPE)] else ms
  }

  /** What JSON.stringify writes under an array replacer: at every depth, the listed keys only. */
  function Restrict(v: Json, allow: seq<Key>): Json {
    match v
    case Array(items) => Array(RestrictItems(items, allow))
    case Object(members) => Object(Pick(Completed(RestrictMembers(members, allow), allow), allow))
    case _ => v
  }

  function RestrictItems(items: seq<Json>, allow: seq<Key>): (r: seq<Json>)
    ensures |r| == |items|
  {
    if items == [] then [] else [Restrict(items[0], allow)] + RestrictItems(items[1..], allow)
  }

  function RestrictMembers(ms: seq<Member>, allow: seq<Key>): (r: seq<Member>)
    ensures |r| == |ms| && forall i | 0 <= i < |ms| :: r[i].key == ms[i].key
  {
    if ms == [] then [] else [Member(ms[0].key, Restrict(ms[0].value, allow))] + RestrictMembers(ms[1..], allow)
  }

  function Names(ms: seq<Member>): (r: seq<Key>)
    ensures |r| == |ms| && forall i | 0 <= i < |ms| :: r[i] == ms[i].key
  {
    seq(|ms|, i requires 0 <= i < |ms| => ms[i].key)
  }

  /** The payload's own keys, sorted. */
  function TopKeys(payload: Json): seq<Key>
    requires payload.Object?
  {
    Names(Sort(MemberBefore, payload.members))
  }

  function Skeleton(payload: Json): Json
    requires payload.Object?
  {
    Restrict(payload, TopKeys(payload))
  }

  predicate IsPayload(v: Json) {
    v.Object? && WellFormed(v)
  }

  /** Every key of every object in v is listed and, if "__proto__" is, every object has it. */
  predicate FullyListed(v: Json, allow: seq<Key>) {
    match v
    case Array(items) => forall i | 0 <= i < |items| :: FullyListed(items[i], allow)
    case Object(members) =>
      && (PROTO in allow ==> PROTO in KeysOf(members))
      && (forall i | 0 <= i < |members| :: members[i].key in allow && FullyListed(members[i].value, allow))
    case _ => true
  }

  /** Every key name also occurs at the top level; if that has "__proto__", so does every object. */
  predicate Covered(payload: Json)
    requires payload.Object?
  {
    FullyListed(payload, TopKeys(payload))
  }

  // ------------------------------------------------------------ restriction

  lemma {:induction false} RestrictItemAt(items: seq<Json>, allow: seq<Key>, i: nat)
    requires i < |items|
    ensures RestrictItems(items, allow)[i] == Restrict(items[i], allow)
  {
    if i == 0 {
    } else {
      RestrictItemAt(items[1..], allow, i - 1);
    }
  }

  lemma {:induction false} RestrictMemberAt(ms: seq<Member>, allow: seq<Key>, i: nat)
    requires i < |ms|
    ensures RestrictMembers(ms, allow)[i] == Member(ms[i].key, Restrict(ms[i].value, allow))
  {
    if i == 0 {
    } else {
      RestrictMemberAt(ms[1..], allow, i - 1);
    }
  }

  lemma {:induction false} PickIncluded(ms: seq<Member>, allow: seq<Key>)
    ensures forall m | m in Pick(ms, allow) :: m in ms && m.key in allow
  {
    if allow == [] {
    } else {
      PickIncluded(ms, allow[1..]);
    }
  }

  lemma {:induction false} PickDistinct(ms: seq<Member>, allow: seq<Key>)
    requires NoDuplicates(allow)
    ensures DistinctKeys(Pick(ms, allow))
  {
    if allow == [] {
    } else {
      var rest := Pick(ms, allow[1..]);
      PickDistinct(ms, allow[1..]);
      PickIncluded(ms, allow[1..]);
      assert allow[0] !in allow[1..];
      assert forall i | 0 <= i < |rest| :: rest[i] in rest;
    }
  }

  lemma {:induction false} FindDistinct(ms: seq<Member>, m: Member)
    requires DistinctKeys(ms) && m in ms
    ensures Find(ms, m.key) == Some(m)
  {
    if ms[0] == m {
    } else {
      assert m in ms[1..];
      FindDistinct(ms[1..], m);
    }
  }

  lemma {:induction false} PickIncludes(ms: seq<Member>, allow: seq<Key>, m: Member)
    requires DistinctKeys(ms) && m in ms && m.key in allow
    ensures m in Pick(ms, allow)
  {
    if allow[0] == m.key {
      FindDistinct(ms, m);
    } else {
      PickIncludes(ms, allow[1..], m);
    }
  }

  lemma PickMembers(ms: seq<Member>, allow: seq<Key>)
    requires DistinctKeys(ms) && NoDuplicates(allow)
    ensures DistinctKeys(Pick(ms, allow))
    ensures forall m :: m in Pick(ms, allow) <==> m in ms && m.key in allow
  {
    PickDistinct(ms, allow);
    PickIncluded(ms, allow);
    forall m | m in ms && m.key in allow
      ensures m in Pick(ms, allow)
    {
      PickIncludes(ms, allow, m);
    }
  }

  lemma {:induction false} FindPicked(ms: seq<Member>, allow: seq<Key>, k: Key)
    requires k in allow
    ensures Find(Pick(ms, allow), k) == Find(ms, k)
  {
    var rest := Pick(ms, allow[1..]);
    if k in allow[1..] {
      FindPicked(ms, allow[1..], k);
    } else {
      NotPicked(ms, allow[1..], k);
    }
    var first := Find(ms, allow[0]);
    assert first.Some? ==> ([first.value] + rest)[1..] == rest;
  }

  lemma {:induction false} NotPicked(ms: seq<Member>, allow: seq<Key>, k: Key)
    requires k !in allow
    ensures forall m | m in Pick(ms, allow) :: m.key != k
  {
    if allow == [] {
    } else {
      NotPicked(ms, allow[1..], k);
    }
  }

  /** Picking again from what was picked changes nothing. */
  lemma {:induction false} PickPicked(ms: seq<Member>, allow: seq<Key>, keys: seq<Key>)
    requires forall k | k in keys :: k in allow
    ensures Pick(Pick(ms, allow), keys) == Pick(ms, keys)
  {
    if keys == [] {
    } else {
      FindPicked(ms, allow, keys[0]);
      PickPicked(ms, allow, keys[1..]);
    }
  }

  lemma CompletedKeys(ms: seq<Member>, allow: seq<Key>)
    requires DistinctKeys(ms)
    ensures DistinctKeys(Completed(ms, allow))
    ensures PROTO in allow ==> PROTO in KeysOf(Completed(ms, allow))
    ensures forall m | m in Completed(ms, allow) ::
              m in ms || (m == Member(PROTO, PROTOTYPE) && PROTO in allow && PROTO !in KeysOf(ms))
    ensures forall m | m in ms :: m in Completed(ms, allow)
  {
    var r := Completed(ms, allow);
    assert forall i | 0 <= i < |ms| :: ms[i].key in KeysOf(ms);
    assert PROTO in allow && PROTO !in KeysOf(ms) ==> r[|ms|].key == PROTO;
  }

  lemma PickHasListed(ms: seq<Member>, allow: seq<Key>, k: Key)
    requires DistinctKeys(ms) && NoDuplicates(allow)
    requires k in allow && k in KeysOf(ms)
    ensures k in KeysOf(Pick(ms, allow))
  {
    PickMembers(ms, allow);
    var i :| 0 <= i < |ms| && ms[i].key == k;
    assert ms[i] in Pick(ms, allow);
  }

  lemma PrototypeListed(allow: seq<Key>)
    requires PROTO in allow && NoDuplicates(allow)
    ensures WellFormed(PROTOTYPE) && FullyListed(PROTOTYPE, allow) && Restrict(PROTOTYPE, allow) == PROTOTYPE
  {
    var ms := [Member(PROTO, Null)];
    assert ms[0].key in KeysOf(ms);
    RestrictMemberAt(ms, allow, 0);
    assert RestrictMembers(ms, allow) == ms && Completed(ms, allow) == ms;
    PickOnly(ms[0], allow);
  }

  lemma {:induction false} PickOnly(m: Member, allow: seq<Key>)
    requires NoDuplicates(allow)
    ensures Pick([m], allow) == if m.key in allow then [m] else []
  {
    if allow == [] {
    } else {
      PickOnly(m, allow[1..]);
      assert allow[0] !in allow[1..];
    }
  }

  /** Restriction keeps values well-formed and leaves listed keys only. */
  lemma {:induction false} RestrictShape(v: Json, allow: seq<Key>)
    requires WellFormed(v) && NoDuplicates(allow)
    ensures WellFormed(Restrict(v, allow)) && FullyListed(Restrict(v, allow), allow)
  {
    match v
    case Array(items) =>
      forall i | 0 <= i < |items|
        ensures var r := RestrictItems(items, allow)[i]; WellFormed(r) && FullyListed(r, allow)
      {
        RestrictItemAt(items, allow, i);
        RestrictShape(items[i], allow);
      }
    case Object(ms) =>
      var kept := RestrictMembers(ms, allow);
      forall i | 0 <= i < |ms|
        ensures WellFormed(kept[i].value) && FullyListed(kept[i].value, allow)
      {
        RestrictMemberAt(ms, allow, i);
        RestrictShape(ms[i].value, allow);
      }
      PickedShape(kept, allow);
    case _ =>
  }

  lemma PickedShape(kept: seq<Member>, allow: seq<Key>)
    requires DistinctKeys(kept) && NoDuplicates(allow)
    requires forall m | m in kept :: WellFormed(m.value) && FullyListed(m.value, allow)
    ensures var picked := Object(Pick(Completed(kept, allow), allow));
            WellFormed(picked) && FullyListed(picked, allow)
  {
    var all := Completed(kept, allow);
    var picked := Pick(all, allow);
    CompletedKeys(kept, allow);
    PickMembers(all, allow);
    if PROTO in allow {
      PickHasListed(all, allow, PROTO);
      PrototypeListed(allow);
    }
    forall i | 0 <= i < |picked|
      ensures picked[i].key in allow && WellFormed(picked[i].value) && FullyListed(picked[i].value, allow)
    {
      assert picked[i] in all;
    }
  }

  lemma {:induction false} RestrictTwice(v: Json, allow: seq<Key>)
    requires WellFormed(v) && NoDuplicates(allow)
    ensures Restrict(Restrict(v, allow), allow) == Restrict(v, allow)
  {
    match v
    case Array(items) =>
      var once := RestrictItems(items, allow);
      forall i | 0 <= i < |items|
        ensures RestrictItems(once, allow)[i] == once[i]
      {
        RestrictItemAt(items, allow, i);
        RestrictItemAt(once, allow, i);
        RestrictTwice(items[i], allow);
      }
      assert RestrictItems(once, allow) == once;
    case Object(ms) =>
      var kept := RestrictMembers(ms, allow);
      forall i | 0 <= i < |ms|
        ensures Restrict(kept[i].value, allow) == kept[i].value
      {
        RestrictMemberAt(ms, allow, i);
        RestrictTwice(ms[i].value, allow);
      }
      RestrictPicked(kept, allow);
    case _ =>
  }

  lemma RestrictPicked(kept: seq<Member>, allow: seq<Key>)
    requires DistinctKeys(kept) && NoDuplicates(allow)
    requires forall m | m in kept :: Restrict(m.value, allow) == m.value
    ensures var picked := Object(Pick(Completed(kept, allow), allow)); Restrict(picked, allow) == picked
  {
    var all := Completed(kept, allow);
    var picked := Pick(all, allow);
    CompletedKeys(kept, allow);
    PickMembers(all, allow);
    if PROTO in allow {
      PickHasListed(all, allow, PROTO);
      PrototypeListed(allow);
    }
    forall i | 0 <= i < |picked|
      ensures RestrictMembers(picked, allow)[i] == picked[i]
    {
      RestrictMemberAt(picked, allow, i);
      assert picked[i] in all;
    }
    assert RestrictMembers(picked, allow) == picked && Completed(picked, allow) == picked;
    PickPicked(all, allow, allow);
  }

  /** The restricted value means the same as the value exactly when nothing was left out or inherited. */
  lemma {:induction false} RestrictMeaning(v: Json, allow: seq<Key>)
    requires WellFormed(v) && NoDuplicates(allow)
    ensures Meaning(Restrict(v, allow), true) == Meaning(v, true) <==> FullyListed(v, allow)
  {
    match v
    case Array(items) =>
      var kept := RestrictItems(items, allow);
      forall i | 0 <= i < |items|
        ensures ItemMeanings(kept, true)[i] == ItemMeanings(items, true)[i] <==> FullyListed(items[i], allow)
      {
        RestrictItemAt(items, allow, i);
        ItemMeaningAt(kept, true, i);
        ItemMeaningAt(items, true, i);
        RestrictMeaning(items[i], allow);
      }
      assert ItemMeanings(kept, true) == ItemMeanings(items, true) <==>
             forall i | 0 <= i < |items| :: ItemMeanings(kept, true)[i] == ItemMeanings(items, true)[i];
    case Object(ms) =>
      var kept := RestrictMembers(ms, allow);
      forall i | 0 <= i < |ms|
        ensures Meaning(kept[i].value, true) == Meaning(ms[i].value, true) <==> FullyListed(ms[i].value, allow)
      {
        RestrictMemberAt(ms, allow, i);
        RestrictMeaning(ms[i].value, allow);
      }
      RestrictedMeaning(ms, kept, allow);
    case _ =>
  }

  lemma RestrictedMeaning(ms: seq<Member>, kept: seq<Member>, allow: seq<Key>)
    requires DistinctKeys(ms) && NoDuplicates(allow)
    requires |kept| == |ms| && forall i | 0 <= i < |ms| :: kept[i].key == ms[i].key
    ensures MemberMeanings(Pick(Completed(kept, allow), allow), true) == MemberMeanings(ms, true) <==>
            && (PROTO in allow ==> PROTO in KeysOf(ms))
            && forall i | 0 <= i < |ms| ::
                 ms[i].key in allow && Meaning(kept[i].value, true) == Meaning(ms[i].value, true)
  {
    SameKeys(ms, kept);
    if PROTO in allow && PROTO !in KeysOf(ms) {
      InheritedMeaning(ms, kept, allow);
    } else {
      PickMembers(kept, allow);
      PickedMeaning(ms, kept, Pick(kept, allow), allow);
    }
  }

  lemma InheritedMeaning(ms: seq<Member>, kept: seq<Member>, allow: seq<Key>)
    requires DistinctKeys(ms) && DistinctKeys(kept) && NoDuplicates(allow)
    requires PROTO in allow && PROTO !in KeysOf(ms)
    ensures MemberMeanings(Pick(Completed(kept, allow), allow), true) != MemberMeanings(ms, true)
  {
    var all := Completed(kept, allow);
    CompletedKeys(kept, allow);
    PickMembers(all, allow);
    PickHasListed(all, allow, PROTO);
    MemberMeaningAt(Pick(all, allow), true, PROTO);
    MemberMeaningAt(ms, true, PROTO);
  }

  lemma SameKeys(ms: seq<Member>, kept: seq<Member>)
    requires |kept| == |ms| && forall i | 0 <= i < |ms| :: kept[i].key == ms[i].key
    ensures KeysOf(kept) == KeysOf(ms)
  {
  }

  lemma PickedMeaning(ms: seq<Member>, kept: seq<Member>, picked: seq<Member>, allow: seq<Key>)
    requires DistinctKeys(ms) && DistinctKeys(picked)
    requires forall m :: m in picked <==> m in kept && m.key in allow
    requires |kept| == |ms| && forall i | 0 <= i < |ms| :: kept[i].key == ms[i].key
    ensures MemberMeanings(picked, true) == MemberMeanings(ms, true) <==>
            forall i | 0 <= i < |ms| ::
              ms[i].key in allow && Meaning(kept[i].value, true) == Meaning(ms[i].value, true)
  {
    var a, b := MemberMeanings(picked, true), MemberMeanings(ms, true);
    forall i | 0 <= i < |ms|
      ensures ms[i].key in b && b[ms[i].key] == Meaning(ms[i].value, true)
      ensures ms[i].key in a <==> ms[i].key in allow
      ensures ms[i].key in a ==> a[ms[i].key] == Meaning(kept[i].value, true)
    {
      MemberMeaningAt(ms, true, ms[i].key);
      PickedMeaningAt(ms, kept, picked, allow, i);
    }
    if forall i | 0 <= i < |ms| :: ms[i].key in allow && Meaning(kept[i].value, true) == Meaning(ms[i].value, true) {
      forall k
        ensures k in a <==> k in b
        ensures k in a ==> a[k] == b[k]
      {
        PickedKey(ms, kept, picked, k);
      }
    }
  }

  lemma PickedKey(ms: seq<Member>, kept: seq<Member>, picked: seq<Member>, k: Key)
    requires DistinctKeys(ms) && DistinctKeys(picked)
    requires forall m | m in picked :: m in kept
    requires |kept| == |ms| && forall i | 0 <= i < |ms| :: kept[i].key == ms[i].key
    ensures k in MemberMeanings(picked, true) ==> k in MemberMeanings(ms, true)
    ensures k in MemberMeanings(ms, true) ==> exists i | 0 <= i < |ms| :: ms[i].key == k
  {
    MemberMeaningAt(picked, true, k);
    MemberMeaningAt(ms, true, k);
    if k in KeysOf(picked) {
      var j :| 0 <= j < |picked| && picked[j].key == k;
      assert picked[j] in kept;
      var i :| 0 <= i < |kept| && kept[i] == picked[j];
      assert ms[i].key in KeysOf(ms);
    }
  }

  lemma PickedMeaningAt(ms: seq<Member>, kept: seq<Member>, picked: seq<Member>, allow: seq<Key>, i: nat)
    requires DistinctKeys(ms) && DistinctKeys(picked) && i < |ms|
    requires forall m :: m in picked <==> m in kept && m.key in allow
    requires |kept| == |ms| && forall i | 0 <= i < |ms| :: kept[i].key == ms[i].key
    ensures var a := MemberMeanings(picked, true);
            && (ms[i].key in a <==> ms[i].key in allow)
            && (ms[i].key in a ==> a[ms[i].key] == Meaning(kept[i].value, true))
  {
    MemberMeaningAt(picked, true, ms[i].key);
    assert kept[i] in kept;
    if ms[i].key in KeysOf(picked) {
      var j :| 0 <= j < |picked| && picked[j].key == ms[i].key;
      assert picked[j] in picked;
    }
  }

  // ------------------------------------------------------------ payloads

  lemma TopKeysAre(payload: Json)
    requires IsPayload(payload)
    ensures NoDuplicates(TopKeys(payload))
    ensures forall k :: k in TopKeys(payload) <==> k in KeysOf(payload.members)
    ensures forall i, j | 0 <= i < j < |TopKeys(payload)| :: !KeyBefore(TopKeys(payload)[j], TopKeys(payload)[i])
  {
    var ms := payload.members;
    var s := Sort(MemberBefore, ms);
    MemberOrder();
    SortSorted(MemberBefore, ms);
    SortDistinct(ms);
    forall k
      ensures k in Names(s) <==> k in KeysOf(ms)
    {
      if k in Names(s) {
        var i :| 0 <= i < |s| && s[i].key == k;
        assert s[i] in ms;
      }
      if k in KeysOf(ms) {
        var i :| 0 <= i < |ms| && ms[i].key == k;
        assert ms[i] in s;
      }
    }
  }

  lemma {:induction false} PickAll(ms: seq<Member>, allow: seq<Key>)
    requires forall k | k in allow :: k in KeysOf(ms)
    ensures Names(Pick(ms, allow)) == allow
  {
    if allow == [] {
    } else {
      PickAll(ms, allow[1..]);
      assert allow[0] in KeysOf(ms);
      var i :| 0 <= i < |ms| && ms[i].key == allow[0];
      assert ms[i] in ms;
      assert Names(Pick(ms, allow)) == [allow[0]] + Names(Pick(ms, allow[1..]));
    }
  }

  /** At the top level every allowed key is found and none is inherited. */
  lemma SkeletonMembers(p: Json)
    requires IsPayload(p)
    ensures var kept := RestrictMembers(p.members, TopKeys(p));
            && Skeleton(p) == Object(Pick(kept, TopKeys(p)))
            && Names(Skeleton(p).members) == TopKeys(p)
            && forall m :: m in Skeleton(p).members <==> m in kept
  {
    var kept := RestrictMembers(p.members, TopKeys(p));
    TopKeysAre(p);
    SameKeys(p.members, kept);
    assert Completed(kept, TopKeys(p)) == kept;
    PickEverything(kept, TopKeys(p));
  }

  lemma PickEverything(ms: seq<Member>, allow: seq<Key>)
    requires DistinctKeys(ms) && NoDuplicates(allow) && forall k :: k in allow <==> k in KeysOf(ms)
    ensures Names(Pick(ms, allow)) == allow
    ensures forall m :: m in Pick(ms, allow) <==> m in ms
  {
    PickAll(ms, allow);
    PickMembers(ms, allow);
    assert forall m | m in ms :: m.key in KeysOf(ms);
  }

  /** The skeleton of a payload is a covered payload with the same cache key. */
  lemma SkeletonCovered(p: Json)
    requires IsPayload(p)
    ensures IsPayload(Skeleton(p)) && Covered(Skeleton(p))
    ensures Skeleton(Skeleton(p)) == Skeleton(p)
  {
    TopKeysAre(p);
    SkeletonMembers(p);
    RestrictShape(p, TopKeys(p));
    SortedTopKeys(Skeleton(p), TopKeys(p));
    RestrictTwice(p, TopKeys(p));
  }

  lemma SortedTopKeys(q: Json, keys: seq<Key>)
    requires q.Object? && Names(q.members) == keys
    requires forall i, j | 0 <= i < j < |keys| :: !KeyBefore(keys[j], keys[i])
    ensures TopKeys(q) == keys
  {
    assert forall i | 0 <= i < |q.members| :: q.members[i].key == keys[i];
    SortOfSorted(MemberBefore, q.members);
  }

  // ------------------------------------------------------------ the cache

  /** JSON.stringify and RFC 8785 canonicalization, as the cache sees them. */
  datatype Codec = Codec(text: Json -> string, canon: Json -> string)

  /** Text determines the value listed; canonical text determines the value up to key order. */
  ghost predicate Sound(c: Codec) {
    && (forall a, b :: c.text(a) == c.text(b) ==> a == b)
    && (forall a, b | WellFormed(a) && WellFormed(b) ::
          c.canon(a) == c.canon(b) <==> Meaning(a, true) == Meaning(b, true))
  }

  type Cache = JsMap<string, string>

  function CacheKey(c: Codec, payload: Json): string
    requires payload.Object?
  {
    c.text(Skeleton(payload))
  }

  /** Storing a new entry in the cache; a full cache drops its first one. */
  function Store<V>(max: int, cache: JsMap<string, V>, key: string, value: V): JsMap<string, V> {
    Set(if |cache| >= max && cache != [] then Delete(cache, cache[0].key) else cache, key, value)
  }

  function Answer(c: Codec, cache: Cache, payload: Json): string
    requires payload.Object?
  {
    match Get(cache, CacheKey(c, payload))
    case Some(text) => text
    case None => c.canon(payload)
  }

  function After(c: Codec, max: int, cache: Cache, payload: Json): Cache
    requires payload.Object?
  {
    if Get(cache, CacheKey(c, payload)).Some? then cache
    else Store(max, cache, CacheKey(c, payload), c.canon(payload))
  }

  class Canonicalizer {
    const codec: Codec
    const maxCacheSize: int
    var cache: Cache

    constructor (codec: Codec, maxCacheSize: int)
      ensures this.codec == codec && this.maxCacheSize == maxCacheSize && cache == []
    {
      this.codec, this.maxCacheSize := codec, maxCacheSize;
      cache := [];
    }

    method Canonicalize(payload: Json) returns (result: string)
      requires payload.Object?
      modifies this
      ensures result == Answer(codec, old(cache), payload)
      ensures cache == After(codec, maxCacheSize, old(cache), payload)
    {
      var cacheKey := codec.text(Restrict(payload, TopKeys(payload)));
      var cached := Get(cache, cacheKey);
      if cached.Some? {
        return cached.value;
      }
      result := codec.canon(payload);
      if |cache| >= maxCacheSize {
        if cache != [] {
          cache := Delete(cache, cache[0].key);
        }
      }
      cache := Set(cache, cacheKey, result);
    }

    method ClearCache()
      modifies this
      ensures cache == []
    {
      cache := [];
    }
  }

  datatype Op = Canonicalize(payload: Json) | ClearCache

  ghost predicate PayloadOps(ops: seq<Op>) {
    forall op | op in ops && op.Canonicalize? :: IsPayload(op.payload)
  }

  ghost predicate CoveredOps(ops: seq<Op>) {
    forall op | op in ops && op.Canonicalize? :: IsPayload(op.payload) && Covered(op.payload)
  }

  /** The cache after a run that started with an empty one. */
  function Run(c: Codec, max: int, ops: seq<Op>): Cache
    requires forall op | op in ops && op.Canonicalize? :: op.payload.Object?
  {
    if ops == [] then []
    else
      var cache := Run(c, max, ops[..|ops| - 1]);
      match ops[|ops| - 1]
      case ClearCache => []
      case Canonicalize(p) => After(c, max, cache, p)
  }

  /** Covered payloads with the same cache key have the same canonical form. */
  lemma CoveredKeysDetermine(c: Codec, p: Json, q: Json)
    requires Sound(c) && IsPayload(p) && IsPayload(q) && Covered(p) && Covered(q)
    requires CacheKey(c, p) == CacheKey(c, q)
    ensures c.canon(p) == c.canon(q)
  {
    TopKeysAre(p);
    TopKeysAre(q);
    RestrictMeaning(p, TopKeys(p));
    RestrictMeaning(q, TopKeys(q));
    assert Skeleton(p) == Skeleton(q);
  }

  /** The payloads whose texts are cached after a run, under their keys. */
  function Live(c: Codec, max: int, ops: seq<Op>): JsMap<string, Json>
    requires forall op | op in ops && op.Canonicalize? :: op.payload.Object?
  {
    if ops == [] then []
    else
      var live := Live(c, max, ops[..|ops| - 1]);
      match ops[|ops| - 1]
      case ClearCache => []
      case Canonicalize(p) => LiveAfter(max, live, CacheKey(c, p), p)
  }

  function LiveAfter(max: int, live: JsMap<string, Json>, key: string, p: Json): JsMap<string, Json> {
    if Get(live, key).Some? then live else Store(max, live, key, p)
  }

  function Texts(c: Codec, live: JsMap<string, Json>): (r: Cache)
    ensures |r| == |live| && forall i | 0 <= i < |live| :: r[i] == Entry(live[i].key, c.canon(live[i].value))
  {
    seq(|live|, i requires 0 <= i < |live| => Entry(live[i].key, c.canon(live[i].value)))
  }

  lemma {:induction false} TextsGet(c: Codec, live: JsMap<string, Json>, key: string)
    ensures Get(Texts(c, live), key) ==
            match Get(live, key)
            case None => None
            case Some(p) => Some(c.canon(p))
  {
    if live == [] {
    } else {
      TextsGet(c, live[1..], key);
      assert Texts(c, live)[1..] == Texts(c, live[1..]);
    }
  }

  /** A miss is stored last and pushes out only the oldest entry of a full cache. */
  lemma StorePushesOutOldest<V>(max: int, cache: JsMap<string, V>, key: string, value: V)
    requires Get(cache, key).None?
    ensures Store(max, cache, key, value) ==
            (if |cache| >= max && cache != [] then cache[1..] else cache) + [Entry(key, value)]
    ensures forall e | e in cache :: e.key != key
  {
    assert forall i | 0 <= i < |cache| :: Keys(cache)[i] == cache[i].key;
    SetNew(if |cache| >= max && cache != [] then cache[1..] else cache, key, value);
  }

  /**
   A call leaves the cache alone when it holds an entry for the payload; otherwise it appends the canonical text
   and drops the oldest entry of a full cache. Either way the answer can be found there afterwards.
   */
  lemma AfterIs(c: Codec, max: int, cache: Cache, p: Json)
    requires p.Object?
    ensures var after := After(c, max, cache, p);
            && (CacheKey(c, p) in Keys(cache) ==> after == cache)
            && (CacheKey(c, p) !in Keys(cache) ==>
                  after == (if |cache| >= max && cache != [] then cache[1..] else cache) +
                           [Entry(CacheKey(c, p), c.canon(p))])
            && Get(after, CacheKey(c, p)) == Some(Answer(c, cache, p))
  {
    if Get(cache, CacheKey(c, p)).None? {
      StorePushesOutOldest(max, cache, CacheKey(c, p), c.canon(p));
      SetGet(if |cache| >= max && cache != [] then Delete(cache, cache[0].key) else cache,
             CacheKey(c, p), c.canon(p), CacheKey(c, p));
    }
  }

  lemma {:induction false} SetNew<V>(m: JsMap<string, V>, k: string, v: V)
    requires forall i | 0 <= i < |m| :: m[i].key != k
    ensures Set(m, k, v) == m + [Entry(k, v)]
  {
    if m == [] {
    } else {
      SetNew(m[1..], k, v);
    }
  }

  lemma TextsAfter(c: Codec, max: int, live: JsMap<string, Json>, p: Json)
    requires p.Object?
    ensures After(c, max, Texts(c, live), p) == Texts(c, LiveAfter(max, live, CacheKey(c, p), p))
  {
    var key := CacheKey(c, p);
    TextsGet(c, live, key);
    if Get(live, key).None? {
      StorePushesOutOldest(max, live, key, p);
      StorePushesOutOldest(max, Texts(c, live), key, c.canon(p));
    }
  }

  /** The cache holds the texts of the live payloads. */
  lemma {:induction false} RunIsTexts(c: Codec, max: int, ops: seq<Op>)
    requires forall op | op in ops && op.Canonicalize? :: op.payload.Object?
    ensures Run(c, max, ops) == Texts(c, Live(c, max, ops))
  {
    if ops == [] {
    } else {
      var before, op := ops[..|ops| - 1], ops[|ops| - 1];
      assert op in ops;
      RunIsTexts(c, max, before);
      if op.Canonicalize? {
        TextsAfter(c, max, Live(c, max, before), op.payload);
      }
    }
  }

  ghost predicate Entries(c: Codec, ops: seq<Op>, live: JsMap<string, Json>) {
    forall e | e in live :: Canonicalize(e.value) in ops && e.value.Object? && e.key == CacheKey(c, e.value)
  }

  /** Live payloads were canonicalized by the run and are cached under their keys, which differ. */
  lemma {:induction false} LiveInvariant(c: Codec, max: int, ops: seq<Op>)
    requires forall op | op in ops && op.Canonicalize? :: op.payload.Object?
    ensures var live := Live(c, max, ops); Distinct(live) && |live| <= Max(1, max) && Entries(c, ops, live)
  {
    if ops == [] {
    } else {
      var before, op := ops[..|ops| - 1], ops[|ops| - 1];
      assert ops == before + [op] && op in ops;
      LiveInvariant(c, max, before);
      if op.Canonicalize? {
        LiveAfterKeeps(c, max, before, Live(c, max, before), op.payload);
      }
    }
  }

  lemma StoreKeeps<V>(max: int, cache: JsMap<string, V>, key: string, value: V)
    requires Distinct(cache) && |cache| <= Max(1, max) && Get(cache, key).None?
    ensures var cache' := Store(max, cache, key, value);
            && Distinct(cache') && |cache'| <= Max(1, max)
            && forall e | e in cache' :: e in cache || e == Entry(key, value)
  {
    StorePushesOutOldest(max, cache, key, value);
    var kept := if |cache| >= max && cache != [] then cache[1..] else cache;
    AppendKeeps(cache, kept, key, value);
  }

  lemma AppendKeeps<V>(cache: JsMap<string, V>, kept: JsMap<string, V>, key: string, value: V)
    requires Distinct(kept) && (forall e | e in kept :: e in cache) && forall e | e in cache :: e.key != key
    ensures Distinct(kept + [Entry(key, value)])
    ensures forall e | e in kept + [Entry(key, value)] :: e in cache || e == Entry(key, value)
  {
    assert forall i | 0 <= i < |kept| :: kept[i] in cache;
  }

  lemma LiveAfterKeeps(c: Codec, max: int, ops: seq<Op>, live: JsMap<string, Json>, p: Json)
    requires p.Object? && Distinct(live) && |live| <= Max(1, max) && Entries(c, ops, live)
    ensures var live' := LiveAfter(max, live, CacheKey(c, p), p);
            Distinct(live') && |live'| <= Max(1, max) && Entries(c, ops + [Canonicalize(p)], live')
  {
    if Get(live, CacheKey(c, p)).None? {
      StoreKeeps(max, live, CacheKey(c, p), p);
    }
  }

  /** After any run, what answers a payload is its own text or that of the live payload with its key. */
  lemma AnswerIs(c: Codec, max: int, ops: seq<Op>, p: Json)
    requires p.Object? && forall op | op in ops && op.Canonicalize? :: op.payload.Object?
    ensures var live := Get(Live(c, max, ops), CacheKey(c, p));
            && Answer(c, Run(c, max, ops), p) == c.canon(live.GetOr(p))
            && (live.Some? ==> Canonicalize(live.value) in ops && CacheKey(c, live.value) == CacheKey(c, p))
  {
    var key := CacheKey(c, p);
    RunIsTexts(c, max, ops);
    LiveInvariant(c, max, ops);
    TextsGet(c, Live(c, max, ops), key);
    var live := Get(Live(c, max, ops), key);
    assert live.Some? ==> Entry(key, live.value) in Live(c, max, ops);
  }

  /** After any run of payloads an answer is right exactly when the live payload with its key means the same. */
  lemma RightIffLiveMeansSame(c: Codec, max: int, ops: seq<Op>, p: Json)
    requires Sound(c) && PayloadOps(ops) && IsPayload(p)
    ensures var live := Get(Live(c, max, ops), CacheKey(c, p));
            Answer(c, Run(c, max, ops), p) == c.canon(p) <==>
            live.None? || Meaning(live.value, true) == Meaning(p, true)
  {
    AnswerIs(c, max, ops, p);
  }

  /** Every cached text is the canonical form of every covered payload with its key. */
  ghost predicate Truthful(c: Codec, cache: Cache) {
    forall e, p | e in cache && IsPayload(p) && Covered(p) && CacheKey(c, p) == e.key ::
      e.value == c.canon(p)
  }

  /** A run keeps the keys apart, the size bounded and the entries truthful. */
  lemma CacheInvariant(c: Codec, max: int, ops: seq<Op>)
    requires Sound(c) && CoveredOps(ops)
    ensures Distinct(Run(c, max, ops)) && |Run(c, max, ops)| <= Max(1, max)
    ensures Truthful(c, Run(c, max, ops))
  {
    var live := Live(c, max, ops);
    RunIsTexts(c, max, ops);
    LiveInvariant(c, max, ops);
    forall i, p | 0 <= i < |live| && IsPayload(p) && Covered(p) && CacheKey(c, p) == live[i].key
      ensures c.canon(live[i].value) == c.canon(p)
    {
      assert live[i] in live;
      CoveredKeysDetermine(c, p, live[i].value);
    }
  }

  /** After any run of covered payloads the cache answers a covered one like no cache at all. */
  lemma CacheIsTransparent(c: Codec, max: int, ops: seq<Op>, p: Json)
    requires Sound(c) && CoveredOps(ops) && IsPayload(p) && Covered(p)
    ensures Answer(c, Run(c, max, ops), p) == c.canon(p)
  {
    AnswerIs(c, max, ops, p);
    var live := Get(Live(c, max, ops), CacheKey(c, p));
    if live.Some? {
      CoveredKeysDetermine(c, p, live.value);
    }
  }

  /** Whether the cache answers p correctly whatever covered payloads came before. */
  ghost predicate AlwaysRight(c: Codec, max: int, p: Json)
    requires p.Object?
  {
    forall ops | CoveredOps(ops) :: Answer(c, Run(c, max, ops), p) == c.canon(p)
  }

  /**
   Being covered is exactly what a payload needs: any other payload gets a wrong answer once
   its own skeleton, a covered payload, has been canonicalized.
   */
  lemma TransparentIffCovered(c: Codec, max: int, p: Json)
    requires Sound(c) && IsPayload(p)
    ensures AlwaysRight(c, max, p) <==> Covered(p)
  {
    if Covered(p) {
      forall ops | CoveredOps(ops)
        ensures Answer(c, Run(c, max, ops), p) == c.canon(p)
      {
        CacheIsTransparent(c, max, ops, p);
      }
    } else {
      SkeletonCovered(p);
      TopKeysAre(p);
      RestrictMeaning(p, TopKeys(p));
      var ops := CollisionIsServed(c, max, Skeleton(p), p);
      assert CoveredOps(ops);
    }
  }

  // ------------------------------------------------------------ runs of any payloads

  predicate NoObjects(v: Json) {
    match v
    case Array(items) => forall i | 0 <= i < |items| :: NoObjects(items[i])
    case Object(_) => false
    case _ => true
  }

  /** There are no objects below the top level. */
  predicate Flat(payload: Json)
    requires payload.Object?
  {
    forall i | 0 <= i < |payload.members| :: NoObjects(payload.members[i].value)
  }

  lemma {:induction false} RestrictNoObjects(v: Json, allow: seq<Key>)
    ensures NoObjects(Restrict(v, allow)) <==> NoObjects(v)
    ensures NoObjects(v) ==> FullyListed(v, allow)
  {
    match v
    case Array(items) =>
      forall i | 0 <= i < |items|
        ensures NoObjects(RestrictItems(items, allow)[i]) <==> NoObjects(items[i])
        ensures NoObjects(items[i]) ==> FullyListed(items[i], allow)
      {
        RestrictItemAt(items, allow, i);
        RestrictNoObjects(items[i], allow);
      }
    case _ =>
  }

  lemma FlatIsCovered(p: Json)
    requires IsPayload(p) && Flat(p)
    ensures Covered(p)
  {
    TopKeysAre(p);
    forall i | 0 <= i < |p.members|
      ensures p.members[i].key in TopKeys(p) && FullyListed(p.members[i].value, TopKeys(p))
    {
      assert p.members[i].key in KeysOf(p.members);
      RestrictNoObjects(p.members[i].value, TopKeys(p));
    }
  }

  lemma FlatIffSkeletonFlat(p: Json)
    requires IsPayload(p)
    ensures Flat(p) <==> Flat(Skeleton(p))
  {
    var kept, picked := RestrictMembers(p.members, TopKeys(p)), Skeleton(p).members;
    SkeletonMembers(p);
    forall i | 0 <= i < |kept|
      ensures NoObjects(kept[i].value) <==> NoObjects(p.members[i].value)
    {
      RestrictMemberAt(p.members, TopKeys(p), i);
      RestrictNoObjects(p.members[i].value, TopKeys(p));
    }
    assert forall i | 0 <= i < |kept| :: kept[i] in picked;
    assert forall i | 0 <= i < |picked| :: picked[i] in kept;
  }

  /** The value with one more member in every object. */
  function Extend(v: Json, k: Key): Json {
    match v
    case Array(items) => Array(ExtendItems(items, k))
    case Object(members) => Object(ExtendMembers(members, k) + [Member(k, Null)])
    case _ => v
  }

  function ExtendItems(items: seq<Json>, k: Key): (r: seq<Json>)
    ensures |r| == |items|
  {
    if items == [] then [] else [Extend(items[0], k)] + ExtendItems(items[1..], k)
  }

  function ExtendMembers(ms: seq<Member>, k: Key): (r: seq<Member>)
    ensures |r| == |ms| && forall i | 0 <= i < |ms| :: r[i].key == ms[i].key
  {
    if ms == [] then [] else [Member(ms[0].key, Extend(ms[0].value, k))] + ExtendMembers(ms[1..], k)
  }

  lemma {:induction false} ExtendItemAt(items: seq<Json>, k: Key, i: nat)
    requires i < |items|
    ensures ExtendItems(items, k)[i] == Extend(items[i], k)
  {
    if i == 0 {
    } else {
      ExtendItemAt(items[1..], k, i - 1);
    }
  }

  lemma {:induction false} ExtendMemberAt(ms: seq<Member>, k: Key, i: nat)
    requires i < |ms|
    ensures ExtendMembers(ms, k)[i] == Member(ms[i].key, Extend(ms[i].value, k))
  {
    if i == 0 {
    } else {
      ExtendMemberAt(ms[1..], k, i - 1);
    }
  }

  /** An unlisted member is not picked. */
  lemma {:induction false} PickIgnores(ms: seq<Member>, m: Member, allow: seq<Key>)
    requires m.key !in allow
    ensures Pick(ms + [m], allow) == Pick(ms, allow)
  {
    if allow == [] {
    } else {
      PickIgnores(ms, m, allow[1..]);
      FindIgnores(ms, m, allow[0]);
    }
  }

  lemma {:induction false} FindIgnores(ms: seq<Member>, m: Member, k: Key)
    requires m.key != k
    ensures Find(ms + [m], k) == Find(ms, k)
  {
    if ms == [] {
    } else {
      FindIgnores(ms[1..], m, k);
      assert (ms + [m])[1..] == ms[1..] + [m];
    }
  }

  lemma {:induction false} RestrictMembersAppend(ms: seq<Member>, m: Member, allow: seq<Key>)
    ensures RestrictMembers(ms + [m], allow) ==
            RestrictMembers(ms, allow) + [Member(m.key, Restrict(m.value, allow))]
  {
    if ms == [] {
      assert ms + [m] == [m];
    } else {
      assert (ms + [m])[1..] == ms[1..] + [m];
      RestrictMembersAppend(ms[1..], m, allow);
    }
  }

  /** Members with an unlisted key make a difference to the meaning but not to the restricted value. */
  lemma {:induction false} ExtendShape(v: Json, k: Key, allow: seq<Key>)
    requires WellFormed(v) && FullyListed(v, allow) && k !in allow
    ensures WellFormed(Extend(v, k)) && Restrict(Extend(v, k), allow) == Restrict(v, allow)
    ensures FullyListed(Extend(v, k), allow) ==> NoObjects(v)
  {
    match v
    case Array(items) =>
      forall i | 0 <= i < |items|
        ensures var r := ExtendItems(items, k)[i];
                && WellFormed(r) && RestrictItems(ExtendItems(items, k), allow)[i] == RestrictItems(items, allow)[i]
                && (FullyListed(r, allow) ==> NoObjects(items[i]))
      {
        ExtendItemAt(items, k, i);
        ExtendShape(items[i], k, allow);
        RestrictItemAt(items, allow, i);
        RestrictItemAt(ExtendItems(items, k), allow, i);
      }
      assert RestrictItems(ExtendItems(items, k), allow) == RestrictItems(items, allow);
    case Object(ms) =>
      forall i | 0 <= i < |ms|
        ensures WellFormed(ExtendMembers(ms, k)[i].value)
        ensures RestrictMembers(ExtendMembers(ms, k), allow)[i] == RestrictMembers(ms, allow)[i]
      {
        ExtendMemberAt(ms, k, i);
        ExtendShape(ms[i].value, k, allow);
        RestrictMemberAt(ms, allow, i);
        RestrictMemberAt(ExtendMembers(ms, k), allow, i);
      }
      ExtendedObject(ms, ExtendMembers(ms, k), k, allow);
    case _ =>
  }

  lemma ExtendedObject(ms: seq<Member>, more: seq<Member>, k: Key, allow: seq<Key>)
    requires DistinctKeys(ms) && k !in allow && FullyListed(Object(ms), allow)
    requires |more| == |ms| && forall i | 0 <= i < |ms| :: more[i].key == ms[i].key && WellFormed(more[i].value)
    requires forall i | 0 <= i < |ms| :: RestrictMembers(more, allow)[i] == RestrictMembers(ms, allow)[i]
    ensures var r := Object(more + [Member(k, Null)]);
            WellFormed(r) && Restrict(r, allow) == Restrict(Object(ms), allow) && !FullyListed(r, allow)
  {
    assert RestrictMembers(more, allow) == RestrictMembers(ms, allow);
    SameKeys(ms, RestrictMembers(ms, allow));
    ExtendedRestrict(ms, more, Member(k, Null), allow);
    ExtendedWellFormed(more, Member(k, Null));
    assert (more + [Member(k, Null)])[|more|].key !in allow;
  }

  lemma ExtendedRestrict(ms: seq<Member>, more: seq<Member>, m: Member, allow: seq<Key>)
    requires m.key !in allow && RestrictMembers(more, allow) == RestrictMembers(ms, allow)
    requires PROTO in allow ==> PROTO in KeysOf(RestrictMembers(ms, allow))
    ensures Restrict(Object(more + [m]), allow) == Restrict(Object(ms), allow)
  {
    var kept, last := RestrictMembers(ms, allow), Member(m.key, Restrict(m.value, allow));
    RestrictMembersAppend(more, m, allow);
    KeepsProto(kept, last);
    PickIgnores(kept, last, allow);
  }

  lemma ExtendedWellFormed(ms: seq<Member>, m: Member)
    requires WellFormed(Object(ms)) && WellFormed(m.value) && forall i | 0 <= i < |ms| :: ms[i].key != m.key
    ensures WellFormed(Object(ms + [m]))
  {
  }

  lemma KeepsProto(ms: seq<Member>, m: Member)
    ensures PROTO in KeysOf(ms) ==> PROTO in KeysOf(ms + [m])
  {
    if PROTO in KeysOf(ms) {
      var i :| 0 <= i < |ms| && ms[i].key == PROTO;
      assert (ms + [m])[i].key == PROTO;
    }
  }

  /** The payload with one more member in every object below the top level. */
  function Deepened(p: Json, k: Key): Json
    requires p.Object?
  {
    Object(ExtendMembers(p.members, k))
  }

  function ExtendedMember(k: Key): Member -> Member {
    (m: Member) => Member(m.key, Extend(m.value, k))
  }

  lemma DeepenedTopKeys(p: Json, k: Key)
    requires p.Object?
    ensures TopKeys(Deepened(p, k)) == TopKeys(p)
  {
    forall i | 0 <= i < |p.members|
      ensures ExtendMembers(p.members, k)[i] == Map(ExtendedMember(k), p.members)[i]
    {
      ExtendMemberAt(p.members, k, i);
    }
    assert ExtendMembers(p.members, k) == Map(ExtendedMember(k), p.members);
    SortMap(MemberBefore, ExtendedMember(k), p.members);
  }

  /** A covered payload that is not flat shares its key with a payload that means something else. */
  lemma DeepenedCollides(p: Json, k: Key)
    requires IsPayload(p) && Covered(p) && k !in TopKeys(p)
    ensures IsPayload(Deepened(p, k)) && Skeleton(Deepened(p, k)) == Skeleton(p)
    ensures Covered(Deepened(p, k)) ==> Flat(p)
  {
    var ms, more, allow := p.members, ExtendMembers(p.members, k), TopKeys(p);
    DeepenedTopKeys(p, k);
    forall i | 0 <= i < |ms|
      ensures WellFormed(more[i].value) && (FullyListed(more[i].value, allow) ==> NoObjects(ms[i].value))
      ensures RestrictMembers(more, allow)[i] == RestrictMembers(ms, allow)[i]
    {
      ExtendMemberAt(ms, k, i);
      ExtendShape(ms[i].value, k, allow);
      RestrictMemberAt(ms, allow, i);
      RestrictMemberAt(more, allow, i);
    }
    assert RestrictMembers(more, allow) == RestrictMembers(ms, allow);
  }

  lemma FreshKey(keys: seq<Key>) returns (k: Key)
    ensures k !in keys
  {
    k := [];
    for i := 0 to |keys|
      invariant forall j | 0 <= j < i :: |keys[j]| < |k|
    {
      k := k + keys[i] + [0];
    }
  }

  /** One payload with p's key and another meaning is enough for a wrong answer. */
  lemma CollisionIsServed(c: Codec, max: int, q: Json, p: Json) returns (ops: seq<Op>)
    requires Sound(c) && IsPayload(p) && IsPayload(q)
    requires Skeleton(p) == Skeleton(q) && Meaning(p, true) != Meaning(q, true)
    ensures ops == [Canonicalize(q)] && Answer(c, Run(c, max, ops), p) != c.canon(p)
  {
    ops := [Canonicalize(q)];
    assert ops[..0] == [];
    assert Run(c, max, ops) == After(c, max, [], q) == [Entry(CacheKey(c, q), c.canon(q))];
    assert CacheKey(c, q) == CacheKey(c, p);
  }

  /** A flat payload determines what its cache key stands for. */
  lemma FlatKeysDetermine(c: Codec, p: Json, q: Json)
    requires Sound(c) && IsPayload(p) && IsPayload(q) && Flat(p) && CacheKey(c, p) == CacheKey(c, q)
    ensures c.canon(p) == c.canon(q)
  {
    assert Skeleton(p) == Skeleton(q);
    FlatIffSkeletonFlat(p);
    FlatIffSkeletonFlat(q);
    FlatIsCovered(p);
    FlatIsCovered(q);
    CoveredKeysDetermine(c, p, q);
  }

  /** Whether the cache answers p correctly whatever payloads came before. */
  ghost predicate RightAfterAnyRun(c: Codec, max: int, p: Json)
    requires p.Object?
  {
    forall ops | PayloadOps(ops) :: Answer(c, Run(c, max, ops), p) == c.canon(p)
  }

  lemma FlatIsRight(c: Codec, max: int, ops: seq<Op>, p: Json)
    requires Sound(c) && PayloadOps(ops) && IsPayload(p) && Flat(p)
    ensures Answer(c, Run(c, max, ops), p) == c.canon(p)
  {
    AnswerIs(c, max, ops, p);
    var live := Get(Live(c, max, ops), CacheKey(c, p));
    if live.Some? {
      FlatKeysDetermine(c, p, live.value);
    }
  }

  lemma DeepGoesWrong(c: Codec, max: int, p: Json) returns (ops: seq<Op>)
    requires Sound(c) && IsPayload(p) && Covered(p) && !Flat(p)
    ensures PayloadOps(ops) && Answer(c, Run(c, max, ops), p) != c.canon(p)
  {
    var k := FreshKey(TopKeys(p));
    var q := Deepened(p, k);
    DeepenedCollides(p, k);
    TopKeysAre(p);
    TopKeysAre(q);
    RestrictMeaning(p, TopKeys(p));
    RestrictMeaning(q, TopKeys(q));
    ops := CollisionIsServed(c, max, q, p);
  }

  /** After runs of any payloads the answers stay right for exactly the flat payloads. */
  lemma RightAfterAnyRunIffFlat(c: Codec, max: int, p: Json)
    requires Sound(c) && IsPayload(p)
    ensures RightAfterAnyRun(c, max, p) <==> Flat(p)
  {
    if Flat(p) {
      forall ops | PayloadOps(ops)
        ensures Answer(c, Run(c, max, ops), p) == c.canon(p)
      {
        FlatIsRight(c, max, ops, p);
      }
    } else if Covered(p) {
      var ops := DeepGoesWrong(c, max, p);
    } else {
      TransparentIffCovered(c, max, p);
      var ops :| CoveredOps(ops) && Answer(c, Run(c, max, ops), p) != c.canon(p);
      assert PayloadOps(ops);
    }
  }

  /** The shortest collision: {a: {b: x}} has the same cache key whatever x is. */
  lemma NestedValuesAreLost(a: Key, b: Key, x: Json)
    requires a != b && a != PROTO
    ensures Skeleton(Object([Member(a, Object([Member(b, x)]))])) == Object([Member(a, Object([]))])
  {
    var inner := [Member(b, x)];
    var ms := [Member(a, Object(inner))];
    assert ms[1..] == [] && [a][1..] == [];
    assert Sort(MemberBefore, ms) == ms;
    assert Names(ms) == [a];
    assert inner[1..] == [];
    assert Pick(RestrictMembers(inner, [a]), [a]) == [];
    var kept := [Member(a, Object([]))];
    assert RestrictMembers(ms, [a]) == kept;
    PickOnly(kept[0], [a]);
  }
}
