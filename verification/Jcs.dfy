/**
 Deep key sorting of JSON values as a canonical form (section 3.2.3 of RFC 8785), on JavaScript
 objects as they are: keys that look like array indices are enumerated first, and assigning to
 the key "__proto__" creates no property.
 */
module Jcs {
  import opened Seqs

  /** A UTF-16 code unit; keys compare code unit by code unit. */
  newtype CodeUnit = x: int | 0 <= x < 0x1_0000

  type Key = seq<CodeUnit>

  /** A finite double other than minus zero, which JSON writes like zero, by its bit pattern. */
  newtype Double = x: int |
    0 <= x < 0x1_0000_0000_0000_0000 && (x / 0x10_0000_0000_0000) % 0x800 != 0x7FF && x != 0x8000_0000_0000_0000

  datatype Json =
    | Null
    | Bool(b: bool)
    | Number(n: Double)
    | String(s: Key)
    | Array(items: seq<Json>)
    | Object(members: seq<Member>)

  /** The members of an object are listed in enumeration order. */
  datatype Member = Member(key: Key, value: Json)

  /** The code units of "__proto__". */
  const PROTO: Key := [95, 95, 112, 114, 111, 116, 111, 95, 95]

  // ------------------------------------------------------------ key order

  predicate KeyBefore(a: Key, b: Key) {
    if b == [] then false
    else if a == [] then true
    else a[0] < b[0] || (a[0] == b[0] && KeyBefore(a[1..], b[1..]))
  }

  /**
   A key precedes another exactly when it is a proper beginning of it, or has the smaller code unit where they
   first differ.
   */
  lemma {:induction false} KeyBeforeIff(a: Key, b: Key)
    ensures KeyBefore(a, b) <==>
            exists i | 0 <= i <= |a| && i < |b| :: a[..i] == b[..i] && (i == |a| || a[i] < b[i])
  {
    if a == [] || b == [] {
      assert b != [] ==> a[..0] == b[..0];
    } else {
      KeyBeforeIff(a[1..], b[1..]);
      forall i | 0 < i <= |a| && i < |b|
        ensures a[..i] == b[..i] <==> a[0] == b[0] && a[1..][..i - 1] == b[1..][..i - 1]
      {
        assert a[..i] == [a[0]] + a[1..][..i - 1] && b[..i] == [b[0]] + b[1..][..i - 1];
      }
      if KeyBefore(a, b) {
        if a[0] < b[0] {
          assert a[..0] == b[..0];
        } else {
          var i :| 0 <= i <= |a[1..]| && i < |b[1..]| && a[1..][..i] == b[1..][..i] &&
                   (i == |a[1..]| || a[1..][i] < b[1..][i]);
          assert a[..i + 1] == b[..i + 1];
        }
      }
      if i :| 0 <= i <= |a| && i < |b| && a[..i] == b[..i] && (i == |a| || a[i] < b[i]) {
        if i > 0 {
          assert a[1..][..i - 1] == b[1..][..i - 1] && b[i] == b[1..][i - 1];
          assert i == |a| || a[1..][i - 1] < b[1..][i - 1];
        }
      }
    }
  }

  lemma ProtoIs()
    ensures |PROTO| == 9 && forall i | 0 <= i < 9 :: PROTO[i] as int == "__proto__"[i] as int
  {
  }

  predicate MemberBefore(a: Member, b: Member) {
    KeyBefore(a.key, b.key)
  }

  lemma {:induction false} KeyOrderLaws(a: Key, b: Key, c: Key)
    ensures KeyBefore(a, b) ==> !KeyBefore(b, a)
    ensures KeyBefore(a, b) ==> KeyBefore(a, c) || KeyBefore(c, b)
    ensures a == b || KeyBefore(a, b) || KeyBefore(b, a)
  {
    if a != [] && b != [] {
      KeyOrderLaws(a[1..], b[1..], if c == [] then [] else c[1..]);
      assert a == [a[0]] + a[1..] && b == [b[0]] + b[1..];
    }
  }

  lemma MemberOrder()
    ensures StrictWeakOrder(MemberBefore)
    ensures forall a: Member, b: Member :: a.key == b.key || MemberBefore(a, b) || MemberBefore(b, a)
  {
    forall a: Member, b: Member, c: Member
      ensures MemberBefore(a, b) ==> !MemberBefore(b, a)
      ensures MemberBefore(a, b) ==> MemberBefore(a, c) || MemberBefore(c, b)
      ensures a.key == b.key || MemberBefore(a, b) || MemberBefore(b, a)
    {
      KeyOrderLaws(a.key, b.key, c.key);
    }
  }

  // ------------------------------------------------------------ property assignment

  function KeysOf(ms: seq<Member>): (r: set<Key>)
    ensures forall k | k in r :: exists i | 0 <= i < |ms| :: ms[i].key == k
    ensures forall i | 0 <= i < |ms| :: ms[i].key in r
  {
    set i | 0 <= i < |ms| :: ms[i].key
  }

  ghost predicate DistinctKeys(ms: seq<Member>) {
    forall i, j | 0 <= i < j < |ms| :: ms[i].key != ms[j].key
  }

  predicate IsDigit(c: CodeUnit) {
    48 <= c <= 57
  }

  function NumberOf(key: Key): nat
    requires forall c | c in key :: IsDigit(c)
  {
    if key == [] then 0
    else
      var last := key[|key| - 1];
      assert IsDigit(last);
      NumberOf(key[..|key| - 1]) * 10 + (last as nat - 48)
  }

  /** The key is the decimal form of an array index: a number below 2^32 - 1 without leading zeros. */
  predicate IsIndex(key: Key) {
    && key != []
    && (forall c | c in key :: IsDigit(c))
    && (key[0] == 48 ==> |key| == 1)
    && NumberOf(key) < 0xFFFF_FFFF
  }

  /** Whether a member is enumerated before a new index key. */
  predicate Precedes(m: Member, key: Key)
    requires IsIndex(key)
  {
    IsIndex(m.key) && NumberOf(m.key) < NumberOf(key)
  }

  /** How many members are enumerated before a new index key. */
  function Place(ms: seq<Member>, key: Key): (i: nat)
    requires IsIndex(key)
    ensures i <= |ms|
  {
    if ms == [] || !Precedes(ms[0], key) then 0 else 1 + Place(ms[1..], key)
  }

  /** Assigning a new property. */
  function Put(ms: seq<Member>, m: Member): seq<Member> {
    if m.key == PROTO then ms
    else if IsIndex(m.key) then ms[..Place(ms, m.key)] + [m] + ms[Place(ms, m.key)..]
    else ms + [m]
  }

  function PutAll(ms: seq<Member>, more: seq<Member>): seq<Member>
    decreases more
  {
    if more == [] then ms else PutAll(Put(ms, more[0]), more[1..])
  }

  // ------------------------------------------------------------ deep sorting

  /**
   Objects are rebuilt by assigning their deeply sorted values key by key, in sorted key order.
   The values may be sorted before the keys are, because sorting looks at keys only.
   */
  function DeepSortKeys(v: Json): Json {
    match v
    case Array(items) => Array(DeepSortItems(items))
    case Object(members) => Object(PutAll([], Sort(MemberBefore, DeepSortMembers(members))))
    case _ => v
  }

  function DeepSortItems(items: seq<Json>): (r: seq<Json>)
    ensures |r| == |items|
  {
    if items == [] then [] else [DeepSortKeys(items[0])] + DeepSortItems(items[1..])
  }

  function DeepSortMembers(ms: seq<Member>): (r: seq<Member>)
    ensures |r| == |ms| && forall i | 0 <= i < |ms| :: r[i].key == ms[i].key
  {
    if ms == [] then [] else [Member(ms[0].key, DeepSortKeys(ms[0].value))] + DeepSortMembers(ms[1..])
  }

  function SortedMember(): Member -> Member {
    (m: Member) => Member(m.key, DeepSortKeys(m.value))
  }

  lemma {:induction false} DeepSortMembersIsMap(ms: seq<Member>)
    ensures DeepSortMembers(ms) == Map(SortedMember(), ms)
  {
    if ms == [] {
    } else {
      DeepSortMembersIsMap(ms[1..]);
      MapCons(SortedMember(), ms);
    }
  }

  /** The values may be sorted before or after the keys. */
  lemma SortMembersFirst(ms: seq<Member>)
    ensures Sort(MemberBefore, DeepSortMembers(ms)) == DeepSortMembers(Sort(MemberBefore, ms))
  {
    SortMap(MemberBefore, SortedMember(), ms);
    DeepSortMembersIsMap(ms);
    DeepSortMembersIsMap(Sort(MemberBefore, ms));
  }

  lemma NextItem(items: seq<Json>, i: nat)
    requires i < |items|
    ensures DeepSortItems(items[i..]) == [DeepSortKeys(items[i])] + DeepSortItems(items[i + 1..])
  {
    assert items[i..][1..] == items[i + 1..];
  }

  lemma NextMember(ms: seq<Member>, i: nat, done: seq<Member>)
    requires i < |ms|
    ensures PutAll(done, DeepSortMembers(ms[i..])) ==
            PutAll(Put(done, Member(ms[i].key, DeepSortKeys(ms[i].value))), DeepSortMembers(ms[i + 1..]))
  {
    var next := Member(ms[i].key, DeepSortKeys(ms[i].value));
    var rest := DeepSortMembers(ms[i + 1..]);
    assert ms[i..][1..] == ms[i + 1..];
    assert DeepSortMembers(ms[i..]) == [next] + rest;
    assert ([next] + rest)[1..] == rest;
  }

  /** The source's recursion: it sorts the keys, then sorts and assigns the values one by one. */
  method DeepSort(v: Json) returns (r: Json)
    ensures r == DeepSortKeys(v)
    decreases v
  {
    match v
    case Array(items) =>
      var done: seq<Json> := [];
      for i := 0 to |items|
        invariant DeepSortItems(items) == done + DeepSortItems(items[i..])
      {
        var item := DeepSort(items[i]);
        NextItem(items, i);
        done := done + [item];
      }
      r := Array(done);
    case Object(members) =>
      var todo := Sort(MemberBefore, members);
      SortPermutes(MemberBefore, members);
      SortMembersFirst(members);
      var sorted: seq<Member> := [];
      for i := 0 to |todo|
        invariant PutAll([], DeepSortMembers(todo)) == PutAll(sorted, DeepSortMembers(todo[i..]))
      {
        assert todo[i] in members;
        var value := DeepSort(todo[i].value);
        NextMember(todo, i, sorted);
        sorted := Put(sorted, Member(todo[i].key, value));
      }
      r := Object(sorted);
    case _ => r := v;
  }

  // ------------------------------------------------------------ what a value means

  /** A JSON value without any order of keys. */
  datatype Value =
    | VNull
    | VBool(b: bool)
    | VNumber(n: Double)
    | VString(s: Key)
    | VArray(items: seq<Value>)
    | VObject(members: map<Key, Value>)

  /** The value that a JavaScript object denotes, with or without its "__proto__" members. */
  function Meaning(v: Json, proto: bool): Value {
    match v
    case Null => VNull
    case Bool(b) => VBool(b)
    case Number(n) => VNumber(n)
    case String(s) => VString(s)
    case Array(items) => VArray(ItemMeanings(items, proto))
    case Object(members) => VObject(MemberMeanings(members, proto))
  }

  function ItemMeanings(items: seq<Json>, proto: bool): (r: seq<Value>)
    ensures |r| == |items|
  {
    if items == [] then [] else [Meaning(items[0], proto)] + ItemMeanings(items[1..], proto)
  }

  function MemberMeanings(ms: seq<Member>, proto: bool): map<Key, Value> {
    if ms == [] then map[]
    else if ms[0].key == PROTO && !proto then MemberMeanings(ms[1..], proto)
    else MemberMeanings(ms[1..], proto)[ms[0].key := Meaning(ms[0].value, proto)]
  }

  /** No object at any depth lists a key twice. */
  predicate WellFormed(v: Json) {
    match v
    case Array(items) => forall i | 0 <= i < |items| :: WellFormed(items[i])
    case Object(members) =>
      && (forall i, j | 0 <= i < j < |members| :: members[i].key != members[j].key)
      && (forall i | 0 <= i < |members| :: WellFormed(members[i].value))
    case _ => true
  }

  /** No object at any depth has the key "__proto__". */
  predicate NoProto(v: Json) {
    match v
    case Array(items) => forall i | 0 <= i < |items| :: NoProto(items[i])
    case Object(members) => forall i | 0 <= i < |members| :: members[i].key != PROTO && NoProto(members[i].value)
    case _ => true
  }

  lemma {:induction false} ItemMeaningAt(items: seq<Json>, proto: bool, i: nat)
    requires i < |items|
    ensures ItemMeanings(items, proto)[i] == Meaning(items[i], proto)
  {
    if i == 0 {
    } else {
      ItemMeaningAt(items[1..], proto, i - 1);
    }
  }

  /** With distinct keys, the members' meanings are a lookup table of the members. */
  lemma {:induction false} MemberMeaningAt(ms: seq<Member>, proto: bool, k: Key)
    requires DistinctKeys(ms)
    ensures k in MemberMeanings(ms, proto) <==> k in KeysOf(ms) && (proto || k != PROTO)
    ensures forall i | 0 <= i < |ms| && ms[i].key == k && (proto || k != PROTO) ::
              k in MemberMeanings(ms, proto) && MemberMeanings(ms, proto)[k] == Meaning(ms[i].value, proto)
  {
    if ms == [] {
    } else {
      MemberMeaningAt(ms[1..], proto, k);
      KeysOfCons(ms);
      assert forall i | 0 < i < |ms| :: ms[i] == ms[1..][i - 1] && ms[i].key != ms[0].key;
    }
  }

  lemma KeysOfCons(ms: seq<Member>)
    requires ms != []
    ensures KeysOf(ms) == {ms[0].key} + KeysOf(ms[1..])
  {
    assert forall i | 0 <= i < |ms| - 1 :: ms[1..][i] == ms[i + 1];
    assert forall i | 0 < i < |ms| :: ms[i] == ms[1..][i - 1];
  }

  // ------------------------------------------------------------ building objects

  lemma PutMembers(ms: seq<Member>, m: Member)
    requires DistinctKeys(ms) && m.key !in KeysOf(ms)
    ensures DistinctKeys(Put(ms, m))
    ensures forall x :: x in Put(ms, m) <==> x in ms || (x == m && m.key != PROTO)
  {
    assert forall i | 0 <= i < |ms| :: ms[i].key in KeysOf(ms);
    if m.key != PROTO {
      var i := if IsIndex(m.key) then Place(ms, m.key) else |ms|;
      assert IsIndex(m.key) || ms[..i] + [m] + ms[i..] == ms + [m];
      assert ms == ms[..i] + ms[i..];
      InsertedBetween(ms[..i], m, ms[i..]);
    }
  }

  lemma InsertedBetween(a: seq<Member>, m: Member, b: seq<Member>)
    requires DistinctKeys(a + b) && forall j | 0 <= j < |a + b| :: (a + b)[j].key != m.key
    ensures DistinctKeys(a + [m] + b)
    ensures forall x :: x in a + [m] + b <==> x == m || x in a + b
  {
    var r := a + [m] + b;
    forall i, j | 0 <= i < j < |r|
      ensures r[i].key != r[j].key
    {
      assert i != |a| ==> r[i] == (a + b)[if i < |a| then i else i - 1];
      assert j != |a| ==> r[j] == (a + b)[if j < |a| then j else j - 1];
    }
  }

  /** What assigning a list of new properties leaves: the old ones and the new ones but "__proto__". */
  lemma {:induction false} PutAllMembers(ms: seq<Member>, more: seq<Member>)
    requires DistinctKeys(ms) && DistinctKeys(more)
    requires forall m, m' | m in ms && m' in more :: m.key != m'.key
    ensures DistinctKeys(PutAll(ms, more))
    ensures forall m :: m in PutAll(ms, more) <==> m in ms || (m in more && m.key != PROTO)
    decreases more
  {
    if more == [] {
    } else {
      var head, rest := more[0], more[1..];
      assert head in more && forall m | m in rest :: m in more && m.key != head.key;
      PutMembers(ms, head);
      assert forall m :: m in more <==> m == head || m in rest;
      PutAllMembers(Put(ms, head), rest);
    }
  }

  lemma {:induction false} DeepSortMembersAre(ms: seq<Member>, i: nat)
    requires i < |ms|
    ensures DeepSortMembers(ms)[i] == Member(ms[i].key, DeepSortKeys(ms[i].value))
  {
    if i == 0 {
    } else {
      DeepSortMembersAre(ms[1..], i - 1);
    }
  }

  lemma {:induction false} DeepSortItemsAre(items: seq<Json>, i: nat)
    requires i < |items|
    ensures DeepSortItems(items)[i] == DeepSortKeys(items[i])
  {
    if i == 0 {
    } else {
      DeepSortItemsAre(items[1..], i - 1);
    }
  }

  lemma {:induction false} InsertDistinct(x: Member, ms: seq<Member>)
    requires DistinctKeys(ms) && forall m | m in ms :: m.key != x.key
    ensures DistinctKeys(Insert(MemberBefore, x, ms))
    ensures forall m :: m in Insert(MemberBefore, x, ms) <==> m == x || m in ms
  {
    if ms != [] && MemberBefore(ms[0], x) {
      InsertDistinct(x, ms[1..]);
      var t := Insert(MemberBefore, x, ms[1..]);
      assert forall m | m in t :: m.key != ms[0].key;
      assert forall j | 0 <= j < |t| :: t[j] in t;
    }
  }

  lemma {:induction false} SortDistinct(ms: seq<Member>)
    requires DistinctKeys(ms)
    ensures DistinctKeys(Sort(MemberBefore, ms))
    ensures forall m :: m in Sort(MemberBefore, ms) <==> m in ms
  {
    if ms == [] {
    } else {
      SortDistinct(ms[1..]);
      assert forall m | m in ms[1..] :: m.key != ms[0].key;
      InsertDistinct(ms[0], Sort(MemberBefore, ms[1..]));
    }
  }

  /** The members of a deeply sorted object: all but "__proto__", deeply sorted, each key once. */
  lemma SortedObject(ms: seq<Member>)
    requires DistinctKeys(ms)
    ensures var r := PutAll([], Sort(MemberBefore, DeepSortMembers(ms)));
            && DistinctKeys(r)
            && forall m :: m in r <==> m in DeepSortMembers(ms) && m.key != PROTO
  {
    var sorted := DeepSortMembers(ms);
    SortDistinct(sorted);
    PutAllMembers([], Sort(MemberBefore, sorted));
  }

  // ------------------------------------------------------------ the laws

  /**
   Deep sorting keeps exactly the value without its "__proto__" members, and never makes one.
   */
  lemma {:induction false} DeepSortMeaning(v: Json, proto: bool)
    requires WellFormed(v)
    ensures WellFormed(DeepSortKeys(v)) && NoProto(DeepSortKeys(v))
    ensures Meaning(DeepSortKeys(v), proto) == Meaning(v, false)
  {
    match v
    case Array(items) =>
      forall i | 0 <= i < |items|
        ensures WellFormed(DeepSortItems(items)[i]) && NoProto(DeepSortItems(items)[i])
        ensures ItemMeanings(DeepSortItems(items), proto)[i] == ItemMeanings(items, false)[i]
      {
        DeepSortMeaning(items[i], proto);
        DeepSortItemsAre(items, i);
        ItemMeaningAt(items, false, i);
        ItemMeaningAt(DeepSortItems(items), proto, i);
      }
    case Object(ms) =>
      forall i | 0 <= i < |ms|
        ensures DeepSortMembers(ms)[i] == Member(ms[i].key, DeepSortKeys(ms[i].value))
        ensures WellFormed(DeepSortKeys(ms[i].value)) && NoProto(DeepSortKeys(ms[i].value))
        ensures Meaning(DeepSortKeys(ms[i].value), proto) == Meaning(ms[i].value, false)
      {
        DeepSortMembersAre(ms, i);
        DeepSortMeaning(ms[i].value, proto);
      }
      ObjectMeaning(ms, proto);
    case _ =>
  }

  lemma ObjectMeaning(ms: seq<Member>, proto: bool)
    requires DistinctKeys(ms)
    requires forall i | 0 <= i < |ms| ::
               && DeepSortMembers(ms)[i] == Member(ms[i].key, DeepSortKeys(ms[i].value))
               && WellFormed(DeepSortKeys(ms[i].value)) && NoProto(DeepSortKeys(ms[i].value))
               && Meaning(DeepSortKeys(ms[i].value), proto) == Meaning(ms[i].value, false)
    ensures var r := PutAll([], Sort(MemberBefore, DeepSortMembers(ms)));
            && WellFormed(Object(r)) && NoProto(Object(r))
            && MemberMeanings(r, proto) == MemberMeanings(ms, false)
  {
    var sorted := DeepSortMembers(ms);
    var r := PutAll([], Sort(MemberBefore, sorted));
    SortedObject(ms);
    forall i | 0 <= i < |r|
      ensures r[i].key != PROTO && WellFormed(r[i].value) && NoProto(r[i].value)
    {
      assert r[i] in r;
      var j :| 0 <= j < |sorted| && sorted[j] == r[i];
    }
    forall k
      ensures k in MemberMeanings(r, proto) <==> k in MemberMeanings(ms, false)
      ensures k in MemberMeanings(r, proto) ==> MemberMeanings(r, proto)[k] == MemberMeanings(ms, false)[k]
    {
      KeyMeaning(ms, sorted, r, proto, k);
    }
  }

  lemma KeyMeaning(ms: seq<Member>, sorted: seq<Member>, r: seq<Member>, proto: bool, k: Key)
    requires DistinctKeys(ms) && DistinctKeys(r)
    requires forall m :: m in r <==> m in sorted && m.key != PROTO
    requires |sorted| == |ms| && forall i | 0 <= i < |ms| ::
               && sorted[i].key == ms[i].key
               && Meaning(sorted[i].value, proto) == Meaning(ms[i].value, false)
    ensures k in MemberMeanings(r, proto) <==> k in MemberMeanings(ms, false)
    ensures k in MemberMeanings(r, proto) ==> MemberMeanings(r, proto)[k] == MemberMeanings(ms, false)[k]
  {
    KeyExists(ms, sorted, r, k);
    MemberMeaningAt(r, proto, k);
    MemberMeaningAt(ms, false, k);
    if k in KeysOf(r) {
      var i, j := Counterparts(ms, sorted, r, k);
      assert MemberMeanings(r, proto)[k] == Meaning(r[j].value, proto);
      assert MemberMeanings(ms, false)[k] == Meaning(ms[i].value, false);
    }
  }

  lemma Counterparts(ms: seq<Member>, sorted: seq<Member>, r: seq<Member>, k: Key) returns (i: nat, j: nat)
    requires forall m :: m in r <==> m in sorted && m.key != PROTO
    requires |sorted| == |ms| && forall i | 0 <= i < |ms| :: sorted[i].key == ms[i].key
    requires k in KeysOf(r)
    ensures i < |ms| && j < |r| && sorted[i] == r[j] && ms[i].key == r[j].key == k != PROTO
  {
    j :| 0 <= j < |r| && r[j].key == k;
    assert r[j] in sorted;
    i :| 0 <= i < |sorted| && sorted[i] == r[j];
  }

  lemma KeyExists(ms: seq<Member>, sorted: seq<Member>, r: seq<Member>, k: Key)
    requires forall m :: m in r <==> m in sorted && m.key != PROTO
    requires |sorted| == |ms| && forall i | 0 <= i < |ms| :: sorted[i].key == ms[i].key
    ensures k in KeysOf(r) <==> k in KeysOf(ms) && k != PROTO
  {
    if k in KeysOf(r) {
      var j :| 0 <= j < |r| && r[j].key == k;
      assert r[j] in sorted;
    }
    if k in KeysOf(ms) && k != PROTO {
      var i :| 0 <= i < |ms| && ms[i].key == k;
      assert sorted[i] in r;
    }
  }

  /** Strictly sorted lists with the same members are equal. */
  lemma {:induction false} StrictlySortedUnique(a: seq<Member>, b: seq<Member>)
    requires StrictWeakOrder(MemberBefore)
    requires forall i, j | 0 <= i < j < |a| :: MemberBefore(a[i], a[j])
    requires forall i, j | 0 <= i < j < |b| :: MemberBefore(b[i], b[j])
    requires forall m :: m in a <==> m in b
    ensures a == b
  {
    assert b == [] || b[0] in b;
    if a == [] {
    } else {
      assert a[0] in b && b[0] in a;
      assert a[0] == b[0];
      assert forall m | m in a[1..] :: MemberBefore(a[0], m);
      assert forall m | m in b[1..] :: MemberBefore(b[0], m);
      assert forall m :: m in a <==> m == a[0] || m in a[1..];
      assert forall m :: m in b <==> m == b[0] || m in b[1..];
      StrictlySortedUnique(a[1..], b[1..]);
    }
  }

  /** Sorting keeps no trace of the original order of members with distinct keys. */
  lemma SortOfSameMembers(a: seq<Member>, b: seq<Member>)
    requires DistinctKeys(a) && DistinctKeys(b)
    requires forall m :: m in a <==> m in b
    ensures Sort(MemberBefore, a) == Sort(MemberBefore, b)
  {
    MemberOrder();
    SortSorted(MemberBefore, a);
    SortSorted(MemberBefore, b);
    SortDistinct(a);
    SortDistinct(b);
    StrictlySortedUnique(Sort(MemberBefore, a), Sort(MemberBefore, b));
  }

  /** Assigning "__proto__" members makes no difference. */
  lemma {:induction false} PutAllWithoutProto(ms: seq<Member>, more: seq<Member>)
    ensures PutAll(ms, more) == PutAll(ms, Filter(NotProto(), more))
    decreases more
  {
    if more == [] {
    } else {
      PutAllWithoutProto(Put(ms, more[0]), more[1..]);
      if more[0].key != PROTO {
        assert Filter(NotProto(), more)[1..] == Filter(NotProto(), more[1..]);
      }
    }
  }

  function NotProto(): Member -> bool {
    (m: Member) => m.key != PROTO
  }

  lemma FilterDistinct(p: Member -> bool, ms: seq<Member>)
    requires DistinctKeys(ms)
    ensures DistinctKeys(Filter(p, ms))
  {
    var f := Filter(p, ms);
    forall i, j | 0 <= i < j < |f|
      ensures f[i].key != f[j].key
    {
      var a, b := FilterPositions(p, ms, i, j);
    }
  }

  /** Values that mean the same have the same deeply sorted form. */
  lemma {:induction false} SameMeaningSameForm(a: Json, b: Json)
    requires WellFormed(a) && WellFormed(b)
    requires Meaning(a, false) == Meaning(b, false)
    ensures DeepSortKeys(a) == DeepSortKeys(b)
  {
    match a
    case Array(items) =>
      forall i | 0 <= i < |items|
        ensures DeepSortItems(items)[i] == DeepSortItems(b.items)[i]
      {
        assert ItemMeanings(items, false)[i] == ItemMeanings(b.items, false)[i];
        ItemMeaningAt(items, false, i);
        ItemMeaningAt(b.items, false, i);
        SameMeaningSameForm(items[i], b.items[i]);
        DeepSortItemsAre(items, i);
        DeepSortItemsAre(b.items, i);
      }
      assert DeepSortItems(items) == DeepSortItems(b.items);
    case Object(ms) =>
      forall i, j | 0 <= i < |ms| && 0 <= j < |b.members| && ms[i].key == b.members[j].key != PROTO
        ensures DeepSortKeys(ms[i].value) == DeepSortKeys(b.members[j].value)
      {
        MemberMeaningAt(ms, false, ms[i].key);
        MemberMeaningAt(b.members, false, ms[i].key);
        SameMeaningSameForm(ms[i].value, b.members[j].value);
      }
      SameFormMembers(ms, b.members);
    case _ =>
  }

  /** Objects whose corresponding values have the same form have the same form. */
  lemma SameFormMembers(a: seq<Member>, b: seq<Member>)
    requires DistinctKeys(a) && DistinctKeys(b)
    requires MemberMeanings(a, false).Keys == MemberMeanings(b, false).Keys
    requires forall i, j | 0 <= i < |a| && 0 <= j < |b| && a[i].key == b[j].key != PROTO ::
               DeepSortKeys(a[i].value) == DeepSortKeys(b[j].value)
    ensures PutAll([], Sort(MemberBefore, DeepSortMembers(a))) == PutAll([], Sort(MemberBefore, DeepSortMembers(b)))
  {
    var p := NotProto();
    var x, y := DeepSortMembers(a), DeepSortMembers(b);
    MemberOrder();
    PutAllWithoutProto([], Sort(MemberBefore, x));
    PutAllWithoutProto([], Sort(MemberBefore, y));
    FilterSort(MemberBefore, p, x);
    FilterSort(MemberBefore, p, y);
    FilterDistinct(p, x);
    FilterDistinct(p, y);
    SameFormIncluded(a, b);
    SameFormIncluded(b, a);
    SortOfSameMembers(Filter(p, x), Filter(p, y));
  }

  lemma SameFormIncluded(a: seq<Member>, b: seq<Member>)
    requires DistinctKeys(a) && DistinctKeys(b)
    requires MemberMeanings(a, false).Keys == MemberMeanings(b, false).Keys
    requires forall i, j | 0 <= i < |a| && 0 <= j < |b| && a[i].key == b[j].key != PROTO ::
               DeepSortKeys(a[i].value) == DeepSortKeys(b[j].value)
    ensures forall m | m in Filter(NotProto(), DeepSortMembers(a)) :: m in Filter(NotProto(), DeepSortMembers(b))
  {
    var x, y := DeepSortMembers(a), DeepSortMembers(b);
    forall m | m in Filter(NotProto(), x)
      ensures m in Filter(NotProto(), y)
    {
      var i :| 0 <= i < |x| && x[i] == m;
      MemberMeaningAt(a, false, m.key);
      MemberMeaningAt(b, false, m.key);
      assert m.key in KeysOf(a);
      var j :| 0 <= j < |b| && b[j].key == m.key;
      DeepSortMembersAre(a, i);
      DeepSortMembersAre(b, j);
      assert y[j] == m && NotProto()(m);
    }
  }

  /**
   Deep sorting is a canonical form: two values have the same form exactly when they differ in
   nothing but key order and "__proto__" members, and sorting twice changes nothing more.
   */
  lemma DeepSortIsCanonical(a: Json, b: Json)
    requires WellFormed(a) && WellFormed(b)
    ensures DeepSortKeys(a) == DeepSortKeys(b) <==> Meaning(a, false) == Meaning(b, false)
    ensures DeepSortKeys(DeepSortKeys(a)) == DeepSortKeys(a)
  {
    DeepSortMeaning(a, false);
    DeepSortMeaning(b, false);
    if Meaning(a, false) == Meaning(b, false) {
      SameMeaningSameForm(a, b);
    }
    SameMeaningSameForm(DeepSortKeys(a), a);
  }

  /** Leaving "__proto__" members out of account changes nothing exactly when there are none. */
  lemma {:induction false} MeaningWithoutProto(v: Json)
    requires WellFormed(v)
    ensures Meaning(v, true) == Meaning(v, false) <==> NoProto(v)
  {
    match v
    case Array(items) =>
      forall i | 0 <= i < |items|
        ensures ItemMeanings(items, true)[i] == ItemMeanings(items, false)[i] <==> NoProto(items[i])
      {
        MeaningWithoutProto(items[i]);
        ItemMeaningAt(items, true, i);
        ItemMeaningAt(items, false, i);
      }
    case Object(ms) =>
      forall i | 0 <= i < |ms|
        ensures Meaning(ms[i].value, true) == Meaning(ms[i].value, false) <==> NoProto(ms[i].value)
      {
        MeaningWithoutProto(ms[i].value);
      }
      MembersWithoutProto(ms);
    case _ =>
  }

  lemma MembersWithoutProto(ms: seq<Member>)
    requires DistinctKeys(ms)
    ensures MemberMeanings(ms, true) == MemberMeanings(ms, false) <==>
            forall i | 0 <= i < |ms| ::
              ms[i].key != PROTO && Meaning(ms[i].value, true) == Meaning(ms[i].value, false)
  {
    var a, b := MemberMeanings(ms, true), MemberMeanings(ms, false);
    forall i | 0 <= i < |ms|
      ensures ms[i].key in a && a[ms[i].key] == Meaning(ms[i].value, true)
      ensures ms[i].key in b <==> ms[i].key != PROTO
      ensures ms[i].key in b ==> b[ms[i].key] == Meaning(ms[i].value, false)
    {
      MemberMeaningAt(ms, true, ms[i].key);
      MemberMeaningAt(ms, false, ms[i].key);
    }
    forall k
      ensures k in a || k in b ==> k in KeysOf(ms)
    {
      MemberMeaningAt(ms, true, k);
      MemberMeaningAt(ms, false, k);
    }
  }

  /** Deep sorting preserves a value exactly when no object in it has the key "__proto__". */
  lemma DeepSortPreservesIffNoProto(v: Json)
    requires WellFormed(v)
    ensures Meaning(DeepSortKeys(v), true) == Meaning(v, true) <==> NoProto(v)
  {
    DeepSortMeaning(v, true);
    MeaningWithoutProto(v);
  }

  // ------------------------------------------------------------ the order of keys in the output

  /** An index key is enumerated before all greater ones and before all keys that are not indices. */
  predicate EnumeratedFirst(a: Key, b: Key) {
    IsIndex(a) && (!IsIndex(b) || NumberOf(a) < NumberOf(b))
  }

  /** Index keys in ascending order of their numbers, then the other keys in code unit order. */
  predicate EnumeratedBefore(a: Key, b: Key) {
    EnumeratedFirst(a, b) || (!IsIndex(a) && !IsIndex(b) && KeyBefore(a, b))
  }

  ghost predicate InEnumerationOrder(ms: seq<Member>) {
    forall i, j | 0 <= i < j < |ms| :: EnumeratedBefore(ms[i].key, ms[j].key)
  }

  /** Decimal forms without leading zeros differ in their numbers. */
  lemma {:induction false} NumbersDiffer(a: Key, b: Key)
    requires a != [] && b != [] && (forall c | c in a :: IsDigit(c)) && (forall c | c in b :: IsDigit(c))
    requires (a[0] == 48 ==> |a| == 1) && (b[0] == 48 ==> |b| == 1)
    requires NumberOf(a) == NumberOf(b)
    ensures a == b
  {
    var x, y := a[..|a| - 1], b[..|b| - 1];
    assert a == x + [a[|a| - 1]] && b == y + [b[|b| - 1]];
    assert IsDigit(a[|a| - 1]) && IsDigit(b[|b| - 1]);
    if |a| > 1 {
      AtLeastTen(a);
    }
    if |b| > 1 {
      AtLeastTen(b);
    }
    if |a| > 1 && |b| > 1 {
      NumbersDiffer(x, y);
    }
  }

  lemma {:induction false} AtLeastTen(a: Key)
    requires a != [] && a[0] != 48 && forall c | c in a :: IsDigit(c)
    ensures NumberOf(a) >= 1
    ensures |a| > 1 ==> NumberOf(a) >= 10
  {
    assert IsDigit(a[0]) && IsDigit(a[|a| - 1]);
    if |a| == 1 {
      assert NumberOf(a[..0]) == 0;
    } else {
      AtLeastTen(a[..|a| - 1]);
    }
  }

  /** The decimal digits of a number. */
  ghost function Decimal(n: nat): Key {
    (if n < 10 then [] else Decimal(n / 10)) + [(48 + n % 10) as CodeUnit]
  }

  lemma {:induction false} DecimalNumber(n: nat)
    ensures var d := Decimal(n);
            && d != [] && (forall c | c in d :: IsDigit(c)) && NumberOf(d) == n
            && (d[0] == 48 ==> |d| == 1 && n == 0)
  {
    var d := Decimal(n);
    assert IsDigit(d[|d| - 1]);
    if n < 10 {
      assert d[..0] == [] && NumberOf([]) == 0;
    } else {
      DecimalNumber(n / 10);
      assert d[..|d| - 1] == Decimal(n / 10);
    }
  }

  /** Index keys are exactly the decimal forms of the numbers below 2^32 - 1. */
  lemma IndexIffDecimal(key: Key)
    ensures IsIndex(key) <==> exists n: nat | n < 4294967295 :: key == Decimal(n)
  {
    if IsIndex(key) {
      DecimalNumber(NumberOf(key));
      NumbersDiffer(key, Decimal(NumberOf(key)));
    }
    if n: nat :| n < 4294967295 && key == Decimal(n) {
      DecimalNumber(n);
    }
  }

  lemma IndicesDiffer(a: Key, b: Key)
    requires IsIndex(a) && IsIndex(b) && a != b
    ensures EnumeratedFirst(a, b) || EnumeratedFirst(b, a)
  {
    if NumberOf(a) == NumberOf(b) {
      NumbersDiffer(a, b);
    }
  }

  lemma {:induction false} PlaceSplits(ms: seq<Member>, key: Key)
    requires IsIndex(key)
    ensures forall i | 0 <= i < Place(ms, key) :: EnumeratedFirst(ms[i].key, key)
    ensures Place(ms, key) < |ms| ==> !EnumeratedFirst(ms[Place(ms, key)].key, key)
  {
    if ms == [] || !Precedes(ms[0], key) {
    } else {
      PlaceSplits(ms[1..], key);
      assert forall i | 0 < i < |ms| :: ms[i] == ms[1..][i - 1];
    }
  }

  /** A new index key goes to its place among the others, any other key to the end. */
  lemma PutInOrder(ms: seq<Member>, m: Member)
    requires InEnumerationOrder(ms) && m.key != PROTO && forall x | x in ms :: x.key != m.key
    requires !IsIndex(m.key) ==> forall x | x in ms && !IsIndex(x.key) :: KeyBefore(x.key, m.key)
    ensures InEnumerationOrder(Put(ms, m))
  {
    if IsIndex(m.key) {
      var p := Place(ms, m.key);
      PlaceSplits(ms, m.key);
      forall j | p <= j < |ms|
        ensures EnumeratedBefore(m.key, ms[j].key)
      {
        assert ms[p] in ms && (p < j ==> EnumeratedBefore(ms[p].key, ms[j].key));
        if IsIndex(ms[p].key) {
          IndicesDiffer(m.key, ms[p].key);
        }
      }
      InsertedInOrder(ms, m, p);
    } else {
      InsertedInOrder(ms, m, |ms|);
      assert ms[..|ms|] + [m] + ms[|ms|..] == ms + [m];
    }
  }

  lemma InsertedInOrder(ms: seq<Member>, m: Member, p: nat)
    requires InEnumerationOrder(ms) && p <= |ms|
    requires forall i | 0 <= i < p :: EnumeratedBefore(ms[i].key, m.key)
    requires forall j | p <= j < |ms| :: EnumeratedBefore(m.key, ms[j].key)
    ensures InEnumerationOrder(ms[..p] + [m] + ms[p..])
  {
    var r := ms[..p] + [m] + ms[p..];
    forall i, j | 0 <= i < j < |r|
      ensures EnumeratedBefore(r[i].key, r[j].key)
    {
      assert i != p ==> r[i] == ms[if i < p then i else i - 1];
      assert j != p ==> r[j] == ms[if j < p then j else j - 1];
    }
  }

  /** Assigning sorted keys enumerates them in order. */
  lemma {:induction false} PutAllInOrder(ms: seq<Member>, more: seq<Member>)
    requires InEnumerationOrder(ms) && DistinctKeys(ms)
    requires forall i, j | 0 <= i < j < |more| :: MemberBefore(more[i], more[j]) && more[i].key != more[j].key
    requires forall x, m | x in ms && m in more :: x.key != m.key && (IsIndex(x.key) || KeyBefore(x.key, m.key))
    ensures InEnumerationOrder(PutAll(ms, more))
    decreases more
  {
    if more == [] {
    } else {
      var head, rest := more[0], more[1..];
      assert head in more;
      assert forall m | m in rest :: m in more && m.key != head.key && KeyBefore(head.key, m.key);
      PutMembers(ms, head);
      if head.key != PROTO {
        PutInOrder(ms, head);
      }
      PutAllInOrder(Put(ms, head), rest);
    }
  }

  /** The keys of a deeply sorted object are enumerated in order. */
  lemma ObjectInOrder(ms: seq<Member>)
    requires DistinctKeys(ms)
    ensures InEnumerationOrder(PutAll([], Sort(MemberBefore, ms)))
  {
    var s := Sort(MemberBefore, ms);
    MemberOrder();
    SortSorted(MemberBefore, ms);
    SortDistinct(ms);
    PutAllInOrder([], s);
  }

  /** The keys of every object are in strictly ascending code unit order. */
  predicate KeysAscend(v: Json) {
    match v
    case Array(items) => forall i | 0 <= i < |items| :: KeysAscend(items[i])
    case Object(members) =>
      && (forall i, j | 0 <= i < j < |members| :: MemberBefore(members[i], members[j]))
      && (forall i | 0 <= i < |members| :: KeysAscend(members[i].value))
    case _ => true
  }

  /** Wherever an index key is enumerated before another key it also precedes it in code unit order. */
  predicate OrdersAgree(v: Json) {
    match v
    case Array(items) => forall i | 0 <= i < |items| :: OrdersAgree(items[i])
    case Object(members) =>
      && KeysAgree(members)
      && (forall i | 0 <= i < |members| && members[i].key != PROTO :: OrdersAgree(members[i].value))
    case _ => true
  }

  predicate KeysAgree(ms: seq<Member>) {
    forall i, j | 0 <= i < |ms| && 0 <= j < |ms| && ms[i].key != PROTO && ms[j].key != PROTO ::
      EnumeratedFirst(ms[i].key, ms[j].key) ==> KeyBefore(ms[i].key, ms[j].key)
  }

  /** A list in enumeration order ascends exactly when the two orders agree on its keys. */
  lemma AscendsIffAgree(r: seq<Member>)
    requires InEnumerationOrder(r) && forall m | m in r :: m.key != PROTO
    ensures (forall i, j | 0 <= i < j < |r| :: MemberBefore(r[i], r[j])) <==> KeysAgree(r)
  {
    forall i, j | 0 <= j <= i < |r|
      ensures !EnumeratedFirst(r[i].key, r[j].key)
    {
      assert j < i ==> EnumeratedBefore(r[j].key, r[i].key);
    }
    if forall i, j | 0 <= i < j < |r| :: MemberBefore(r[i], r[j]) {
      forall i, j | 0 <= i < |r| && 0 <= j < |r| && EnumeratedFirst(r[i].key, r[j].key)
        ensures KeyBefore(r[i].key, r[j].key)
      {
        assert MemberBefore(r[i], r[j]);
      }
    }
    if KeysAgree(r) {
      forall i, j | 0 <= i < j < |r|
        ensures MemberBefore(r[i], r[j])
      {
        assert r[i] in r && r[j] in r && EnumeratedBefore(r[i].key, r[j].key);
      }
    }
  }

  lemma KeysAgreeSame(ms: seq<Member>, sorted: seq<Member>, r: seq<Member>)
    requires forall m :: m in r <==> m in sorted && m.key != PROTO
    requires |sorted| == |ms| && forall i | 0 <= i < |ms| :: sorted[i].key == ms[i].key
    ensures KeysAgree(r) <==> KeysAgree(ms)
  {
    forall k
      ensures k in KeysOf(r) <==> k in KeysOf(ms) && k != PROTO
    {
      KeyExists(ms, sorted, r, k);
    }
    KeysAgreeOnKeys(r);
    KeysAgreeOnKeys(ms);
  }

  lemma KeysAgreeOnKeys(ms: seq<Member>)
    ensures KeysAgree(ms) <==>
            forall a, b | a in KeysOf(ms) && b in KeysOf(ms) && a != PROTO && b != PROTO ::
              EnumeratedFirst(a, b) ==> KeyBefore(a, b)
  {
    if KeysAgree(ms) {
      forall a, b | a in KeysOf(ms) && b in KeysOf(ms) && a != PROTO && b != PROTO && EnumeratedFirst(a, b)
        ensures KeyBefore(a, b)
      {
        var i :| 0 <= i < |ms| && ms[i].key == a;
        var j :| 0 <= j < |ms| && ms[j].key == b;
      }
    }
  }

  /** The deeply sorted form lists all keys in code unit order exactly when the two orders agree. */
  lemma {:induction false} AscendsIffOrdersAgree(v: Json)
    requires WellFormed(v)
    ensures KeysAscend(DeepSortKeys(v)) <==> OrdersAgree(v)
  {
    match v
    case Array(items) =>
      forall i | 0 <= i < |items|
        ensures KeysAscend(DeepSortItems(items)[i]) <==> OrdersAgree(items[i])
      {
        AscendsIffOrdersAgree(items[i]);
        DeepSortItemsAre(items, i);
      }
    case Object(ms) =>
      var sorted := DeepSortMembers(ms);
      forall i | 0 <= i < |ms|
        ensures KeysAscend(sorted[i].value) <==> OrdersAgree(ms[i].value)
      {
        AscendsIffOrdersAgree(ms[i].value);
        DeepSortMembersAre(ms, i);
      }
      SortedObject(ms);
      ObjectInOrder(sorted);
      ObjectAscends(ms, sorted, PutAll([], Sort(MemberBefore, sorted)));
    case _ =>
  }

  lemma ObjectAscends(ms: seq<Member>, sorted: seq<Member>, r: seq<Member>)
    requires InEnumerationOrder(r) && forall m :: m in r <==> m in sorted && m.key != PROTO
    requires |sorted| == |ms| && forall i | 0 <= i < |ms| ::
               sorted[i].key == ms[i].key && (KeysAscend(sorted[i].value) <==> OrdersAgree(ms[i].value))
    ensures KeysAscend(Object(r)) <==> OrdersAgree(Object(ms))
  {
    AscendsIffAgree(r);
    KeysAgreeSame(ms, sorted, r);
    ValuesAscend(ms, sorted, r);
  }

  lemma ValuesAscend(ms: seq<Member>, sorted: seq<Member>, r: seq<Member>)
    requires forall m :: m in r <==> m in sorted && m.key != PROTO
    requires |sorted| == |ms| && forall i | 0 <= i < |ms| ::
               sorted[i].key == ms[i].key && (KeysAscend(sorted[i].value) <==> OrdersAgree(ms[i].value))
    ensures (forall i | 0 <= i < |r| :: KeysAscend(r[i].value)) <==>
            (forall i | 0 <= i < |ms| && ms[i].key != PROTO :: OrdersAgree(ms[i].value))
  {
    if forall i | 0 <= i < |r| :: KeysAscend(r[i].value) {
      forall i | 0 <= i < |ms| && ms[i].key != PROTO
        ensures OrdersAgree(ms[i].value)
      {
        assert sorted[i] in r;
      }
    }
    if forall i | 0 <= i < |ms| && ms[i].key != PROTO :: OrdersAgree(ms[i].value) {
      forall i | 0 <= i < |r|
        ensures KeysAscend(r[i].value)
      {
        assert r[i] in sorted;
        var j :| 0 <= j < |sorted| && sorted[j] == r[i];
      }
    }
  }

  /** They do not always: "10" precedes "9" in code unit order, but 9 is enumerated before 10. */
  lemma IndexKeysMayNotAscend()
    ensures var v := Object([Member([57], Null), Member([49, 48], Null)]);
            WellFormed(v) && !OrdersAgree(v) && !KeysAscend(DeepSortKeys(v))
  {
    var ms := [Member([57], Null), Member([49, 48], Null)];
    TenAfterNine();
    assert EnumeratedFirst(ms[0].key, ms[1].key) && !KeyBefore(ms[0].key, ms[1].key);
    AscendsIffOrdersAgree(Object(ms));
  }

  lemma TenAfterNine()
    ensures IsIndex([57]) && NumberOf([57]) == 9
    ensures IsIndex([49, 48]) && NumberOf([49, 48]) == 10
  {
    assert NumberOf([]) == 0;
    assert [57][..0] == [] && [49][..0] == [] && [49, 48][..1] == [49];
    assert NumberOf([57]) == 9;
    assert NumberOf([49]) == 1;
    assert NumberOf([49, 48]) == 10;
  }
}
