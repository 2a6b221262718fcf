/** JSON values as trees, and what equality of unique-key documents means. The code is rapidjson as
    include/mujincontrollerclient/mujinjson.h uses it. */
module Json {

  datatype Json =
    | Null
    | Bool(b: bool)
    | Int(n: int)
    | Double(d: real)
    | Infinite(negative: bool)   // the parser accepts Inf and NaN
    | NaN
    | String(s: string)
    | Array(items: seq<Json>)
    | Object(members: seq<Member>)

  datatype Member = Member(name: string, value: Json)

  datatype Result<+T> = Ok(value: T) | Err

  /** The first member called `name`, or `|ms|` (MemberEnd) when there is none. */
  function FindMember(ms: seq<Member>, name: string): (k: nat)
    ensures k <= |ms|
    ensures k < |ms| ==> ms[k].name == name
    ensures forall i | 0 <= i < k :: ms[i].name != name
  {
    if ms == [] || ms[0].name == name then 0 else 1 + FindMember(ms[1..], name)
  }

  predicate HasMember(j: Json, name: string) {
    j.Object? && FindMember(j.members, name) < |j.members|
  }

  function GetMember(j: Json, name: string): Json
    requires HasMember(j, name)
  {
    j.members[FindMember(j.members, name)].value
  }

  predicate IsNumber(j: Json) {
    j.Int? || j.Double?
  }

  function NumberValue(j: Json): real
    requires IsNumber(j)
  {
    if j.Int? then j.n as real else j.d
  }

  /** rapidjson's operator==: numbers by value, NaN equal to nothing, arrays by position, objects by
      looking up every left member on the right after comparing the member counts. */
  predicate Equal(a: Json, b: Json) {
    match a
    case Object(ms) =>
      b.Object? && |ms| == |b.members| &&
      forall i | 0 <= i < |ms| ::
        var k := FindMember(b.members, ms[i].name);
        k < |b.members| && Equal(ms[i].value, b.members[k].value)
    case Array(xs) =>
      b.Array? && |xs| == |b.items| && forall i | 0 <= i < |xs| :: Equal(xs[i], b.items[i])
    case Int(_) => IsNumber(b) && NumberValue(a) == NumberValue(b)
    case Double(_) => IsNumber(b) && NumberValue(a) == NumberValue(b)
    case NaN => false
    case _ => a == b
  }

  predicate DistinctNames(ms: seq<Member>) {
    forall i, j | 0 <= i < j < |ms| :: ms[i].name != ms[j].name
  }

  /** No object inside the value names a member twice. */
  predicate UniqueKeys(j: Json) {
    match j
    case Object(ms) => DistinctNames(ms) && forall i | 0 <= i < |ms| :: UniqueKeys(ms[i].value)
    case Array(xs) => forall i | 0 <= i < |xs| :: UniqueKeys(xs[i])
    case _ => true
  }

  /** No NaN anywhere inside the value. */
  predicate NaNFree(j: Json) {
    match j
    case NaN => false
    case Object(ms) => forall i | 0 <= i < |ms| :: NaNFree(ms[i].value)
    case Array(xs) => forall i | 0 <= i < |xs| :: NaNFree(xs[i])
    case _ => true
  }

  function Names(ms: seq<Member>): set<string> {
    set i | 0 <= i < |ms| :: ms[i].name
  }

  function NameSeq(ms: seq<Member>): (r: seq<string>)
    ensures |r| == |ms|
  {
    seq(|ms|, i requires 0 <= i < |ms| => ms[i].name)
  }

  // ----- What a unique-key document means, regardless of member order -----

  datatype Tree =
    | TNull
    | TBool(b: bool)
    | TNumber(value: real)
    | TInfinite(negative: bool)
    | TNaN
    | TString(s: string)
    | TList(items: seq<Tree>)
    | TNode(fields: map<string, Tree>)

  function Meaning(j: Json): Tree {
    match j
    case Null => TNull
    case Bool(b) => TBool(b)
    case Int(n) => TNumber(n as real)
    case Double(d) => TNumber(d)
    case Infinite(negative) => TInfinite(negative)
    case NaN => TNaN
    case String(s) => TString(s)
    case Array(xs) => TList(seq(|xs|, i requires 0 <= i < |xs| => Meaning(xs[i])))
    case Object(ms) => TNode(Fields(ms))
  }

  function Fields(ms: seq<Member>): map<string, Tree> {
    map name | name in Names(ms) :: Meaning(ms[FindMember(ms, name)].value)
  }

  lemma AppendedNames(ms: seq<Member>, last: Member)
    ensures Names(ms + [last]) == Names(ms) + {last.name}
  {
    var r := ms + [last];
    assert r[|ms|] == last;
    forall x | x in Names(ms) ensures x in Names(r) {
      var i :| 0 <= i < |ms| && ms[i].name == x;
      assert r[i].name == x;
    }
  }

  lemma {:induction false} NamesCount(ms: seq<Member>)
    requires DistinctNames(ms)
    ensures |Names(ms)| == |ms|
  {
    if ms != [] {
      var init, last := ms[..|ms| - 1], ms[|ms| - 1];
      NamesCount(init);
      AppendedNames(init, last);
      assert ms == init + [last] && last.name !in Names(init);
    }
  }

  lemma SubsetOfSameSize<T>(s: set<T>, t: set<T>)
    requires s <= t && |s| == |t|
    ensures s == t
  {
    assert t == s + (t - s);
    assert |t| == |s| + |t - s|;
  }

  lemma FoundAt(ms: seq<Member>, i: nat)
    requires i < |ms| && DistinctNames(ms)
    ensures FindMember(ms, ms[i].name) == i
  {
  }

  lemma FieldOf(ms: seq<Member>, i: nat)
    requires i < |ms| && DistinctNames(ms)
    ensures ms[i].name in Fields(ms) && Fields(ms)[ms[i].name] == Meaning(ms[i].value)
  {
    FoundAt(ms, i);
    assert ms[i].name in Names(ms);
  }

  /** The fields are the map that has the members' names and, name by name, their meanings. */
  lemma FieldsAre(ms: seq<Member>, m: map<string, Tree>)
    requires DistinctNames(ms) && m.Keys == Names(ms)
    requires forall i | 0 <= i < |ms| :: ms[i].name in m && m[ms[i].name] == Meaning(ms[i].value)
    ensures Fields(ms) == m
  {
    forall x | x in m ensures x in Fields(ms) && Fields(ms)[x] == m[x] {
      var i :| 0 <= i < |ms| && ms[i].name == x;
      FieldOf(ms, i);
    }
  }

  /** On unique-key documents rapidjson's equality is exactly "same meaning, and no NaN in it": it
      ignores member order, and a document equals itself exactly when it holds no NaN. */
  lemma {:induction false} EqualIsSameMeaning(a: Json, b: Json)
    requires UniqueKeys(a) && UniqueKeys(b)
    ensures Equal(a, b) <==> NaNFree(a) && Meaning(a) == Meaning(b)
    decreases a
  {
    match a
    case Object(ms) =>
      if b.Object? {
        EqualObjects(ms, b.members);
      }
    case Array(xs) =>
      if b.Array? && |xs| == |b.items| {
        forall i | 0 <= i < |xs|
          ensures Equal(xs[i], b.items[i]) <==> NaNFree(xs[i]) && Meaning(xs[i]) == Meaning(b.items[i])
        {
          EqualIsSameMeaning(xs[i], b.items[i]);
        }
        if NaNFree(a) && Meaning(a) == Meaning(b) {
          forall i | 0 <= i < |xs| ensures Equal(xs[i], b.items[i]) {
            assert Meaning(a).items[i] == Meaning(b).items[i];
          }
        }
      } else if b.Array? {
        assert |Meaning(a).items| != |Meaning(b).items|;
      }
    case _ =>
  }

  /** Where both sides have a member of that name, `Equal` compares the values as stated above. */
  ghost predicate AgreeOnShared(ms: seq<Member>, ns: seq<Member>) {
    forall i | 0 <= i < |ms| ::
      var k := FindMember(ns, ms[i].name);
      k < |ns| ==> EqualAsMeant(ms[i].value, ns[k].value)
  }

  ghost predicate EqualAsMeant(a: Json, b: Json) {
    Equal(a, b) <==> NaNFree(a) && Meaning(a) == Meaning(b)
  }

  lemma {:induction false} EqualObjects(ms: seq<Member>, ns: seq<Member>)
    requires UniqueKeys(Object(ms)) && UniqueKeys(Object(ns))
    ensures Equal(Object(ms), Object(ns)) <==> NaNFree(Object(ms)) && Fields(ms) == Fields(ns)
    decreases ms
  {
    forall i | 0 <= i < |ms|
      ensures var k := FindMember(ns, ms[i].name);
              k < |ns| ==> EqualAsMeant(ms[i].value, ns[k].value)
    {
      var k := FindMember(ns, ms[i].name);
      if k < |ns| { EqualIsSameMeaning(ms[i].value, ns[k].value); }
    }
    if Equal(Object(ms), Object(ns)) { EqualGivesSameFields(ms, ns, Fields(ns)); }
    if NaNFree(Object(ms)) && Fields(ms) == Fields(ns) { SameFieldsGivesEqual(ms, ns); }
  }

  /** Equal objects have the same member under every name. */
  lemma SharedMember(ms: seq<Member>, ns: seq<Member>, i: nat)
    requires DistinctNames(ms) && DistinctNames(ns) && AgreeOnShared(ms, ns)
    requires i < |ms| && Equal(Object(ms), Object(ns))
    ensures NaNFree(ms[i].value)
    ensures ms[i].name in Fields(ns) && Fields(ns)[ms[i].name] == Meaning(ms[i].value)
  {
    var k := FindMember(ns, ms[i].name);
    assert k < |ns| && EqualAsMeant(ms[i].value, ns[k].value);
    FieldOf(ns, k);
  }

  lemma SameNames(ms: seq<Member>, ns: seq<Member>)
    requires DistinctNames(ms) && DistinctNames(ns) && |ms| == |ns|
    requires forall i | 0 <= i < |ms| :: ms[i].name in Names(ns)
    ensures Names(ms) == Names(ns)
  {
    NamesCount(ms);
    NamesCount(ns);
    SubsetOfSameSize(Names(ms), Names(ns));
  }

  lemma SharedMembers(ms: seq<Member>, ns: seq<Member>)
    requires DistinctNames(ms) && DistinctNames(ns) && AgreeOnShared(ms, ns)
    requires Equal(Object(ms), Object(ns))
    ensures NaNFree(Object(ms))
    ensures forall i | 0 <= i < |ms| ::
              ms[i].name in Fields(ns) && Fields(ns)[ms[i].name] == Meaning(ms[i].value)
  {
    forall i | 0 <= i < |ms|
      ensures NaNFree(ms[i].value)
      ensures ms[i].name in Fields(ns) && Fields(ns)[ms[i].name] == Meaning(ms[i].value)
    {
      SharedMember(ms, ns, i);
    }
  }

  lemma EqualGivesSameFields(ms: seq<Member>, ns: seq<Member>, m: map<string, Tree>)
    requires DistinctNames(ms) && DistinctNames(ns) && AgreeOnShared(ms, ns)
    requires Equal(Object(ms), Object(ns)) && m == Fields(ns)
    ensures NaNFree(Object(ms)) && Fields(ms) == m
  {
    SharedMembers(ms, ns);
    assert m.Keys == Names(ns);
    SameNames(ms, ns);
    FieldsAre(ms, m);
  }

  lemma SameMember(ms: seq<Member>, ns: seq<Member>, i: nat)
    requires DistinctNames(ms) && DistinctNames(ns) && AgreeOnShared(ms, ns)
    requires i < |ms| && NaNFree(ms[i].value) && Fields(ms) == Fields(ns)
    ensures var k := FindMember(ns, ms[i].name); k < |ns| && Equal(ms[i].value, ns[k].value)
  {
    FieldOf(ms, i);
    var k := FindMember(ns, ms[i].name);
    assert ms[i].name in Names(ns);
    FieldOf(ns, k);
    assert EqualAsMeant(ms[i].value, ns[k].value);
  }

  lemma SameFieldsGivesEqual(ms: seq<Member>, ns: seq<Member>)
    requires DistinctNames(ms) && DistinctNames(ns) && AgreeOnShared(ms, ns)
    requires NaNFree(Object(ms)) && Fields(ms) == Fields(ns)
    ensures Equal(Object(ms), Object(ns))
  {
    SameCount(ms, ns);
    forall i | 0 <= i < |ms|
      ensures var k := FindMember(ns, ms[i].name); k < |ns| && Equal(ms[i].value, ns[k].value)
    {
      SameMember(ms, ns, i);
    }
  }

  lemma SameCount(ms: seq<Member>, ns: seq<Member>)
    requires DistinctNames(ms) && DistinctNames(ns) && Fields(ms) == Fields(ns)
    ensures |ms| == |ns|
  {
    FieldCount(ms);
    FieldCount(ns);
  }

  lemma FieldCount(ms: seq<Member>)
    requires DistinctNames(ms)
    ensures |Fields(ms).Keys| == |ms|
  {
    NamesCount(ms);
    assert Fields(ms).Keys == Names(ms);
  }

  // ----- NaN -----

  /** No NaN anywhere inside the meaning. */
  predicate Proper(t: Tree) {
    match t
    case TNaN => false
    case TNode(fields) => forall k | k in fields :: Proper(fields[k])
    case TList(items) => forall i | 0 <= i < |items| :: Proper(items[i])
    case _ => true
  }

  lemma {:induction false} NaNFreeIsProper(j: Json)
    requires UniqueKeys(j)
    ensures NaNFree(j) <==> Proper(Meaning(j))
    decreases j
  {
    match j
    case Object(ms) => NaNFreeFields(ms);
    case Array(xs) =>
      var items := Meaning(j).items;
      forall i | 0 <= i < |xs| ensures NaNFree(xs[i]) <==> Proper(items[i]) {
        NaNFreeIsProper(xs[i]);
      }
    case _ =>
  }

  lemma {:induction false} NaNFreeFields(ms: seq<Member>)
    requires UniqueKeys(Object(ms))
    ensures NaNFree(Object(ms)) <==> Proper(TNode(Fields(ms)))
    decreases ms
  {
    var m := Fields(ms);
    forall i | 0 <= i < |ms|
      ensures ms[i].name in m && (NaNFree(ms[i].value) <==> Proper(m[ms[i].name]))
    {
      FieldOf(ms, i);
      NaNFreeIsProper(ms[i].value);
    }
    forall k | k in m ensures exists i :: 0 <= i < |ms| && ms[i].name == k {
      assert k in Names(ms);
    }
  }
}
