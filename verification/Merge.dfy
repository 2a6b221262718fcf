/** `UpdateJsonRecursively` and `UpdateJson`: one document merged into another in place. */
module Merge {
  import opened Json
  import opened Text

  // ----- The reference: key-wise merge of two meanings -----

  /** Where both sides are objects the result has the keys of both, shared keys merged in turn;
      anywhere else the override wins. */
  function Merged(source: Tree, override: Tree): Tree
    decreases source
  {
    if source.TNode? && override.TNode? then
      TNode(map k | k in source.fields.Keys + override.fields.Keys ::
        if k !in override.fields then source.fields[k]
        else if k in source.fields then Merged(source.fields[k], override.fields[k])
        else override.fields[k])
    else
      override
  }

  // ----- What the code computes -----

  /** The new value of `source` and the "has changed" flag. */
  function Update(source: Json, override: Json): (Json, bool)
    decreases override, 0
  {
    if Equal(source, override) then (source, false)
    else if !source.Object? || !override.Object? then (override, true)
    else
      var (ms, changed) := UpdateMembers(source.members, override.members);
      (Object(ms), changed)
  }

  function UpdateMembers(ms: seq<Member>, ns: seq<Member>): (seq<Member>, bool)
    decreases ns
  {
    if ns == [] then (ms, false)
    else
      var (first, changed) := UpdateMember(ms, ns[0].name, ns[0].value);
      var (rest, changedLater) := UpdateMembers(first, ns[1..]);
      (rest, changed || changedLater)
  }

  function UpdateMember(ms: seq<Member>, name: string, value: Json): (seq<Member>, bool)
    decreases value, 1
  {
    var k := FindMember(ms, name);
    if k < |ms| then
      var (v, changed) := Update(ms[k].value, value);
      (ms[k := Member(ms[k].name, v)], changed)
    else
      (ms + [Member(name, value)], true)
  }

  // ----- The result means the key-wise merge, and the flag tells whether anything changed -----

  ghost predicate UpdatesTo(source: Json, override: Json, result: Json, changed: bool) {
    && UniqueKeys(result)
    && Meaning(result) == Merged(Meaning(source), Meaning(override))
    && (changed <==> Meaning(result) != Meaning(source) || !NaNFree(override))
    && (!changed ==> result == source)
  }

  lemma {:induction false} UpdateMergesMeaning(source: Json, override: Json)
    requires UniqueKeys(source) && UniqueKeys(override)
    ensures UpdatesTo(source, override, Update(source, override).0, Update(source, override).1)
    decreases override, 0
  {
    EqualIsSameMeaning(source, override);
    NaNFreeIsProper(source);
    NaNFreeIsProper(override);
    if Equal(source, override) {
      MergedWithSelf(Meaning(source));
    } else if source.Object? && override.Object? {
      UpdateMembersMergesFields(source.members, override.members);
    }
  }

  /** The fields of `m` after the single member `name: v` is merged in. */
  function WithField(m: map<string, Tree>, name: string, v: Tree): map<string, Tree> {
    m[name := if name in m then Merged(m[name], v) else v]
  }

  ghost predicate UpdatesMemberTo(ms: seq<Member>, name: string, value: Json, r: seq<Member>, changed: bool) {
    && UniqueKeys(Object(r))
    && Fields(r) == WithField(Fields(ms), name, Meaning(value))
    && (changed <==> name !in Fields(ms) || Fields(r)[name] != Fields(ms)[name] || !NaNFree(value))
    && (!changed ==> r == ms)
  }

  lemma {:induction false} UpdateMemberMergesField(ms: seq<Member>, name: string, value: Json)
    requires UniqueKeys(Object(ms)) && UniqueKeys(value)
    ensures UpdatesMemberTo(ms, name, value, UpdateMember(ms, name, value).0, UpdateMember(ms, name, value).1)
    decreases value, 1
  {
    var k := FindMember(ms, name);
    if k < |ms| {
      UpdateMergesMeaning(ms[k].value, value);
      FoundMemberMerges(ms, k, value, Update(ms[k].value, value).0, Update(ms[k].value, value).1);
    } else {
      assert name !in Names(ms);
      AppendedField(ms, name, value);
    }
  }

  lemma FoundMemberMerges(ms: seq<Member>, k: nat, value: Json, v: Json, changed: bool)
    requires k < |ms| && UniqueKeys(Object(ms)) && UpdatesTo(ms[k].value, value, v, changed)
    ensures UpdatesMemberTo(ms, ms[k].name, value, ms[k := Member(ms[k].name, v)], changed)
  {
    FieldOf(ms, k);
    ReplacedField(ms, k, v);
  }

  lemma ReplacedNames(ms: seq<Member>, k: nat, v: Json)
    requires k < |ms|
    ensures Names(ms[k := Member(ms[k].name, v)]) == Names(ms)
  {
    var r := ms[k := Member(ms[k].name, v)];
    assert forall i | 0 <= i < |ms| :: r[i].name == ms[i].name;
  }

  lemma ReplacedField(ms: seq<Member>, k: nat, v: Json)
    requires k < |ms| && DistinctNames(ms)
    ensures var r := ms[k := Member(ms[k].name, v)];
            DistinctNames(r) && Fields(r) == Fields(ms)[ms[k].name := Meaning(v)]
  {
    var r, m := ms[k := Member(ms[k].name, v)], Fields(ms)[ms[k].name := Meaning(v)];
    ReplacedNames(ms, k, v);
    FieldOf(ms, k);
    forall i | 0 <= i < |r| ensures r[i].name in m && m[r[i].name] == Meaning(r[i].value) {
      ReplacedFieldAt(ms, k, v, i);
    }
    FieldsAre(r, m);
  }

  lemma ReplacedFieldAt(ms: seq<Member>, k: nat, v: Json, i: nat)
    requires k < |ms| && i < |ms| && DistinctNames(ms)
    ensures var r, m := ms[k := Member(ms[k].name, v)], Fields(ms)[ms[k].name := Meaning(v)];
            r[i].name in m && m[r[i].name] == Meaning(r[i].value)
  {
    FieldOf(ms, i);
  }

  lemma AppendedField(ms: seq<Member>, name: string, value: Json)
    requires DistinctNames(ms) && name !in Names(ms)
    ensures var r := ms + [Member(name, value)];
            DistinctNames(r) && Fields(r) == Fields(ms)[name := Meaning(value)]
  {
    var r, m := ms + [Member(name, value)], Fields(ms)[name := Meaning(value)];
    AppendedNames(ms, Member(name, value));
    forall i | 0 <= i < |ms| ensures ms[i].name != name {
      assert ms[i].name in Names(ms);
    }
    forall i | 0 <= i < |r| ensures r[i].name in m && m[r[i].name] == Meaning(r[i].value) {
      if i < |ms| {
        FieldOf(ms, i);
      }
    }
    FieldsAre(r, m);
  }

  lemma PrependedNames(ns: seq<Member>)
    requires ns != []
    ensures Names(ns) == Names(ns[1..]) + {ns[0].name}
    ensures DistinctNames(ns) ==> ns[0].name !in Names(ns[1..])
  {
    var rest := ns[1..];
    forall x | x in Names(rest) ensures x in Names(ns) {
      var i :| 0 <= i < |rest| && rest[i].name == x;
      assert ns[i + 1].name == x;
    }
    forall x | x in Names(ns) ensures x in Names(rest) + {ns[0].name} {
      var i :| 0 <= i < |ns| && ns[i].name == x;
      if i > 0 { assert rest[i - 1].name == x; }
    }
  }

  lemma PrependedField(ns: seq<Member>)
    requires ns != [] && DistinctNames(ns)
    ensures ns[0].name !in Names(ns[1..])
    ensures Fields(ns) == Fields(ns[1..])[ns[0].name := Meaning(ns[0].value)]
  {
    var rest, m := ns[1..], Fields(ns[1..])[ns[0].name := Meaning(ns[0].value)];
    PrependedNames(ns);
    forall i | 0 <= i < |ns| ensures ns[i].name in m && m[ns[i].name] == Meaning(ns[i].value) {
      if i > 0 {
        assert ns[i] == rest[i - 1];
        FieldOf(rest, i - 1);
      }
    }
    FieldsAre(ns, m);
  }

  ghost predicate UpdatesFieldsTo(ms: seq<Member>, ns: seq<Member>, r: seq<Member>, changed: bool) {
    && UniqueKeys(Object(r))
    && TNode(Fields(r)) == Merged(TNode(Fields(ms)), TNode(Fields(ns)))
    && (changed <==> Fields(r) != Fields(ms) || !NaNFree(Object(ns)))
    && (!changed ==> r == ms)
  }

  lemma {:induction false} UpdateMembersMergesFields(ms: seq<Member>, ns: seq<Member>)
    requires UniqueKeys(Object(ms)) && UniqueKeys(Object(ns))
    ensures UpdatesFieldsTo(ms, ns, UpdateMembers(ms, ns).0, UpdateMembers(ms, ns).1)
    decreases ns, 0
  {
    if ns == [] {
      assert Fields(ns) == map[];
      assert Merged(TNode(Fields(ms)), TNode(map[])).fields == Fields(ms);
    } else {
      var (first, changed) := UpdateMember(ms, ns[0].name, ns[0].value);
      UpdateMemberMergesField(ms, ns[0].name, ns[0].value);
      assert UniqueKeys(Object(ns[1..]));
      UpdateMembersMergesFields(first, ns[1..]);
      var (r, changedLater) := UpdateMembers(first, ns[1..]);
      FirstThenRest(ms, ns, first, changed, r, changedLater);
    }
  }

  /** Merging the first member and then the others merges them all. */
  lemma FirstThenRest(ms: seq<Member>, ns: seq<Member>, first: seq<Member>, changed: bool, r: seq<Member>,
      changedLater: bool)
    requires ns != [] && DistinctNames(ns)
    requires Fields(first) == WithField(Fields(ms), ns[0].name, Meaning(ns[0].value))
    requires changed <==> ns[0].name !in Fields(ms) || Fields(first)[ns[0].name] != Fields(ms)[ns[0].name] ||
                          !NaNFree(ns[0].value)
    requires !changed ==> first == ms
    requires UpdatesFieldsTo(first, ns[1..], r, changedLater)
    ensures UpdatesFieldsTo(ms, ns, r, changed || changedLater)
  {
    var name := ns[0].name;
    PrependedField(ns);
    NaNFreeMembers(ns);
    MergedOneFieldFirst(Fields(ms), Fields(ns[1..]), name, Meaning(ns[0].value));
    assert name in Fields(first) && name !in Fields(ns[1..]);
    assert name in Fields(r) && Fields(r)[name] == Fields(first)[name];
  }

  lemma NaNFreeMembers(ns: seq<Member>)
    requires ns != []
    ensures NaNFree(Object(ns)) <==> NaNFree(ns[0].value) && NaNFree(Object(ns[1..]))
  {
    var rest := ns[1..];
    forall i | 0 < i < |ns| ensures ns[i] == rest[i - 1] {
    }
  }

  lemma MergedOneFieldFirst(m: map<string, Tree>, n: map<string, Tree>, name: string, v: Tree)
    requires name !in n
    ensures Merged(TNode(WithField(m, name, v)), TNode(n)) == Merged(TNode(m), TNode(n[name := v]))
  {
    var left := Merged(TNode(WithField(m, name, v)), TNode(n)).fields;
    var right := Merged(TNode(m), TNode(n[name := v])).fields;
    assert left.Keys == right.Keys;
    assert forall k | k in left :: left[k] == right[k];
  }

  // ----- Laws of the merge -----

  lemma {:induction false} MergedWithSelf(t: Tree)
    ensures Merged(t, t) == t
    decreases t
  {
    if t.TNode? {
      forall k | k in t.fields ensures Merged(t.fields[k], t.fields[k]) == t.fields[k] {
        MergedWithSelf(t.fields[k]);
      }
      assert Merged(t, t).fields == t.fields;
    }
  }

  lemma {:induction false} MergedTwice(s: Tree, o: Tree)
    ensures Merged(Merged(s, o), o) == Merged(s, o)
    decreases s
  {
    if s.TNode? && o.TNode? {
      var m := Merged(s, o).fields;
      forall k | k in o.fields ensures k in m && Merged(m[k], o.fields[k]) == m[k] {
        if k in s.fields { MergedTwice(s.fields[k], o.fields[k]); } else { MergedWithSelf(o.fields[k]); }
      }
      assert Merged(TNode(m), o).fields == m;
    } else {
      MergedWithSelf(o);
    }
  }

  /** Applying the same override again never changes what the document means, and reports no change,
      leaving the document as it is, exactly when the override holds no NaN. */
  lemma SecondUpdateChangesNothing(source: Json, override: Json)
    requires UniqueKeys(source) && UniqueKeys(override)
    ensures var once := Update(source, override).0;
            && Meaning(Update(once, override).0) == Meaning(once)
            && (!Update(once, override).1 <==> NaNFree(override))
            && (NaNFree(override) ==> Update(once, override) == (once, false))
  {
    var once := Update(source, override).0;
    UpdateMergesMeaning(source, override);
    UpdateMergesMeaning(once, override);
    MergedTwice(Meaning(source), Meaning(override));
  }

  /** {"x":NaN} updated with itself reports a change every time. */
  lemma NaNAlwaysChanges()
    ensures var j := Single("x", NaN);
            Update(j, j) == (j, true)
  {
    var ms := [Member("x", NaN)];
    assert FindMember(ms, "x") == 0 && Update(NaN, NaN) == (NaN, true);
    assert ms[0 := Member("x", NaN)] == ms;
    assert ms[1..] == [];
  }

  /** Merging `over` into `under` leaves nothing of `under`: at every path where both hold
      objects, `over` has all the keys of `under`. */
  predicate Covers(over: Tree, under: Tree)
    decreases under
  {
    over.TNode? && under.TNode? ==>
      under.fields.Keys <= over.fields.Keys &&
      forall k | k in under.fields && k in over.fields :: Covers(over.fields[k], under.fields[k])
  }

  /** No path has a non-object in `b` between objects in `a` and `c`, unless `c` covers `a` there. */
  predicate Associates(a: Tree, b: Tree, c: Tree)
    decreases a
  {
    a.TNode? && c.TNode? ==>
      if b.TNode? then
        forall k | k in a.fields && k in b.fields && k in c.fields :: Associates(a.fields[k], b.fields[k], c.fields[k])
      else
        Covers(c, a)
  }

  lemma {:induction false} CoversIsAbsorbs(over: Tree, under: Tree)
    ensures Covers(over, under) <==> Merged(under, over) == over
    decreases under
  {
    if over.TNode? && under.TNode? {
      var m := Merged(under, over).fields;
      forall k | k in under.fields && k in over.fields
        ensures Covers(over.fields[k], under.fields[k]) <==> Merged(under.fields[k], over.fields[k]) == over.fields[k]
      {
        CoversIsAbsorbs(over.fields[k], under.fields[k]);
      }
      if Covers(over, under) {
        assert m == over.fields;
      }
      if m == over.fields {
        assert forall k | k in under.fields :: k in m;
        assert forall k | k in under.fields :: m[k] == over.fields[k];
      }
    }
  }

  lemma {:induction false} MergedAssociates(a: Tree, b: Tree, c: Tree)
    ensures Associates(a, b, c) <==> Merged(Merged(a, b), c) == Merged(a, Merged(b, c))
    decreases a
  {
    if a.TNode? && c.TNode? {
      if b.TNode? {
        var l := Merged(Merged(a, b), c).fields;
        var r := Merged(a, Merged(b, c)).fields;
        assert l.Keys == r.Keys;
        forall k | k in l
          ensures l[k] == r[k] <==>
                  (k in a.fields && k in b.fields && k in c.fields ==>
                     Associates(a.fields[k], b.fields[k], c.fields[k]))
        {
          if k in a.fields && k in b.fields && k in c.fields {
            MergedAssociates(a.fields[k], b.fields[k], c.fields[k]);
          }
        }
        if l == r {
          assert forall k | k in a.fields && k in b.fields && k in c.fields :: k in l;
        }
      } else {
        CoversIsAbsorbs(c, a);
      }
    }
  }

  lemma BothOrders(a: Json, b: Json, c: Json)
    requires UniqueKeys(a) && UniqueKeys(b) && UniqueKeys(c)
    ensures var (l, r) := (Update(Update(a, b).0, c).0, Update(a, Update(b, c).0).0);
            && UniqueKeys(l) && Meaning(l) == Merged(Merged(Meaning(a), Meaning(b)), Meaning(c))
            && UniqueKeys(r) && Meaning(r) == Merged(Meaning(a), Merged(Meaning(b), Meaning(c)))
  {
    UpdateMergesMeaning(a, b);
    UpdateMergesMeaning(Update(a, b).0, c);
    UpdateMergesMeaning(b, c);
    UpdateMergesMeaning(a, Update(b, c).0);
  }

  /** Merging is associative exactly for the triples where `Associates` holds; that rapidjson's own
      equality sees it also takes a result without NaN, which documents without NaN give. */
  lemma UpdateAssociates(a: Json, b: Json, c: Json)
    requires UniqueKeys(a) && UniqueKeys(b) && UniqueKeys(c)
    ensures var (l, r) := (Update(Update(a, b).0, c).0, Update(a, Update(b, c).0).0);
            && (Meaning(l) == Meaning(r) <==> Associates(Meaning(a), Meaning(b), Meaning(c)))
            && (Equal(l, r) <==> Associates(Meaning(a), Meaning(b), Meaning(c)) && NaNFree(l))
            && (NaNFree(a) && NaNFree(b) && NaNFree(c) ==> NaNFree(l))
  {
    BothOrders(a, b, c);
    MergedAssociates(Meaning(a), Meaning(b), Meaning(c));
    EqualIsSameMeaning(Update(Update(a, b).0, c).0, Update(a, Update(b, c).0).0);
    UpdateKeepsNaNFree(a, b);
    UpdateKeepsNaNFree(Update(a, b).0, c);
  }

  lemma {:induction false} MergedKeepsProper(s: Tree, o: Tree)
    requires Proper(s) && Proper(o)
    ensures Proper(Merged(s, o))
    decreases s
  {
    if s.TNode? && o.TNode? {
      var m := Merged(s, o).fields;
      forall k | k in m ensures Proper(m[k]) {
        if k in s.fields && k in o.fields {
          MergedKeepsProper(s.fields[k], o.fields[k]);
        }
      }
    }
  }

  lemma UpdateKeepsNaNFree(source: Json, override: Json)
    requires UniqueKeys(source) && UniqueKeys(override)
    ensures UniqueKeys(Update(source, override).0)
    ensures NaNFree(source) && NaNFree(override) ==> NaNFree(Update(source, override).0)
  {
    UpdateMergesMeaning(source, override);
    NaNFreeIsProper(source);
    NaNFreeIsProper(override);
    NaNFreeIsProper(Update(source, override).0);
    if NaNFree(source) && NaNFree(override) {
      MergedKeepsProper(Meaning(source), Meaning(override));
    }
  }

  /** A non-object of `y` between objects of `x` and `z` breaks associativity unless the last
      covers the first. */
  lemma NonObjectBetweenObjects(x: Json, y: Json, z: Json, key: string,
                                fx: map<string, Tree>, fy: map<string, Tree>, fz: map<string, Tree>)
    requires UniqueKeys(x) && UniqueKeys(y) && UniqueKeys(z)
    requires Meaning(x) == TNode(fx) && Meaning(y) == TNode(fy) && Meaning(z) == TNode(fz)
    requires key in fx && key in fy && key in fz
    requires !fy[key].TNode? && !Covers(fz[key], fx[key])
    ensures Meaning(Update(Update(x, y).0, z).0) != Meaning(Update(x, Update(y, z).0).0)
  {
    assert !Associates(fx[key], fy[key], fz[key]);
    UpdateAssociates(x, y, z);
  }

  /** The object with one member. */
  function Single(name: string, value: Json): Json {
    Object([Member(name, value)])
  }

  lemma NonObjectInTheMiddle(x: Json, y: Json, z: Json, key: string, a: Json, n: Json, c: Json)
    requires x == Single(key, a) && y == Single(key, n) && z == Single(key, c)
    requires UniqueKeys(a) && UniqueKeys(n) && UniqueKeys(c)
    requires !Meaning(n).TNode? && !Covers(Meaning(c), Meaning(a))
    ensures Meaning(Update(Update(x, y).0, z).0) != Meaning(Update(x, Update(y, z).0).0)
  {
    SingleField(key, a);
    SingleField(key, n);
    SingleField(key, c);
    NonObjectBetweenObjects(x, y, z, key, map[key := Meaning(a)], map[key := Meaning(n)], map[key := Meaning(c)]);
  }

  /** {"k":{"x":1}}, {"k":2} and {"k":{}} do not associate. */
  lemma UpdateDoesNotAlwaysAssociate() returns (x: Json, y: Json, z: Json)
    ensures x == Single("k", Single("x", Int(1))) && y == Single("k", Int(2)) && z == Single("k", Object([]))
    ensures Meaning(Update(Update(x, y).0, z).0) != Meaning(Update(x, Update(y, z).0).0)
  {
    var a, c := Single("x", Int(1)), Object([]);
    x, y, z := Single("k", a), Single("k", Int(2)), Single("k", c);
    SingleField("x", Int(1));
    NotCovered(Meaning(a), Meaning(c), "x");
    NonObjectInTheMiddle(x, y, z, "k", a, Int(2), c);
  }

  lemma NotCovered(under: Tree, over: Tree, key: string)
    requires under.TNode? && over.TNode? && key in under.fields && key !in over.fields
    ensures !Covers(over, under)
  {
    assert !(under.fields.Keys <= over.fields.Keys);
  }

  lemma SingleField(name: string, value: Json)
    ensures Fields([Member(name, value)]) == map[name := Meaning(value)]
  {
    AppendedField([], name, value);
    assert [] + [Member(name, value)] == [Member(name, value)];
  }

  // ----- Member order -----

  /** The names of `ns` that are not known yet, in the order of `ns`. */
  function NewNames(known: set<string>, ns: seq<Member>): seq<string> {
    if ns == [] then []
    else if ns[0].name in known then NewNames(known, ns[1..])
    else [ns[0].name] + NewNames(known, ns[1..])
  }

  lemma {:induction false} NewNamesIgnoreOthers(known: set<string>, name: string, ns: seq<Member>)
    requires name !in Names(ns)
    ensures NewNames(known + {name}, ns) == NewNames(known, ns)
  {
    if ns != [] {
      PrependedNames(ns);
      NewNamesIgnoreOthers(known, name, ns[1..]);
    }
  }

  lemma {:induction false} NothingNew(known: set<string>, ns: seq<Member>)
    requires Names(ns) <= known
    ensures NewNames(known, ns) == []
  {
    if ns != [] {
      PrependedNames(ns);
      NothingNew(known, ns[1..]);
    }
  }

  lemma UpdateMemberKeepsOrder(ms: seq<Member>, name: string, value: Json)
    ensures var r := UpdateMember(ms, name, value).0;
            && Names(r) == Names(ms) + {name}
            && NameSeq(r) == if name in Names(ms) then NameSeq(ms) else NameSeq(ms) + [name]
  {
    var k := FindMember(ms, name);
    if k < |ms| {
      var v := Update(ms[k].value, value).0;
      ReplacedNames(ms, k, v);
      assert name in Names(ms);
      assert NameSeq(ms[k := Member(ms[k].name, v)]) == NameSeq(ms);
    } else {
      AppendedNames(ms, Member(name, value));
      assert name !in Names(ms);
      assert NameSeq(ms + [Member(name, value)]) == NameSeq(ms) + [name];
    }
  }

  lemma {:induction false} UpdateMembersKeepsOrder(ms: seq<Member>, ns: seq<Member>)
    requires DistinctNames(ns)
    ensures NameSeq(UpdateMembers(ms, ns).0) == NameSeq(ms) + NewNames(Names(ms), ns)
    decreases ns
  {
    if ns != [] {
      UpdateMemberKeepsOrder(ms, ns[0].name, ns[0].value);
      UpdateMembersKeepsOrder(UpdateMember(ms, ns[0].name, ns[0].value).0, ns[1..]);
      NewNamesFirst(NameSeq(ms), Names(ms), ns);
    }
  }

  lemma NewNamesFirst(names: seq<string>, known: set<string>, ns: seq<Member>)
    requires ns != [] && DistinctNames(ns)
    ensures ns[0].name in known ==> names + NewNames(known + {ns[0].name}, ns[1..]) == names + NewNames(known, ns)
    ensures ns[0].name !in known ==>
              names + [ns[0].name] + NewNames(known + {ns[0].name}, ns[1..]) == names + NewNames(known, ns)
  {
    if ns[0].name in known {
      assert known + {ns[0].name} == known;
    } else {
      PrependedNames(ns);
      NewNamesIgnoreOthers(known, ns[0].name, ns[1..]);
      AppendThenRest(names, ns[0].name, NewNames(known, ns[1..]));
    }
  }

  lemma AppendThenRest(a: seq<string>, x: string, b: seq<string>)
    ensures a + [x] + b == a + ([x] + b)
  {
  }

  /** Existing keys keep their place; new ones are appended in the order of the override. */
  lemma UpdateKeepsOrder(source: Json, override: Json)
    requires source.Object? && override.Object? && UniqueKeys(source) && UniqueKeys(override)
    ensures var result := Update(source, override).0;
            result.Object? &&
            NameSeq(result.members) == NameSeq(source.members) + NewNames(Names(source.members), override.members)
  {
    if Equal(source, override) {
      EqualIsSameMeaning(source, override);
      assert Fields(source.members).Keys == Names(source.members)
          && Fields(override.members).Keys == Names(override.members);
      NothingNew(Names(source.members), override.members);
    } else {
      UpdateMembersKeepsOrder(source.members, override.members);
    }
  }

  // ----- The one-level update -----

  /** `SetJsonValueByKey` on the members of an object. */
  function WithMember(ms: seq<Member>, name: string, value: Json): seq<Member> {
    var k := FindMember(ms, name);
    if k < |ms| then ms[k := Member(ms[k].name, value)] else ms + [Member(name, value)]
  }

  function WithMembers(ms: seq<Member>, ns: seq<Member>): seq<Member>
    decreases ns
  {
    if ns == [] then ms else WithMembers(WithMember(ms, UpToNul(ns[0].name), ns[0].value), ns[1..])
  }

  lemma WithMemberSetsField(ms: seq<Member>, name: string, value: Json)
    requires UniqueKeys(Object(ms)) && UniqueKeys(value)
    ensures UniqueKeys(Object(WithMember(ms, name, value)))
    ensures Fields(WithMember(ms, name, value)) == Fields(ms)[name := Meaning(value)]
  {
    var k := FindMember(ms, name);
    if k < |ms| {
      ReplacedField(ms, k, value);
    } else {
      assert name !in Names(ms);
      AppendedField(ms, name, value);
    }
  }

  /** The fields as `UpdateJson` passes them on: names cut at a NUL, the last of equal names winning. */
  function CutFields(ns: seq<Member>): map<string, Tree> {
    if ns == [] then map[] else map[UpToNul(ns[0].name) := Meaning(ns[0].value)] + CutFields(ns[1..])
  }

  /** `UpdateJson` overwrites whole members: its result has the fields of both, `b`'s winning. */
  lemma {:induction false} UpdateJsonOverwritesFields(ms: seq<Member>, ns: seq<Member>)
    requires UniqueKeys(Object(ms)) && UniqueKeys(Object(ns))
    ensures UniqueKeys(Object(WithMembers(ms, ns)))
    ensures Fields(WithMembers(ms, ns)) == Fields(ms) + CutFields(ns)
    ensures (forall i | 0 <= i < |ns| :: '\0' !in ns[i].name) ==> CutFields(ns) == Fields(ns)
    decreases ns
  {
    if ns == [] {
      assert Fields(ns) == map[] && Fields(ms) + map[] == Fields(ms);
    } else {
      var key := UpToNul(ns[0].name);
      WithMemberSetsField(ms, key, ns[0].value);
      assert UniqueKeys(Object(ns[1..]));
      UpdateJsonOverwritesFields(WithMember(ms, key, ns[0].value), ns[1..]);
      OverwriteLaterOrSooner(Fields(ms), CutFields(ns[1..]), key, Meaning(ns[0].value));
    }
    if forall i | 0 <= i < |ns| :: '\0' !in ns[i].name {
      NothingToCut(ns);
    }
  }

  lemma {:induction false} NothingToCut(ns: seq<Member>)
    requires DistinctNames(ns) && forall i | 0 <= i < |ns| :: '\0' !in ns[i].name
    ensures CutFields(ns) == Fields(ns)
    decreases ns
  {
    if ns != [] {
      assert forall i | 0 <= i < |ns[1..]| :: ns[1..][i] == ns[i + 1];
      NothingToCut(ns[1..]);
      PrependedField(ns);
      OneFieldMore(Fields(ns[1..]), ns[0].name, Meaning(ns[0].value));
    }
  }

  lemma OverwriteLaterOrSooner(m: map<string, Tree>, n: map<string, Tree>, name: string, v: Tree)
    ensures m[name := v] + n == m + (map[name := v] + n)
  {
  }

  lemma OneFieldMore(n: map<string, Tree>, name: string, v: Tree)
    requires name !in n
    ensures map[name := v] + n == n[name := v]
  {
  }

  // ----- The code -----

  /** A document whose value the update functions change in place. */
  class JsonDocument {
    var root: Json

    constructor (root: Json)
      ensures this.root == root
    {
      this.root := root;
    }

    method SetJsonValueByKey(name: string, value: Json) returns (r: Result<()>)
      modifies this
      ensures r.Ok? <==> old(root).Object?
      ensures r.Ok? ==> root == Object(WithMember(old(root).members, UpToNul(name), value))
      ensures r.Err? ==> root == old(root)
    {
      if !root.Object? {
        return Err;
      }
      var ms, key := root.members, UpToNul(name);
      var k := FindMember(ms, key);
      if k < |ms| {
        root := Object(ms[k := Member(ms[k].name, value)]);
      } else {
        root := Object(ms + [Member(key, value)]);
      }
      return Ok(());
    }

    method UpdateJson(b: Json) returns (r: Result<()>)
      modifies this
      ensures r.Ok? <==> old(root).Object? && b.Object?
      ensures r.Ok? ==> root == Object(WithMembers(old(root).members, b.members))
      ensures r.Err? ==> root == old(root)
    {
      if !root.Object? || !b.Object? {
        return Err;
      }
      var i := 0;
      while i < |b.members|
        invariant 0 <= i <= |b.members|
        invariant root.Object?
        invariant WithMembers(old(root).members, b.members) == WithMembers(root.members, b.members[i..])
      {
        assert b.members[i..][1..] == b.members[i + 1..];
        var stored := SetJsonValueByKey(b.members[i].name, b.members[i].value);
        i := i + 1;
      }
      return Ok(());
    }

    method UpdateJsonRecursively(override: Json) returns (hasChanged: bool)
      modifies this
      ensures (root, hasChanged) == Update(old(root), override)
      decreases override
    {
      if Equal(root, override) {
        return false;
      }
      if !root.Object? || !override.Object? {
        root := override;
        return true;
      }
      hasChanged := false;
      var i := 0;
      var ns := override.members;
      ghost var expected := UpdateMembers(root.members, ns);
      while i < |ns|
        invariant 0 <= i <= |ns|
        invariant root.Object?
        invariant var (rest, later) := UpdateMembers(root.members, ns[i..]);
                  expected == (rest, hasChanged || later)
      {
        assert ns[i..][1..] == ns[i + 1..];
        var k := FindMember(root.members, ns[i].name);
        if k < |root.members| {
          var member := new JsonDocument(root.members[k].value);
          var changed := member.UpdateJsonRecursively(ns[i].value);
          root := Object(root.members[k := Member(root.members[k].name, member.root)]);
          hasChanged := hasChanged || changed;
        } else {
          root := Object(root.members + [ns[i]]);
          hasChanged := true;
        }
        i := i + 1;
      }
    }
  }
}
