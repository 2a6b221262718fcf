/** What the merges of mujinjson.h store, value by value: `Merge` says what a merged document means, but
    2 and 2.0 mean the same and load differently. */
module Verbatim {
  import opened Json
  import opened Text
  import opened Merge

  // ----- The recursive merge -----

  /** The members of `ns` with names that are not known, as they are and in their order. */
  function NewMembers(known: set<string>, ns: seq<Member>): seq<Member> {
    if ns == [] then []
    else if ns[0].name in known then NewMembers(known, ns[1..])
    else [ns[0]] + NewMembers(known, ns[1..])
  }

  /** `r` is what merging `b` into `a` must give: `a` itself where the two are equal, `b` itself where one
      of them is no object, and a member-wise merge of two objects. */
  ghost predicate MergesTo(a: Json, b: Json, r: Json)
    decreases b, 0
  {
    if Equal(a, b) then r == a
    else if !a.Object? || !b.Object? then r == b
    else r.Object? && MembersMergeTo(a.members, b.members, r.members)
  }

  /** The members of `ms` stay in place, merged with those of the same name in `ns` and otherwise as they
      are; behind them come the members that only `ns` has, as they are. */
  ghost predicate MembersMergeTo(ms: seq<Member>, ns: seq<Member>, rs: seq<Member>)
    decreases ns
  {
    && |rs| >= |ms| && rs[|ms|..] == NewMembers(Names(ms), ns)
    && forall i | 0 <= i < |ms| :: MemberMergesTo(ms[i], ns, rs[i])
  }

  ghost predicate MemberMergesTo(m: Member, ns: seq<Member>, r: Member)
    decreases ns, 0
  {
    var k := FindMember(ns, m.name);
    if k == |ns| then r == m else r.name == m.name && MergesTo(m.value, ns[k].value, r.value)
  }

  lemma {:induction false} NewMembersIgnoreOthers(known: set<string>, name: string, ns: seq<Member>)
    requires name !in Names(ns)
    ensures NewMembers(known + {name}, ns) == NewMembers(known, ns)
  {
    if ns != [] {
      PrependedNames(ns);
      NewMembersIgnoreOthers(known, name, ns[1..]);
    }
  }

  lemma FoundIffNamed(ns: seq<Member>, name: string)
    ensures FindMember(ns, name) < |ns| <==> name in Names(ns)
  {
  }

  lemma FoundLater(m: Member, ns: seq<Member>, r: Member)
    requires ns != [] && m.name != ns[0].name
    ensures MemberMergesTo(m, ns, r) <==> MemberMergesTo(m, ns[1..], r)
  {
    assert FindMember(ns, m.name) == 1 + FindMember(ns[1..], m.name);
  }

  /** A member merged with the first of `ns` is done: no later one has its name. */
  lemma FoundFirst(m: Member, ns: seq<Member>, first: Member, r: Member)
    requires ns != [] && ns[0].name !in Names(ns[1..]) && m.name == ns[0].name == first.name
    requires MergesTo(m.value, ns[0].value, first.value) && MemberMergesTo(first, ns[1..], r)
    ensures MemberMergesTo(m, ns, r)
  {
    FoundIffNamed(ns[1..], m.name);
  }

  lemma SharedFirst(ms: seq<Member>, ns: seq<Member>, k: nat, first: seq<Member>, rs: seq<Member>)
    requires ns != [] && DistinctNames(ms) && ns[0].name !in Names(ns[1..])
    requires k < |ms| && ms[k].name == ns[0].name && |first| == |ms|
    requires first[k].name == ns[0].name && MergesTo(ms[k].value, ns[0].value, first[k].value)
    requires forall i | 0 <= i < |ms| && i != k :: first[i] == ms[i]
    requires MembersMergeTo(first, ns[1..], rs)
    ensures MembersMergeTo(ms, ns, rs)
  {
    forall i | 0 <= i < |ms| ensures MemberMergesTo(ms[i], ns, rs[i]) {
      assert MemberMergesTo(first[i], ns[1..], rs[i]);
      if i == k {
        FoundFirst(ms[i], ns, first[i], rs[i]);
      } else {
        FoundLater(ms[i], ns, rs[i]);
      }
    }
    SameNamesThen(ms, first);
    assert ms[k].name in Names(ms);
  }

  lemma SameNamesThen(ms: seq<Member>, first: seq<Member>)
    requires |first| == |ms| && forall i | 0 <= i < |ms| :: first[i].name == ms[i].name
    ensures Names(first) == Names(ms)
  {
  }

  lemma NewFirst(ms: seq<Member>, ns: seq<Member>, rs: seq<Member>)
    requires ns != [] && ns[0].name !in Names(ns[1..]) && ns[0].name !in Names(ms)
    requires MembersMergeTo(ms + [ns[0]], ns[1..], rs)
    ensures MembersMergeTo(ms, ns, rs)
  {
    var first := ms + [ns[0]];
    forall i | 0 <= i < |ms| ensures MemberMergesTo(ms[i], ns, rs[i]) {
      assert first[i] == ms[i] && MemberMergesTo(first[i], ns[1..], rs[i]);
      assert ms[i].name in Names(ms);
      FoundLater(ms[i], ns, rs[i]);
    }
    AppendedNames(ms, ns[0]);
    NewMembersIgnoreOthers(Names(ms), ns[0].name, ns[1..]);
    assert first[|ms|] == ns[0] && MemberMergesTo(first[|ms|], ns[1..], rs[|ms|]);
    FoundIffNamed(ns[1..], ns[0].name);
    OneMoreInFront(rs, |ms|, ns[0], NewMembers(Names(ms), ns[1..]));
  }

  lemma OneMoreInFront(rs: seq<Member>, n: nat, m: Member, rest: seq<Member>)
    requires n < |rs| && rs[n] == m && rs[n + 1..] == rest
    ensures rs[n..] == [m] + rest
  {
  }

  /** On documents with unique keys the code stores exactly that. */
  lemma {:induction false} UpdateStores(source: Json, override: Json)
    requires UniqueKeys(source) && UniqueKeys(override)
    ensures MergesTo(source, override, Update(source, override).0)
    decreases override, 0
  {
    if !Equal(source, override) && source.Object? && override.Object? {
      MembersStored(source.members, override.members);
    }
  }

  lemma {:induction false} MembersStored(ms: seq<Member>, ns: seq<Member>)
    requires UniqueKeys(Object(ms)) && UniqueKeys(Object(ns))
    ensures MembersMergeTo(ms, ns, UpdateMembers(ms, ns).0)
    decreases ns
  {
    if ns == [] {
      NothingToMerge(ms);
    } else {
      var k := FindMember(ms, ns[0].name);
      var first := UpdateMember(ms, ns[0].name, ns[0].value).0;
      UpdateMemberMergesField(ms, ns[0].name, ns[0].value);
      PrependedNames(ns);
      MembersStored(first, ns[1..]);
      var rs := UpdateMembers(first, ns[1..]).0;
      FoundIffNamed(ms, ns[0].name);
      if k < |ms| {
        UpdateStores(ms[k].value, ns[0].value);
        SharedFirst(ms, ns, k, first, rs);
      } else {
        assert first == ms + [ns[0]];
        NewFirst(ms, ns, rs);
      }
    }
  }

  lemma NothingToMerge(ms: seq<Member>)
    ensures MembersMergeTo(ms, [], ms)
  {
  }

  // ----- The one-level update -----

  function Values(ms: seq<Member>): map<string, Json> {
    map name | name in Names(ms) :: ms[FindMember(ms, name)].value
  }

  /** The values as `UpdateJson` passes them on: names cut at a NUL, the last of equal names winning. */
  function CutValues(ns: seq<Member>): map<string, Json> {
    if ns == [] then map[] else map[UpToNul(ns[0].name) := ns[0].value] + CutValues(ns[1..])
  }

  lemma FoundIs(ms: seq<Member>, name: string, k: nat)
    requires k < |ms| && ms[k].name == name && forall i | 0 <= i < k :: ms[i].name != name
    ensures FindMember(ms, name) == k
  {
  }

  lemma FoundInReplaced(ms: seq<Member>, k: nat, value: Json, x: string)
    requires k < |ms| && x in Names(ms)
    ensures FindMember(ms[k := Member(ms[k].name, value)], x) == FindMember(ms, x) < |ms|
  {
    FoundIffNamed(ms, x);
    FoundIs(ms[k := Member(ms[k].name, value)], x, FindMember(ms, x));
  }

  lemma FoundInLonger(ms: seq<Member>, last: Member, x: string)
    requires last.name !in Names(ms) && x in Names(ms) + {last.name}
    ensures FindMember(ms + [last], x) == if x == last.name then |ms| else FindMember(ms, x)
    ensures x != last.name ==> FindMember(ms, x) < |ms|
  {
    FoundIffNamed(ms, x);
    if x == last.name {
      assert forall i | 0 <= i < |ms| :: ms[i].name in Names(ms);
      FoundIs(ms + [last], x, |ms|);
    } else {
      FoundIs(ms + [last], x, FindMember(ms, x));
    }
  }

  lemma ValuesAre(r: seq<Member>, m: map<string, Json>)
    requires m.Keys == Names(r)
    requires forall x | x in m :: FindMember(r, x) < |r| && r[FindMember(r, x)].value == m[x]
    ensures Values(r) == m
  {
  }

  lemma ValueReplaced(ms: seq<Member>, k: nat, value: Json)
    requires k < |ms| && FindMember(ms, ms[k].name) == k
    ensures Values(ms[k := Member(ms[k].name, value)]) == Values(ms)[ms[k].name := value]
  {
    var (r, m) := (ms[k := Member(ms[k].name, value)], Values(ms)[ms[k].name := value]);
    ReplacedNames(ms, k, value);
    assert ms[k].name in Names(ms);
    assert m.Keys == Names(r);
    forall x | x in m ensures FindMember(r, x) < |r| && r[FindMember(r, x)].value == m[x] {
      FoundInReplaced(ms, k, value, x);
    }
    ValuesAre(r, m);
  }

  lemma ValueAppended(ms: seq<Member>, last: Member)
    requires last.name !in Names(ms)
    ensures Values(ms + [last]) == Values(ms)[last.name := last.value]
  {
    var (r, m) := (ms + [last], Values(ms)[last.name := last.value]);
    AppendedNames(ms, last);
    assert m.Keys == Names(r);
    forall x | x in m ensures FindMember(r, x) < |r| && r[FindMember(r, x)].value == m[x] {
      FoundInLonger(ms, last, x);
    }
    ValuesAre(r, m);
  }

  lemma ValueSet(ms: seq<Member>, name: string, value: Json)
    ensures var r := WithMember(ms, name, value);
            && Values(r) == Values(ms)[name := value]
            && NameSeq(r) == if name in Names(ms) then NameSeq(ms) else NameSeq(ms) + [name]
  {
    var k := FindMember(ms, name);
    FoundIffNamed(ms, name);
    if k < |ms| {
      ValueReplaced(ms, k, value);
      assert NameSeq(ms[k := Member(ms[k].name, value)]) == NameSeq(ms);
    } else {
      ValueAppended(ms, Member(name, value));
      assert NameSeq(ms + [Member(name, value)]) == NameSeq(ms) + [name];
    }
  }

  /** `UpdateJson` stores the values of the second object as they are, under their names, and keeps all
      others; the names that were there keep their places. */
  lemma {:induction false} UpdateJsonStores(ms: seq<Member>, ns: seq<Member>)
    ensures Values(WithMembers(ms, ns)) == Values(ms) + CutValues(ns)
    ensures NameSeq(ms) <= NameSeq(WithMembers(ms, ns))
    decreases ns
  {
    if ns == [] {
      assert Values(ms) + map[] == Values(ms);
    } else {
      var key := UpToNul(ns[0].name);
      ValueSet(ms, key, ns[0].value);
      UpdateJsonStores(WithMember(ms, key, ns[0].value), ns[1..]);
      ValuesLaterOrSooner(Values(ms), CutValues(ns[1..]), key, ns[0].value);
    }
  }

  lemma ValuesLaterOrSooner(m: map<string, Json>, n: map<string, Json>, name: string, v: Json)
    ensures m[name := v] + n == m + (map[name := v] + n)
  {
  }

  /** New members are appended in the order of the second object. */
  lemma {:induction false} UpdateJsonKeepsOrder(ms: seq<Member>, ns: seq<Member>)
    requires DistinctNames(ns) && forall i | 0 <= i < |ns| :: '\0' !in ns[i].name
    ensures NameSeq(WithMembers(ms, ns)) == NameSeq(ms) + NewNames(Names(ms), ns)
    decreases ns
  {
    if ns != [] {
      var first := WithMember(ms, ns[0].name, ns[0].value);
      ValueSet(ms, ns[0].name, ns[0].value);
      assert Names(first) == Values(first).Keys == Names(ms) + {ns[0].name};
      forall i | 0 <= i < |ns[1..]| ensures '\0' !in ns[1..][i].name {
        assert ns[1..][i] == ns[i + 1];
      }
      UpdateJsonKeepsOrder(first, ns[1..]);
      NewNamesFirst(NameSeq(ms), Names(ms), ns);
    }
  }
}
