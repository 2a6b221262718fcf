/** What the load overloads of mujinjson.h accept, convert and refuse, type by type and for JSON of any
    origin. The two target types of each pair that share a rule are named together. */
module Conversions {
  import opened Json
  import opened Text
  import opened TypedJson

  // ----- Booleans, numbers and strings -----

  /** A bool takes a 32-bit integer as "not zero", a bool, and a string as its cast says. */
  lemma BoolLoads(c: Casts, j: Json, held: Val)
    ensures Load(c, TyBool, j, held) ==
            match j
            case Int(n) => if -0x8000_0000 <= n < 0x8000_0000 then Ok(VBool(n != 0)) else Err
            case Bool(b) => Ok(VBool(b))
            case String(s) => (var r := c.toBool(UpToNul(s)); if r.Ok? then Ok(VBool(r.value)) else Err)
            case _ => Err
  {
  }

  /** The least number of a kind, and how many it has. */
  function Range(k: Kind): (int, int) {
    match k
    case Int8 => (-0x80, 0x100)
    case Int16 => (-0x8000, 0x1_0000)
    case Int32 => (-0x8000_0000, 0x1_0000_0000)
    case Int64 => (-0x8000_0000_0000_0000, 0x1_0000_0000_0000_0000)
    case UInt8 => (0, 0x100)
    case UInt16 => (0, 0x1_0000)
    case UInt32 => (0, 0x1_0000_0000)
    case UInt64 => (0, 0x1_0000_0000_0000_0000)
  }

  /** The numbers an overload takes: those of the wider type it reads them through. */
  predicate Takes(k: Kind, n: int) {
    match k
    case Int8 | Int32 => -0x8000_0000 <= n < 0x1_0000_0000
    case Int16 => -0x8000_0000 <= n < 0x8000_0000
    case UInt8 | UInt16 | UInt32 => 0 <= n < 0x1_0000_0000
    case Int64 => -0x8000_0000_0000_0000 <= n < 0x8000_0000_0000_0000
    case UInt64 => 0 <= n < 0x1_0000_0000_0000_0000
  }

  /** `r` holds the number of kind `k` that agrees with `n` modulo the size of the kind. */
  predicate Stores(r: Result<Val>, k: Kind, n: int) {
    var (low, size) := Range(k);
    && r.Ok? && r.value.VInt? && low <= r.value.n < low + size
    && (r.value.n - low) % size == (n - low) % size
  }

  lemma StoresOnlyOne(r: Result<Val>, k: Kind, n: int)
    requires Stores(r, k, n)
    ensures Range(k).0 <= n < Range(k).0 + Range(k).1 ==> r == Ok(VInt(n))
  {
  }

  /** An integer type takes the numbers above, true and false as 1 and 0, and a string as its cast says.
      A number of the type loads as itself, another wraps around. */
  lemma IntLoads(c: Casts, k: Kind, j: Json, held: Val)
    ensures var r := Load(c, TyInt(k), j, held);
            match j
            case Int(n) => if Takes(k, n) then Stores(r, k, n) else r == Err
            case Bool(b) => r == Ok(VInt(if b then 1 else 0))
            case String(s) =>
              (var cast := c.toInt(if k.Int8? then Int32 else if k.UInt8? then UInt32 else k, UpToNul(s));
               if cast.Ok? then Stores(r, k, cast.value) else r == Err)
            case _ => r == Err
  {
    match j
    case Int(n) => NumberLoads(c, k, n, held);
    case String(s) => TextLoads(c, k, s, held);
    case _ =>
  }

  lemma NumberLoads(c: Casts, k: Kind, n: int, held: Val)
    ensures var r := Load(c, TyInt(k), Int(n), held); if Takes(k, n) then Stores(r, k, n) else r == Err
  {
    WrapStores(k, n);
  }

  lemma TextLoads(c: Casts, k: Kind, s: string, held: Val)
    ensures var r := Load(c, TyInt(k), String(s), held);
            var cast := c.toInt(if k.Int8? then Int32 else if k.UInt8? then UInt32 else k, UpToNul(s));
            if cast.Ok? then Stores(r, k, cast.value) else r == Err
  {
    var cast := c.toInt(if k.Int8? then Int32 else if k.UInt8? then UInt32 else k, UpToNul(s));
    if cast.Ok? {
      WrapStores(k, cast.value);
    }
  }

  lemma WrapStores(k: Kind, n: int)
    ensures Stores(Ok(VInt(Wrap(k, n))), k, n)
  {
    var (low, size) := Range(k);
    assert (low, size) == (Low(k), Width(k));
    Remainder(n - low, size);
  }

  lemma Remainder(n: int, size: int)
    requires size > 0
    ensures (n % size) % size == n % size
  {
  }

  /** A string takes a string, NULs included, and a 64-bit number. */
  lemma StringLoads(c: Casts, j: Json, held: Val)
    ensures Load(c, TyString, j, held) ==
            match j
            case String(s) => Ok(VString(s))
            case Int(n) =>
              if -0x8000_0000_0000_0000 <= n < 0x8000_0000_0000_0000 then Ok(VString(c.fromInt(n))) else Err
            case _ => Err
  {
  }

  // ----- What is refused for its shape -----

  predicate WrongShape(ty: Ty, j: Json) {
    match ty
    case TyVector(_) | TyDeque(_) | TySet(_) | TyUnorderedSet(_) => !j.Array?
    case TyArray(_, n) => !j.Array? || |j.items| != n
    case TyPair(_, _) => !j.Array? || |j.items| != 2
    case TyMap(_) => !j.Object? && !j.Array?
    case TyUnorderedMap(_) => !j.Object?
    case TyBool | TyInt(_) => !j.Int? && !j.Bool? && !j.String?
    case TyString => !j.Int? && !j.String?
    case TyOptional(_) => false
  }

  /** Every type but an optional refuses null, and each the shapes above, whatever the target holds. */
  lemma WrongShapesAreRefused(c: Casts, ty: Ty, j: Json, held: Val)
    requires WrongShape(ty, j) || (j.Null? && !ty.TyOptional?)
    ensures Load(c, ty, j, held) == Err
  {
  }

  // ----- What containers load -----

  /** Each element loads from the JSON at its place into what `held` has there. */
  ghost predicate EachLoads(c: Casts, t: Ty, js: seq<Json>, held: seq<Val>, r: Result<seq<Val>>)
    requires |js| == |held|
  {
    && (r.Ok? <==> forall i | 0 <= i < |js| :: Load(c, t, js[i], held[i]).Ok?)
    && (r.Ok? ==> |r.value| == |js| && forall i | 0 <= i < |js| :: Load(c, t, js[i], held[i]) == Ok(r.value[i]))
  }

  lemma {:induction false} ItemsLoad(c: Casts, t: Ty, js: seq<Json>, held: seq<Val>, done: seq<Val>)
    returns (rest: Result<seq<Val>>)
    requires |js| == |held|
    ensures EachLoads(c, t, js, held, rest)
    ensures LoadItems(c, t, js, held, done) == if rest.Ok? then Ok(done + rest.value) else Err
    decreases |js|
  {
    if js == [] {
      rest := Ok([]);
      assert done + [] == done;
    } else {
      var first := Load(c, t, js[0], held[0]);
      if first.Err? {
        rest := Err;
      } else {
        var later := ItemsLoad(c, t, js[1..], held[1..], done + [first.value]);
        rest := if later.Ok? then Ok([first.value] + later.value) else Err;
        FirstAndLater(c, t, js, held, later, rest);
        if later.Ok? {
          assert done + [first.value] + later.value == done + rest.value;
        }
      }
    }
  }

  lemma FirstAndLater(c: Casts, t: Ty, js: seq<Json>, held: seq<Val>, later: Result<seq<Val>>, all: Result<seq<Val>>)
    requires js != [] && |js| == |held| && Load(c, t, js[0], held[0]).Ok?
    requires EachLoads(c, t, js[1..], held[1..], later)
    requires all == if later.Ok? then Ok([Load(c, t, js[0], held[0]).value] + later.value) else Err
    ensures EachLoads(c, t, js, held, all)
  {
    forall i | 0 < i < |js| ensures js[i] == js[1..][i - 1] && held[i] == held[1..][i - 1] {
    }
    if later.Err? {
      var i :| 0 <= i < |js[1..]| && Load(c, t, js[1..][i], held[1..][i]).Err?;
      assert Load(c, t, js[i + 1], held[i + 1]).Err?;
    }
  }

  /** A vector and a deque take an array element by element, each into a new element; a fixed-size array
      does so into the elements it has. One element that does not load makes the whole fail. */
  lemma SequencesLoad(c: Casts, ty: Ty, t: Ty, j: Json, held: Val)
    requires j.Array? && (ty == TyVector(t) || ty == TyDeque(t) || ty == TyArray(t, |j.items|))
    ensures var r := Load(c, ty, j, held);
            && (r.Ok? ==> r.value.VSeq?)
            && EachLoads(c, t, j.items,
                         if ty.TyArray? && held.VSeq? && |held.items| == |j.items| then held.items
                         else seq(|j.items|, _ => Default(t)),
                         if r.Ok? then Ok(r.value.items) else Err)
  {
    var into := if ty.TyArray? then HeldItems(held, t, |j.items|) else Replicate(|j.items|, Default(t));
    var rest := ItemsLoad(c, t, j.items, into, []);
    if rest.Ok? {
      assert [] + rest.value == rest.value;
    }
  }

  /** A pair takes an array of two, and fails if one of them does. */
  lemma PairLoads(c: Casts, t: Ty, u: Ty, a: Json, b: Json, held: Val)
    ensures var (x, y) := if held.VPair? then (held.first, held.second) else (Default(t), Default(u));
            var (first, second) := (Load(c, t, a, x), Load(c, u, b, y));
            Load(c, TyPair(t, u), Array([a, b]), held) ==
              if first.Ok? && second.Ok? then Ok(VPair(first.value, second.value)) else Err
  {
  }

  /** An optional takes null as nothing, and otherwise what its type takes. */
  lemma OptionalLoads(c: Casts, t: Ty, j: Json, held: Val)
    ensures var r := Load(c, t, j, Default(t));
            Load(c, TyOptional(t), j, held) ==
              if j == Null then Ok(VNone) else if r.Ok? then Ok(VSome(r.value)) else Err
  {
  }

  /** The values that the elements of an array load as. */
  ghost predicate SetLoads(c: Casts, t: Ty, js: seq<Json>, r: Result<set<Val>>) {
    && (r.Ok? <==> forall i | 0 <= i < |js| :: Load(c, t, js[i], Default(t)).Ok?)
    && (r.Ok? ==> forall x :: x in r.value <==> exists i :: 0 <= i < |js| && Load(c, t, js[i], Default(t)) == Ok(x))
  }

  lemma {:induction false} ElementsLoad(c: Casts, t: Ty, js: seq<Json>, done: set<Val>)
    returns (rest: Result<set<Val>>)
    ensures SetLoads(c, t, js, rest)
    ensures LoadElements(c, t, js, done) == if rest.Ok? then Ok(done + rest.value) else Err
    decreases |js|
  {
    if js == [] {
      rest := Ok({});
      assert done + {} == done;
    } else {
      var first := Load(c, t, js[0], Default(t));
      if first.Err? {
        rest := Err;
      } else {
        var later := ElementsLoad(c, t, js[1..], done + {first.value});
        rest := if later.Ok? then Ok({first.value} + later.value) else Err;
        FirstAndLaterElements(c, t, js, later, rest);
        if later.Ok? {
          assert done + {first.value} + later.value == done + rest.value;
        }
      }
    }
  }

  lemma FirstAndLaterElements(c: Casts, t: Ty, js: seq<Json>, later: Result<set<Val>>, all: Result<set<Val>>)
    requires js != [] && Load(c, t, js[0], Default(t)).Ok? && SetLoads(c, t, js[1..], later)
    requires all == if later.Ok? then Ok({Load(c, t, js[0], Default(t)).value} + later.value) else Err
    ensures SetLoads(c, t, js, all)
  {
    forall i | 0 < i < |js| ensures js[i] == js[1..][i - 1] {
    }
    if later.Err? {
      var i :| 0 <= i < |js[1..]| && Load(c, t, js[1..][i], Default(t)).Err?;
      assert Load(c, t, js[i + 1], Default(t)).Err?;
    } else {
      forall x | x in later.value
        ensures exists i :: 0 <= i < |js| && Load(c, t, js[i], Default(t)) == Ok(x)
      {
        var i :| 0 <= i < |js[1..]| && Load(c, t, js[1..][i], Default(t)) == Ok(x);
        assert Load(c, t, js[i + 1], Default(t)) == Ok(x);
      }
    }
  }

  /** A set takes an array and holds what its elements load as, nothing of what it held. */
  lemma SetsLoad(c: Casts, ty: Ty, t: Ty, j: Json, held: Val)
    requires j.Array? && (ty == TySet(t) || ty == TyUnorderedSet(t))
    ensures var r := Load(c, ty, j, held);
            && (r.Ok? ==> r.value.VSet?)
            && SetLoads(c, t, j.items, if r.Ok? then Ok(r.value.elements) else Err)
  {
    var rest := ElementsLoad(c, t, j.items, {});
    if rest.Ok? {
      assert {} + rest.value == rest.value;
    }
  }

  // ----- Maps -----

  /** The place of the last `name`, or -1. */
  function LastNamed(names: seq<string>, name: string): (k: int)
    ensures -1 <= k < |names|
    ensures k >= 0 <==> name in names
    ensures k >= 0 ==> names[k] == name && name !in names[k + 1..]
  {
    if names == [] then -1
    else
      var n := |names| - 1;
      if names[n] == name then n
      else
        assert names == names[..n] + [names[n]];
        LastNamed(names[..n], name)
  }

  /** The map that has under each name the value at its last place. */
  function Keyed(names: seq<string>, values: seq<Val>): map<string, Val>
    requires |names| == |values|
  {
    map name | name in names :: values[LastNamed(names, name)]
  }

  lemma KeyedAppend(names: seq<string>, values: seq<Val>, name: string, v: Val)
    requires |names| == |values|
    ensures Keyed(names + [name], values + [v]) == Keyed(names, values)[name := v]
  {
    var all := names + [name];
    assert all[..|names|] == names;
    forall x | x in all ensures LastNamed(all, x) == if x == name then |names| else LastNamed(names, x) {
    }
  }

  /** Where the value of member `i` loads into: what an earlier member of its name left, or a new value. */
  function Into(t: Ty, ms: seq<Member>, values: seq<Val>, i: nat): Val
    requires i < |ms| && i <= |values|
  {
    var earlier := Keyed(NameSeq(ms[..i]), values[..i]);
    if ms[i].name in earlier then earlier[ms[i].name] else Default(t)
  }

  /** The first members load in turn as `values`. */
  ghost predicate FirstLoad(c: Casts, t: Ty, ms: seq<Member>, values: seq<Val>) {
    && |values| <= |ms|
    && forall i | 0 <= i < |values| :: Load(c, t, ms[i].value, Into(t, ms, values, i)) == Ok(values[i])
  }

  /** Behind them comes one that does not load, or none. */
  ghost predicate MembersLoad(c: Casts, t: Ty, ms: seq<Member>, values: seq<Val>) {
    && FirstLoad(c, t, ms, values)
    && (|values| < |ms| ==> Load(c, t, ms[|values|].value, Into(t, ms, values, |values|)).Err?)
  }

  /** What the members so far left. */
  function Loaded(ms: seq<Member>, values: seq<Val>): map<string, Val>
    requires |values| <= |ms|
  {
    Keyed(NameSeq(ms[..|values|]), values)
  }

  /** The first members load as `values`, and the others are still to load. */
  ghost predicate EntriesSoFar(c: Casts, t: Ty, ms: seq<Member>, values: seq<Val>) {
    && FirstLoad(c, t, ms, values)
    && LoadEntries(c, t, ms, map[]) == LoadEntries(c, t, ms[|values|..], Loaded(ms, values))
  }

  lemma EntriesLoad(c: Casts, t: Ty, ms: seq<Member>) returns (values: seq<Val>)
    ensures MembersLoad(c, t, ms, values)
    ensures LoadEntries(c, t, ms, map[]) == if |values| < |ms| then Err else Ok(Keyed(NameSeq(ms), values))
  {
    values := [];
    assert ms[0..] == ms && Loaded(ms, []) == map[];
    while |values| < |ms|
      invariant EntriesSoFar(c, t, ms, values)
    {
      var v := Load(c, t, ms[|values|].value, Into(t, ms, values, |values|));
      EntryStep(c, t, ms, values, v);
      if v.Err? {
        return;
      }
      values := values + [v.value];
    }
    assert ms[..|values|] == ms && ms[|values|..] == [];
  }

  lemma EntryStep(c: Casts, t: Ty, ms: seq<Member>, values: seq<Val>, v: Result<Val>)
    requires EntriesSoFar(c, t, ms, values) && |values| < |ms|
    requires v == Load(c, t, ms[|values|].value, Into(t, ms, values, |values|))
    ensures if v.Err? then LoadEntries(c, t, ms, map[]) == Err else EntriesSoFar(c, t, ms, values + [v.value])
  {
    var rest := ms[|values|..];
    OneMoreEntry(c, t, ms, values, rest, v);
    if v.Ok? {
      var more := values + [v.value];
      OneMoreLoads(c, t, ms, values, v.value);
      assert ms[|more|..] == ms[|values| + 1..];
    }
  }

  lemma OneMoreLoads(c: Casts, t: Ty, ms: seq<Member>, values: seq<Val>, v: Val)
    requires FirstLoad(c, t, ms, values) && |values| < |ms|
    requires Load(c, t, ms[|values|].value, Into(t, ms, values, |values|)) == Ok(v)
    ensures FirstLoad(c, t, ms, values + [v])
  {
    SameInto(t, ms, values, v);
  }

  lemma OneMoreEntry(c: Casts, t: Ty, ms: seq<Member>, values: seq<Val>, rest: seq<Member>, v: Result<Val>)
    requires |values| < |ms| && v == Load(c, t, ms[|values|].value, Into(t, ms, values, |values|))
    requires rest == ms[|values|..]
    ensures LoadEntries(c, t, rest, Loaded(ms, values)) ==
            if v.Err? then Err else LoadEntries(c, t, ms[|values| + 1..], Loaded(ms, values + [v.value]))
  {
    var n := |values|;
    assert values[..n] == values && rest[0] == ms[n] && rest[1..] == ms[n + 1..];
    FirstEntry(c, t, rest, Loaded(ms, values), v);
    if v.Ok? {
      LoadedAppend(ms, values, v.value);
    }
  }

  lemma LoadedAppend(ms: seq<Member>, values: seq<Val>, v: Val)
    requires |values| < |ms|
    ensures Loaded(ms, values + [v]) == Loaded(ms, values)[ms[|values|].name := v]
  {
    var n := |values|;
    assert NameSeq(ms[..n + 1]) == NameSeq(ms[..n]) + [ms[n].name];
    KeyedAppend(NameSeq(ms[..n]), values, ms[n].name, v);
  }

  lemma FirstEntry(c: Casts, t: Ty, rest: seq<Member>, done: map<string, Val>, v: Result<Val>)
    requires rest != []
    requires v == Load(c, t, rest[0].value, if rest[0].name in done then done[rest[0].name] else Default(t))
    ensures LoadEntries(c, t, rest, done) ==
            if v.Err? then Err else LoadEntries(c, t, rest[1..], done[rest[0].name := v.value])
  {
  }

  lemma SameInto(t: Ty, ms: seq<Member>, values: seq<Val>, v: Val)
    requires |values| < |ms|
    ensures forall i | 0 <= i <= |values| :: Into(t, ms, values + [v], i) == Into(t, ms, values, i)
  {
    forall i | 0 <= i <= |values| ensures (values + [v])[..i] == values[..i] {
    }
  }

  /** A map and an unordered map take an object, clear what they held and load member by member; under a
      name that comes twice the later value loads into the earlier one. */
  lemma ObjectsLoad(c: Casts, ty: Ty, t: Ty, j: Json, held: Val) returns (values: seq<Val>)
    requires j.Object? && (ty == TyMap(t) || ty == TyUnorderedMap(t))
    ensures MembersLoad(c, t, j.members, values)
    ensures Load(c, ty, j, held) ==
            if |values| < |j.members| then Err else Ok(VMap(Keyed(NameSeq(j.members), values)))
  {
    values := EntriesLoad(c, t, j.members);
  }

  /** A pair of a string and a value, read into a new pair. */
  function PairOf(c: Casts, t: Ty, j: Json): Result<Val> {
    Load(c, TyPair(TyString, t), j, VPair(VString(""), Default(t)))
  }

  /** The first pairs load as `keys` and `values`. */
  ghost predicate FirstPairsLoad(c: Casts, t: Ty, js: seq<Json>, keys: seq<string>, values: seq<Val>) {
    && |keys| == |values| <= |js|
    && forall i | 0 <= i < |keys| :: PairOf(c, t, js[i]) == Ok(VPair(VString(keys[i]), values[i]))
  }

  ghost predicate PairsLoad(c: Casts, t: Ty, js: seq<Json>, keys: seq<string>, values: seq<Val>) {
    && FirstPairsLoad(c, t, js, keys, values)
    && (|keys| < |js| ==> PairOf(c, t, js[|keys|]).Err?)
  }

  /** A map also takes an array of pairs, and adds them to what it holds, later pairs winning. */
  lemma PairListsLoad(c: Casts, t: Ty, j: Json, held: Val) returns (keys: seq<string>, values: seq<Val>)
    requires j.Array?
    ensures PairsLoad(c, t, j.items, keys, values)
    ensures Load(c, TyMap(t), j, held) ==
            if |keys| < |j.items| then Err
            else Ok(VMap((if held.VMap? then held.entries else map[]) + Keyed(keys, values)))
  {
    var js, old' := j.items, HeldEntries(held);
    keys, values := [], [];
    assert js[0..] == js && old' + Keyed([], []) == old';
    while |keys| < |js|
      invariant PairsSoFar(c, t, js, old', keys, values)
    {
      var p := PairOf(c, t, js[|keys|]);
      PairStep(c, t, js, old', keys, values, p);
      if p.Err? {
        return;
      }
      keys, values := keys + [p.value.first.s], values + [p.value.second];
    }
    assert js[|keys|..] == [];
  }

  /** The first pairs load as `keys` and `values`, and the others are still to load. */
  ghost predicate PairsSoFar(c: Casts, t: Ty, js: seq<Json>, old': map<string, Val>, keys: seq<string>,
                             values: seq<Val>) {
    && FirstPairsLoad(c, t, js, keys, values)
    && LoadPairs(c, t, js, old') == LoadPairs(c, t, js[|keys|..], old' + Keyed(keys, values))
  }

  lemma PairStep(c: Casts, t: Ty, js: seq<Json>, old': map<string, Val>, keys: seq<string>, values: seq<Val>,
      p: Result<Val>)
    requires PairsSoFar(c, t, js, old', keys, values) && |keys| < |js| && p == PairOf(c, t, js[|keys|])
    ensures p.Err? ==> LoadPairs(c, t, js, old') == Err
    ensures p.Ok? ==> p.value.VPair? && p.value.first.VString?
    ensures p.Ok? ==> PairsSoFar(c, t, js, old', keys + [p.value.first.s], values + [p.value.second])
  {
    var rest := js[|keys|..];
    OneMorePair(c, t, rest, old' + Keyed(keys, values), p);
    if p.Ok? {
      assert rest[1..] == js[|keys| + 1..];
      KeyedAppend(keys, values, p.value.first.s, p.value.second);
      AddedLast(old', Keyed(keys, values), p.value.first.s, p.value.second);
    }
  }

  lemma OneMorePair(c: Casts, t: Ty, js: seq<Json>, done: map<string, Val>, p: Result<Val>)
    requires js != [] && p == PairOf(c, t, js[0])
    ensures p.Ok? ==> p.value.VPair? && p.value.first.VString?
    ensures LoadPairs(c, t, js, done) ==
            if p.Err? then Err else LoadPairs(c, t, js[1..], done[p.value.first.s := p.value.second])
  {
    if js[0].Array? && |js[0].items| == 2 {
      var (a, b) := (js[0].items[0], js[0].items[1]);
      assert js[0] == Array([a, b]);
      PairLoads(c, TyString, t, a, b, VPair(VString(""), Default(t)));
      LoadedText(c, a, VString(""));
    } else {
      WrongShapesAreRefused(c, TyPair(TyString, t), js[0], VPair(VString(""), Default(t)));
    }
  }

  lemma LoadedText(c: Casts, j: Json, held: Val)
    ensures var s := LoadString(c, j); Load(c, TyString, j, held) == if s.Ok? then Ok(VString(s.value)) else Err
  {
  }

  lemma AddedLast(m: map<string, Val>, n: map<string, Val>, name: string, v: Val)
    ensures m + n[name := v] == (m + n)[name := v]
  {
  }

  // ----- What saving writes -----

  /** The JSON of a saved value is of the kind that its type names. */
  lemma SavedShape(ty: Ty, v: Val, j: Json)
    requires HasType(ty, v) && Saves(ty, v, j)
    ensures match ty
            case TyBool => j == Bool(v.b)
            case TyInt(_) => j == Int(v.n)
            case TyString => j == String(UpToNul(v.s))
            case TyVector(_) | TyDeque(_) | TyArray(_, _) => j.Array? && |j.items| == |v.items|
            case TyPair(_, _) => j.Array? && |j.items| == 2
            case TyMap(_) | TyUnorderedMap(_) => j.Object? && |j.members| == |v.entries|
            case TySet(_) | TyUnorderedSet(_) => j.Array? && |j.items| == |v.elements|
            case TyOptional(_) => v == VNone ==> j == Null
  {
    match ty
    case TyMap(_) | TyUnorderedMap(_) =>
      AsManyMembers(ty.value, v.entries, j.members);
    case TySet(_) | TyUnorderedSet(_) =>
      AsManyElements(ty.item, v.elements, j.items);
    case _ =>
  }

  lemma AsManyMembers(t: Ty, entries: map<string, Val>, ms: seq<Member>)
    requires (forall k | k in entries :: HasType(t, entries[k])) && SavesEntries(t, entries, ms)
    ensures |ms| == |entries|
  {
    var order :| WalksEntries(t, entries, ms, order);
    AsManyAsListed(order, entries.Keys);
  }

  lemma AsManyElements(t: Ty, elements: set<Val>, js: seq<Json>)
    requires (forall x | x in elements :: HasType(t, x)) && SavesElements(t, elements, js)
    ensures |js| == |elements|
  {
    var order :| Enumerates(order, elements) && (forall x | x in order :: HasType(t, x)) && SavesItems(t, order, js);
    AsManyAsListed(order, elements);
  }

  lemma {:induction false} AsManyAsListed<T(!new)>(order: seq<T>, s: set<T>)
    requires Enumerates(order, s)
    ensures |order| == |s|
    decreases order
  {
    if order == [] {
      assert s == {};
    } else {
      var front, last := order[..|order| - 1], order[|order| - 1];
      assert order == front + [last];
      assert Enumerates(front, s - {last});
      AsManyAsListed(front, s - {last});
    }
  }
}
