/** The `SaveJsonValue` and `LoadJsonValue` overload families of
    include/mujincontrollerclient/mujinjson.h, over a deep embedding of the C++ types. */
module TypedJson {
  import opened Json
  import opened Text

  datatype Kind = Int8 | Int16 | Int32 | Int64 | UInt8 | UInt16 | UInt32 | UInt64

  datatype Ty =
    | TyBool
    | TyInt(kind: Kind)
    | TyString
    | TyVector(item: Ty)
    | TyDeque(item: Ty)
    | TyArray(item: Ty, size: nat)
    | TyPair(first: Ty, second: Ty)
    | TyMap(value: Ty)
    | TyUnorderedMap(value: Ty)
    | TySet(item: Ty)
    | TyUnorderedSet(item: Ty)
    | TyOptional(item: Ty)

  datatype Val =
    | VBool(b: bool)
    | VInt(n: int)
    | VString(s: string)
    | VSeq(items: seq<Val>)
    | VPair(first: Val, second: Val)
    | VMap(entries: map<string, Val>)
    | VSet(elements: set<Val>)
    | VNone
    | VSome(value: Val)

  function Width(k: Kind): int {
    match k
    case Int8 | UInt8 => 0x100
    case Int16 | UInt16 => 0x1_0000
    case Int32 | UInt32 => 0x1_0000_0000
    case Int64 | UInt64 => 0x1_0000_0000_0000_0000
  }

  function Low(k: Kind): int {
    if k.Int8? || k.Int16? || k.Int32? || k.Int64? then -(Width(k) / 2) else 0
  }

  predicate InRange(k: Kind, n: int) {
    Low(k) <= n < Low(k) + Width(k)
  }

  /** The conversion C++ does on assignment: modulo the width. */
  function Wrap(k: Kind, n: int): (r: int)
    ensures InRange(k, n) ==> r == n
  {
    if InRange(k, n) then n else Low(k) + (n - Low(k)) % Width(k)
  }

  predicate HasType(ty: Ty, v: Val) {
    match ty
    case TyBool => v.VBool?
    case TyInt(k) => v.VInt? && InRange(k, v.n)
    case TyString => v.VString?
    case TyVector(t) => v.VSeq? && forall x | x in v.items :: HasType(t, x)
    case TyDeque(t) => v.VSeq? && forall x | x in v.items :: HasType(t, x)
    case TyArray(t, n) => v.VSeq? && |v.items| == n && forall x | x in v.items :: HasType(t, x)
    case TyPair(t, u) => v.VPair? && HasType(t, v.first) && HasType(u, v.second)
    case TyMap(t) => v.VMap? && forall k | k in v.entries :: HasType(t, v.entries[k])
    case TyUnorderedMap(t) => v.VMap? && forall k | k in v.entries :: HasType(t, v.entries[k])
    case TySet(t) => v.VSet? && forall x | x in v.elements :: HasType(t, x)
    case TyUnorderedSet(t) => v.VSet? && forall x | x in v.elements :: HasType(t, x)
    case TyOptional(t) => v.VNone? || (v.VSome? && HasType(t, v.value))
  }

  /** A default-constructed C++ value. */
  function Default(ty: Ty): Val {
    match ty
    case TyBool => VBool(false)
    case TyInt(_) => VInt(0)
    case TyString => VString("")
    case TyVector(_) => VSeq([])
    case TyDeque(_) => VSeq([])
    case TyArray(t, n) => VSeq(seq(n, _ => Default(t)))
    case TyPair(t, u) => VPair(Default(t), Default(u))
    case TyMap(_) => VMap(map[])
    case TyUnorderedMap(_) => VMap(map[])
    case TySet(_) => VSet({})
    case TyUnorderedSet(_) => VSet({})
    case TyOptional(_) => VNone
  }

  // ----- Saving -----

  ghost predicate Enumerates<T(!new)>(order: seq<T>, s: set<T>) {
    && (forall i, j | 0 <= i < j < |order| :: order[i] != order[j])
    && (forall x :: x in order <==> x in s)
  }

  /** `j` is what saving `v` may produce; maps and sets are walked in any order. */
  ghost predicate Saves(ty: Ty, v: Val, j: Json)
    requires HasType(ty, v)
    decreases ty, 0
  {
    match ty
    case TyBool => j == Bool(v.b)
    case TyInt(_) => j == Int(v.n)
    case TyString => j == String(UpToNul(v.s))
    case TyVector(t) => j.Array? && SavesItems(t, v.items, j.items)
    case TyDeque(t) => j.Array? && SavesItems(t, v.items, j.items)
    case TyArray(t, _) => j.Array? && SavesItems(t, v.items, j.items)
    case TyPair(t, u) =>
      j.Array? && |j.items| == 2 && Saves(t, v.first, j.items[0]) && Saves(u, v.second, j.items[1])
    case TyMap(t) => j.Object? && SavesEntries(t, v.entries, j.members)
    case TyUnorderedMap(t) => j.Object? && SavesEntries(t, v.entries, j.members)
    case TySet(t) => j.Array? && SavesElements(t, v.elements, j.items)
    case TyUnorderedSet(t) => j.Array? && SavesElements(t, v.elements, j.items)
    case TyOptional(t) => if v.VNone? then j == Null else Saves(t, v.value, j)
  }

  ghost predicate SavesItems(t: Ty, xs: seq<Val>, js: seq<Json>)
    requires forall x | x in xs :: HasType(t, x)
    decreases t, 1
  {
    |xs| == |js| && forall i | 0 <= i < |xs| :: Saves(t, xs[i], js[i])
  }

  /** `ms` holds the entries of the map, walked in the order `order`. */
  ghost predicate WalksEntries(t: Ty, entries: map<string, Val>, ms: seq<Member>, order: seq<string>)
    requires forall k | k in entries :: HasType(t, entries[k])
    decreases t, 1
  {
    && Enumerates(order, entries.Keys)
    && |order| == |ms|
    && forall i | 0 <= i < |ms| ::
         order[i] in entries && ms[i].name == UpToNul(order[i]) && Saves(t, entries[order[i]], ms[i].value)
  }

  ghost predicate SavesEntries(t: Ty, entries: map<string, Val>, ms: seq<Member>)
    requires forall k | k in entries :: HasType(t, entries[k])
    decreases t, 2
  {
    exists order :: WalksEntries(t, entries, ms, order)
  }

  ghost predicate SavesElements(t: Ty, elements: set<Val>, js: seq<Json>)
    requires forall x | x in elements :: HasType(t, x)
    decreases t, 2
  {
    exists order ::
      Enumerates(order, elements) && (forall x | x in order :: HasType(t, x)) && SavesItems(t, order, js)
  }

  // ----- Loading -----

  /** boost::lexical_cast between strings and numbers; its rules are not part of this model. */
  datatype Casts = Casts(
    toInt: (Kind, string) -> Result<int>,
    toBool: string -> Result<bool>,
    fromInt: int -> string)

  predicate IsInt(j: Json) { j.Int? && InRange(Int32, j.n) }
  predicate IsUint(j: Json) { j.Int? && InRange(UInt32, j.n) }
  predicate IsInt64(j: Json) { j.Int? && InRange(Int64, j.n) }
  predicate IsUint64(j: Json) { j.Int? && InRange(UInt64, j.n) }

  /** The number tests each integer overload makes before it converts. */
  predicate TakesNumber(k: Kind, j: Json) {
    match k
    case Int8 | Int32 => IsInt(j) || IsUint(j)
    case Int16 => IsInt(j)
    case UInt8 | UInt16 | UInt32 => IsUint(j)
    case Int64 => IsInt64(j)
    case UInt64 => IsUint64(j)
  }

  function LoadInt(c: Casts, k: Kind, j: Json): Result<Val> {
    if TakesNumber(k, j) then Ok(VInt(Wrap(k, j.n)))
    else if j.String? then
      var castKind := if k.Int8? then Int32 else if k.UInt8? then UInt32 else k;
      match c.toInt(castKind, UpToNul(j.s))
      case Ok(n) => Ok(VInt(Wrap(k, n)))
      case Err => Err
    else if j.Bool? then Ok(VInt(if j.b then 1 else 0))
    else Err
  }

  function LoadBool(c: Casts, j: Json): Result<Val> {
    if IsInt(j) then Ok(VBool(j.n != 0))
    else if j.Bool? then Ok(VBool(j.b))
    else if j.String? then
      match c.toBool(UpToNul(j.s))
      case Ok(b) => Ok(VBool(b))
      case Err => Err
    else Err
  }

  function LoadString(c: Casts, j: Json): Result<string> {
    if j.String? then Ok(j.s)
    else if IsInt64(j) then Ok(c.fromInt(j.n))
    else Err
  }

  function Replicate(n: nat, v: Val): (r: seq<Val>)
    ensures |r| == n
  {
    seq(n, _ => v)
  }

  /** The elements a fixed-size target already holds. */
  function HeldItems(held: Val, t: Ty, n: nat): (r: seq<Val>)
    ensures |r| == n
  {
    if held.VSeq? && |held.items| == n then held.items else Replicate(n, Default(t))
  }

  function HeldPair(held: Val, t: Ty, u: Ty): (Val, Val) {
    if held.VPair? then (held.first, held.second) else (Default(t), Default(u))
  }

  function HeldEntries(held: Val): map<string, Val> {
    if held.VMap? then held.entries else map[]
  }

  /** Loading `j` into a target of type `ty` that holds `held`. */
  function Load(c: Casts, ty: Ty, j: Json, held: Val): Result<Val>
    decreases ty, 0
  {
    match ty
    case TyBool => LoadBool(c, j)
    case TyInt(k) => LoadInt(c, k, j)
    case TyString =>
      (match LoadString(c, j)
       case Ok(s) => Ok(VString(s))
       case Err => Err)
    case TyVector(t) =>
      if j.Array? then SeqOf(LoadItems(c, t, j.items, Replicate(|j.items|, Default(t)), [])) else Err
    case TyDeque(t) =>
      if j.Array? then SeqOf(LoadItems(c, t, j.items, Replicate(|j.items|, Default(t)), [])) else Err
    case TyArray(t, n) =>
      if j.Array? && |j.items| == n then SeqOf(LoadItems(c, t, j.items, HeldItems(held, t, n), [])) else Err
    case TyPair(t, u) =>
      if j.Array? && |j.items| == 2 then
        var (x, y) := HeldPair(held, t, u);
        match Load(c, t, j.items[0], x)
        case Err => Err
        case Ok(first) =>
          match Load(c, u, j.items[1], y)
          case Err => Err
          case Ok(second) => Ok(VPair(first, second))
      else Err
    case TyMap(t) =>
      if j.Array? then MapOf(LoadPairs(c, t, j.items, HeldEntries(held)))
      else if j.Object? then MapOf(LoadEntries(c, t, j.members, map[]))
      else Err
    case TyUnorderedMap(t) => if j.Object? then MapOf(LoadEntries(c, t, j.members, map[])) else Err
    case TySet(t) => if j.Array? then SetOf(LoadElements(c, t, j.items, {})) else Err
    case TyUnorderedSet(t) => if j.Array? then SetOf(LoadElements(c, t, j.items, {})) else Err
    case TyOptional(t) =>
      if j.Null? then Ok(VNone)
      else
        match Load(c, t, j, Default(t))
        case Ok(v) => Ok(VSome(v))
        case Err => Err
  }

  function SeqOf(r: Result<seq<Val>>): Result<Val> { if r.Ok? then Ok(VSeq(r.value)) else Err }
  function MapOf(r: Result<map<string, Val>>): Result<Val> { if r.Ok? then Ok(VMap(r.value)) else Err }
  function SetOf(r: Result<set<Val>>): Result<Val> { if r.Ok? then Ok(VSet(r.value)) else Err }

  function LoadItems(c: Casts, t: Ty, js: seq<Json>, held: seq<Val>, done: seq<Val>): Result<seq<Val>>
    requires |js| == |held|
    decreases t, 1 + |js|
  {
    if js == [] then Ok(done)
    else
      match Load(c, t, js[0], held[0])
      case Err => Err
      case Ok(v) => LoadItems(c, t, js[1..], held[1..], done + [v])
  }

  function LoadEntries(c: Casts, t: Ty, ms: seq<Member>, done: map<string, Val>): Result<map<string, Val>>
    decreases t, 1 + |ms|
  {
    if ms == [] then Ok(done)
    else
      var held := if ms[0].name in done then done[ms[0].name] else Default(t);
      match Load(c, t, ms[0].value, held)
      case Err => Err
      case Ok(v) => LoadEntries(c, t, ms[1..], done[ms[0].name := v])
  }

  function LoadElements(c: Casts, t: Ty, js: seq<Json>, done: set<Val>): Result<set<Val>>
    decreases t, 1 + |js|
  {
    if js == [] then Ok(done)
    else
      match Load(c, t, js[0], Default(t))
      case Err => Err
      case Ok(v) => LoadElements(c, t, js[1..], done + {v})
  }

  /** A list of [key, value] pairs loaded into a map, which is not cleared first. */
  function LoadPairs(c: Casts, t: Ty, js: seq<Json>, done: map<string, Val>): Result<map<string, Val>>
    decreases t, 1 + |js|
  {
    if js == [] then Ok(done)
    else if !js[0].Array? || |js[0].items| != 2 then Err
    else
      match LoadString(c, js[0].items[0])
      case Err => Err
      case Ok(key) =>
        match Load(c, t, js[0].items[1], Default(t))
        case Err => Err
        case Ok(v) => LoadPairs(c, t, js[1..], done[key := v])
  }

  // ----- The round trip -----

  /** No string holds a NUL and no optional directly holds an empty optional. */
  predicate Clean(ty: Ty, v: Val)
    requires HasType(ty, v)
  {
    match ty
    case TyBool => true
    case TyInt(_) => true
    case TyString => '\0' !in v.s
    case TyVector(t) => forall x | x in v.items :: Clean(t, x)
    case TyDeque(t) => forall x | x in v.items :: Clean(t, x)
    case TyArray(t, _) => forall x | x in v.items :: Clean(t, x)
    case TyPair(t, u) => Clean(t, v.first) && Clean(u, v.second)
    case TyMap(t) => forall k | k in v.entries :: '\0' !in k && Clean(t, v.entries[k])
    case TyUnorderedMap(t) => forall k | k in v.entries :: '\0' !in k && Clean(t, v.entries[k])
    case TySet(t) => forall x | x in v.elements :: Clean(t, x)
    case TyUnorderedSet(t) => forall x | x in v.elements :: Clean(t, x)
    case TyOptional(t) => v.VSome? ==> !v.value.VNone? && Clean(t, v.value)
  }

  /** Loading succeeded with a clean value, and with `v` itself if `v` is clean. */
  ghost predicate Recovers(ty: Ty, v: Val, r: Result<Val>)
    requires HasType(ty, v)
  {
    r.Ok? && HasType(ty, r.value) && Clean(ty, r.value) && (Clean(ty, v) ==> r.value == v)
  }

  /** Saved JSON always loads, whatever the target held, and gives back exactly the clean values. */
  lemma {:induction false} LoadAfterSave(c: Casts, ty: Ty, v: Val, j: Json, held: Val)
    requires HasType(ty, v) && Saves(ty, v, j)
    ensures Load(c, ty, j, held).Ok?
    ensures Load(c, ty, j, held) == Ok(v) <==> Clean(ty, v)
  {
    SavedRecovers(c, ty, v, j, held);
  }

  /** An optional that holds an empty optional is saved as null, and loads as an empty one. */
  lemma EmptyOptionalLost(c: Casts, t: Ty, held: Val)
    ensures var (ty, v) := (TyOptional(TyOptional(t)), VSome(VNone));
            HasType(ty, v) && Saves(ty, v, Null) && Load(c, ty, Null, held) == Ok(VNone)
  {
  }

  lemma {:induction false} SavedRecovers(c: Casts, ty: Ty, v: Val, j: Json, held: Val)
    requires HasType(ty, v) && Saves(ty, v, j)
    ensures Recovers(ty, v, Load(c, ty, j, held))
    decreases ty, 0
  {
    match ty
    case TyBool =>
    case TyInt(_) =>
    case TyString =>
    case TyVector(t) =>
      ItemsRecover(c, t, v.items, j.items, Replicate(|j.items|, Default(t)), []);
    case TyDeque(t) =>
      ItemsRecover(c, t, v.items, j.items, Replicate(|j.items|, Default(t)), []);
    case TyArray(t, n) =>
      ItemsRecover(c, t, v.items, j.items, HeldItems(held, t, n), []);
    case TyPair(t, u) =>
      var (x, y) := HeldPair(held, t, u);
      SavedRecovers(c, t, v.first, j.items[0], x);
      SavedRecovers(c, u, v.second, j.items[1], y);
    case TyMap(t) =>
      EntryMapRecovers(c, t, v.entries, j.members);
    case TyUnorderedMap(t) =>
      EntryMapRecovers(c, t, v.entries, j.members);
    case TySet(t) =>
      ElementsRecover(c, t, v.elements, j.items);
    case TyUnorderedSet(t) =>
      ElementsRecover(c, t, v.elements, j.items);
    case TyOptional(t) =>
      if v.VSome? {
        SavedRecovers(c, t, v.value, j, Default(t));
        OptionalRecovers(c, t, v, j, held);
      }
  }

  lemma OptionalRecovers(c: Casts, t: Ty, v: Val, j: Json, held: Val)
    requires v.VSome? && HasType(TyOptional(t), v) && Saves(t, v.value, j)
    requires Recovers(t, v.value, Load(c, t, j, Default(t)))
    ensures Recovers(TyOptional(t), v, Load(c, TyOptional(t), j, held))
  {
    if Clean(t, v.value) && !v.value.VNone? {
      SavedNull(t, v.value, j);
    }
    LoadedNone(c, t, j, Default(t));
  }

  /** A clean value other than the empty optional is never saved as null. */
  lemma {:induction false} SavedNull(ty: Ty, v: Val, j: Json)
    requires HasType(ty, v) && Saves(ty, v, j) && Clean(ty, v) && !v.VNone?
    ensures !j.Null?
    decreases ty
  {
    if ty.TyOptional? {
      SavedNull(ty.item, v.value, j);
    }
  }

  /** Only null loads as an empty optional. */
  lemma LoadedNone(c: Casts, ty: Ty, j: Json, held: Val)
    ensures Load(c, ty, j, held) == Ok(VNone) ==> j.Null?
  {
  }

  ghost predicate Sound(t: Ty, x: Val) {
    HasType(t, x) && Clean(t, x)
  }

  ghost predicate SoundItems(t: Ty, xs: seq<Val>) {
    forall x | x in xs :: Sound(t, x)
  }

  ghost predicate SoundEntries(t: Ty, m: map<string, Val>) {
    forall k | k in m :: '\0' !in k && Sound(t, m[k])
  }

  ghost predicate SoundElements(t: Ty, s: set<Val>) {
    forall x | x in s :: Sound(t, x)
  }

  lemma {:induction false} ItemsRecover(c: Casts, t: Ty, xs: seq<Val>, js: seq<Json>, held: seq<Val>, done: seq<Val>)
    requires (forall x | x in xs :: HasType(t, x)) && SavesItems(t, xs, js) && |held| == |js|
    requires SoundItems(t, done)
    ensures var r := LoadItems(c, t, js, held, done);
            && r.Ok? && |r.value| == |done| + |xs| && SoundItems(t, r.value)
            && (SoundItems(t, xs) ==> r.value == done + xs)
    decreases t, 1 + |js|
  {
    if js != [] {
      SavedRecovers(c, t, xs[0], js[0], held[0]);
      var v := Load(c, t, js[0], held[0]).value;
      ItemsRecover(c, t, xs[1..], js[1..], held[1..], done + [v]);
      if SoundItems(t, xs) {
        assert xs[0] in xs;
        assert done + [v] + xs[1..] == done + xs;
      }
    }
  }

  ghost predicate SavesInOrder(t: Ty, xs: seq<Val>, ms: seq<Member>) {
    |xs| == |ms| && forall i | 0 <= i < |xs| :: HasType(t, xs[i]) && Saves(t, xs[i], ms[i].value)
  }

  /** Every entry was loaded, with a clean value. */
  ghost predicate EntriesLoaded(t: Ty, ms: seq<Member>, done: map<string, Val>, r: Result<map<string, Val>>) {
    r.Ok? && SoundEntries(t, r.value) && r.value.Keys == done.Keys + Names(ms)
  }

  function HeldEntry(done: map<string, Val>, t: Ty, name: string): Val {
    if name in done then done[name] else Default(t)
  }

  lemma FirstEntryLoads(c: Casts, t: Ty, ms: seq<Member>, done: map<string, Val>, v: Val)
    requires ms != [] && Load(c, t, ms[0].value, HeldEntry(done, t, ms[0].name)) == Ok(v)
    ensures LoadEntries(c, t, ms, done) == LoadEntries(c, t, ms[1..], done[ms[0].name := v])
  {
  }

  lemma OneEntryMore(t: Ty, ms: seq<Member>, done: map<string, Val>, v: Val, r: Result<map<string, Val>>)
    requires ms != [] && EntriesLoaded(t, ms[1..], done[ms[0].name := v], r)
    ensures EntriesLoaded(t, ms, done, r)
  {
    NamesOfCons(ms);
  }

  lemma {:induction false} EntriesRecover(c: Casts, t: Ty, xs: seq<Val>, ms: seq<Member>, done: map<string, Val>)
    requires SavesInOrder(t, xs, ms) && (forall i | 0 <= i < |ms| :: '\0' !in ms[i].name)
    requires SoundEntries(t, done)
    ensures EntriesLoaded(t, ms, done, LoadEntries(c, t, ms, done))
    decreases t, 1 + |ms|
  {
    if ms == [] {
      assert Names(ms) == {};
    } else {
      var held := HeldEntry(done, t, ms[0].name);
      SavedRecovers(c, t, xs[0], ms[0].value, held);
      var v := Load(c, t, ms[0].value, held).value;
      FirstEntryLoads(c, t, ms, done, v);
      RestInOrder(t, xs, ms);
      EntriesRecover(c, t, xs[1..], ms[1..], done[ms[0].name := v]);
      OneEntryMore(t, ms, done, v, LoadEntries(c, t, ms, done));
    }
  }

  lemma RestInOrder(t: Ty, xs: seq<Val>, ms: seq<Member>)
    requires SavesInOrder(t, xs, ms) && ms != []
    ensures SavesInOrder(t, xs[1..], ms[1..])
    ensures SoundItems(t, xs) ==> Sound(t, xs[0]) && SoundItems(t, xs[1..])
  {
    assert xs[0] in xs;
  }

  /** The values are those of `xs`, and what `done` held under other names is still there. */
  ghost predicate EntriesKept(xs: seq<Val>, ms: seq<Member>, done: map<string, Val>, r: Result<map<string, Val>>)
    requires |xs| == |ms|
  {
    && r.Ok?
    && (forall k | k in done && k !in Names(ms) :: k in r.value && r.value[k] == done[k])
    && (forall i | 0 <= i < |xs| :: ms[i].name in r.value && r.value[ms[i].name] == xs[i])
  }

  lemma OneEntryKept(xs: seq<Val>, ms: seq<Member>, done: map<string, Val>, r: Result<map<string, Val>>)
    requires |xs| == |ms| && ms != [] && DistinctNames(ms)
    requires EntriesKept(xs[1..], ms[1..], done[ms[0].name := xs[0]], r)
    ensures EntriesKept(xs, ms, done, r)
  {
    NamesOfCons(ms);
    assert ms[0].name !in Names(ms[1..]);
    forall i | 0 <= i < |xs| ensures ms[i].name in r.value && r.value[ms[i].name] == xs[i] {
      if i > 0 { assert ms[1..][i - 1] == ms[i] && xs[1..][i - 1] == xs[i]; }
    }
  }

  lemma {:induction false} CleanEntriesRecover(c: Casts, t: Ty, xs: seq<Val>, ms: seq<Member>, done: map<string, Val>)
    requires SavesInOrder(t, xs, ms) && SoundItems(t, xs) && DistinctNames(ms)
    ensures EntriesKept(xs, ms, done, LoadEntries(c, t, ms, done))
    decreases t, 1 + |ms|
  {
    if ms != [] {
      RestInOrder(t, xs, ms);
      SavedRecovers(c, t, xs[0], ms[0].value, HeldEntry(done, t, ms[0].name));
      FirstEntryLoads(c, t, ms, done, xs[0]);
      CleanEntriesRecover(c, t, xs[1..], ms[1..], done[ms[0].name := xs[0]]);
      OneEntryKept(xs, ms, done, LoadEntries(c, t, ms, done));
    }
  }

  lemma NamesOfCons(ms: seq<Member>)
    requires ms != []
    ensures Names(ms) == {ms[0].name} + Names(ms[1..])
  {
    forall x ensures x in Names(ms) <==> x in {ms[0].name} + Names(ms[1..]) {
      if x in Names(ms) {
        var i :| 0 <= i < |ms| && ms[i].name == x;
        if i > 0 { assert ms[1..][i - 1].name == x; }
      }
      if x in Names(ms[1..]) {
        var i :| 0 <= i < |ms[1..]| && ms[1..][i].name == x;
        assert ms[i + 1].name == x;
      }
    }
  }

  function InOrder(entries: map<string, Val>, order: seq<string>): (xs: seq<Val>)
    requires forall k | k in order :: k in entries
    ensures |xs| == |order|
  {
    seq(|order|, i requires 0 <= i < |order| => entries[order[i]])
  }

  lemma WalkInOrder(t: Ty, entries: map<string, Val>, ms: seq<Member>, order: seq<string>)
    requires (forall k | k in entries :: HasType(t, entries[k])) && WalksEntries(t, entries, ms, order)
    ensures SavesInOrder(t, InOrder(entries, order), ms)
    ensures forall i | 0 <= i < |ms| :: '\0' !in ms[i].name
  {
  }

  lemma CleanWalk(t: Ty, entries: map<string, Val>, ms: seq<Member>, order: seq<string>)
    requires (forall k | k in entries :: HasType(t, entries[k])) && WalksEntries(t, entries, ms, order)
    requires SoundEntries(t, entries)
    ensures forall i | 0 <= i < |ms| :: ms[i].name == order[i]
    ensures SoundItems(t, InOrder(entries, order)) && DistinctNames(ms)
  {
    forall i | 0 <= i < |ms| ensures ms[i].name == order[i] {
      assert order[i] in entries;
    }
  }

  ghost predicate EntriesRecovered(t: Ty, entries: map<string, Val>, r: Result<map<string, Val>>) {
    r.Ok? && SoundEntries(t, r.value) && (SoundEntries(t, entries) ==> r.value == entries)
  }

  lemma {:induction false} EntryMapRecovers(c: Casts, t: Ty, entries: map<string, Val>, ms: seq<Member>)
    requires (forall k | k in entries :: HasType(t, entries[k])) && SavesEntries(t, entries, ms)
    ensures EntriesRecovered(t, entries, LoadEntries(c, t, ms, map[]))
    decreases t, 4 + |ms|
  {
    var order :| WalksEntries(t, entries, ms, order);
    WalkRecovers(c, t, entries, ms, order);
  }

  lemma {:induction false} WalkRecovers(c: Casts, t: Ty, entries: map<string, Val>, ms: seq<Member>, order: seq<string>)
    requires (forall k | k in entries :: HasType(t, entries[k])) && WalksEntries(t, entries, ms, order)
    ensures EntriesRecovered(t, entries, LoadEntries(c, t, ms, map[]))
    decreases t, 3 + |ms|
  {
    WalkInOrder(t, entries, ms, order);
    EntriesRecover(c, t, InOrder(entries, order), ms, map[]);
    NothingHeld(t, ms, LoadEntries(c, t, ms, map[]));
    if SoundEntries(t, entries) {
      CleanWalkRecovers(c, t, entries, ms, order);
    }
  }

  lemma NothingHeld(t: Ty, ms: seq<Member>, r: Result<map<string, Val>>)
    requires EntriesLoaded(t, ms, map[], r)
    ensures r.value.Keys == Names(ms)
  {
  }

  lemma {:induction false} CleanWalkRecovers(c: Casts, t: Ty, entries: map<string, Val>, ms: seq<Member>,
      order: seq<string>)
    requires (forall k | k in entries :: HasType(t, entries[k])) && WalksEntries(t, entries, ms, order)
    requires SoundEntries(t, entries)
    requires var r := LoadEntries(c, t, ms, map[]); r.Ok? && r.value.Keys == Names(ms)
    ensures LoadEntries(c, t, ms, map[]) == Ok(entries)
    decreases t, 2 + |ms|
  {
    WalkInOrder(t, entries, ms, order);
    CleanWalk(t, entries, ms, order);
    CleanEntriesRecover(c, t, InOrder(entries, order), ms, map[]);
    SameEntries(entries, LoadEntries(c, t, ms, map[]).value, order, InOrder(entries, order), ms);
  }

  lemma SameEntries(entries: map<string, Val>, r: map<string, Val>, order: seq<string>, xs: seq<Val>, ms: seq<Member>)
    requires Enumerates(order, entries.Keys) && |order| == |xs| == |ms|
    requires forall i | 0 <= i < |ms| :: order[i] in entries && ms[i].name == order[i] && xs[i] == entries[order[i]]
    requires r.Keys == Names(ms)
    requires forall i | 0 <= i < |xs| :: ms[i].name in r && r[ms[i].name] == xs[i]
    ensures r == entries
  {
    forall k ensures k in r <==> k in entries {
      if k in entries {
        assert k in order;
        var i :| 0 <= i < |order| && order[i] == k;
        assert ms[i].name == k;
      }
      if k in r {
        var i :| 0 <= i < |ms| && ms[i].name == k;
        assert order[i] in entries;
      }
    }
    forall k | k in entries ensures r[k] == entries[k] {
      assert k in order;
      var i :| 0 <= i < |order| && order[i] == k;
      assert r[ms[i].name] == xs[i];
    }
  }

  lemma {:induction false} ElementsRecover(c: Casts, t: Ty, elements: set<Val>, js: seq<Json>)
    requires (forall x | x in elements :: HasType(t, x)) && SavesElements(t, elements, js)
    ensures var r := LoadElements(c, t, js, {});
            r.Ok? && SoundElements(t, r.value) && (SoundElements(t, elements) ==> r.value == elements)
    decreases t, 2 + |js|
  {
    var order :|
      Enumerates(order, elements) && (forall x | x in order :: HasType(t, x)) && SavesItems(t, order, js);
    ElementListRecovers(c, t, order, js, {});
    assert Elements(order) == elements && {} + elements == elements;
  }

  function Elements(xs: seq<Val>): set<Val> {
    set x | x in xs
  }

  ghost predicate ElementsLoaded(t: Ty, xs: seq<Val>, done: set<Val>, r: Result<set<Val>>) {
    r.Ok? && SoundElements(t, r.value) && (SoundItems(t, xs) ==> r.value == done + Elements(xs))
  }

  lemma OneElementMore(t: Ty, xs: seq<Val>, done: set<Val>, v: Val, r: Result<set<Val>>)
    requires xs != [] && (Sound(t, xs[0]) ==> v == xs[0]) && ElementsLoaded(t, xs[1..], done + {v}, r)
    ensures ElementsLoaded(t, xs, done, r)
  {
    if SoundItems(t, xs) {
      assert xs == [xs[0]] + xs[1..];
      assert Elements(xs) == {xs[0]} + Elements(xs[1..]);
    }
  }

  lemma {:induction false} ElementListRecovers(c: Casts, t: Ty, xs: seq<Val>, js: seq<Json>, done: set<Val>)
    requires (forall x | x in xs :: HasType(t, x)) && SavesItems(t, xs, js)
    requires SoundElements(t, done)
    ensures ElementsLoaded(t, xs, done, LoadElements(c, t, js, done))
    decreases t, 1 + |js|
  {
    if js == [] {
      assert Elements(xs) == {} && done + {} == done;
    } else {
      SavedRecovers(c, t, xs[0], js[0], Default(t));
      var v := Load(c, t, js[0], Default(t)).value;
      ElementListRecovers(c, t, xs[1..], js[1..], done + {v});
      OneElementMore(t, xs, done, v, LoadElements(c, t, js, done));
    }
  }

  // ----- The code: one recursive overload per type, looping over containers -----

  method SaveJsonValue(ty: Ty, v: Val) returns (j: Json)
    requires HasType(ty, v)
    ensures Saves(ty, v, j)
    decreases ty, 0
  {
    match ty {
      case TyBool => j := Bool(v.b);
      case TyInt(_) => j := Int(v.n);
      case TyString => j := String(UpToNul(v.s));
      case TyVector(t) => var items := SaveItems(t, v.items); j := Array(items);
      case TyDeque(t) => var items := SaveItems(t, v.items); j := Array(items);
      case TyArray(t, _) => var items := SaveItems(t, v.items); j := Array(items);
      case TyPair(t, u) =>
        var first := SaveJsonValue(t, v.first);
        var second := SaveJsonValue(u, v.second);
        j := Array([first, second]);
      case TyMap(t) => var members := SaveEntries(t, v.entries); j := Object(members);
      case TyUnorderedMap(t) => var members := SaveEntries(t, v.entries); j := Object(members);
      case TySet(t) => var items := SaveElements(t, v.elements); j := Array(items);
      case TyUnorderedSet(t) => var items := SaveElements(t, v.elements); j := Array(items);
      case TyOptional(t) =>
        if v.VNone? {
          j := Null;
        } else {
          j := SaveJsonValue(t, v.value);
        }
    }
  }

  method SaveItems(t: Ty, xs: seq<Val>) returns (js: seq<Json>)
    requires forall x | x in xs :: HasType(t, x)
    ensures SavesItems(t, xs, js)
    decreases t, 1
  {
    js := [];
    for i := 0 to |xs|
      invariant |js| == i
      invariant forall k | 0 <= k < i :: Saves(t, xs[k], js[k])
    {
      var item := SaveJsonValue(t, xs[i]);
      js := js + [item];
    }
  }

  method SaveEntries(t: Ty, entries: map<string, Val>) returns (ms: seq<Member>)
    requires forall k | k in entries :: HasType(t, entries[k])
    ensures SavesEntries(t, entries, ms)
    decreases t, 1
  {
    ms := [];
    var left := entries.Keys;
    ghost var order: seq<string> := [];
    while left != {}
      invariant left <= entries.Keys
      invariant Enumerates(order, entries.Keys - left)
      invariant |order| == |ms|
      invariant forall i | 0 <= i < |ms| ::
          order[i] in entries && ms[i].name == UpToNul(order[i]) && Saves(t, entries[order[i]], ms[i].value)
    {
      var key :| key in left;
      var value := SaveJsonValue(t, entries[key]);
      ExtendOrder(order, entries.Keys, left, key);
      ms, order, left := ms + [Member(UpToNul(key), value)], order + [key], left - {key};
    }
    assert entries.Keys - left == entries.Keys;
    assert WalksEntries(t, entries, ms, order);
  }

  lemma ExtendOrder<T(!new)>(order: seq<T>, all: set<T>, left: set<T>, x: T)
    requires Enumerates(order, all - left) && x in left && left <= all
    ensures Enumerates(order + [x], all - (left - {x}))
  {
    assert x !in order;
  }

  method SaveElements(t: Ty, elements: set<Val>) returns (js: seq<Json>)
    requires forall x | x in elements :: HasType(t, x)
    ensures SavesElements(t, elements, js)
    decreases t, 1
  {
    js := [];
    var left := elements;
    ghost var order: seq<Val> := [];
    while left != {}
      invariant left <= elements
      invariant Enumerates(order, elements - left)
      invariant forall x | x in order :: HasType(t, x)
      invariant SavesItems(t, order, js)
    {
      var x :| x in left;
      var item := SaveJsonValue(t, x);
      ExtendOrder(order, elements, left, x);
      js, order, left := js + [item], order + [x], left - {x};
    }
    assert elements - left == elements;
  }

  method LoadJsonValue(c: Casts, ty: Ty, j: Json, held: Val) returns (r: Result<Val>)
    ensures r == Load(c, ty, j, held)
    decreases ty, 0
  {
    match ty {
      case TyBool => r := LoadBool(c, j);
      case TyInt(k) => r := LoadInt(c, k, j);
      case TyString =>
        var s := LoadString(c, j);
        r := if s.Ok? then Ok(VString(s.value)) else Err;
      case TyVector(t) => r := LoadVector(c, t, j);
      case TyDeque(t) => r := LoadVector(c, t, j);
      case TyArray(t, n) =>
        if !j.Array? || |j.items| != n {
          return Err;
        }
        var items := LoadEach(c, t, j.items, HeldItems(held, t, n));
        r := SeqOf(items);
      case TyPair(t, u) =>
        if !j.Array? || |j.items| != 2 {
          return Err;
        }
        var (x, y) := HeldPair(held, t, u);
        var first := LoadJsonValue(c, t, j.items[0], x);
        if first.Err? {
          return Err;
        }
        var second := LoadJsonValue(c, u, j.items[1], y);
        r := if second.Ok? then Ok(VPair(first.value, second.value)) else Err;
      case TyMap(t) =>
        if j.Array? {
          var entries, left := LoadPairList(c, t, j.items, HeldEntries(held));
          r := MapOf(entries);
        } else {
          r := LoadObject(c, t, j);
        }
      case TyUnorderedMap(t) => r := LoadObject(c, t, j);
      case TySet(t) => r := LoadSet(c, t, j);
      case TyUnorderedSet(t) => r := LoadSet(c, t, j);
      case TyOptional(t) =>
        if j.Null? {
          return Ok(VNone);
        }
        var v := LoadJsonValue(c, t, j, Default(t));
        r := if v.Ok? then Ok(VSome(v.value)) else Err;
    }
  }

  method LoadVector(c: Casts, t: Ty, j: Json) returns (r: Result<Val>)
    ensures r == if j.Array? then SeqOf(LoadItems(c, t, j.items, Replicate(|j.items|, Default(t)), [])) else Err
    decreases t, 2
  {
    if !j.Array? {
      return Err;
    }
    var items := LoadEach(c, t, j.items, Replicate(|j.items|, Default(t)));
    r := SeqOf(items);
  }

  method LoadEach(c: Casts, t: Ty, js: seq<Json>, held: seq<Val>) returns (r: Result<seq<Val>>)
    requires |js| == |held|
    ensures r == LoadItems(c, t, js, held, [])
    decreases t, 1
  {
    var done: seq<Val> := [];
    for i := 0 to |js|
      invariant LoadItems(c, t, js[i..], held[i..], done) == LoadItems(c, t, js, held, [])
    {
      var v := LoadJsonValue(c, t, js[i], held[i]);
      assert js[i..][1..] == js[i + 1..] && held[i..][1..] == held[i + 1..];
      if v.Err? {
        return Err;
      }
      done := done + [v.value];
    }
    r := Ok(done);
  }

  method LoadObject(c: Casts, t: Ty, j: Json) returns (r: Result<Val>)
    ensures r == if j.Object? then MapOf(LoadEntries(c, t, j.members, map[])) else Err
    decreases t, 1
  {
    if !j.Object? {
      return Err;
    }
    var ms := j.members;
    var done: map<string, Val> := map[];
    for i := 0 to |ms|
      invariant LoadEntries(c, t, ms[i..], done) == LoadEntries(c, t, ms, map[])
    {
      var held := if ms[i].name in done then done[ms[i].name] else Default(t);
      var v := LoadJsonValue(c, t, ms[i].value, held);
      assert ms[i..][1..] == ms[i + 1..];
      if v.Err? {
        return Err;
      }
      done := done[ms[i].name := v.value];
    }
    r := Ok(VMap(done));
  }

  /** Loading a list of pairs adds to what the map holds: pairs win over held entries, the others stay,
      and neither the outcome nor the pairs' values depend on what was held. */
  lemma {:induction false} PairListAdds(c: Casts, t: Ty, js: seq<Json>, held: map<string, Val>)
    ensures LoadPairs(c, t, js, held).Ok? <==> LoadPairs(c, t, js, map[]).Ok?
    ensures LoadPairs(c, t, js, held).Ok? ==> LoadPairs(c, t, js, held).value == held + LoadPairs(c, t, js, map[]).value
    decreases |js|
  {
    if js == [] {
      assert held + map[] == held;
    } else if js[0].Array? && |js[0].items| == 2 && LoadString(c, js[0].items[0]).Ok? {
      var key, v := LoadString(c, js[0].items[0]).value, Load(c, t, js[0].items[1], Default(t));
      if v.Ok? {
        PairListAdds(c, t, js[1..], held[key := v.value]);
        PairListAdds(c, t, js[1..], map[key := v.value]);
        if LoadPairs(c, t, js[1..], map[]).Ok? {
          AddLater(held, key, v.value, LoadPairs(c, t, js[1..], map[]).value);
        }
      }
    }
  }

  lemma AddLater(m: map<string, Val>, key: string, v: Val, n: map<string, Val>)
    ensures m[key := v] + n == m + (map[key := v] + n)
  {
  }

  lemma {:induction false} OnePairMore(c: Casts, t: Ty, js: seq<Json>, x: Json, held: map<string, Val>)
    requires LoadPairs(c, t, js, held).Ok?
    ensures LoadPairs(c, t, js + [x], held) == LoadPairs(c, t, [x], LoadPairs(c, t, js, held).value)
    decreases |js|
  {
    if js == [] {
      assert js + [x] == [x];
    } else {
      assert (js + [x])[0] == js[0] && (js + [x])[1..] == js[1..] + [x];
      var key, v := LoadString(c, js[0].items[0]).value, Load(c, t, js[0].items[1], Default(t)).value;
      OnePairMore(c, t, js[1..], x, held[key := v]);
    }
  }

  /** The first n pairs are in the map, which is not cleared; the next one, if any, does not load. */
  ghost predicate HoldsPairs(c: Casts, t: Ty, js: seq<Json>, held: map<string, Val>, n: nat, left: map<string, Val>) {
    && n <= |js| && LoadPairs(c, t, js[..n], held) == Ok(left)
    && (n < |js| ==> LoadPairs(c, t, [js[n]], left).Err?)
  }

  /** `left` is what the map holds at the end, also when a pair fails. */
  method LoadPairList(c: Casts, t: Ty, js: seq<Json>, held: map<string, Val>)
    returns (r: Result<map<string, Val>>, left: map<string, Val>)
    ensures r == LoadPairs(c, t, js, held)
    ensures exists n: nat :: HoldsPairs(c, t, js, held, n, left) && (r.Ok? <==> n == |js|)
    decreases t, 1
  {
    left := held;
    for i := 0 to |js|
      invariant LoadPairs(c, t, js[i..], left) == LoadPairs(c, t, js, held)
      invariant LoadPairs(c, t, js[..i], held) == Ok(left)
    {
      assert js[i..][1..] == js[i + 1..] && js[i..][0] == js[i];
      assert js[..i + 1] == js[..i] + [js[i]];
      OnePairMore(c, t, js[..i], js[i], held);
      if !js[i].Array? || |js[i].items| != 2 {
        assert HoldsPairs(c, t, js, held, i, left);
        return Err, left;
      }
      var key := LoadString(c, js[i].items[0]);
      if key.Err? {
        assert HoldsPairs(c, t, js, held, i, left);
        return Err, left;
      }
      var v := LoadJsonValue(c, t, js[i].items[1], Default(t));
      if v.Err? {
        assert HoldsPairs(c, t, js, held, i, left);
        return Err, left;
      }
      left := left[key.value := v.value];
    }
    assert js[..|js|] == js;
    assert HoldsPairs(c, t, js, held, |js|, left);
    r := Ok(left);
  }

  method LoadSet(c: Casts, t: Ty, j: Json) returns (r: Result<Val>)
    ensures r == if j.Array? then SetOf(LoadElements(c, t, j.items, {})) else Err
    decreases t, 1
  {
    if !j.Array? {
      return Err;
    }
    var js := j.items;
    var done: set<Val> := {};
    for i := 0 to |js|
      invariant LoadElements(c, t, js[i..], done) == LoadElements(c, t, js, {})
    {
      var v := LoadJsonValue(c, t, js[i], Default(t));
      assert js[i..][1..] == js[i + 1..];
      if v.Err? {
        return Err;
      }
      done := done + {v.value};
    }
    r := Ok(VSet(done));
  }
}
