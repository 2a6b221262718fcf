/** The slave request id a heartbeat names: that of the slave with the smallest number. */
module Heartbeat {
  import opened Json
  import opened Text
  import Url

  const PREFIX := "slaverequestid-"
  const INT_MAX := 2147483647

  /** `Overflows` stands for the undefined behaviour of a signed overflow. */
  datatype Found = Key(name: string) | NoneFound | Overflows

  predicate IsDigit(c: char) {
    '0' <= c <= '9'
  }

  predicate HasPrefix(s: string) {
    PREFIX <= s
  }

  /** A key with a slave number: of the form slaverequestid-hostname_slave###. */
  predicate Eligible(key: string) {
    HasPrefix(key) && '_' in key && IsDigit(key[|key| - 1])
  }

  predicate AllDigits(s: string) {
    forall k | 0 <= k < |s| :: IsDigit(s[k])
  }

  /** Where the digits at the end of `s` begin. */
  function DigitsStart(s: string): (i: nat)
    ensures i <= |s| && AllDigits(s[i..]) && (i > 0 ==> !IsDigit(s[i - 1]))
  {
    if s != "" && IsDigit(s[|s| - 1]) then
      AppendedDigit(s, DigitsStart(s[..|s| - 1]));
      DigitsStart(s[..|s| - 1])
    else |s|
  }

  lemma AppendedDigit(s: string, i: nat)
    requires i < |s| && AllDigits(s[..|s| - 1][i..]) && IsDigit(s[|s| - 1])
    ensures AllDigits(s[i..])
  {
    forall k | 0 <= k < |s[i..]| ensures IsDigit(s[i..][k]) {
      if k < |s| - 1 - i {
        assert s[i..][k] == s[..|s| - 1][i..][k];
      }
    }
  }

  /** A decimal numeral, read from the left. */
  function DecimalValue(s: string): (n: nat)
    requires AllDigits(s)
  {
    if s == "" then 0
    else
      assert IsDigit(s[|s| - 1]);
      DecimalValue(s[..|s| - 1]) * 10 + (s[|s| - 1] as int - '0' as int)
  }

  /** The slave number of a key. */
  function Suffix(key: string): nat {
    DecimalValue(key[DigitsStart(key)..])
  }

  /** The loop multiplies its power of ten once more behind the last digit. */
  predicate Overflowing(key: string) {
    Eligible(key) && |key| - DigitsStart(key) > 9
  }

  function Pow10(n: nat): (p: nat)
    ensures p > 0
  {
    if n == 0 then 1 else 10 * Pow10(n - 1)
  }

  lemma {:induction false} PrependDigit(c: char, s: string)
    requires IsDigit(c) && AllDigits(s)
    ensures DecimalValue([c] + s) == (c as int - '0' as int) * Pow10(|s|) + DecimalValue(s)
  {
    if s == "" {
      assert ([c] + s)[..0] == "";
    } else {
      var (front, last) := (s[..|s| - 1], s[|s| - 1]);
      PrependDigit(c, front);
      AppendDigit([c] + front, last, [c] + s);
      AppendDigit(front, last, s);
      TimesTen(c as int - '0' as int, Pow10(|front|));
    }
  }

  lemma AppendDigit(front: string, last: char, s: string)
    requires AllDigits(front) && IsDigit(last) && s == front + [last]
    ensures DecimalValue(s) == DecimalValue(front) * 10 + (last as int - '0' as int)
  {
    assert s[..|s| - 1] == front;
  }

  lemma TimesTen(d: int, p: int)
    ensures d * p * 10 == d * (10 * p)
  {
  }

  lemma {:induction false} BelowPow10(s: string)
    requires AllDigits(s)
    ensures DecimalValue(s) < Pow10(|s|)
  {
    if s != "" {
      BelowPow10(s[..|s| - 1]);
    }
  }

  lemma {:induction false} Pow10Grows(m: nat, n: nat)
    requires m <= n
    ensures Pow10(m) <= Pow10(n)
  {
    if m < n {
      Pow10Grows(m, n - 1);
    }
  }

  lemma Pow10Limits()
    ensures Pow10(9) == 1000000000 && Pow10(9) <= INT_MAX < Pow10(10)
  {
    assert Pow10(3) == 1000;
    assert Pow10(6) == 1000000;
    assert Pow10(9) == 1000000000;
  }

  lemma OneMoreDigit(key: string, i: nat)
    requires i < |key| && IsDigit(key[i]) && AllDigits(key[i + 1..])
    ensures AllDigits(key[i..])
    ensures DecimalValue(key[i..]) == DecimalValue(key[i + 1..]) + (key[i] as int - '0' as int) * Pow10(|key| - 1 - i)
    ensures DecimalValue(key[i..]) < Pow10(|key| - i)
  {
    assert key[i..] == [key[i]] + key[i + 1..];
    PrependDigit(key[i], key[i + 1..]);
    BelowPow10(key[i..]);
  }

  lemma DigitsStartIs(s: string, i: nat)
    requires i <= |s| && AllDigits(s[i..]) && (i > 0 ==> !IsDigit(s[i - 1]))
    ensures DigitsStart(s) == i
  {
    StartNotBehind(s, i);
    BeforeDigits(s, DigitsStart(s), i);
  }

  lemma StartNotBehind(s: string, i: nat)
    requires i <= |s| && AllDigits(s[i..])
    ensures DigitsStart(s) <= i
  {
    BeforeDigits(s, i, DigitsStart(s));
  }

  /** What stands right before a character that is no digit is not inside a run of digits. */
  lemma BeforeDigits(s: string, i: nat, j: nat)
    requires i <= |s| && j <= |s| && AllDigits(s[i..]) && (j > 0 ==> !IsDigit(s[j - 1]))
    ensures j <= i
  {
    assert forall k | i <= k < |s| :: s[k] == s[i..][k - i];
  }

  /** What the digit loop knows when it stands at `i`. */
  ghost predicate DigitsRead(key: string, i: int, suffix: int, po: int) {
    && -1 <= i < |key| && |key| - 1 - i <= 9 && AllDigits(key[i + 1..])
    && po == Pow10(|key| - 1 - i)
    && suffix == DecimalValue(key[i + 1..]) < po <= Pow10(9)
  }

  lemma ReadDigit(key: string, i: int, suffix: int, po: int)
    requires i >= 0 && DigitsRead(key, i, suffix, po) && IsDigit(key[i]) && |key| - 1 - i < 9
    ensures DigitsRead(key, i - 1, suffix + (key[i] as int - '0' as int) * po, po * 10)
  {
    OneMoreDigit(key, i);
    Pow10Grows(|key| - i, 9);
  }

  /** The digit loop over one key, from the last character to the first that is no digit. */
  method SuffixOf(key: string) returns (overflow: bool, suffix: int)
    requires Eligible(key)
    ensures overflow <==> Overflowing(key)
    ensures !overflow ==> suffix == Suffix(key) < INT_MAX
  {
    suffix := 0;
    var po := 1;
    var i := |key| - 1;
    Pow10Limits();
    while i >= 0 && IsDigit(key[i])
      invariant -1 <= i < |key| && DigitsRead(key, i, suffix, po)
      decreases i
    {
      if |key| - 1 - i == 9 {
        OneMoreDigit(key, i);
        MoreThanNine(key, i);
        return true, 0;
      }
      ReadDigit(key, i, suffix, po);
      suffix := suffix + (key[i] as int - '0' as int) * po;
      i := i - 1;
      po := po * 10;
    }
    DigitsStartIs(key, i + 1);
    return false, suffix;
  }

  lemma MoreThanNine(key: string, i: nat)
    requires Eligible(key) && i + 10 == |key| && AllDigits(key[i..])
    ensures Overflowing(key)
  {
    StartNotBehind(key, i);
  }

  /** The names of the slave states, as C strings. */
  function StateNames(pt: Json): seq<string>
    requires HasMember(pt, "slavestates") ==> GetMember(pt, "slavestates").Object?
  {
    if HasMember(pt, "slavestates") then CNames(GetMember(pt, "slavestates").members) else []
  }

  function CNames(ms: seq<Member>): (names: seq<string>)
    ensures |names| == |ms|
  {
    if ms == [] then [] else CNames(ms[..|ms| - 1]) + [UpToNul(ms[|ms| - 1].name)]
  }

  /** The names that begin with the prefix, in order. */
  function Prefixed(names: seq<string>): seq<string> {
    if names == [] then []
    else
      var (front, name) := (names[..|names| - 1], names[|names| - 1]);
      if HasPrefix(name) then Prefixed(front) + [name] else Prefixed(front)
  }

  /** Key k is eligible, has the smallest number, and is the first with it. */
  ghost predicate IsSmallest(keys: seq<string>, k: nat) {
    && k < |keys| && Eligible(keys[k])
    && forall j | 0 <= j < |keys| && Eligible(keys[j]) ::
         Suffix(keys[k]) <= Suffix(keys[j]) && (j < k ==> Suffix(keys[k]) < Suffix(keys[j]))
  }

  /** `name` is the first eligible key with the smallest number. */
  ghost predicate NamesSmallest(keys: seq<string>, name: string) {
    exists k: nat :: IsSmallest(keys, k) && keys[k] == name
  }

  lemma OneIsSmallest(keys: seq<string>, j: nat, k: nat)
    requires IsSmallest(keys, j) && IsSmallest(keys, k)
    ensures j == k
  {
    assert Suffix(keys[j]) == Suffix(keys[k]);
  }

  ghost predicate AnyEligible(keys: seq<string>) {
    exists j :: 0 <= j < |keys| && Eligible(keys[j])
  }

  ghost predicate AnyOverflowing(keys: seq<string>) {
    exists j :: 0 <= j < |keys| && Overflowing(keys[j])
  }

  method CollectKeys(pt: Json) returns (slavereqids: seq<string>)
    requires HasMember(pt, "slavestates") ==> GetMember(pt, "slavestates").Object?
    ensures slavereqids == Prefixed(StateNames(pt))
  {
    slavereqids := [];
    if pt.Object? && HasMember(pt, "slavestates") {
      var members := GetMember(pt, "slavestates").members;
      for i := 0 to |members|
        invariant slavereqids == Prefixed(CNames(members[..i]))
      {
        var name := UpToNul(members[i].name);
        CNamesAppend(members, i);
        if HasPrefix(name) {
          slavereqids := slavereqids + [name];
        }
      }
      assert members[..|members|] == members;
    }
  }

  lemma CNamesAppend(ms: seq<Member>, i: nat)
    requires i < |ms|
    ensures var name := UpToNul(ms[i].name);
            Prefixed(CNames(ms[..i + 1])) ==
              if HasPrefix(name) then Prefixed(CNames(ms[..i])) + [name] else Prefixed(CNames(ms[..i]))
  {
    var (front, name) := (CNames(ms[..i]), UpToNul(ms[i].name));
    assert ms[..i + 1][..i] == ms[..i];
    assert CNames(ms[..i + 1]) == front + [name];
    assert (front + [name])[..|front|] == front;
  }

  /** What the scan knows behind the first `n` keys. */
  ghost predicate Scanned(keys: seq<string>, n: nat, index: int, suffix: int) {
    && -1 <= index < n <= |keys|
    && (index == -1 ==> suffix == INT_MAX)
    && (index >= 0 ==> Eligible(keys[index]) && suffix == Suffix(keys[index]))
    && forall j | 0 <= j < n :: NotBetter(keys[j], j, index, suffix)
  }

  predicate NotBetter(key: string, j: int, index: int, suffix: int) {
    && !Overflowing(key)
    && (Eligible(key) ==> index >= 0 && suffix <= Suffix(key) && (j < index ==> suffix < Suffix(key)))
  }

  lemma ScanSkips(keys: seq<string>, n: nat, index: int, suffix: int)
    requires n < |keys| && Scanned(keys, n, index, suffix) && NotBetter(keys[n], n, index, suffix)
    ensures Scanned(keys, n + 1, index, suffix)
  {
  }

  lemma ScanTakes(keys: seq<string>, n: nat, index: int, suffix: int, better: int)
    requires n < |keys| && Scanned(keys, n, index, suffix) && Eligible(keys[n]) && !Overflowing(keys[n])
    requires better == Suffix(keys[n]) < suffix
    ensures Scanned(keys, n + 1, n, better)
  {
    forall j | 0 <= j < n + 1 ensures NotBetter(keys[j], j, n, better) {
      if j < n {
        assert NotBetter(keys[j], j, index, suffix);
      }
    }
  }

  lemma ScanEnds(keys: seq<string>, index: int, suffix: int)
    requires Scanned(keys, |keys|, index, suffix)
    ensures !AnyOverflowing(keys) && (AnyEligible(keys) <==> index >= 0) && (index >= 0 ==> IsSmallest(keys, index))
  {
    forall j | 0 <= j < |keys| ensures NotBetter(keys[j], j, index, suffix) {
    }
  }

  /** The first eligible key with the smallest number; an exception exactly when none is eligible. */
  method FindSmallestSlaveRequestId(pt: Json) returns (r: Found)
    requires HasMember(pt, "slavestates") ==> GetMember(pt, "slavestates").Object?
    ensures var keys := Prefixed(StateNames(pt));
            && (r.Overflows? <==> AnyOverflowing(keys))
            && (r.NoneFound? <==> !AnyEligible(keys))
            && (r.Key? ==> NamesSmallest(keys, r.name))
  {
    var slavereqids := CollectKeys(pt);
    r := Smallest(slavereqids, StateNames(pt));
  }

  method Smallest(slavereqids: seq<string>, ghost names: seq<string>) returns (r: Found)
    requires slavereqids == Prefixed(names)
    ensures r.Overflows? <==> AnyOverflowing(slavereqids)
    ensures r.NoneFound? <==> !AnyEligible(slavereqids)
    ensures r.Key? ==> NamesSmallest(slavereqids, r.name)
  {
    var smallestIndex, smallestSuffix := -1, INT_MAX;
    for i := 0 to |slavereqids|
      invariant smallestIndex < |slavereqids| && Scanned(slavereqids, i, smallestIndex, smallestSuffix)
    {
      var key := slavereqids[i];
      if '_' !in key {
        ScanSkips(slavereqids, i, smallestIndex, smallestSuffix);
        continue;
      }
      AllPrefixed(names, i);
      if key[|key| - 1] < '0' || '9' < key[|key| - 1] {
        ScanSkips(slavereqids, i, smallestIndex, smallestSuffix);
        continue;
      }
      var overflow, suffix := SuffixOf(key);
      if overflow {
        EligibleIsFound(slavereqids, i);
        return Overflows;
      }
      if smallestSuffix > suffix {
        ScanTakes(slavereqids, i, smallestIndex, smallestSuffix, suffix);
        smallestSuffix, smallestIndex := suffix, i;
      } else {
        ScanSkips(slavereqids, i, smallestIndex, smallestSuffix);
      }
    }
    ScanEnds(slavereqids, smallestIndex, smallestSuffix);
    if smallestIndex == -1 {
      return NoneFound;
    }
    return Key(slavereqids[smallestIndex]);
  }

  lemma EligibleIsFound(keys: seq<string>, i: nat)
    requires i < |keys| && Overflowing(keys[i])
    ensures AnyEligible(keys) && AnyOverflowing(keys)
  {
  }

  lemma {:induction false} AllPrefixed(names: seq<string>, i: nat)
    requires i < |Prefixed(names)|
    ensures HasPrefix(Prefixed(names)[i])
  {
    var front := names[..|names| - 1];
    if i < |Prefixed(front)| {
      AllPrefixed(front, i);
    }
  }

  /** `GetSlaveRequestIdFromHeartbeat`: the key without its prefix. */
  method SlaveRequestId(pt: Json) returns (r: Found)
    requires HasMember(pt, "slavestates") ==> GetMember(pt, "slavestates").Object?
    ensures var keys := Prefixed(StateNames(pt));
            && (r.Overflows? <==> AnyOverflowing(keys))
            && (r.NoneFound? <==> !AnyEligible(keys))
            && (r.Key? ==> NamesSmallest(keys, PREFIX + r.name))
  {
    r := FindSmallestSlaveRequestId(pt);
    if r.Key? {
      ghost var k: nat :| IsSmallest(Prefixed(StateNames(pt)), k) && Prefixed(StateNames(pt))[k] == r.name;
      AllPrefixed(StateNames(pt), k);
      assert PREFIX + r.name[|PREFIX|..] == r.name;
      r := Key(r.name[|PREFIX|..]);
    }
  }

  /** A key made for slave number n of a host is eligible and has that number; the sum over its digits
      overflows from ten digits on. */
  lemma SlaveKey(host: string, n: nat, key: string)
    requires key == "slaverequestid-" + host + "_slave" + Url.Decimal(n)
    ensures Eligible(key) && Suffix(key) == n && (Overflowing(key) <==> n >= 1_000_000_000)
  {
    var (front, digits) := (PREFIX + host + "_slave", Url.Decimal(n));
    DecimalDigits(n);
    assert key == front + digits && front[|front| - 6] == '_' && !IsDigit(front[|front| - 1]);
    assert key[|front| - 6] == '_' && key[|key| - 1] == digits[|digits| - 1] && PREFIX <= key;
    DigitsStartAt(front, digits);
    assert key[|front|..] == digits;
    LongNumeral(n);
    BillionIsPow10();
  }

  lemma BillionIsPow10()
    ensures Pow10(9) == 1_000_000_000
  {
    assert Pow10(3) == 1000;
    assert Pow10(6) == 1_000_000;
  }

  /** Keys that are passed over: without an underscore, without a digit at the end, or with another
      beginning. */
  lemma OtherKeys(key: string)
    ensures !("slaverequestid-" <= key) || '_' !in key || (key != "" && !('0' <= key[|key| - 1] <= '9')) ==>
              !Eligible(key)
  {
  }

  /** The keys of a heartbeat are the names in its member slavestates, up to their first NUL. */
  lemma KeysOfHeartbeat(pt: Json, ms: seq<Member>)
    requires HasMember(pt, "slavestates") && GetMember(pt, "slavestates") == Object(ms)
    ensures |StateNames(pt)| == |ms| && forall k | 0 <= k < |ms| :: StateNames(pt)[k] == UpToNul(ms[k].name)
  {
    CNamesAt(ms);
  }

  lemma {:induction false} CNamesAt(ms: seq<Member>)
    ensures forall k | 0 <= k < |ms| :: CNames(ms)[k] == UpToNul(ms[k].name)
  {
    if ms != [] {
      CNamesAt(ms[..|ms| - 1]);
    }
  }

  lemma {:induction false} DigitsStartAt(front: string, digits: string)
    requires front != "" && !IsDigit(front[|front| - 1]) && AllDigits(digits)
    ensures DigitsStart(front + digits) == |front|
  {
    var s := front + digits;
    if digits == "" {
      assert s == front;
    } else {
      assert s[..|s| - 1] == front + digits[..|digits| - 1];
      DigitsStartAt(front, digits[..|digits| - 1]);
    }
  }

  lemma {:induction false} DecimalDigits(n: nat)
    ensures AllDigits(Url.Decimal(n))
    ensures DecimalValue(Url.Decimal(n)) == n
  {
    var s := Url.Decimal(n);
    if n < 10 {
      assert s[..0] == "";
    } else {
      DecimalDigits(n / 10);
      assert s[..|s| - 1] == Url.Decimal(n / 10);
    }
  }

  lemma LongNumeral(n: nat)
    ensures |Url.Decimal(n)| > 9 <==> n >= Pow10(9)
  {
    NumeralLength(n, 9);
  }

  lemma {:induction false} NumeralLength(n: nat, d: nat)
    requires d > 0
    ensures |Url.Decimal(n)| > d <==> n >= Pow10(d)
    decreases d
  {
    if n < 10 {
      Pow10Grows(1, d);
    } else if d > 1 {
      NumeralLength(n / 10, d - 1);
    } else {
      assert Pow10(1) == 10 * Pow10(0);
    }
  }
}
