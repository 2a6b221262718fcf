/** The substring searches of the C and C++ string libraries, and C strings. */
module Text {

  predicate OccursAt(s: string, p: string, i: int) {
    0 <= i && i + |p| <= |s| && s[i..i + |p|] == p
  }

  /** Index of the first `c` at or after `from`, or `|s|` when there is none (as std::find). */
  function IndexOf(s: string, c: char, from: nat): (r: nat)
    requires from <= |s|
    ensures from <= r <= |s|
    ensures r < |s| ==> s[r] == c
    decreases |s| - from
  {
    if from == |s| || s[from] == c then from else IndexOf(s, c, from + 1)
  }

  /** Index of the first occurrence of `p` at or after `from`, or `|s|` when there is none. */
  function Find(s: string, p: string, from: nat): (r: nat)
    requires from <= |s| && p != ""
    ensures from <= r <= |s|
    ensures r < |s| ==> OccursAt(s, p, r)
    decreases |s| - from
  {
    if from == |s| || OccursAt(s, p, from) then from else Find(s, p, from + 1)
  }

  /** `c` is not in s[i..j). */
  predicate Absent(s: string, c: char, i: nat, j: nat) {
    forall k | i <= k < j && k < |s| :: s[k] != c
  }

  /** `p` starts nowhere in [i, j). */
  predicate NowhereIn(s: string, p: string, i: nat, j: nat) {
    forall k | i <= k < j :: !OccursAt(s, p, k)
  }

  lemma {:induction false} IndexOfIsFirst(s: string, c: char, from: nat)
    requires from <= |s|
    ensures Absent(s, c, from, IndexOf(s, c, from))
    decreases |s| - from
  {
    if from < |s| && s[from] != c {
      IndexOfIsFirst(s, c, from + 1);
    }
  }

  lemma {:induction false} IndexOfIs(s: string, c: char, from: nat, r: nat)
    requires from <= r <= |s| && (r < |s| ==> s[r] == c) && Absent(s, c, from, r)
    ensures IndexOf(s, c, from) == r
    decreases |s| - from
  {
    if from < r {
      IndexOfIs(s, c, from + 1, r);
    }
  }

  lemma {:induction false} FindIsFirst(s: string, p: string, from: nat)
    requires from <= |s| && p != ""
    ensures NowhereIn(s, p, from, Find(s, p, from))
    decreases |s| - from
  {
    if from < |s| && !OccursAt(s, p, from) {
      FindIsFirst(s, p, from + 1);
    }
  }

  lemma {:induction false} FindIs(s: string, p: string, from: nat, r: nat)
    requires p != "" && from <= r <= |s| && (r < |s| ==> OccursAt(s, p, r)) && NowhereIn(s, p, from, r)
    ensures Find(s, p, from) == r
    decreases |s| - from
  {
    if from < r {
      FindIs(s, p, from + 1, r);
    }
  }

  lemma OccursInSlice(s: string, p: string, lo: nat, hi: nat, i: nat)
    requires lo + i + |p| <= hi <= |s|
    ensures OccursAt(s[lo..hi], p, i) <==> OccursAt(s, p, lo + i)
  {
    var whole := s[lo..hi];
    assert forall k | i <= k < i + |p| :: whole[k] == s[lo + k];
    assert whole[i..i + |p|] == s[lo + i..lo + i + |p|];
  }

  /** An occurrence reads the pattern character by character. */
  lemma OccurrenceSpells(s: string, p: string, i: nat)
    requires OccursAt(s, p, i)
    ensures forall k | i <= k < i + |p| :: s[k] == p[k - i]
  {
    forall k | i <= k < i + |p| ensures s[k] == p[k - i] {
      assert s[i..i + |p|][k - i] == p[k - i];
    }
  }

  /** What is left of a string that passes through a C string: everything before its first NUL. */
  function UpToNul(s: string): (r: string)
    ensures '\0' !in r
    ensures '\0' !in s <==> r == s
    ensures r <= s && (|r| < |s| ==> s[|r|] == '\0')
  {
    if s == [] || s[0] == '\0' then [] else [s[0]] + UpToNul(s[1..])
  }
}
