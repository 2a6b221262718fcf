/** `ConvertTimestampToFloat` of src/common.cpp: integer timestamp values get a dot appended. */
module Timestamps {
  import opened Json
  import opened Text

  const TIMESTAMP_KEY: string := "\"timestamp\":"

  /** What the proofs use of the key: it holds no terminator and is not empty. */
  predicate KeyText(key: string) {
    key != "" && NoTerminator(key, 0, |key|)
  }

  predicate Terminator(c: char) {
    c == ',' || c == '}'
  }

  /** The first terminator at or after `i`, or `|s|`. */
  function SegmentEnd(s: string, i: nat): (e: nat)
    requires i <= |s|
    ensures i <= e <= |s|
    ensures e < |s| ==> Terminator(s[e])
    decreases |s| - i
  {
    if i == |s| || Terminator(s[i]) then i else SegmentEnd(s, i + 1)
  }

  predicate NoTerminator(s: string, i: nat, e: nat) {
    forall k | i <= k < e && k < |s| :: !Terminator(s[k])
  }

  predicate HasKey(key: string, t: string)
    requires key != ""
  {
    Find(t, key, 0) < |t|
  }

  /** The text up to a terminator is the end of a timestamp value without a dot. */
  predicate NeedsDot(key: string, t: string)
    requires key != ""
  {
    HasKey(key, t) && '.' !in t[Find(t, key, 0)..]
  }

  function Dotted(key: string, t: string): string
    requires key != ""
  {
    if NeedsDot(key, t) then t + "." else t
  }

  /** The reference: cut the text at every `,` and `}` and put a dot at the end of the pieces that
      need one; a timestamp key in the last, unterminated piece is an error. */
  function Converted(key: string, s: string): Result<string>
    requires key != ""
    decreases |s|
  {
    var e := SegmentEnd(s, 0);
    if e == |s| then
      if HasKey(key, s) then Err else Ok(s)
    else
      match Converted(key, s[e + 1..])
      case Err => Err
      case Ok(rest) => Ok(Dotted(key, s[..e]) + [s[e]] + rest)
  }

  // ----- What the reference promises -----

  lemma {:induction false} SegmentEndIsFirst(s: string, i: nat)
    requires i <= |s|
    ensures NoTerminator(s, i, SegmentEnd(s, i))
    decreases |s| - i
  {
    if i < |s| && !Terminator(s[i]) {
      SegmentEndIsFirst(s, i + 1);
    }
  }

  lemma {:induction false} SegmentEndIs(s: string, i: nat, e: nat)
    requires i <= e <= |s| && (e < |s| ==> Terminator(s[e])) && NoTerminator(s, i, e)
    ensures SegmentEnd(s, i) == e
    decreases |s| - i
  {
    if i < e {
      SegmentEndIs(s, i + 1, e);
    }
  }

  lemma {:induction false} SegmentEndOfTail(s: string, d: nat, i: nat)
    requires d + i <= |s|
    ensures SegmentEnd(s, d + i) == d + SegmentEnd(s[d..], i)
    decreases |s| - i
  {
    if d + i < |s| && !Terminator(s[d + i]) {
      SegmentEndOfTail(s, d, i + 1);
    }
  }

  /** Appending a dot moves nothing: the key stays where it is and the value now has a dot. */
  lemma DottedNeedsNoDot(key: string, t: string)
    requires key != ""
    ensures !NeedsDot(key, Dotted(key, t))
  {
    if NeedsDot(key, t) {
      var b := Find(t, key, 0);
      var u := t + ".";
      assert u[0..|t|] == t;
      OccursInSlice(u, key, 0, |t|, b);
      var c := Find(u, key, 0);
      FindIsFirst(u, key, 0);
      assert c <= b;
      assert u[c..][|t| - c] == '.';
    }
  }

  /** Converting twice is converting once. */
  lemma {:induction false} ConvertedTwice(key: string, s: string)
    requires key != "" && Converted(key, s).Ok?
    ensures Converted(key, Converted(key, s).value) == Converted(key, s)
    decreases |s|
  {
    var e := SegmentEnd(s, 0);
    if e < |s| {
      ConvertedTwice(key, s[e + 1..]);
      SegmentEndIsFirst(s, 0);
      PieceHasNoTerminator(key, s, e);
      ConvertedCons(key, Dotted(key, s[..e]), s[e], Converted(key, s[e + 1..]).value);
      DottedNeedsNoDot(key, s[..e]);
    }
  }

  function PieceThen(key: string, t: string, c: char, r: Result<string>): Result<string>
    requires key != ""
  {
    if r.Ok? then Ok(Dotted(key, t) + [c] + r.value) else Err
  }

  lemma ConvertedCons(key: string, t: string, c: char, rest: string)
    requires key != "" && Terminator(c) && NoTerminator(t, 0, |t|)
    ensures Converted(key, t + [c] + rest) == PieceThen(key, t, c, Converted(key, rest))
  {
    var s := t + [c] + rest;
    assert forall k | 0 <= k < |t| :: s[k] == t[k];
    SegmentEndIs(s, 0, |t|);
    assert s[..|t|] == t && s[|t| + 1..] == rest;
  }

  lemma PieceHasNoTerminator(key: string, s: string, e: nat)
    requires key != "" && e <= |s| && NoTerminator(s, 0, e)
    ensures NoTerminator(s[..e], 0, e) && NoTerminator(Dotted(key, s[..e]), 0, |Dotted(key, s[..e])|)
  {
    assert forall k | 0 <= k < e :: s[..e][k] == s[k];
  }

  function Dot(key: string, t: string): (dot: string)
    requires key != ""
    ensures dot == "" || dot == "."
  {
    if NeedsDot(key, t) then "." else ""
  }

  /** `s` with a dot before each terminator that ends a piece needing one, and nowhere else; `t` is what
      the piece holds already. */
  function WithNeededDots(key: string, t: string, s: string): string
    requires key != ""
    decreases |s|
  {
    if s == "" then ""
    else if Terminator(s[0]) then Dot(key, t) + ([s[0]] + WithNeededDots(key, "", s[1..]))
    else [s[0]] + WithNeededDots(key, t + [s[0]], s[1..])
  }

  lemma {:induction false} NeededDotsOfPiece(key: string, t: string, s: string, u: string, rest: string)
    requires key != "" && NoTerminator(u, 0, |u|) && s == u + rest && (rest != "" ==> Terminator(rest[0]))
    ensures WithNeededDots(key, t, s) ==
            u + (if rest == "" then "" else Dot(key, t + u) + ([rest[0]] + WithNeededDots(key, "", rest[1..])))
    decreases |u|
  {
    if u == "" {
      assert s == rest && t + u == t;
    } else {
      var more := u[1..];
      assert s[0] == u[0] && s[1..] == more + rest && u == [u[0]] + more;
      assert forall k | 0 <= k < |more| :: more[k] == u[k + 1];
      NeededDotsOfPiece(key, t + [u[0]], s[1..], more, rest);
      assert (t + [u[0]]) + more == t + u;
      PrependOne(u, more,
                 if rest == "" then "" else Dot(key, t + u) + ([rest[0]] + WithNeededDots(key, "", rest[1..])));
    }
  }

  lemma PrependOne(u: string, more: string, after: string)
    requires u != "" && more == u[1..]
    ensures [u[0]] + (more + after) == u + after
  {
  }

  /** The output is the input with a dot directly before each terminator that ends a timestamp value
      without one, and nothing else changed. */
  lemma {:induction false} ConvertedOnlyInsertsDots(key: string, s: string)
    requires key != "" && Converted(key, s).Ok?
    ensures Converted(key, s).value == WithNeededDots(key, "", s)
    decreases |s|
  {
    var e := SegmentEnd(s, 0);
    SegmentEndIsFirst(s, 0);
    PieceHasNoTerminator(key, s, e);
    assert s == s[..e] + s[e..] && "" + s[..e] == s[..e];
    NeededDotsOfPiece(key, "", s, s[..e], s[e..]);
    if e < |s| {
      assert s[e..][1..] == s[e + 1..];
      ConvertedOnlyInsertsDots(key, s[e + 1..]);
      PieceText(key, s[..e], s[e], Converted(key, s[e + 1..]).value);
    } else {
      assert s[..e] + "" == s;
    }
  }

  lemma PieceText(key: string, t: string, c: char, rest: string)
    requires key != ""
    ensures Dotted(key, t) + [c] + rest == t + (Dot(key, t) + ([c] + rest))
  {
  }

  /** In every terminated piece the first timestamp value has a dot, and the last piece holds no key. */
  predicate EveryValueDotted(key: string, s: string)
    requires key != ""
    decreases |s|
  {
    var e := SegmentEnd(s, 0);
    if e == |s| then !HasKey(key, s) else !NeedsDot(key, s[..e]) && EveryValueDotted(key, s[e + 1..])
  }

  /** In the output every timestamp value has a dot. */
  lemma {:induction false} OutputIsDotted(key: string, s: string)
    requires key != "" && Converted(key, s).Ok?
    ensures EveryValueDotted(key, Converted(key, s).value)
    decreases |s|
  {
    var e := SegmentEnd(s, 0);
    if e < |s| {
      OutputIsDotted(key, s[e + 1..]);
      OutputPiece(key, s, e, Converted(key, s).value, Converted(key, s[e + 1..]).value);
      DottedNeedsNoDot(key, s[..e]);
    }
  }

  /** The first piece of the output is the first piece of the input, dotted. */
  lemma OutputPiece(key: string, s: string, e: nat, out: string, rest: string)
    requires key != "" && e == SegmentEnd(s, 0) < |s| && out == Dotted(key, s[..e]) + [s[e]] + rest
    ensures var d := |Dotted(key, s[..e])|;
            SegmentEnd(out, 0) == d < |out| && out[..d] == Dotted(key, s[..e]) && out[d + 1..] == rest
  {
    SegmentEndIsFirst(s, 0);
    PieceHasNoTerminator(key, s, e);
    var t := Dotted(key, s[..e]);
    assert forall k | 0 <= k < |t| :: out[k] == t[k];
    SegmentEndIs(out, 0, |t|);
  }

  /** Every key in the piece has a dot behind it. */
  predicate EveryKeyDotted(key: string, t: string) {
    forall j | 0 <= j < |t| && OccursAt(t, key, j) :: '.' in t[j..]
  }

  predicate AllKeysDotted(key: string, s: string)
    requires key != ""
    decreases |s|
  {
    var e := SegmentEnd(s, 0);
    if e == |s| then !HasKey(key, s) else EveryKeyDotted(key, s[..e]) && AllKeysDotted(key, s[e + 1..])
  }

  /** The piece has a dot behind its first key, but none behind some later one. */
  predicate LateKey(key: string, t: string)
    requires key != ""
  {
    HasKey(key, t) && '.' in t[Find(t, key, 0)..] && !EveryKeyDotted(key, t)
  }

  predicate NoLateKey(key: string, s: string)
    requires key != ""
    decreases |s|
  {
    var e := SegmentEnd(s, 0);
    e == |s| || (!LateKey(key, s[..e]) && NoLateKey(key, s[e + 1..]))
  }

  lemma DottedPieceKeys(key: string, t: string)
    requires key != ""
    ensures EveryKeyDotted(key, Dotted(key, t)) <==> !LateKey(key, t)
  {
    FindIsFirst(t, key, 0);
    if NeedsDot(key, t) {
      var u := t + ".";
      forall j | 0 <= j < |u| ensures '.' in u[j..] {
        assert u[j..][|t| - j] == '.';
      }
    }
  }

  /** Every key of the output has a dot behind it exactly when no piece of the input has a dot behind
      its first key but none behind a later one. */
  lemma {:induction false} AllKeysDottedIff(key: string, s: string)
    requires key != "" && Converted(key, s).Ok?
    ensures AllKeysDotted(key, Converted(key, s).value) <==> NoLateKey(key, s)
    decreases |s|
  {
    var e := SegmentEnd(s, 0);
    if e < |s| {
      AllKeysDottedIff(key, s[e + 1..]);
      OutputPiece(key, s, e, Converted(key, s).value, Converted(key, s[e + 1..]).value);
      DottedPieceKeys(key, s[..e]);
    }
  }

  /** Written out: behind the first "timestamp": of a piece that a comma or a closing brace ends, a value
      without a dot gets one directly before that character. */
  lemma ValueGetsDot(before: string, value: string, c: char, rest: string)
    requires c == ',' || c == '}'
    requires ',' !in before && '}' !in before && ',' !in value && '}' !in value
    requires NowhereIn(before + "\"timestamp\":", "\"timestamp\":", 0, |before|)
    ensures var (t, later) := (before + "\"timestamp\":" + value, Converted(TIMESTAMP_KEY, rest));
            Converted(TIMESTAMP_KEY, t + [c] + rest) ==
              if later.Err? then Err else Ok(t + (if '.' in value then "" else ".") + [c] + later.value)
  {
    TimestampKeyText();
    var t := before + TIMESTAMP_KEY + value;
    assert forall k | 0 <= k < |t| :: t[k] in before || t[k] in TIMESTAMP_KEY || t[k] in value;
    ConvertedCons(TIMESTAMP_KEY, t, c, rest);
    KeyBehind(TIMESTAMP_KEY, before, value, t);
  }

  lemma KeyBehind(key: string, before: string, value: string, t: string)
    requires key != "" && '.' !in key && t == before + key + value
    requires NowhereIn(before + key, key, 0, |before|)
    ensures Dotted(key, t) == t + if '.' in value then "" else "."
  {
    var all := before + key;
    forall k | 0 <= k < |before| ensures !OccursAt(t, key, k) {
      assert t[0..|all|] == all;
      OccursInSlice(t, key, 0, |all|, k);
    }
    assert t[|before|..|before| + |key|] == key;
    FindIs(t, key, 0, |before|);
    assert t[|before|..] == key + value;
  }

  /** A text without a timestamp key is left as it is. */
  lemma {:induction false} NoKeyUnchanged(s: string)
    requires NowhereIn(s, "\"timestamp\":", 0, |s|)
    ensures Converted(TIMESTAMP_KEY, s) == Ok(s)
    decreases |s|
  {
    var e := SegmentEnd(s, 0);
    FindIs(s, TIMESTAMP_KEY, 0, |s|);
    if e < |s| {
      NoKeyInSlice(s, TIMESTAMP_KEY, 0, e);
      NoKeyInSlice(s, TIMESTAMP_KEY, e + 1, |s|);
      assert s[e + 1..|s|] == s[e + 1..];
      NoKeyUnchanged(s[e + 1..]);
      FindIs(s[..e], TIMESTAMP_KEY, 0, e);
      assert s == s[..e] + [s[e]] + s[e + 1..];
    }
  }

  lemma NoKeyInSlice(s: string, key: string, i: nat, j: nat)
    requires i <= j <= |s| && NowhereIn(s, key, 0, |s|) && key != ""
    ensures NowhereIn(s[i..j], key, 0, j - i)
  {
    forall k | 0 <= k < j - i ensures !OccursAt(s[i..j], key, k) {
      if k + |key| <= j - i {
        OccursInSlice(s, key, i, j, k);
      }
    }
  }

  /** "timestamp":1.5"timestamp":2} is left as it is: the second key gets no dot. */
  lemma SecondKeyStaysUndotted()
    ensures var t := TIMESTAMP_KEY + ("1.5" + (TIMESTAMP_KEY + "2"));
            LateKey(TIMESTAMP_KEY, t) && Converted(TIMESTAMP_KEY, t + "}") == Ok(t + "}")
  {
    TimestampKeyText();
    TwoKeys(TIMESTAMP_KEY, "1.5", "2");
  }

  lemma TwoKeys(key: string, one: string, two: string)
    requires KeyText(key) && '.' !in key && '.' in one && '.' !in two
    requires NoTerminator(one, 0, |one|) && NoTerminator(two, 0, |two|)
    ensures var t := key + (one + (key + two));
            LateKey(key, t) && Converted(key, t + "}") == Ok(t + "}")
  {
    var t := key + (one + (key + two));
    KeysAt(key, one, two, t);
    SecondIsLate(key, one, two, t);
    ConvertedCons(key, t, '}', "");
    assert t + ['}'] + "" == t + "}";
    assert Converted(key, "") == Ok("");
  }

  lemma SecondIsLate(key: string, one: string, two: string, t: string)
    requires KeyText(key) && '.' !in key && '.' in one && '.' !in two && t == key + (one + (key + two))
    requires OccursAt(t, key, 0) && OccursAt(t, key, |key| + |one|) && |key| + |one| < |t|
    ensures LateKey(key, t) && Dotted(key, t) == t
  {
    var j := |key| + |one|;
    assert t[j..] == key + two && '.' !in t[j..];
    assert t[0..] == t && t[|key|..] == one + (key + two) && '.' in t;
    assert Find(t, key, 0) == 0;
    assert !EveryKeyDotted(key, t);
  }

  lemma KeysAt(key: string, one: string, two: string, t: string)
    requires KeyText(key) && t == key + (one + (key + two))
    requires NoTerminator(one, 0, |one|) && NoTerminator(two, 0, |two|)
    ensures OccursAt(t, key, 0) && OccursAt(t, key, |key| + |one|) && |key| + |one| < |t|
    ensures NoTerminator(t, 0, |t|)
  {
    var j := |key| + |one|;
    assert t[0..|key|] == key && t[j..j + |key|] == key;
    forall k | 0 <= k < |t| ensures !Terminator(t[k]) {
      if k < |key| {
        assert t[k] == key[k];
      } else if k < j {
        assert t[k] == one[k - |key|];
      } else if k < j + |key| {
        assert t[k] == key[k - j];
      } else {
        assert t[k] == two[k - j - |key|];
      }
    }
  }

  /** Every timestamp key is followed by a terminator. */
  predicate EveryValueEnds(key: string, s: string) {
    forall i | 0 <= i < |s| && OccursAt(s, key, i) :: SegmentEnd(s, i) < |s|
  }

  /** The input is accepted exactly when every timestamp key is followed by a terminator. */
  lemma {:induction false} AcceptedIffEveryValueEnds(key: string, s: string)
    requires KeyText(key)
    ensures Converted(key, s).Ok? <==> EveryValueEnds(key, s)
    decreases |s|
  {
    var e := SegmentEnd(s, 0);
    if e == |s| {
      AcceptedLastPiece(key, s);
    } else {
      AcceptedIffEveryValueEnds(key, s[e + 1..]);
      if EveryValueEnds(key, s[e + 1..]) { ValuesEndInWhole(key, s, e); }
      if EveryValueEnds(key, s) { ValuesEndInTail(key, s, e); }
    }
  }

  lemma AcceptedLastPiece(key: string, s: string)
    requires key != "" && SegmentEnd(s, 0) == |s|
    ensures HasKey(key, s) <==> !EveryValueEnds(key, s)
  {
    SegmentEndIsFirst(s, 0);
    FindIsFirst(s, key, 0);
    if HasKey(key, s) {
      SegmentEndIs(s, Find(s, key, 0), |s|);
    }
  }

  /** A key of the tail is a key of the whole, and its value ends in both or in neither. */
  lemma KeyInTail(key: string, s: string, d: nat, i: nat)
    requires key != "" && d + i < |s|
    ensures OccursAt(s[d..], key, i) <==> OccursAt(s, key, d + i)
    ensures SegmentEnd(s[d..], i) < |s[d..]| <==> SegmentEnd(s, d + i) < |s|
  {
    SegmentEndOfTail(s, d, i);
    if d + i + |key| <= |s| {
      OccursInSlice(s, key, d, |s|, i);
      assert s[d..|s|] == s[d..];
    }
  }

  lemma ValuesEndInWhole(key: string, s: string, e: nat)
    requires key != "" && e < |s| && e == SegmentEnd(s, 0) && EveryValueEnds(key, s[e + 1..])
    ensures EveryValueEnds(key, s)
  {
    forall i | 0 <= i < |s| && OccursAt(s, key, i) ensures SegmentEnd(s, i) < |s| {
      if i <= e {
        EndsAtFirst(s, e, i);
      } else {
        KeyInTail(key, s, e + 1, i - e - 1);
      }
    }
  }

  lemma EndsAtFirst(s: string, e: nat, i: nat)
    requires i <= e < |s| && e == SegmentEnd(s, 0)
    ensures SegmentEnd(s, i) == e
  {
    SegmentEndIsFirst(s, 0);
    SegmentEndIs(s, i, e);
  }

  lemma ValuesEndInTail(key: string, s: string, e: nat)
    requires key != "" && e < |s| && EveryValueEnds(key, s)
    ensures EveryValueEnds(key, s[e + 1..])
  {
    var tail := s[e + 1..];
    forall i | 0 <= i < |tail| && OccursAt(tail, key, i) ensures SegmentEnd(tail, i) < |tail| {
      KeyInTail(key, s, e + 1, i);
    }
  }

  // ----- The code -----

  function After(out: string, r: Result<string>): Result<string> {
    if r.Ok? then Ok(out + r.value) else Err
  }

  /** The reference from position `i` on, with `out` already written. */
  function ConvertedFrom(key: string, s: string, i: nat, out: string): Result<string>
    requires key != "" && i <= |s|
  {
    After(out, Converted(key, s[i..]))
  }

  lemma ConvertedOfTail(key: string, s: string, i: nat, e: nat)
    requires key != "" && i <= e < |s| && e == SegmentEnd(s, i)
    ensures Converted(key, s[i..]) == PieceThen(key, s[i..e], s[e], Converted(key, s[e + 1..]))
  {
    var t := s[i..e];
    SegmentEndIsFirst(s, i);
    assert forall k | 0 <= k < |t| :: t[k] == s[i + k];
    assert s[i..] == t + [s[e]] + s[e + 1..];
    ConvertedCons(key, t, s[e], s[e + 1..]);
  }

  lemma OnePiece(key: string, s: string, i: nat, e: nat, out: string, written: string)
    requires key != "" && i <= e < |s| && e == SegmentEnd(s, i)
    requires written == out + s[i..e] + Dot(key, s[i..e])
    ensures ConvertedFrom(key, s, i, out) == ConvertedFrom(key, s, e + 1, written + [s[e]])
  {
    ConvertedOfTail(key, s, i, e);
    AfterPiece(key, out, s[i..e], s[e], Converted(key, s[e + 1..]));
  }

  lemma LastPiece(key: string, s: string, i: nat, out: string)
    requires key != "" && i <= |s| && SegmentEnd(s, i) == |s|
    ensures ConvertedFrom(key, s, i, out) == if HasKey(key, s[i..]) then Err else Ok(out + s[i..])
  {
    SegmentEndOfTail(s, i, 0);
  }

  lemma AfterPiece(key: string, out: string, t: string, c: char, r: Result<string>)
    requires key != ""
    ensures After(out + t + Dot(key, t) + [c], r) == After(out, PieceThen(key, t, c, r))
  {
    if r.Ok? { Reassociate(key, out, t, c, r.value); }
  }

  lemma Reassociate(key: string, out: string, t: string, c: char, rest: string)
    requires key != ""
    ensures out + t + Dot(key, t) + [c] + rest == out + (Dotted(key, t) + [c] + rest)
  {
    assert Dotted(key, t) == t + Dot(key, t);
  }

  /** No key occurs in [i, b): whole segments before `b` are copied. */
  lemma {:induction false} SkipToKey(key: string, s: string, i: nat, b: nat, out: string) returns (j: nat)
    requires key != "" && i <= b <= |s| && NowhereIn(s, key, i, b)
    ensures i <= j <= b && NoTerminator(s, j, b)
    ensures ConvertedFrom(key, s, i, out) == ConvertedFrom(key, s, j, out + s[i..j])
    decreases |s| - i
  {
    var e := SegmentEnd(s, i);
    if e < b {
      j := SkipPieces(key, s, i, e, b, out);
    } else {
      j := i;
      SegmentEndIsFirst(s, i);
      Append(out, s, i, i, i);
    }
  }

  lemma {:induction false} SkipPieces(key: string, s: string, i: nat, e: nat, b: nat, out: string) returns (j: nat)
    requires key != "" && i <= e < b <= |s| && e == SegmentEnd(s, i) && NowhereIn(s, key, i, b)
    ensures i <= j <= b && NoTerminator(s, j, b)
    ensures ConvertedFrom(key, s, i, out) == ConvertedFrom(key, s, j, out + s[i..j])
    decreases |s| - i, 0
  {
    var copied := out + s[i..e + 1];
    j := SkipToKey(key, s, e + 1, b, copied);
    CopiedThenSkipped(key, s, i, e, j, out, copied);
  }

  lemma CopiedThenSkipped(key: string, s: string, i: nat, e: nat, j: nat, out: string, copied: string)
    requires key != "" && i <= e < j <= |s| && e == SegmentEnd(s, i) && NowhereIn(s, key, i, e)
    requires copied == out + s[i..e + 1]
    requires ConvertedFrom(key, s, e + 1, copied) == ConvertedFrom(key, s, j, copied + s[e + 1..j])
    ensures ConvertedFrom(key, s, i, out) == ConvertedFrom(key, s, j, out + s[i..j])
  {
    CopiedPiece(key, s, i, e, out, copied);
    Append(out, s, i, e + 1, j);
  }

  lemma CopiedPiece(key: string, s: string, i: nat, e: nat, out: string, copied: string)
    requires key != "" && i <= e < |s| && e == SegmentEnd(s, i) && NowhereIn(s, key, i, e)
    requires copied == out + s[i..e + 1]
    ensures ConvertedFrom(key, s, i, out) == ConvertedFrom(key, s, e + 1, copied)
  {
    NoKeyInPiece(key, s, i, e);
    var written := out + s[i..e];
    AppendNothing(written, s);
    OnePiece(key, s, i, e, out, written);
    AppendLast(out, s, i, e);
  }

  lemma AppendLast(out: string, s: string, i: nat, e: nat)
    requires i <= e < |s|
    ensures out + s[i..e] + [s[e]] == out + s[i..e + 1]
  {
  }

  lemma AppendNothing(out: string, s: string)
    ensures out + s[|s|..] == out && out + "" == out
  {
  }

  lemma Append(out: string, s: string, i: nat, m: nat, j: nat)
    requires i <= m <= j <= |s|
    ensures out + s[i..m] + s[m..j] == out + s[i..j]
    ensures i == j ==> out + s[i..j] == out
  {
  }

  lemma NoKeyInPiece(key: string, s: string, i: nat, e: nat)
    requires key != "" && i <= e <= |s| && NowhereIn(s, key, i, e)
    ensures !HasKey(key, s[i..e])
  {
    var b := Find(s[i..e], key, 0);
    if b < e - i {
      OccursInSlice(s, key, i, e, b);
    }
  }

  /** The piece [j, e) whose first key is at `b`: its dot is looked for between `b` and `e`. */
  lemma KeyInPiece(key: string, s: string, j: nat, b: nat, e: nat)
    requires key != "" && j <= b && OccursAt(s, key, b) && b + |key| <= e <= |s| && NowhereIn(s, key, j, b)
    ensures HasKey(key, s[j..e])
    ensures NeedsDot(key, s[j..e]) <==> IndexOf(s, '.', b) >= e
  {
    var t := s[j..e];
    OccursInSlice(s, key, j, e, b - j);
    var f := Find(t, key, 0);
    FindIsFirst(t, key, 0);
    assert f <= b - j;
    OccursInSlice(s, key, j, e, f);
    assert f == b - j;
    assert t[f..] == s[b..e];
    IndexOfIsFirst(s, '.', b);
    DotInSlice(s, b, e);
  }

  lemma DotInSlice(s: string, b: nat, e: nat)
    requires b <= e <= |s|
    ensures '.' in s[b..e] <==> IndexOf(s, '.', b) < e
  {
    IndexOfIsFirst(s, '.', b);
    var p := IndexOf(s, '.', b);
    if p < e { assert s[b..e][p - b] == '.'; }
    if '.' in s[b..e] {
      var k :| 0 <= k < e - b && s[b..e][k] == '.';
      assert s[b + k] == '.';
    }
  }

  lemma ValueEndsAfterKey(key: string, s: string, b: nat)
    requires KeyText(key) && OccursAt(s, key, b)
    ensures b + |key| <= SegmentEnd(s, b)
  {
    OccurrenceSpells(s, key, b);
    var e := SegmentEnd(s, b);
    assert forall k | b <= k < b + |key| :: s[k] == key[k - b] && !Terminator(s[k]);
  }

  /** One round of the loop: everything up to the end of the next timestamp value. */
  lemma RoundCopies(key: string, s: string, i: nat, b: nat, e: nat, out: string, written: string)
    requires KeyText(key) && i <= b <= |s| && OccursAt(s, key, b) && NowhereIn(s, key, i, b)
    requires e == SegmentEnd(s, b) && e < |s|
    requires IndexOf(s, '.', b) >= e ==> written == out + s[i..e] + "."
    requires IndexOf(s, '.', b) < e ==> written == out + s[i..e]
    ensures ConvertedFrom(key, s, i, out) == ConvertedFrom(key, s, e, written)
  {
    AppendNothing(out + s[i..e], s);
    ValueEndsAfterKey(key, s, b);
    SegmentEndIsFirst(s, b);
    var j := SkipToKey(key, s, i, b, out);
    var skipped := out + s[i..j];
    SegmentEndIs(s, j, e);
    KeyInPiece(key, s, j, b, e);
    Append(out, s, i, j, e);
    OnePiece(key, s, j, e, skipped, written);
    EmptyPiece(key, s, e, written);
  }

  lemma UnendedKeyFails(key: string, s: string, i: nat, b: nat, out: string)
    requires KeyText(key) && i <= b <= |s| && OccursAt(s, key, b) && NowhereIn(s, key, i, b)
    requires SegmentEnd(s, b) == |s|
    ensures ConvertedFrom(key, s, i, out) == Err
  {
    ValueEndsAfterKey(key, s, b);
    SegmentEndIsFirst(s, b);
    var j := SkipToKey(key, s, i, b, out);
    SegmentEndIs(s, j, |s|);
    KeyInPiece(key, s, j, b, |s|);
    ToTheEnd(s, j);
    LastPiece(key, s, j, out + s[i..j]);
  }

  lemma EmptyPiece(key: string, s: string, e: nat, out: string)
    requires key != "" && e < |s| && Terminator(s[e])
    ensures ConvertedFrom(key, s, e, out) == ConvertedFrom(key, s, e + 1, out + [s[e]])
  {
    assert s[e..e] == "" && !HasKey(key, "");
    assert out == out + "" + "";
    OnePiece(key, s, e, e, out, out);
  }

  lemma ToTheEnd(s: string, i: nat)
    requires i <= |s|
    ensures s[i..|s|] == s[i..]
  {
  }

  lemma NothingLeft(key: string, s: string, i: nat, out: string)
    requires key != "" && i <= |s| && NowhereIn(s, key, i, |s|)
    ensures ConvertedFrom(key, s, i, out) == Ok(out + s[i..])
  {
    var j := SkipToKey(key, s, i, |s|, out);
    SegmentEndIs(s, j, |s|);
    NoKeyInPiece(key, s, j, |s|);
    ToTheEnd(s, i);
    ToTheEnd(s, j);
    LastPiece(key, s, j, out + s[i..j]);
    Append(out, s, i, j, |s|);
  }

  lemma TimestampKeyText()
    ensures KeyText(TIMESTAMP_KEY)
  {
  }

  lemma FromStart(key: string, input: string)
    requires key != ""
    ensures ConvertedFrom(key, input, 0, "") == Converted(key, input)
  {
    assert input[0..] == input;
    if Converted(key, input).Ok? {
      assert "" + Converted(key, input).value == Converted(key, input).value;
    }
  }

  lemma EarlierTerminator(s: string, b: nat)
    requires b <= |s|
    ensures var comma, curly := IndexOf(s, ',', b), IndexOf(s, '}', b);
            SegmentEnd(s, b) == if comma < curly then comma else curly
  {
    IndexOfIsFirst(s, ',', b);
    IndexOfIsFirst(s, '}', b);
    var comma, curly := IndexOf(s, ',', b), IndexOf(s, '}', b);
    SegmentEndIs(s, b, if comma < curly then comma else curly);
  }

  datatype Value = NoKey | Unended | Ended(end: nat, isInteger: bool)

  /** `value` tells what the first key at or after `from`, at `begin`, says. */
  ghost predicate IsNextValue(key: string, s: string, from: nat, begin: nat, value: Value)
    requires key != "" && from <= |s|
  {
    && from <= begin <= |s|
    && NowhereIn(s, key, from, begin)
    && match value
       case NoKey => begin == |s|
       case Unended => OccursAt(s, key, begin) && SegmentEnd(s, begin) == |s|
       case Ended(end, isInteger) =>
         && OccursAt(s, key, begin) && end == SegmentEnd(s, begin) && end < |s|
         && (isInteger <==> IndexOf(s, '.', begin) >= end)
  }

  /** What the loop appends for it. */
  function Copied(s: string, from: nat, end: nat, isInteger: bool, out: string): string
    requires from <= end <= |s|
  {
    if isInteger then out + s[from..end] + "." else out + s[from..end]
  }

  lemma ValueStep(key: string, s: string, from: nat, begin: nat, value: Value, out: string)
    requires KeyText(key) && from <= |s| && IsNextValue(key, s, from, begin, value)
    ensures value.NoKey? ==> ConvertedFrom(key, s, from, out) == Ok(out + s[from..])
    ensures value.Unended? ==> ConvertedFrom(key, s, from, out) == Err
    ensures value.Ended? ==>
              from < value.end < |s| &&
              ConvertedFrom(key, s, from, out) ==
              ConvertedFrom(key, s, value.end, Copied(s, from, value.end, value.isInteger, out))
  {
    match value
    case NoKey => NothingLeft(key, s, from, out);
    case Unended => UnendedKeyFails(key, s, from, begin, out);
    case Ended(end, isInteger) =>
      ValueEndsAfterKey(key, s, begin);
      RoundCopies(key, s, from, begin, end, out, Copied(s, from, end, isInteger, out));
  }

  /** Looks for the next timestamp value: where it ends and whether it is written without a dot. */
  method NextValue(key: string, input: string, processed: nat) returns (value: Value, begin: nat)
    requires KeyText(key) && processed <= |input|
    ensures IsNextValue(key, input, processed, begin, value)
  {
    begin := Find(input, key, processed);
    FindIsFirst(input, key, processed);
    if begin == |input| {
      return NoKey, begin;
    }
    var comma := IndexOf(input, ',', begin);
    var closingCurly := IndexOf(input, '}', begin);
    EarlierTerminator(input, begin);
    if comma == |input| && closingCurly == |input| {
      return Unended, begin;
    }
    var end := if comma < closingCurly then comma else closingCurly;
    var period := IndexOf(input, '.', begin);
    DotIsNotTheEnd(input, begin, end);
    return Ended(end, period == |input| || period > end), begin;
  }

  lemma DotIsNotTheEnd(s: string, b: nat, e: nat)
    requires b <= e < |s| && Terminator(s[e])
    ensures IndexOf(s, '.', b) != e
  {
  }

  // ----- What a throw leaves in the stream -----

  /** At `p` the loop has appended `out`: the conversion of s[..p], the dot at `p` included. */
  ghost predicate Appended(key: string, s: string, p: nat, out: string)
    requires key != ""
  {
    p <= |s| &&
    if p == 0 then out == ""
    else p < |s| && Terminator(s[p]) && Converted(key, s[..p + 1]) == Ok(out + [s[p]])
  }

  /** `p` is where the last timestamp value that ends does, or 0; the next key has no terminator. */
  ghost predicate LeftAtThrow(key: string, s: string, p: nat, out: string)
    requires key != ""
  {
    && Appended(key, s, p, out)
    && (p > 0 ==> exists b: nat :: ValueEndsAt(key, s, b, p))
    && exists b: nat :: p <= b <= |s| && NowhereIn(s, key, p, b) && ValueEndsAt(key, s, b, |s|)
  }

  predicate ValueEndsAt(key: string, s: string, b: nat, e: nat) {
    b <= |s| && OccursAt(s, key, b) && SegmentEnd(s, b) == e
  }

  lemma SegmentEndOfPrefix(a: string, b: string, i: nat, e: nat)
    requires i <= e < |a| && e == SegmentEnd(a, i)
    ensures SegmentEnd(a + b, i) == e
  {
    SegmentEndIsFirst(a, i);
    assert forall k | i <= k <= e :: (a + b)[k] == a[k];
    SegmentEndIs(a + b, i, e);
  }

  lemma SamePiece(key: string, a: string, ab: string, i: nat, e: nat, out: string) returns (written: string)
    requires key != "" && a <= ab && i <= e < |a| && e == SegmentEnd(a, i)
    ensures ConvertedFrom(key, a, i, out) == ConvertedFrom(key, a, e + 1, written)
    ensures ConvertedFrom(key, ab, i, out) == ConvertedFrom(key, ab, e + 1, written)
  {
    assert ab == a + ab[|a|..];
    SegmentEndOfPrefix(a, ab[|a|..], i, e);
    assert ab[i..e] == a[i..e] && ab[e] == a[e];
    written := out + a[i..e] + Dot(key, a[i..e]);
    OnePiece(key, a, i, e, out, written);
    OnePiece(key, ab, i, e, out, written);
    written := written + [a[e]];
  }

  /** Converting goes on behind a terminator as if what stands before it were all. */
  lemma {:induction false} PrefixFirst(key: string, a: string, ab: string, i: nat, out: string, v: string)
    requires key != "" && a <= ab && i <= |a| && (i < |a| ==> Terminator(a[|a| - 1]))
    requires ConvertedFrom(key, a, i, out) == Ok(v)
    ensures ConvertedFrom(key, ab, i, out) == ConvertedFrom(key, ab, |a|, v)
    decreases |a| - i
  {
    if i < |a| {
      var e := SegmentEnd(a, i);
      EndsInside(a, i);
      var written := SamePiece(key, a, ab, i, e, out);
      PrefixFirst(key, a, ab, e + 1, written, v);
    } else {
      LastPieceIsEmpty(key, a, out);
    }
  }

  lemma EndsInside(a: string, i: nat)
    requires i < |a| && Terminator(a[|a| - 1])
    ensures SegmentEnd(a, i) < |a|
  {
    SegmentEndIsFirst(a, i);
  }

  /** What was appended so far fits every text that begins like this one. */
  lemma AppendedGoesOn(key: string, s: string, p: nat, out: string)
    requires key != "" && p <= |s| && (p > 0 ==> p < |s| && Terminator(s[p]))
    requires if p == 0 then out == "" else Converted(key, s[..p + 1]) == Ok(out + [s[p]])
    ensures ConvertedFrom(key, s, p, out) == Converted(key, s)
  {
    FromStart(key, s);
    if p > 0 {
      var a := s[..p + 1];
      FromStart(key, a);
      PrefixFirst(key, a, s, 0, "", out + [s[p]]);
      EmptyPiece(key, s, p, out);
    }
  }

  lemma OccursInPrefix(s: string, key: string, n: nat, k: nat)
    requires n <= |s|
    ensures OccursAt(s[..n], key, k) <==> k + |key| <= n && OccursAt(s, key, k)
  {
    if k + |key| <= n {
      assert s[..n][k..k + |key|] == s[k..k + |key|];
    }
  }

  lemma SameValueInPrefix(key: string, s: string, from: nat, begin: nat, end: nat, isInteger: bool)
    requires KeyText(key) && from <= |s| && IsNextValue(key, s, from, begin, Ended(end, isInteger))
    ensures from < end && IsNextValue(key, s[..end + 1], from, begin, Ended(end, isInteger))
  {
    var t := s[..end + 1];
    ValueEndsAfterKey(key, s, begin);
    forall k | from <= k < begin ensures !OccursAt(t, key, k) {
      OccursInPrefix(s, key, end + 1, k);
    }
    OccursInPrefix(s, key, end + 1, begin);
    SegmentEndIsFirst(s, begin);
    SegmentEndIs(t, begin, end);
    IndexOfIsFirst(s, '.', begin);
    var dot := IndexOf(s, '.', begin);
    DotIsNotTheEnd(s, begin, end);
    IndexOfIs(t, '.', begin, if dot < end then dot else |t|);
  }

  /** One round of the loop keeps what was appended right. */
  lemma AppendValue(key: string, s: string, from: nat, begin: nat, end: nat, isInteger: bool, out: string)
    requires KeyText(key) && Appended(key, s, from, out) && IsNextValue(key, s, from, begin, Ended(end, isInteger))
    ensures from <= end < |s| && Appended(key, s, end, Copied(s, from, end, isInteger, out))
  {
    SameValueInPrefix(key, s, from, begin, end, isInteger);
    var t := s[..end + 1];
    if from > 0 { assert t[..from + 1] == s[..from + 1] && t[from] == s[from]; }
    AppendedGoesOn(key, t, from, out);
    assert t[from..end] == s[from..end];
    ValueIsAll(key, t, from, begin, end, isInteger, out, Copied(s, from, end, isInteger, out));
  }

  lemma ValueIsAll(key: string, t: string, from: nat, begin: nat, end: nat, isInteger: bool,
                   out: string, copied: string)
    requires KeyText(key) && from < end && |t| == end + 1 && Terminator(t[end])
    requires IsNextValue(key, t, from, begin, Ended(end, isInteger))
    requires ConvertedFrom(key, t, from, out) == Converted(key, t) && copied == Copied(t, from, end, isInteger, out)
    ensures Converted(key, t) == Ok(copied + [t[end]])
  {
    ValueStep(key, t, from, begin, Ended(end, isInteger), out);
    EmptyPiece(key, t, end, copied);
    LastPieceIsEmpty(key, t, copied + [t[end]]);
  }

  lemma ThrowLeaves(key: string, s: string, p: nat, begin: nat, out: string)
    requires key != "" && Appended(key, s, p, out) && (p > 0 ==> exists b: nat :: ValueEndsAt(key, s, b, p))
    requires IsNextValue(key, s, p, begin, Unended)
    ensures LeftAtThrow(key, s, p, out)
  {
    assert ValueEndsAt(key, s, begin, |s|);
  }

  /** The loop, for any key text. */
  method ConvertKey(key: string, input: string) returns (thrown: bool, out: string)
    requires KeyText(key)
    ensures thrown <==> Converted(key, input).Err?
    ensures !thrown ==> Converted(key, input) == Ok(out)
    ensures thrown ==> exists p: nat :: LeftAtThrow(key, input, p, out)
  {
    out := "";
    var processed := 0;
    FromStart(key, input);
    while processed < |input|
      invariant processed <= |input|
      invariant ConvertedFrom(key, input, processed, out) == Converted(key, input)
      invariant Appended(key, input, processed, out)
      invariant processed > 0 ==> exists b: nat :: ValueEndsAt(key, input, b, processed)
      decreases |input| - processed
    {
      var value, begin := NextValue(key, input, processed);
      ValueStep(key, input, processed, begin, value, out);
      match value {
        case NoKey =>
          out := out + input[processed..];
          return false, out;
        case Unended =>
          ThrowLeaves(key, input, processed, begin, out);
          return true, out;
        case Ended(end, isInteger) =>
          AppendValue(key, input, processed, begin, end, isInteger, out);
          assert ValueEndsAt(key, input, begin, end);
          out := out + input[processed..end];
          if isInteger {
            out := out + ".";
          }
          processed := end;
      }
    }
    LastPieceIsEmpty(key, input, out);
    thrown := false;
  }

  /** Appends to the stream and throws exactly when the conversion is undefined; what was appended before
      a throw is the conversion of everything up to the last value that ends. */
  method ConvertTimestampToFloat(input: string) returns (thrown: bool, outss: string)
    ensures thrown <==> Converted(TIMESTAMP_KEY, input).Err?
    ensures !thrown ==> Converted(TIMESTAMP_KEY, input) == Ok(outss)
    ensures thrown ==> exists p: nat :: LeftAtThrow(TIMESTAMP_KEY, input, p, outss)
  {
    TimestampKeyText();
    thrown, outss := ConvertKey(TIMESTAMP_KEY, input);
  }

  lemma LastPieceIsEmpty(key: string, s: string, out: string)
    requires key != ""
    ensures ConvertedFrom(key, s, |s|, out) == Ok(out)
  {
    NothingLeft(key, s, |s|, out);
    AppendNothing(out, s);
  }
}
