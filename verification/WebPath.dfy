/** Percent-encoding of names and paths (RFC 3986 sections 2.1 and 2.3), the primary keys made from
    them, and the WebDAV directories created for a path (RFC 4918 section 9.3). */
module WebPath {
  import opened Json

  newtype Byte = b: int | 0 <= b < 256

  const SLASH: Byte := 47
  const PERCENT: Byte := 37

  // ----- EscapeString and UnescapeString -----

  /** ALPHA / DIGIT / "-" / "." / "_" / "~" */
  predicate Unreserved(b: Byte) {
    65 <= b <= 90 || 97 <= b <= 122 || 48 <= b <= 57 || b == 45 || b == 46 || b == 95 || b == 126
  }

  function HexDigit(n: int): Byte
    requires 0 <= n < 16
  {
    (if n < 10 then 48 + n else 55 + n) as Byte
  }

  /** The value of a hexadecimal digit of either case, or -1. */
  function HexValue(b: Byte): (v: int)
    ensures -1 <= v < 16
  {
    if 48 <= b <= 57 then b as int - 48
    else if 65 <= b <= 70 then b as int - 55
    else if 97 <= b <= 102 then b as int - 87
    else -1
  }

  function EscapeByte(b: Byte): (e: seq<Byte>)
    ensures e != []
  {
    if Unreserved(b) then [b] else [PERCENT, HexDigit(b as int / 16), HexDigit(b as int % 16)]
  }

  function Escape(s: seq<Byte>): seq<Byte> {
    if s == [] then [] else EscapeByte(s[0]) + Escape(s[1..])
  }

  /** Written out (RFC 3986 sections 2.1 and 2.3): the bytes of letters, digits, hyphen, period, underscore
      and tilde stand for themselves, and every other one becomes a percent sign and two digits. */
  lemma EscapedByte(b: Byte)
    ensures var c := b as int as char;
            if 'A' <= c <= 'Z' || 'a' <= c <= 'z' || '0' <= c <= '9' || c in "-._~" then Escape([b]) == [b]
            else
              var (digits, percent) := ("0123456789ABCDEF", '%' as int as Byte);
              Escape([b]) == [percent, digits[b as int / 16] as int as Byte, digits[b as int % 16] as int as Byte]
  {
    DigitCode(b as int / 16);
    DigitCode(b as int % 16);
    assert EscapeByte(b) + [] == EscapeByte(b);
  }

  lemma DigitCode(n: int)
    requires 0 <= n < 16
    ensures HexDigit(n) as int == "0123456789ABCDEF"[n] as int
  {
  }

  lemma EscapeFirst(s: seq<Byte>, rest: seq<Byte>)
    requires s != [] && s[1..] == rest
    ensures Escape(s) == EscapeByte(s[0]) + Escape(rest)
  {
  }

  /** Texts are encoded byte by byte. */
  lemma {:induction false} EscapedInParts(s: seq<Byte>, t: seq<Byte>)
    ensures Escape(s + t) == Escape(s) + Escape(t)
  {
    if s == [] {
      assert s + t == t;
    } else {
      EscapedInParts(s[1..], t);
      EscapeFirst(s + t, s[1..] + t);
      Associate(EscapeByte(s[0]), Escape(s[1..]), Escape(t));
    }
  }

  predicate StartsEscape(s: seq<Byte>) {
    |s| >= 3 && s[0] == PERCENT && HexValue(s[1]) >= 0 && HexValue(s[2]) >= 0
  }

  function Unescape(s: seq<Byte>): seq<Byte> {
    if s == [] then []
    else if StartsEscape(s) then [(HexValue(s[1]) * 16 + HexValue(s[2])) as Byte] + Unescape(s[3..])
    else [s[0]] + Unescape(s[1..])
  }

  lemma {:induction false} UnescapeAfterEscape(s: seq<Byte>, t: seq<Byte>)
    ensures Unescape(Escape(s) + t) == s + Unescape(t)
  {
    if s == [] {
      assert Escape(s) + t == t;
      assert s + Unescape(t) == Unescape(t);
    } else {
      UnescapeAfterEscape(s[1..], t);
      Associate(EscapeByte(s[0]), Escape(s[1..]), t);
      UnescapeByte(s[0], Escape(s[1..]) + t, Escape(s) + t);
      HeadAndTail(s, Unescape(t));
    }
  }

  lemma Associate(a: seq<Byte>, b: seq<Byte>, c: seq<Byte>)
    ensures (a + b) + c == a + (b + c)
  {
  }

  lemma HeadAndTail(s: seq<Byte>, t: seq<Byte>)
    requires s != []
    ensures [s[0]] + (s[1..] + t) == s + t
  {
  }

  lemma UnescapeByte(b: Byte, t: seq<Byte>, whole: seq<Byte>)
    requires whole == EscapeByte(b) + t
    ensures Unescape(whole) == [b] + Unescape(t)
  {
    if Unreserved(b) {
      assert whole[0] == b && whole[1..] == t;
    } else {
      var e := EscapeByte(b);
      assert whole[0] == e[0] && whole[1] == e[1] && whole[2] == e[2] && whole[3..] == t;
    }
  }

  lemma UnescapeSlash(t: seq<Byte>)
    ensures Unescape([SLASH] + t) == [SLASH] + Unescape(t)
  {
    var whole := [SLASH] + t;
    assert whole[0] == SLASH && whole[1..] == t;
  }

  /** Decoding an encoded name gives the name back, whatever its bytes. */
  lemma {:induction false} EscapeRoundTrips(s: seq<Byte>)
    ensures Unescape(Escape(s)) == s
  {
    UnescapeAfterEscape(s, []);
    assert Escape(s) + [] == Escape(s);
  }

  lemma {:induction false} EscapedBytes(s: seq<Byte>)
    ensures forall i | 0 <= i < |Escape(s)| :: Unreserved(Escape(s)[i]) || Escape(s)[i] == PERCENT
  {
    if s != [] {
      EscapedBytes(s[1..]);
    }
  }

  // ----- Primary keys: a name is kept escaped -----

  /** `:/` */
  predicate ColonSlashAt(s: seq<Byte>, i: nat) {
    i + 1 < |s| && s[i] == 58 && s[i + 1] == SLASH
  }

  function FindColonSlash(s: seq<Byte>, from: nat): (r: nat)
    requires from <= |s|
    ensures from <= r <= |s|
    ensures r < |s| ==> ColonSlashAt(s, r)
    decreases |s| - from
  {
    if from == |s| || ColonSlashAt(s, from) then from else FindColonSlash(s, from + 1)
  }

  function ScenePrimaryKeyFromUri(uri: seq<Byte>): Result<seq<Byte>> {
    var index := FindColonSlash(uri, 0);
    if index == |uri| then Err else Ok(Escape(uri[index + 2..]))
  }

  ghost predicate FirstColonSlash(s: seq<Byte>, from: nat, k: nat) {
    from <= k && ColonSlashAt(s, k) && forall i | from <= i < k :: !ColonSlashAt(s, i)
  }

  lemma {:induction false} FoundIsFirst(s: seq<Byte>, from: nat)
    requires from <= |s|
    ensures var k := FindColonSlash(s, from);
            if k < |s| then FirstColonSlash(s, from, k) else forall i | from <= i :: !ColonSlashAt(s, i)
    decreases |s| - from
  {
    if from < |s| && !ColonSlashAt(s, from) {
      FoundIsFirst(s, from + 1);
    }
  }

  /** A scene URI without `:/` is refused; any other gives a key that decodes to what follows the first. */
  lemma ScenePrimaryKeys(uri: seq<Byte>)
    ensures var key := ScenePrimaryKeyFromUri(uri);
            if key.Err? then forall i: nat :: !ColonSlashAt(uri, i)
            else exists k: nat :: FirstColonSlash(uri, 0, k) && Unescape(key.value) == uri[k + 2..]
  {
    FoundIsFirst(uri, 0);
    var k := FindColonSlash(uri, 0);
    if k < |uri| {
      EscapeRoundTrips(uri[k + 2..]);
      assert FirstColonSlash(uri, 0, k);
    }
  }

  // ----- Paths -----

  function SlashFrom(s: seq<Byte>, from: nat): (e: nat)
    requires from <= |s|
    ensures from <= e <= |s|
    ensures e < |s| ==> s[e] == SLASH
    decreases |s| - from
  {
    if from == |s| || s[from] == SLASH then from else SlashFrom(s, from + 1)
  }

  predicate SlashFree(s: seq<Byte>, i: nat, j: nat) {
    forall k | i <= k < j && k < |s| :: s[k] != SLASH
  }

  lemma {:induction false} SlashFromIsFirst(s: seq<Byte>, from: nat)
    requires from <= |s|
    ensures SlashFree(s, from, SlashFrom(s, from))
    decreases |s| - from
  {
    if from < |s| && s[from] != SLASH {
      SlashFromIsFirst(s, from + 1);
    }
  }

  lemma {:induction false} SlashFromIs(s: seq<Byte>, from: nat, e: nat)
    requires from <= e <= |s| && (e < |s| ==> s[e] == SLASH) && SlashFree(s, from, e)
    ensures SlashFrom(s, from) == e
    decreases |s| - from
  {
    if from < e {
      SlashFromIs(s, from + 1, e);
    }
  }

  /** The segments of a path (RFC 3986 section 3.3): what stands between slashes, empty or not. */
  function Split(s: seq<Byte>): (r: seq<seq<Byte>>)
    ensures r != []
    decreases |s|
  {
    var e := SlashFrom(s, 0);
    if e == |s| then [s] else [s[..e]] + Split(s[e + 1..])
  }

  function Join(segments: seq<seq<Byte>>): seq<Byte> {
    if segments == [] then []
    else if |segments| == 1 then segments[0]
    else segments[0] + ([SLASH] + Join(segments[1..]))
  }

  function EscapeAll(segments: seq<seq<Byte>>): (r: seq<seq<Byte>>)
    ensures |r| == |segments|
  {
    if segments == [] then [] else [Escape(segments[0])] + EscapeAll(segments[1..])
  }

  /** No slash begins the path or follows another; one may end it. */
  predicate NoEmptySegment(s: seq<Byte>) {
    forall i | 0 <= i < |s| && s[i] == SLASH :: i > 0 && s[i - 1] != SLASH
  }

  /** How the two path loops cut: `startindex` stays behind when a segment is empty, so the next piece
      begins with the slash. */
  function PieceEnd(s: seq<Byte>): (e: nat)
    requires s != []
    ensures 1 <= e <= |s|
  {
    SlashFrom(s, 1)
  }

  function Pieces(s: seq<Byte>): seq<seq<Byte>>
    decreases |s|
  {
    if s == [] then []
    else
      var e := PieceEnd(s);
      if e == |s| then [s] else [s[..e]] + Pieces(s[e + 1..])
  }

  /** The pieces that begin with a slash. */
  function Slashed(pieces: seq<seq<Byte>>): seq<seq<Byte>> {
    if pieces == [] then []
    else (if pieces[0] != [] && pieces[0][0] == SLASH then [pieces[0]] else []) + Slashed(pieces[1..])
  }

  lemma SlashedCons(first: seq<Byte>, rest: seq<seq<Byte>>)
    ensures Slashed([first] + rest) == (if first != [] && first[0] == SLASH then [first] else []) + Slashed(rest)
  {
    assert ([first] + rest)[1..] == rest;
  }

  /** `_EncodeWithoutSeparator` */
  function EncodedPath(s: seq<Byte>): seq<Byte>
    decreases |s|, 1
  {
    if s == [] then [] else if s[0] == SLASH then [SLASH] + EncodedPiece(s) else EncodedPiece(s)
  }

  function EncodedPiece(s: seq<Byte>): seq<Byte>
    requires s != []
    decreases |s|, 0
  {
    var e := PieceEnd(s);
    if e == |s| then Escape(s) else Escape(s[..e]) + ([SLASH] + EncodedPath(s[e + 1..]))
  }

  // ----- Splitting and joining -----

  lemma {:induction false} JoinSplit(s: seq<Byte>)
    ensures Join(Split(s)) == s
    decreases |s|
  {
    var e := SlashFrom(s, 0);
    if e < |s| {
      JoinSplit(s[e + 1..]);
      JoinCons(s[..e], Split(s[e + 1..]));
      CutAtSlash(s, e);
    }
  }

  lemma JoinCons(first: seq<Byte>, rest: seq<seq<Byte>>)
    requires rest != []
    ensures Join([first] + rest) == first + ([SLASH] + Join(rest))
  {
    assert ([first] + rest)[1..] == rest;
  }

  ghost predicate AllSlashFree(segments: seq<seq<Byte>>) {
    forall k | 0 <= k < |segments| :: SlashFree(segments[k], 0, |segments[k]|)
  }

  lemma {:induction false} SplitJoin(segments: seq<seq<Byte>>)
    requires segments != [] && AllSlashFree(segments)
    ensures Split(Join(segments)) == segments
  {
    var first := segments[0];
    if |segments| == 1 {
      SlashFromIs(first, 0, |first|);
      assert segments == [first];
    } else {
      SplitJoin(segments[1..]);
      SplitFirst(first, Join(segments[1..]), Join(segments));
      assert segments == [first] + segments[1..];
    }
  }

  lemma SplitFirst(first: seq<Byte>, rest: seq<Byte>, s: seq<Byte>)
    requires SlashFree(first, 0, |first|) && s == first + ([SLASH] + rest)
    ensures Split(s) == [first] + Split(rest)
  {
    SlashFromIs(s, 0, |first|);
    assert s[..|first|] == first && s[|first| + 1..] == rest;
  }

  lemma {:induction false} SplitIsSlashFree(s: seq<Byte>)
    ensures AllSlashFree(Split(s))
    decreases |s|
  {
    var e := SlashFrom(s, 0);
    SlashFromIsFirst(s, 0);
    if e < |s| {
      SplitIsSlashFree(s[e + 1..]);
    }
  }

  lemma {:induction false} EscapeAllIsSlashFree(segments: seq<seq<Byte>>)
    ensures AllSlashFree(EscapeAll(segments))
  {
    if segments != [] {
      EscapedBytes(segments[0]);
      EscapeAllIsSlashFree(segments[1..]);
    }
  }

  lemma {:induction false} UnescapeJoin(segments: seq<seq<Byte>>)
    ensures Unescape(Join(EscapeAll(segments))) == Join(segments)
  {
    if |segments| == 1 {
      EscapeRoundTrips(segments[0]);
    } else if |segments| > 1 {
      var rest := segments[1..];
      UnescapeJoin(rest);
      UnescapeAfterEscape(segments[0], [SLASH] + Join(EscapeAll(rest)));
      UnescapeSlash(Join(EscapeAll(rest)));
      assert EscapeAll(segments)[1..] == EscapeAll(rest);
    }
  }

  // ----- What encoding a path preserves -----

  /** The first piece of a path without empty segments is its first segment. */
  lemma FirstPiece(s: seq<Byte>)
    requires s != []
    ensures NoEmptySegment(s) <==> s[0] != SLASH && (PieceEnd(s) < |s| ==> NoEmptySegment(s[PieceEnd(s) + 1..]))
    ensures s[0] != SLASH ==> SlashFrom(s, 0) == PieceEnd(s)
    ensures SlashFree(s, 1, PieceEnd(s))
  {
    var e := PieceEnd(s);
    SlashFromIsFirst(s, 1);
    if s[0] != SLASH && e < |s| {
      var rest := s[e + 1..];
      if NoEmptySegment(s) {
        forall i | 0 <= i < |rest| && rest[i] == SLASH ensures i > 0 && rest[i - 1] != SLASH {
          assert s[e + 1 + i] == SLASH;
        }
      }
      if NoEmptySegment(rest) {
        forall i | 0 <= i < |s| && s[i] == SLASH ensures i > 0 && s[i - 1] != SLASH {
          if i > e {
            assert rest[i - (e + 1)] == SLASH;
          }
        }
      }
    }
  }

  /** What the encoded path decodes to: a second slash for every piece that begins with one. */
  function Restored(s: seq<Byte>): seq<Byte>
    decreases |s|, 1
  {
    if s == [] then [] else if s[0] == SLASH then [SLASH] + RestoredPiece(s) else RestoredPiece(s)
  }

  function RestoredPiece(s: seq<Byte>): seq<Byte>
    requires s != []
    decreases |s|, 0
  {
    var e := PieceEnd(s);
    if e == |s| then s else s[..e] + ([SLASH] + Restored(s[e + 1..]))
  }

  lemma {:induction false} UnescapeEncodedPath(s: seq<Byte>)
    ensures Unescape(EncodedPath(s)) == Restored(s)
    decreases |s|
  {
    if s != [] {
      var e := PieceEnd(s);
      if e == |s| {
        EscapeRoundTrips(s);
      } else {
        UnescapeEncodedPath(s[e + 1..]);
        UnescapeBeforeSlash(s[..e], EncodedPath(s[e + 1..]));
      }
      assert Unescape(EncodedPiece(s)) == RestoredPiece(s);
      UnescapeSlash(EncodedPiece(s));
    }
  }

  lemma UnescapeBeforeSlash(a: seq<Byte>, t: seq<Byte>)
    ensures Unescape(Escape(a) + ([SLASH] + t)) == a + ([SLASH] + Unescape(t))
  {
    UnescapeSlash(t);
    UnescapeAfterEscape(a, [SLASH] + t);
  }

  lemma {:induction false} RestoredIsSame(s: seq<Byte>)
    ensures Restored(s) == s <==> NoEmptySegment(s)
    decreases |s|
  {
    if s != [] {
      FirstPiece(s);
      if s[0] == SLASH {
        RestoredLeading(s);
      } else if PieceEnd(s) < |s| {
        RestoredIsSame(s[PieceEnd(s) + 1..]);
        RestoredStep(s, PieceEnd(s), s[PieceEnd(s) + 1..]);
      }
    }
  }

  /** What an encoded path decodes to is longer by the number of pieces that begin with a slash. */
  lemma {:induction false} RestoredLength(s: seq<Byte>)
    ensures |Restored(s)| == |s| + |Slashed(Pieces(s))|
    decreases |s|
  {
    if s != [] && PieceEnd(s) < |s| {
      var (first, rest) := (s[..PieceEnd(s)], s[PieceEnd(s) + 1..]);
      RestoredLength(rest);
      SlashedCons(first, Pieces(rest));
      assert Pieces(s) == [first] + Pieces(rest) && first[0] == s[0];
    } else if s != [] {
      SlashedCons(s, []);
      assert Pieces(s) == [s] + [];
    }
  }

  lemma RestoredStep(s: seq<Byte>, e: nat, rest: seq<Byte>)
    requires s != [] && s[0] != SLASH && e == PieceEnd(s) < |s| && rest == s[e + 1..]
    ensures Restored(s) == s <==> Restored(rest) == rest
  {
    assert Restored(s) == RestoredPiece(s);
    SamePrefix(s[..e], rest, Restored(rest));
    CutAtSlash(s, e);
  }

  lemma CutAtSlash(s: seq<Byte>, e: nat)
    requires e < |s| && s[e] == SLASH
    ensures s == s[..e] + ([SLASH] + s[e + 1..])
  {
  }

  lemma RestoredLeading(s: seq<Byte>)
    requires s != [] && s[0] == SLASH
    ensures |Restored(s)| > |s|
  {
    if PieceEnd(s) < |s| {
      RestoredLength(s[PieceEnd(s) + 1..]);
    }
  }

  lemma SamePrefix(a: seq<Byte>, b: seq<Byte>, c: seq<Byte>)
    ensures a + ([SLASH] + b) == a + ([SLASH] + c) <==> b == c
  {
    var (x, y) := (a + ([SLASH] + b), a + ([SLASH] + c));
    assert x[|a| + 1..] == b && y[|a| + 1..] == c;
  }

  /** The encoded path decodes to the path exactly when no segment is empty. */
  lemma EncodedPathRoundTrips(s: seq<Byte>)
    ensures Unescape(EncodedPath(s)) == s <==> NoEmptySegment(s)
  {
    UnescapeEncodedPath(s);
    RestoredIsSame(s);
  }

  /** It is longer by a byte for every piece that begins with a slash, and there is one exactly when a
      segment is empty. */
  lemma EncodedPathIsLonger(s: seq<Byte>)
    ensures |Unescape(EncodedPath(s))| == |s| + |Slashed(Pieces(s))|
    ensures |Unescape(EncodedPath(s))| > |s| <==> !NoEmptySegment(s)
  {
    UnescapeEncodedPath(s);
    RestoredLength(s);
    SlashedIff(s);
  }

  lemma {:induction false} SlashedIff(s: seq<Byte>)
    ensures Slashed(Pieces(s)) == [] <==> NoEmptySegment(s)
    decreases |s|
  {
    if s != [] {
      var e := PieceEnd(s);
      FirstPiece(s);
      if e < |s| {
        SlashedIff(s[e + 1..]);
        SlashedCons(s[..e], Pieces(s[e + 1..]));
      } else {
        SlashedCons(s, []);
        assert Pieces(s) == [s] + [];
      }
    }
  }

  lemma {:induction false} EncodedPathJoins(s: seq<Byte>)
    requires NoEmptySegment(s)
    ensures EncodedPath(s) == Join(EscapeAll(Split(s)))
    decreases |s|
  {
    if s == [] {
      assert Split(s) == [[]];
    } else {
      var e := PieceEnd(s);
      FirstPiece(s);
      if e < |s| {
        EncodedPathJoins(s[e + 1..]);
        JoinOneMore(s[..e], Split(s[e + 1..]), Split(s));
      }
    }
  }

  lemma JoinOneMore(first: seq<Byte>, rest: seq<seq<Byte>>, all: seq<seq<Byte>>)
    requires rest != [] && all == [first] + rest
    ensures Join(EscapeAll(all)) == Escape(first) + ([SLASH] + Join(EscapeAll(rest)))
  {
    assert all[1..] == rest;
    assert EscapeAll(all)[1..] == EscapeAll(rest);
  }

  /** The encoded path has the escaped segments as its segments exactly when none is empty. */
  lemma EncodedPathSegments(s: seq<Byte>)
    ensures Split(EncodedPath(s)) == EscapeAll(Split(s)) <==> NoEmptySegment(s)
  {
    if NoEmptySegment(s) {
      EncodedPathJoins(s);
      EscapeAllIsSlashFree(Split(s));
      SplitJoin(EscapeAll(Split(s)));
    }
    if Split(EncodedPath(s)) == EscapeAll(Split(s)) {
      JoinSplit(EncodedPath(s));
      UnescapeJoin(Split(s));
      JoinSplit(s);
      EncodedPathRoundTrips(s);
    }
  }

  // ----- The directories of a path -----

  function NonEmpty(segments: seq<seq<Byte>>): seq<seq<Byte>> {
    if segments == [] then []
    else if segments[0] == [] then NonEmpty(segments[1..])
    else [segments[0]] + NonEmpty(segments[1..])
  }

  lemma {:induction false} NonEmptyIsSlashFree(segments: seq<seq<Byte>>)
    requires AllSlashFree(segments)
    ensures AllSlashFree(NonEmpty(segments))
  {
    if segments != [] {
      NonEmptyIsSlashFree(segments[1..]);
    }
  }

  lemma {:induction false} PiecesAreSegments(s: seq<Byte>)
    ensures Pieces(s) == NonEmpty(Split(s)) <==> NoEmptySegment(s)
    decreases |s|
  {
    if s == [] {
      assert Split(s) == [[]];
    } else {
      var e := PieceEnd(s);
      FirstPiece(s);
      if s[0] == SLASH {
        SplitIsSlashFree(s);
        NonEmptyIsSlashFree(Split(s));
        assert Pieces(s)[0][0] == SLASH;
      } else if e < |s| {
        var rest := s[e + 1..];
        PiecesAreSegments(rest);
        assert Split(s)[1..] == Split(rest);
        assert Pieces(s) == [s[..e]] + Pieces(rest) && NonEmpty(Split(s)) == [s[..e]] + NonEmpty(Split(rest));
        assert Pieces(s)[1..] == Pieces(rest) && NonEmpty(Split(s))[1..] == NonEmpty(Split(rest));
      } else {
        assert Split(s)[1..] == [];
      }
    }
  }

  function UnescapeAll(segments: seq<seq<Byte>>): seq<seq<Byte>> {
    if segments == [] then [] else [Unescape(segments[0])] + UnescapeAll(segments[1..])
  }

  lemma {:induction false} EscapeAllRoundTrips(segments: seq<seq<Byte>>)
    ensures UnescapeAll(EscapeAll(segments)) == segments
  {
    if segments != [] {
      EscapeRoundTrips(segments[0]);
      EscapeAllRoundTrips(segments[1..]);
      assert EscapeAll(segments)[1..] == EscapeAll(segments[1..]);
    }
  }

  /** The directories to create: the pieces the second loop cuts, escaped. */
  function Directories(s: seq<Byte>): seq<seq<Byte>> { EscapeAll(Pieces(s)) }

  /** They are the escaped names on the path exactly when no segment is empty, and then they join to
      the encoded path, but for a slash at its end. */
  lemma DirectoriesAreSegments(s: seq<Byte>)
    ensures Directories(s) == EscapeAll(NonEmpty(Split(s))) <==> NoEmptySegment(s)
    ensures NoEmptySegment(s) ==>
      EncodedPath(s) == Join(Directories(s)) + EndSlash(s)
  {
    PiecesAreSegments(s);
    EscapeAllRoundTrips(Pieces(s));
    EscapeAllRoundTrips(NonEmpty(Split(s)));
    if NoEmptySegment(s) {
      DirectoriesJoin(s);
    }
  }

  /** No directory name holds an encoded slash exactly when no segment is empty. */
  lemma DirectoriesAreNames(s: seq<Byte>)
    ensures AllSlashFree(UnescapeAll(Directories(s))) <==> NoEmptySegment(s)
  {
    EscapeAllRoundTrips(Pieces(s));
    PiecesAreSlashFree(s);
  }

  lemma {:induction false} PiecesAreSlashFree(s: seq<Byte>)
    ensures AllSlashFree(Pieces(s)) <==> NoEmptySegment(s)
    decreases |s|
  {
    if s != [] {
      var e := PieceEnd(s);
      FirstPiece(s);
      if e < |s| {
        PiecesAreSlashFree(s[e + 1..]);
        SlashFreeCons(s[..e], Pieces(s[e + 1..]));
      } else {
        SlashFreeCons(s, []);
        assert Pieces(s) == [s] + [];
      }
      SlashFreeFirst(s, e);
    }
  }

  lemma SlashFreeCons(first: seq<Byte>, rest: seq<seq<Byte>>)
    ensures AllSlashFree([first] + rest) <==> SlashFree(first, 0, |first|) && AllSlashFree(rest)
  {
    var all := [first] + rest;
    if AllSlashFree(all) {
      assert SlashFree(all[0], 0, |all[0]|);
      forall k | 0 <= k < |rest| ensures SlashFree(rest[k], 0, |rest[k]|) {
        assert SlashFree(all[k + 1], 0, |all[k + 1]|);
      }
    }
  }

  lemma SlashFreeFirst(s: seq<Byte>, e: nat)
    requires 1 <= e <= |s| && SlashFree(s, 1, e)
    ensures SlashFree(s[..e], 0, e) <==> s[0] != SLASH
  {
    if SlashFree(s[..e], 0, e) {
      assert s[..e][0] != SLASH;
    }
  }

  /** The path `a//b` decodes to `a///b`, and its second directory is `%2Fb`. */
  lemma EmptySegmentFails(a: Byte, b: Byte)
    requires a != SLASH && b != SLASH
    ensures var s := [a, SLASH, SLASH, b];
            Unescape(EncodedPath(s)) == [a, SLASH, SLASH, SLASH, b] && Pieces(s) == [[a], [SLASH, b]]
  {
    var s := [a, SLASH, SLASH, b];
    UnescapeEncodedPath(s);
    var rest := [SLASH, b];
    assert PieceEnd(s) == 1 && s[..1] == [a] && s[2..] == rest;
    assert SlashFrom(rest, 2) == 2 && PieceEnd(rest) == 2;
    assert Restored(rest) == [SLASH] + rest;
  }

  function EndSlash(s: seq<Byte>): seq<Byte> {
    if s != [] && s[|s| - 1] == SLASH then [SLASH] else []
  }

  lemma {:induction false} DirectoriesJoin(s: seq<Byte>)
    requires NoEmptySegment(s)
    ensures EncodedPath(s) == Join(Directories(s)) + EndSlash(s)
    decreases |s|
  {
    if s != [] {
      var e := PieceEnd(s);
      FirstPiece(s);
      var head := if e == |s| then s else s[..e];
      if e == |s| {
        assert Directories(s) == [Escape(s)];
        assert s[|s| - 1] != SLASH;
      } else {
        var rest := s[e + 1..];
        DirectoriesJoin(rest);
        assert Directories(s) == [Escape(s[..e])] + Directories(rest);
        assert Directories(s)[1..] == Directories(rest);
        LastByte(s, e);
        JoinedOnce(Escape(s[..e]), Join(Directories(rest)), EndSlash(rest));
      }
    }
  }

  lemma LastByte(s: seq<Byte>, e: nat)
    requires e < |s| && s[e] == SLASH
    ensures s[e + 1..] == [] ==> EndSlash(s) == [SLASH]
    ensures s[e + 1..] != [] ==> EndSlash(s) == EndSlash(s[e + 1..])
  {
  }

  lemma JoinedOnce(a: seq<Byte>, b: seq<Byte>, c: seq<Byte>)
    ensures a + ([SLASH] + (b + c)) == (a + ([SLASH] + b)) + c
    ensures a + ([SLASH] + []) == a + [SLASH]
  {
  }

  // ----- The paths that MKCOL names -----

  /** The path of the k-th directory, relative to the base. */
  function PathTo(dirs: seq<seq<Byte>>, k: nat): seq<Byte>
    requires k < |dirs|
  {
    if k == 0 then dirs[0] else PathTo(dirs, k - 1) + [SLASH] + dirs[k]
  }

  lemma {:induction false} JoinAppend(a: seq<seq<Byte>>, b: seq<seq<Byte>>)
    requires a != [] && b != []
    ensures Join(a + b) == Join(a) + ([SLASH] + Join(b))
  {
    assert (a + b)[1..] == a[1..] + b;
    if |a| > 1 {
      JoinAppend(a[1..], b);
      JoinedOnce(a[0], Join(a[1..]), [SLASH] + Join(b));
    } else {
      assert a[1..] + b == b;
    }
  }

  lemma {:induction false} PathIsJoin(dirs: seq<seq<Byte>>, k: nat)
    requires k < |dirs|
    ensures PathTo(dirs, k) == Join(dirs[..k + 1])
  {
    if k == 0 {
      assert dirs[..1] == [dirs[0]];
    } else {
      PathIsJoin(dirs, k - 1);
      JoinLast(dirs[..k], dirs[k], dirs[..k + 1]);
    }
  }

  lemma JoinLast(front: seq<seq<Byte>>, last: seq<Byte>, all: seq<seq<Byte>>)
    requires front != [] && all == front + [last]
    ensures Join(all) == Join(front) + [SLASH] + last
  {
    JoinAppend(front, [last]);
    Associate(Join(front), [SLASH], last);
  }

  /** Every earlier request names an ancestor of every later one, and the last names the whole path. */
  lemma {:induction false} AncestorsFirst(dirs: seq<seq<Byte>>, j: nat, k: nat)
    requires j < k < |dirs|
    ensures PathTo(dirs, j) + [SLASH] <= PathTo(dirs, k)
    ensures k == |dirs| - 1 ==> PathTo(dirs, k) == Join(dirs)
  {
    if j + 1 < k {
      AncestorsFirst(dirs, j, k - 1);
    }
    PathIsJoin(dirs, k);
    assert dirs[..|dirs|] == dirs;
  }

  /** A requested path decodes to the first names of the path. */
  lemma RequestedPathDecodes(s: seq<Byte>, k: nat)
    requires NoEmptySegment(s) && k < |Directories(s)|
    ensures |NonEmpty(Split(s))| == |Directories(s)|
    ensures Unescape(PathTo(Directories(s), k)) == Join(NonEmpty(Split(s))[..k + 1])
  {
    PiecesAreSegments(s);
    PathIsJoin(Directories(s), k);
    EscapeAllPrefix(Pieces(s), k + 1);
    UnescapeJoin(Pieces(s)[..k + 1]);
  }

  lemma {:induction false} EscapeAllPrefix(segments: seq<seq<Byte>>, n: nat)
    requires n <= |segments|
    ensures EscapeAll(segments)[..n] == EscapeAll(segments[..n])
  {
    if n > 0 {
      EscapeAllPrefix(segments[1..], n - 1);
      assert segments[..n][1..] == segments[1..][..n - 1];
      assert EscapeAll(segments)[..n] == [Escape(segments[0])] + EscapeAll(segments[1..])[..n - 1];
    }
  }

  // ----- The loops -----

  /** What is still to be written when the loop stands at `i`: the slash of an empty segment has gone
      out already. */
  function LeftToWrite(s: seq<Byte>, start: nat, i: nat): seq<Byte>
    requires start <= i <= |s|
  {
    if start < i && s[start] == SLASH then EncodedPiece(s[start..]) else EncodedPath(s[start..])
  }

  lemma CutAt(s: seq<Byte>, start: nat, i: nat, t: seq<Byte>)
    requires start < i < |s| && s[i] == SLASH && SlashFree(s, start + 1, i) && t == s[start..]
    ensures t[0] == s[start] && PieceEnd(t) == i - start < |t|
    ensures t[..i - start] == s[start..i] && t[i - start + 1..] == s[i + 1..]
  {
    SlashFromIs(t, 1, i - start);
  }

  lemma AtSlash(s: seq<Byte>, start: nat, i: nat)
    requires start < i < |s| && s[i] == SLASH && SlashFree(s, start + 1, i)
    ensures LeftToWrite(s, start, i) == Escape(s[start..i]) + ([SLASH] + EncodedPath(s[i + 1..]))
  {
    CutAt(s, start, i, s[start..]);
    assert LeftToWrite(s, start, i) == EncodedPiece(s[start..]);
  }

  lemma PiecesAtSlash(s: seq<Byte>, start: nat, i: nat)
    requires start < i < |s| && s[i] == SLASH && SlashFree(s, start + 1, i)
    ensures Pieces(s[start..]) == [s[start..i]] + Pieces(s[i + 1..])
  {
    CutAt(s, start, i, s[start..]);
  }

  lemma AtEnd(s: seq<Byte>, start: nat)
    requires start < |s| && SlashFree(s, start + 1, |s|)
    ensures LeftToWrite(s, start, |s|) == Escape(s[start..])
    ensures Pieces(s[start..]) == [s[start..]]
  {
    var t := s[start..];
    SlashFromIs(t, 1, |t|);
    assert t[0] == s[start] && LeftToWrite(s, start, |s|) == EncodedPiece(t);
  }

  lemma AtEmptySegment(s: seq<Byte>, i: nat)
    requires i < |s| && s[i] == SLASH
    ensures LeftToWrite(s, i, i) == [SLASH] + LeftToWrite(s, i, i + 1)
  {
  }

  ghost predicate Written(raw: seq<Byte>, start: nat, i: nat, output: seq<Byte>, all: seq<Byte>) {
    start <= i <= |raw| && SlashFree(raw, start + 1, i) && all == output + LeftToWrite(raw, start, i)
  }

  lemma WritePiece(raw: seq<Byte>, start: nat, i: nat, output: seq<Byte>, all: seq<Byte>)
    requires i < |raw| && raw[i] == SLASH && start < i && Written(raw, start, i, output, all)
    ensures Written(raw, i + 1, i + 1, output + Escape(raw[start..i]) + [SLASH], all)
  {
    AtSlash(raw, start, i);
    Associate(output, Escape(raw[start..i]), [SLASH] + EncodedPath(raw[i + 1..]));
    Associate(output + Escape(raw[start..i]), [SLASH], EncodedPath(raw[i + 1..]));
  }

  lemma WriteSlash(raw: seq<Byte>, i: nat, output: seq<Byte>, all: seq<Byte>)
    requires i < |raw| && raw[i] == SLASH && Written(raw, i, i, output, all)
    ensures Written(raw, i, i + 1, output + [SLASH], all)
  {
    AtEmptySegment(raw, i);
    Associate(output, [SLASH], LeftToWrite(raw, i, i + 1));
  }

  lemma WriteNothing(raw: seq<Byte>, start: nat, i: nat, output: seq<Byte>, all: seq<Byte>)
    requires i < |raw| && raw[i] != SLASH && Written(raw, start, i, output, all)
    ensures Written(raw, start, i + 1, output, all)
  {
    SameLeft(raw, start, i);
  }

  lemma SameLeft(raw: seq<Byte>, start: nat, i: nat)
    requires start <= i < |raw| && raw[i] != SLASH
    ensures LeftToWrite(raw, start, i + 1) == LeftToWrite(raw, start, i)
  {
  }

  lemma NothingWritten(raw: seq<Byte>)
    ensures Written(raw, 0, 0, [], EncodedPath(raw))
  {
    assert raw[0..] == raw && [] + EncodedPath(raw) == EncodedPath(raw);
  }

  lemma AllWritten(raw: seq<Byte>, start: nat, output: seq<Byte>, all: seq<Byte>)
    requires Written(raw, start, |raw|, output, all)
    ensures all == if start == |raw| then output else output + Escape(raw[start..])
  {
    if start == |raw| {
      assert LeftToWrite(raw, start, |raw|) == [] && output + [] == output;
    } else {
      AtEnd(raw, start);
    }
  }

  lemma WriteNext(raw: seq<Byte>, i: nat, start: nat, before: seq<Byte>, start': nat, output: seq<Byte>, all: seq<Byte>)
    requires i < |raw| && Written(raw, start, i, before, all)
    requires start' == if raw[i] == SLASH && start != i then i + 1 else start
    requires output == if raw[i] != SLASH then before
                       else (if start != i then before + Escape(raw[start..i]) else before) + [SLASH]
    ensures start' <= i + 1 && Written(raw, start', i + 1, output, all)
  {
    if raw[i] != SLASH {
      WriteNothing(raw, start, i, before, all);
    } else if start != i {
      WritePiece(raw, start, i, before, all);
    } else {
      WriteSlash(raw, i, before, all);
    }
  }

  method EncodeWithoutSeparator(raw: seq<Byte>) returns (output: seq<Byte>)
    ensures output == EncodedPath(raw)
  {
    output := [];
    var startindex := 0;
    ghost var all := EncodedPath(raw);
    NothingWritten(raw);
    for i := 0 to |raw|
      invariant startindex <= i && Written(raw, startindex, i, output, all)
    {
      ghost var (start, before) := (startindex, output);
      if raw[i] == SLASH {
        if startindex != i {
          output := output + Escape(raw[startindex..i]);
          startindex := i + 1;
        }
        output := output + [SLASH];
      }
      WriteNext(raw, i, start, before, startindex, output, all);
    }
    AllWritten(raw, startindex, output, all);
    if startindex != |raw| {
      output := output + Escape(raw[startindex..]);
    }
  }

  ghost predicate Listed(s: seq<Byte>, start: nat, i: nat, dirs: seq<seq<Byte>>, all: seq<seq<Byte>>) {
    start <= i <= |s| && SlashFree(s, start + 1, i) && all == dirs + Directories(s[start..])
  }

  lemma NothingListed(s: seq<Byte>)
    ensures Listed(s, 0, 0, [], Directories(s))
  {
    assert s[0..] == s && [] + Directories(s) == Directories(s);
  }

  lemma AllListed(s: seq<Byte>, dirs: seq<seq<Byte>>, all: seq<seq<Byte>>)
    requires Listed(s, |s|, |s|, dirs, all)
    ensures dirs == all
  {
    assert Directories([]) == [] && dirs + [] == dirs;
  }

  lemma ListNothing(s: seq<Byte>, start: nat, i: nat, dirs: seq<seq<Byte>>, all: seq<seq<Byte>>)
    requires i < |s| && (s[i] != SLASH || start == i) && Listed(s, start, i, dirs, all)
    ensures Listed(s, start, i + 1, dirs, all)
  {
  }

  lemma DirectoriesCons(s: seq<Byte>, piece: seq<Byte>, rest: seq<seq<Byte>>)
    requires Pieces(s) == [piece] + rest
    ensures Directories(s) == [Escape(piece)] + EscapeAll(rest)
  {
    assert ([piece] + rest)[1..] == rest;
  }

  lemma ListPiece(s: seq<Byte>, start: nat, i: nat, dirs: seq<seq<Byte>>, all: seq<seq<Byte>>)
    requires start < i < |s| && s[i] == SLASH && Listed(s, start, i, dirs, all)
    ensures Listed(s, i + 1, i + 1, dirs + [Escape(s[start..i])], all)
  {
    PiecesAtSlash(s, start, i);
    DirectoriesCons(s[start..], s[start..i], Pieces(s[i + 1..]));
    AssociatePieces(dirs, [Escape(s[start..i])], Directories(s[i + 1..]));
  }

  lemma AssociatePieces(a: seq<seq<Byte>>, b: seq<seq<Byte>>, c: seq<seq<Byte>>)
    ensures a + (b + c) == (a + b) + c
  {
  }

  lemma ListLast(s: seq<Byte>, start: nat, dirs: seq<seq<Byte>>, all: seq<seq<Byte>>)
    requires start < |s| && Listed(s, start, |s|, dirs, all)
    ensures all == dirs + [Escape(s[start..])]
  {
    AtEnd(s, start);
    DirectoriesCons(s[start..], s[start..], []);
    assert [Escape(s[start..])] + [] == [Escape(s[start..])];
  }

  datatype Answer = CurlError | Status(code: int)

  predicate Created(a: Answer) {
    a == Status(201) || a == Status(301)
  }

  class WebDavClient {
    const baseWebDavUri: seq<Byte>
    var uri: seq<Byte>

    constructor (baseWebDavUri: seq<Byte>)
      ensures this.baseWebDavUri == baseWebDavUri && uri == []
    {
      this.baseWebDavUri := baseWebDavUri;
      uri := [];
    }

    method ListDirectories(relativeuri: seq<Byte>) returns (dirs: seq<seq<Byte>>)
      ensures dirs == Directories(relativeuri) && AllNamed(dirs)
    {
      DirectoriesAreNamed(relativeuri);
      dirs := [];
      var startindex := 0;
      ghost var all := Directories(relativeuri);
      NothingListed(relativeuri);
      for i := 0 to |relativeuri|
        invariant startindex <= i && Listed(relativeuri, startindex, i, dirs, all)
      {
        if relativeuri[i] == SLASH {
          if startindex != i {
            ListPiece(relativeuri, startindex, i, dirs, all);
            dirs := dirs + [Escape(relativeuri[startindex..i])];
            startindex := i + 1;
          } else {
            ListNothing(relativeuri, startindex, i, dirs, all);
          }
        } else {
          ListNothing(relativeuri, startindex, i, dirs, all);
        }
      }
      if startindex != |relativeuri| {
        ListLast(relativeuri, startindex, dirs, all);
        dirs := dirs + [Escape(relativeuri[startindex..])];
      } else {
        AllListed(relativeuri, dirs, all);
      }
    }

    /** The MKCOL requests, one after the other until an answer is neither 201 nor 301. */
    method MakeDirectories(dirs: seq<seq<Byte>>, answers: nat -> Answer) returns (sent: seq<seq<Byte>>, ok: bool)
      requires AllNamed(dirs)
      modifies this`uri
      ensures Requested(baseWebDavUri, dirs, |dirs|, answers, sent, ok)
      ensures UriIsLast(old(uri), sent, uri)
    {
      sent, ok := [], true;
      var totaluri := [];
      for k := 0 to |dirs|
        invariant Requested(baseWebDavUri, dirs, k, answers, sent, true)
        invariant totaluri == (if k == 0 then [] else PathTo(dirs, k - 1)) && (totaluri == [] <==> k == 0)
        invariant UriIsLast(old(uri), sent, uri)
      {
        if |totaluri| > 0 {
          totaluri := totaluri + [SLASH];
        }
        totaluri := totaluri + dirs[k];
        uri := baseWebDavUri + totaluri;
        OneMoreRequest(baseWebDavUri, dirs, answers, sent, k);
        sent := sent + [uri];
        if !Created(answers(k)) {
          return sent, false;
        }
      }
    }

    /** `answers(k)` is what comes back for the k-th request; `ok` is false when the call throws. */
    method EnsureWebDAVDirectories(relativeuri: seq<Byte>, answers: nat -> Answer)
      returns (ghost dirs: seq<seq<Byte>>, sent: seq<seq<Byte>>, ok: bool)
      modifies this`uri
      ensures dirs == Directories(relativeuri)
      ensures Requested(baseWebDavUri, dirs, |dirs|, answers, sent, ok)
      ensures UriIsLast(old(uri), sent, uri)
    {
      if relativeuri == [] {
        return [], [], true;
      }
      var listCreateDirs := ListDirectories(relativeuri);
      dirs := listCreateDirs;
      sent, ok := MakeDirectories(listCreateDirs, answers);
    }
  }

  /** The URI kept is that of the last request. */
  ghost predicate UriIsLast(before: seq<Byte>, sent: seq<seq<Byte>>, uri: seq<Byte>) {
    if sent == [] then uri == before else uri == sent[|sent| - 1]
  }

  ghost predicate AllNamed(dirs: seq<seq<Byte>>) {
    forall k | 0 <= k < |dirs| :: dirs[k] != []
  }

  /** The requests for the first `n` directories: they name them from the outermost on, stop behind
      the first that fails, and are complete if none does. */
  ghost predicate Requested(base: seq<Byte>, dirs: seq<seq<Byte>>, n: nat, answers: nat -> Answer,
                            sent: seq<seq<Byte>>, ok: bool) {
    && |sent| <= n <= |dirs|
    && (forall k | 0 <= k < |sent| :: sent[k] == base + PathTo(dirs, k))
    && (forall k | 0 <= k < |sent| - 1 :: Created(answers(k)))
    && (sent != [] ==> (ok <==> Created(answers(|sent| - 1))))
    && (if ok then |sent| == n else sent != [])
  }

  /** Which requests go out: all of them when every answer is 201 or 301, and otherwise those up to the
      first other answer, which makes the call throw. */
  lemma RequestsGoOn(base: seq<Byte>, dirs: seq<seq<Byte>>, answers: nat -> Answer, sent: seq<seq<Byte>>, ok: bool)
    requires Requested(base, dirs, |dirs|, answers, sent, ok)
    ensures ok <==> forall k: nat | k < |dirs| :: answers(k) == Status(201) || answers(k) == Status(301)
    ensures ok ==> |sent| == |dirs|
    ensures !ok ==>
              && 0 < |sent| <= |dirs|
              && answers(|sent| - 1) != Status(201) && answers(|sent| - 1) != Status(301)
              && forall k: nat | k < |sent| - 1 :: answers(k) == Status(201) || answers(k) == Status(301)
  {
  }

  lemma OneMoreRequest(base: seq<Byte>, dirs: seq<seq<Byte>>, answers: nat -> Answer, sent: seq<seq<Byte>>, k: nat)
    requires k < |dirs| && Requested(base, dirs, k, answers, sent, true)
    ensures var more := sent + [base + PathTo(dirs, k)];
            if Created(answers(k)) then Requested(base, dirs, k + 1, answers, more, true)
            else Requested(base, dirs, |dirs|, answers, more, false)
  {
  }

  lemma {:induction false} DirectoriesAreNamed(s: seq<Byte>)
    ensures AllNamed(Directories(s))
    decreases |s|
  {
    if s != [] && PieceEnd(s) < |s| {
      DirectoriesAreNamed(s[PieceEnd(s) + 1..]);
      DirectoriesCons(s, s[..PieceEnd(s)], Pieces(s[PieceEnd(s) + 1..]));
    }
  }
}
