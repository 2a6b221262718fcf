/** The escaping of an ITL program in TaskResource::SetTaskParameters
    (src/mujincontrollerclient.cpp), against the string grammar of RFC 8259 section 7. */
module ItlProgram {
  import opened Text
  import opened Replace
  import opened Json

  const ITL_RULES: seq<Rule> := [Rule("\"", "\\\""), Rule("\n", "\\n"), Rule("\r\n", "\\n")]

  method EscapeProgram(program: string) returns (out: string)
    ensures out == Escaped(program)
  {
    out := SearchAndReplace(program, ITL_RULES);
    EscapedIsReplaced(program);
  }

  // ----- Escaping, one character at a time -----

  predicate StartsCrLf(p: string) {
    |p| >= 2 && p[0] == '\r' && p[1] == '\n'
  }

  function Escaped(p: string): string {
    if p == "" then ""
    else if p[0] == '\"' then "\\\"" + Escaped(p[1..])
    else if p[0] == '\n' then "\\n" + Escaped(p[1..])
    else if StartsCrLf(p) then "\\n" + Escaped(p[2..])
    else [p[0]] + Escaped(p[1..])
  }

  /** Written out: a quotation mark gets a backslash before it, a line end of either kind becomes a
      backslash and an n, and every other character stands for itself. */
  lemma EscapesOneByOne(c: char, p: string)
    ensures Escaped("") == ""
    ensures Escaped("\"" + p) == "\\\"" + Escaped(p)
    ensures Escaped("\n" + p) == "\\n" + Escaped(p)
    ensures Escaped("\r\n" + p) == "\\n" + Escaped(p)
    ensures c != '\"' && c != '\n' && (c == '\r' && p != "" ==> p[0] != '\n') ==> Escaped([c] + p) == [c] + Escaped(p)
  {
    EscapedFirst("\"" + p, 1, p);
    EscapedFirst("\n" + p, 1, p);
    EscapedFirst("\r\n" + p, 2, p);
    EscapedFirst([c] + p, 1, p);
  }

  lemma EscapedFirst(s: string, n: nat, p: string)
    requires 0 < n <= |s| && s == s[..n] + p
    ensures n == 2 && s[0] == '\r' && s[1] == '\n' ==> Escaped(s) == "\\n" + Escaped(p)
    ensures n == 1 && s[0] == '\"' ==> Escaped(s) == "\\\"" + Escaped(p)
    ensures n == 1 && s[0] == '\n' ==> Escaped(s) == "\\n" + Escaped(p)
    ensures n == 1 && s[0] != '\"' && s[0] != '\n' && !StartsCrLf(s) ==> Escaped(s) == [s[0]] + Escaped(p)
  {
    assert s[n..] == p;
  }

  /** The program with CRLF line ends turned into LF. */
  function WithLf(p: string): string {
    if p == "" then ""
    else if StartsCrLf(p) then "\n" + WithLf(p[2..])
    else [p[0]] + WithLf(p[1..])
  }

  lemma OccursHere(s: string, i: nat)
    requires i < |s|
    ensures OccursAt(s, "\"", i) <==> s[i] == '\"'
    ensures OccursAt(s, "\n", i) <==> s[i] == '\n'
    ensures OccursAt(s, "\r\n", i) <==> StartsCrLf(s[i..])
  {
    assert s[i..i + 1] == [s[i]];
    if i + 2 <= |s| {
      assert s[i..i + 2] == [s[i], s[i + 1]];
      assert s[i..][0] == s[i] && s[i..][1] == s[i + 1];
    }
  }

  /** The token `Escaped` uses at position `i`. */
  function EscapeToken(p: string, i: nat): Token
    requires i < |p|
  {
    if p[i] == '\"' then Hit(0)
    else if p[i] == '\n' then Hit(1)
    else if StartsCrLf(p[i..]) then Hit(2)
    else Keep(p[i])
  }

  lemma EscapeTokenReads(p: string, i: nat)
    requires i < |p|
    ensures ReadsToken(p, ITL_RULES, i, EscapeToken(p, i))
  {
    OccursHere(p, i);
    assert ITL_RULES[0].pattern == "\"" && ITL_RULES[1].pattern == "\n" && ITL_RULES[2].pattern == "\r\n";
  }

  /** The rules turn `Escaped` at position `i` into one token and the rest. */
  ghost predicate EscapesByToken(p: string, rules: seq<Rule>, i: nat)
    requires i < |p|
  {
    var t := EscapeToken(p, i);
    var n := Length(rules, t);
    && ReadsToken(p, rules, i, t)
    && 0 < n <= |p| - i
    && Escaped(p[i..]) == Replacement(rules, t) + Escaped(p[i + n..])
  }

  /** `ts` reads `p` from `i`, and rendering it after `out` appends the escaped rest. */
  ghost predicate ReadsEscaped(p: string, rules: seq<Rule>, i: nat, ts: seq<Token>, out: string)
    requires i <= |p|
  {
    Reads(p, rules, i, ts) && Render(rules, ts, out) == out + Escaped(p[i..])
  }

  lemma ReadsOneMore(p: string, rules: seq<Rule>, i: nat, n: nat, r: string, rest: seq<Token>, out: string)
    requires i < |p| && EscapesByToken(p, rules, i)
    requires n == Length(rules, EscapeToken(p, i)) && r == Replacement(rules, EscapeToken(p, i))
    requires ReadsEscaped(p, rules, i + n, rest, out + r)
    ensures ReadsEscaped(p, rules, i, [EscapeToken(p, i)] + rest, out)
  {
    PrependToken(p, rules, i, EscapeToken(p, i), rest, out);
    Associate(out, r, Escaped(p[i + n..]));
  }

  ghost predicate EscapesEverywhere(p: string, rules: seq<Rule>) {
    forall k | 0 <= k < |p| :: EscapesByToken(p, rules, k)
  }

  lemma EscapesHere(p: string, rules: seq<Rule>, i: nat)
    requires i < |p| && EscapesEverywhere(p, rules)
    ensures EscapesByToken(p, rules, i) && 0 < Length(rules, EscapeToken(p, i)) <= |p| - i
  {
  }

  lemma {:induction false} EscapedIsAReading(p: string, rules: seq<Rule>, i: nat, out: string) returns (ts: seq<Token>)
    requires i <= |p| && EscapesEverywhere(p, rules)
    ensures ReadsEscaped(p, rules, i, ts, out)
    decreases |p| - i
  {
    if i == |p| {
      ts := [];
    } else {
      EscapesHere(p, rules, i);
      var t := EscapeToken(p, i);
      var (n, r) := (Length(rules, t), Replacement(rules, t));
      ts := EscapedIsAReading(p, rules, i + n, out + r);
      ReadsOneMore(p, rules, i, n, r, ts, out);
      ts := [t] + ts;
    }
  }

  lemma Associate(a: string, b: string, c: string)
    ensures a + b + c == a + (b + c)
  {
  }

  lemma EscapedStep(p: string, i: nat)
    requires i < |p|
    ensures var t := EscapeToken(p, i);
            var n := Length(ITL_RULES, t);
            0 < n <= |p| - i && Escaped(p[i..]) == Replacement(ITL_RULES, t) + Escaped(p[i + n..])
  {
    assert p[i..][1..] == p[i + 1..];
    if StartsCrLf(p[i..]) {
      assert p[i..][2..] == p[i + 2..];
    }
  }

  lemma EscapedIsReplaced(p: string)
    ensures Usable(ITL_RULES) && Replaced(p, ITL_RULES) == Escaped(p)
  {
    forall k | 0 <= k < |p| ensures EscapesByToken(p, ITL_RULES, k) {
      EscapeTokenReads(p, k);
      EscapedStep(p, k);
    }
    var ts := EscapedIsAReading(p, ITL_RULES, 0, "");
    ReplacedIsTheReading(p, ITL_RULES);
    assert p[0..] == p;
  }

  // ----- Reading a JSON string back (RFC 8259 section 7) -----

  function HexDigit(c: char): (v: int)
    ensures -1 <= v < 16
  {
    if '0' <= c <= '9' then c as int - '0' as int
    else if 'a' <= c <= 'f' then c as int - 'a' as int + 10
    else if 'A' <= c <= 'F' then c as int - 'A' as int + 10
    else -1
  }

  predicate IsHex4(s: string) {
    |s| >= 4 && forall i | 0 <= i < 4 :: HexDigit(s[i]) >= 0
  }

  function Hex4(s: string): (r: int)
    requires IsHex4(s)
    ensures 0 <= r < 0x1_0000
  {
    HexDigit(s[0]) * 4096 + HexDigit(s[1]) * 256 + HexDigit(s[2]) * 16 + HexDigit(s[3])
  }

  datatype Decoded = Bad | Char(c: char, used: nat)

  /** The first character of a non-empty string body and how many characters spell it. */
  function DecodeOne(s: string): (d: Decoded)
    requires s != ""
    ensures d.Char? ==> 1 <= d.used <= |s|
  {
    if s[0] == '\"' || s[0] < ' ' then Bad
    else if s[0] != '\\' then Char(s[0], 1)
    else if |s| < 2 then Bad
    else
      match s[1]
      case '\"' => Char('\"', 2)
      case '\\' => Char('\\', 2)
      case '/' => Char('/', 2)
      case 'b' => Char(8 as char, 2)
      case 'f' => Char(12 as char, 2)
      case 'n' => Char('\n', 2)
      case 'r' => Char('\r', 2)
      case 't' => Char('\t', 2)
      case 'u' => DecodeUnicode(s)
      case _ => Bad
  }

  /** \uXXXX, or a surrogate pair of two of them. */
  function DecodeUnicode(s: string): (d: Decoded)
    requires |s| >= 2
    ensures d.Char? ==> (d.used == 6 || d.used == 12) && d.used <= |s| && IsHex4(s[2..])
    ensures d.Char? && d.used == 12 ==> s[6] == '\\' && s[7] == 'u' && IsHex4(s[8..])
  {
    if !IsHex4(s[2..]) then Bad
    else
      var high := Hex4(s[2..]);
      if high < 0xD800 || 0xE000 <= high then Char(high as char, 6)
      else if high < 0xDC00 && |s| >= 12 && s[6] == '\\' && s[7] == 'u' && IsHex4(s[8..]) then
        var low := Hex4(s[8..]);
        if 0xDC00 <= low < 0xE000 then Char((0x1_0000 + (high - 0xD800) * 0x400 + (low - 0xDC00)) as char, 12)
        else Bad
      else Bad
  }

  function Unescaped(s: string): Result<string> {
    if s == "" then Ok("")
    else
      match DecodeOne(s)
      case Bad => Err
      case Char(c, used) =>
        match Unescaped(s[used..])
        case Err => Err
        case Ok(rest) => Ok([c] + rest)
  }

  // ----- The round trip -----

  /** No backslash, and no control character other than LF and CRLF. */
  predicate Plain(p: string) {
    p == "" ||
    (if StartsCrLf(p) then Plain(p[2..])
     else p[0] != '\\' && (p[0] >= ' ' || p[0] == '\n') && Plain(p[1..]))
  }

  lemma UnescapedCons(s: string, used: nat, c: char)
    requires s != "" && DecodeOne(s) == Char(c, used)
    ensures Unescaped(s).Ok? <==> Unescaped(s[used..]).Ok?
    ensures Unescaped(s).Ok? ==> Unescaped(s).value == [c] + Unescaped(s[used..]).value
  {
  }

  /** A character that escaping copies. */
  predicate Copied(p: string) {
    p != "" && p[0] != '\"' && p[0] != '\n' && !StartsCrLf(p)
  }

  lemma CopiedHead(p: string)
    requires Copied(p)
    ensures Escaped(p) == [p[0]] + Escaped(p[1..]) && Escaped(p)[1..] == Escaped(p[1..])
    ensures WithLf(p) == [p[0]] + WithLf(p[1..])
  {
  }

  /** The first character of `p`, or its CRLF, was written so that it reads back as `c`. */
  ghost predicate ReadsBackAs(p: string, n: nat, c: char) {
    && 0 < n <= |p| && Escaped(p) != ""
    && DecodeOne(Escaped(p)).Char? && DecodeOne(Escaped(p)).c == c
    && Escaped(p)[DecodeOne(Escaped(p)).used..] == Escaped(p[n..])
    && WithLf(p) == [c] + WithLf(p[n..])
  }

  lemma CopyReadsBack(p: string)
    requires Copied(p) && p[0] != '\\' && p[0] >= ' '
    ensures ReadsBackAs(p, 1, p[0])
  {
    CopiedHead(p);
  }

  lemma QuoteReadsBack(p: string)
    requires p != "" && p[0] == '\"'
    ensures ReadsBackAs(p, 1, '\"')
  {
    assert Escaped(p) == "\\\"" + Escaped(p[1..]);
    assert Escaped(p)[0] == '\\' && Escaped(p)[1] == '\"';
  }

  lemma NewlineReadsBack(p: string, n: nat)
    requires p != "" && n == (if StartsCrLf(p) then 2 else 1) && (StartsCrLf(p) || p[0] == '\n')
    ensures ReadsBackAs(p, n, '\n')
  {
    assert Escaped(p) == "\\n" + Escaped(p[n..]);
    assert Escaped(p)[0] == '\\' && Escaped(p)[1] == 'n';
  }

  lemma FirstReadsBack(p: string)
    requires p != "" && p[0] != '\\' && (p[0] >= ' ' || p[0] == '\n' || StartsCrLf(p))
    ensures ReadsBackAs(p, if StartsCrLf(p) then 2 else 1, if StartsCrLf(p) then '\n' else p[0])
  {
    if StartsCrLf(p) || p[0] == '\n' {
      NewlineReadsBack(p, if StartsCrLf(p) then 2 else 1);
    } else if p[0] == '\"' {
      QuoteReadsBack(p);
    } else {
      CopyReadsBack(p);
    }
  }

  /** The first `n` characters of the escaped text are the program's own, and it goes on after them. */
  ghost predicate Verbatim(p: string, n: nat) {
    && n <= |p|
    && n <= |Escaped(p)|
    && Escaped(p)[..n] == p[..n]
    && Escaped(p)[n..] == Escaped(p[n..])
    && WithLf(p) == p[..n] + WithLf(p[n..])
  }

  lemma VerbatimCons(p: string, n: nat)
    requires Copied(p) && Verbatim(p[1..], n)
    ensures Verbatim(p, n + 1)
  {
    CopiedHead(p);
    HeadThenTail(p, n);
    HeadThenTail(Escaped(p), n);
    Associate([p[0]], p[1..][..n], WithLf(p[1..][n..]));
  }

  lemma HeadThenTail(s: string, n: nat)
    requires s != "" && n <= |s[1..]|
    ensures s[..n + 1] == [s[0]] + s[1..][..n] && s[n + 1..] == s[1..][n..]
  {
  }

  /** Hexadecimal digits at the head of the escaped text stand unescaped in the program. */
  lemma {:induction false} HexIsVerbatim(p: string, n: nat)
    requires |Escaped(p)| >= n && forall i | 0 <= i < n :: HexDigit(Escaped(p)[i]) >= 0
    ensures Verbatim(p, n)
    decreases n
  {
    if n > 0 {
      assert HexDigit(Escaped(p)[0]) >= 0;
      assert Copied(p);
      CopiedHead(p);
      assert forall i | 0 <= i < n - 1 :: Escaped(p[1..])[i] == Escaped(p)[i + 1];
      HexIsVerbatim(p[1..], n - 1);
      VerbatimCons(p, n - 1);
    } else {
      assert p[0..] == p;
    }
  }

  /** What the escape sequence at the head of the escaped text swallows when the program itself
      begins with a backslash. */
  datatype Swallowed =
    | Characters(count: nat)      // that many characters of the program, all copied verbatim
    | HalfNewline(count: nat)     // the backslash written for the newline that ends after `count`
    | HalfQuote                   // the backslash written for the next double quote

  ghost predicate Swallows(p: string, d: Decoded, w: Swallowed)
    requires p != "" && d.Char? && d.used <= |Escaped(p)|
  {
    var rest := Escaped(p)[d.used..];
    match w
    case Characters(m) =>
      2 <= m <= |p| && rest == Escaped(p[m..]) && |WithLf(p)| == m + |WithLf(p[m..])|
    case HalfNewline(m) =>
      && 2 <= m <= |p| && d.c == '\\' && rest == "n" + Escaped(p[m..])
      && |WithLf(p)| == 2 + |WithLf(p[m..])| && WithLf(p)[1] == '\n'
    case HalfQuote => rest != "" && rest[0] == '\"'
  }

  lemma BackslashSwallows(p: string) returns (w: Swallowed)
    requires p != "" && p[0] == '\\' && DecodeOne(Escaped(p)).Char?
    ensures Swallows(p, DecodeOne(Escaped(p)), w)
  {
    var q := p[1..];
    CopiedHead(p);
    assert q != "";
    if q[0] == '\"' {
      w := HalfQuote;
    } else if q[0] == '\n' || StartsCrLf(q) {
      w := NewlineSwallows(p);
    } else if q[0] != 'u' {
      CopiedHead(q);
      w := Characters(2);
      assert q[1..] == p[2..];
    } else {
      w := UnicodeSwallows(p);
    }
  }

  lemma NewlineSwallows(p: string) returns (w: Swallowed)
    requires |p| >= 2 && p[0] == '\\' && (p[1] == '\n' || StartsCrLf(p[1..]))
    ensures DecodeOne(Escaped(p)).Char? && Swallows(p, DecodeOne(Escaped(p)), w)
  {
    CopiedHead(p);
    var q := p[1..];
    var n := if q[0] == '\n' then 1 else 2;
    assert q[n..] == p[n + 1..];
    assert Escaped(q) == "\\n" + Escaped(p[n + 1..]);
    assert Escaped(p)[2..] == "n" + Escaped(p[n + 1..]);
    assert WithLf(q) == "\n" + WithLf(p[n + 1..]);
    w := HalfNewline(n + 1);
  }

  lemma UnicodeSwallows(p: string) returns (w: Swallowed)
    requires |p| >= 2 && p[0] == '\\' && p[1] == 'u' && DecodeOne(Escaped(p)).Char?
    ensures Swallows(p, DecodeOne(Escaped(p)), w)
  {
    var d := DecodeOne(Escaped(p));
    CopiedHead(p);
    CopiedHead(p[1..]);
    EscapedUnicode(p);
    if d.used == 6 {
      w := Characters(6);
    } else {
      PairSwallows(p);
      w := Characters(12);
    }
  }

  /** \uXXXX in the escaped text is \uXXXX in the program. */
  lemma EscapedUnicode(p: string)
    requires |p| >= 2 && p[0] == '\\' && p[1] == 'u' && |Escaped(p)| >= 6 && IsHex4(Escaped(p)[2..])
    ensures Verbatim(p, 6)
  {
    CopiedHead(p);
    CopiedHead(p[1..]);
    var r := p[1..][1..];
    assert Escaped(p)[2..] == Escaped(r);
    HexIsVerbatim(r, 4);
    VerbatimCons(p[1..], 4);
    VerbatimCons(p, 5);
  }

  lemma PairSwallows(p: string)
    requires Verbatim(p, 6) && |Escaped(p)| >= 12
    requires Escaped(p)[6] == '\\' && Escaped(p)[7] == 'u' && IsHex4(Escaped(p)[8..])
    ensures |p| >= 12 && Escaped(p)[12..] == Escaped(p[12..]) && |WithLf(p)| == 12 + |WithLf(p[12..])|
  {
    var t := p[6..];
    assert Escaped(t)[0] == '\\' && Escaped(t)[1] == 'u';
    assert t != "" && t[0] == '\\';
    CopiedHead(t);
    assert Escaped(t[1..])[0] == 'u';
    assert |t| >= 2 && t[1] == 'u';
    assert Escaped(t)[2..] == Escaped(p)[8..];
    EscapedUnicode(t);
    assert t[6..] == p[12..];
    assert Escaped(p)[12..] == Escaped(t)[6..];
  }

  lemma {:induction false} NeverLonger(p: string)
    ensures Unescaped(Escaped(p)).Ok? ==> |Unescaped(Escaped(p)).value| <= |WithLf(p)|
    decreases |p|
  {
    if p != "" && DecodeOne(Escaped(p)).Char? {
      var d := DecodeOne(Escaped(p));
      UnescapedCons(Escaped(p), d.used, d.c);
      if p[0] == '\\' {
        var w := BackslashSwallows(p);
        match w
        case Characters(m) => NeverLonger(p[m..]);
        case HalfNewline(m) =>
          var rest := Escaped(p)[d.used..];
          UnescapedCons(rest, 1, 'n');
          assert rest[1..] == Escaped(p[m..]);
          NeverLonger(p[m..]);
        case HalfQuote =>
      } else if p[0] >= ' ' || p[0] == '\n' || StartsCrLf(p) {
        FirstReadsBack(p);
        NeverLonger(p[if StartsCrLf(p) then 2 else 1..]);
      }
    }
  }

  lemma BackslashDoesNotReadBack(p: string)
    requires p != "" && p[0] == '\\'
    ensures Unescaped(Escaped(p)) != Ok(WithLf(p))
  {
    var d := DecodeOne(Escaped(p));
    if d.Char? {
      UnescapedCons(Escaped(p), d.used, d.c);
      var w := BackslashSwallows(p);
      match w
      case Characters(m) => NeverLonger(p[m..]);
      case HalfNewline(m) =>
        var rest := Escaped(p)[d.used..];
        UnescapedCons(rest, 1, 'n');
      case HalfQuote =>
    }
  }

  /** Escaping and reading back gives the program with LF line ends exactly for plain programs. */
  lemma {:induction false} ReadsBack(p: string)
    ensures Unescaped(Escaped(p)) == Ok(WithLf(p)) <==> Plain(p)
  {
    if p == "" {
    } else if p[0] == '\\' {
      BackslashDoesNotReadBack(p);
    } else if p[0] >= ' ' || p[0] == '\n' || StartsCrLf(p) {
      var n := if StartsCrLf(p) then 2 else 1;
      FirstReadsBack(p);
      ReadsBack(p[n..]);
      ReadsBackTail(p, n, if StartsCrLf(p) then '\n' else p[0]);
    } else {
      CopiedHead(p);
      assert DecodeOne(Escaped(p)) == Bad;
    }
  }

  lemma ReadsBackTail(p: string, n: nat, c: char)
    requires ReadsBackAs(p, n, c)
    ensures Unescaped(Escaped(p)) == Ok(WithLf(p)) <==> Unescaped(Escaped(p[n..])) == Ok(WithLf(p[n..]))
  {
    UnescapedCons(Escaped(p), DecodeOne(Escaped(p)).used, c);
    if Unescaped(Escaped(p)) == Ok(WithLf(p)) {
      assert ([c] + WithLf(p[n..]))[1..] == WithLf(p[n..]);
      assert ([c] + Unescaped(Escaped(p[n..])).value)[1..] == Unescaped(Escaped(p[n..])).value;
    }
  }
}
