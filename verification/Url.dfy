/** ControllerClientInfo: the URL it is parsed from, the URL it prints, and the second host parser
    in the BinPickingTaskResource constructor. Every character stands for one byte. */
module Url {
  import opened Text

  /** The fields a URL carries. */
  datatype Info = Info(host: string, port: int, username: string, password: string)

  const NO_INFO := Info("", 0, "", "")

  /** A password that would end before it starts makes std::string throw std::length_error. */
  datatype Parsed = Parsed(info: Info) | LengthError

  function SignedChar(c: char): int {
    var b := c as int % 256;
    if b < 128 then b else b - 256
  }

  /** `_ParseClientInfoPort`: every step is truncated to uint16_t. */
  function PortValue(s: string): (port: int)
    ensures 0 <= port < 0x1_0000
  {
    PortOfFirst(s, |s|)
  }

  function PortOfFirst(s: string, n: nat): (port: int)
    requires n <= |s|
    ensures 0 <= port < 0x1_0000
  {
    if n == 0 then 0 else (PortOfFirst(s, n - 1) * 10 + (SignedChar(s[n - 1]) - '0' as int)) % 0x1_0000
  }

  /** `hostname[:port][/path]` */
  function HostAndPort(h: string): (string, int) {
    var port, slash := IndexOf(h, ':', 0), IndexOf(h, '/', 0);
    if port < slash then (h[..port], PortValue(h[port + 1..slash])) else (h[..slash], 0)
  }

  /** Everything after `://`. */
  function ParseAuthority(rest: string): Parsed {
    var at, slash := IndexOf(rest, '@', 0), IndexOf(rest, '/', 0);
    if at < slash then
      var (host, port) := HostAndPort(rest[at + 1..]);
      var colon := IndexOf(rest, ':', 0);
      if colon == |rest| then Parsed(Info(host, port, rest[..at], ""))
      else if colon < at then Parsed(Info(host, port, rest[..colon], rest[colon + 1..at]))
      else LengthError
    else
      var (host, port) := HostAndPort(rest);
      Parsed(Info(host, port, "", ""))
  }

  function ParseText(url: string): Parsed {
    var colonSlashSlash := Find(url, "://", 0);
    if colonSlashSlash == |url| then Parsed(NO_INFO) else ParseAuthority(url[colonSlashSlash + 3..])
  }

  /** The parser gets the URL as a C string. */
  function ParseUrl(url: string): Parsed {
    ParseText(UpToNul(url))
  }

  // ----- URLs by their parts (RFC 3986 section 3.2) -----

  datatype UserInfo = NoUser | User(user: string) | UserPassword(user: string, password: string)
  datatype PortPart = NoPort | Port(digits: string)
  datatype Parts = Parts(scheme: string, userinfo: UserInfo, host: string, port: PortPart, tail: string)

  predicate Without(s: string, cs: string) {
    forall c | c in cs :: c !in s
  }

  /** Each part is free of the delimiters that end it (an `@` in the host is harmless behind user
      information); the tail is a path or nothing. */
  predicate WellFormed(u: Parts) {
    && Without(u.scheme, ":")
    && (u.userinfo.User? ==> Without(u.userinfo.user, ":@/"))
    && (u.userinfo.UserPassword? ==> Without(u.userinfo.user, ":@/") && Without(u.userinfo.password, "@/"))
    && Without(u.host, if u.userinfo.NoUser? then ":@/" else ":/")
    && (u.port.Port? ==> Without(u.port.digits, "@/"))
    && (u.tail != "" ==> u.tail[0] == '/')
    && '\0' !in BeforeTail(u)
  }

  function BeforeTail(u: Parts): string {
    u.scheme + ("://" + (UserText(u.userinfo) + (u.host + PortText(u.port))))
  }

  function UserText(u: UserInfo): string {
    match u
    case NoUser => ""
    case User(user) => user + "@"
    case UserPassword(user, password) => user + (":" + (password + "@"))
  }

  function PortText(p: PortPart): string {
    if p.Port? then ":" + p.digits else ""
  }

  function HostText(u: Parts): string {
    u.host + (PortText(u.port) + u.tail)
  }

  function Compose(u: Parts): string {
    u.scheme + ("://" + (UserText(u.userinfo) + HostText(u)))
  }

  function PartsInfo(u: Parts): Info {
    Info(u.host, if u.port.Port? then PortValue(u.port.digits) else 0,
         if u.userinfo.NoUser? then "" else u.userinfo.user,
         if u.userinfo.UserPassword? then u.userinfo.password else "")
  }

  // ----- Searching in concatenations -----

  lemma {:induction false} IndexOfAppend(a: string, b: string, c: char, i: nat)
    requires i <= |a| && Absent(a, c, i, |a|)
    ensures IndexOf(a + b, c, i) == |a| + IndexOf(b, c, 0)
    decreases |a| - i
  {
    if i < |a| {
      assert (a + b)[i] == a[i];
      IndexOfAppend(a, b, c, i + 1);
    } else {
      IndexOfSuffix(a, b, c, 0);
    }
  }

  lemma {:induction false} IndexOfSuffix(a: string, b: string, c: char, i: nat)
    requires i <= |b|
    ensures IndexOf(a + b, c, |a| + i) == |a| + IndexOf(b, c, i)
    decreases |b| - i
  {
    if i < |b| {
      assert (a + b)[|a| + i] == b[i];
      if b[i] != c {
        IndexOfSuffix(a, b, c, i + 1);
      }
    }
  }

  lemma {:induction false} NotIn(a: string, c: char, i: nat)
    requires i <= |a|
    ensures c !in a ==> Absent(a, c, i, |a|) && IndexOf(a, c, i) == |a|
    decreases |a| - i
  {
    if i < |a| && c !in a {
      assert a[i] in a;
      NotIn(a, c, i + 1);
    }
  }

  lemma Passes(a: string, b: string, c: char)
    requires c !in a
    ensures IndexOf(a + b, c, 0) == |a| + IndexOf(b, c, 0)
  {
    NotIn(a, c, 0);
    IndexOfAppend(a, b, c, 0);
  }

  lemma {:induction false} FindScheme(scheme: string, rest: string, i: nat)
    requires ':' !in scheme && i <= |scheme|
    ensures Find(scheme + ("://" + rest), "://", i) == |scheme|
    decreases |scheme| - i
  {
    var url := scheme + ("://" + rest);
    if i < |scheme| {
      assert url[i] == scheme[i] && scheme[i] in scheme;
      NotAtScheme(url, i);
      FindScheme(scheme, rest, i + 1);
    } else {
      assert url[i..i + 3] == "://";
    }
  }

  lemma NotAtScheme(url: string, i: nat)
    requires i < |url| && url[i] != ':'
    ensures !OccursAt(url, "://", i)
  {
    if OccursAt(url, "://", i) {
      OccurrenceSpells(url, "://", i);
      assert false;
    }
  }

  lemma Slices(a: string, b: string)
    ensures (a + b)[..|a|] == a && (a + b)[|a|..] == b
  {
  }

  lemma DropPast(a: string, c: char, b: string)
    ensures (a + ([c] + b))[|a| + 1..] == b && (a + ([c] + b))[..|a|] == a
  {
  }

  lemma FirstAt(a: string, c: char, b: string)
    requires c !in a
    ensures IndexOf(a + ([c] + b), c, 0) == |a|
  {
    Passes(a, [c] + b, c);
  }

  lemma PassesOne(a: string, d: char, b: string, c: char)
    requires c !in a && c != d
    ensures IndexOf(a + ([d] + b), c, 0) == |a| + 1 + IndexOf(b, c, 0)
  {
    Passes(a, [d] + b, c);
    assert c !in [d];
    Passes([d], b, c);
  }

  lemma AtTail(tail: string)
    requires tail != "" ==> tail[0] == '/'
    ensures IndexOf(tail, '/', 0) == 0
  {
  }

  // ----- Parsing a composed URL -----

  ghost predicate IsFree(s: string) {
    ':' !in s && '@' !in s && '/' !in s
  }

  lemma WithoutAll(s: string)
    ensures Without(s, ":@/") ==> IsFree(s)
    ensures Without(s, ":/") ==> ':' !in s && '/' !in s
    ensures Without(s, "@/") ==> '@' !in s && '/' !in s
    ensures Without(s, ":") ==> ':' !in s
  {
    assert ':' in ":@/" && '@' in ":@/" && '/' in ":@/" && '@' in "@/" && '/' in "@/" && ':' in ":"
        && ':' in ":/" && '/' in ":/";
  }

  lemma HostAndPortOfText(host: string, port: PortPart, tail: string)
    requires ':' !in host && '/' !in host && (port.Port? ==> '/' !in port.digits) && (tail != "" ==> tail[0] == '/')
    ensures HostAndPort(host + (PortText(port) + tail)) == (host, if port.Port? then PortValue(port.digits) else 0)
  {
    if port.Port? {
      assert PortText(port) + tail == [':'] + (port.digits + tail);
      HostThenPort(host, port.digits, tail, host + ([':'] + (port.digits + tail)));
    } else {
      assert PortText(port) + tail == tail;
      HostAlone(host, tail);
    }
  }

  lemma HostThenPort(host: string, d: string, tail: string, h: string)
    requires ':' !in host && '/' !in host && '/' !in d && (tail != "" ==> tail[0] == '/')
    requires h == host + ([':'] + (d + tail))
    ensures HostAndPort(h) == (host, PortValue(d))
  {
    AtTail(tail);
    FirstAt(host, ':', d + tail);
    PassesOne(host, ':', d + tail, '/');
    Passes(d, tail, '/');
    PortSlice(host, d, tail, h);
  }

  lemma HostAlone(host: string, tail: string)
    requires ':' !in host && '/' !in host && (tail != "" ==> tail[0] == '/')
    ensures HostAndPort(host + tail) == (host, 0)
  {
    AtTail(tail);
    Passes(host, tail, ':');
    Passes(host, tail, '/');
    Slices(host, tail);
  }

  lemma PortSlice(host: string, d: string, tail: string, h: string)
    requires h == host + ([':'] + (d + tail))
    ensures h[..|host|] == host && h[|host| + 1..|host| + 1 + |d|] == d
  {
  }

  /** Where the authority of a composed URL has its first `/` and `@`. */
  lemma HostTextDelimiters(u: Parts)
    requires WellFormed(u) && u.userinfo.NoUser?
    ensures IndexOf(HostText(u), '@', 0) >= IndexOf(HostText(u), '/', 0)
  {
    var p := u.host + PortText(u.port);
    WithoutAll(u.host);
    if u.port.Port? { WithoutAll(u.port.digits); }
    assert '@' !in p && '/' !in p;
    assert HostText(u) == p + u.tail;
    AtTail(u.tail);
    Passes(p, u.tail, '@');
    Passes(p, u.tail, '/');
  }

  lemma ParsesNoUser(u: Parts)
    requires WellFormed(u) && u.userinfo.NoUser?
    ensures ParseAuthority(HostText(u)) == Parsed(PartsInfo(u))
  {
    HostTextDelimiters(u);
    HostOfParts(u);
  }

  lemma HostOfParts(u: Parts)
    requires WellFormed(u)
    ensures HostAndPort(HostText(u)) == (PartsInfo(u).host, PartsInfo(u).port)
  {
    WithoutAll(u.host);
    if u.port.Port? { WithoutAll(u.port.digits); }
    HostAndPortOfText(u.host, u.port, u.tail);
  }

  lemma ParsesUser(u: Parts)
    requires WellFormed(u) && u.userinfo.User?
    ensures ParseAuthority(u.userinfo.user + (['@'] + HostText(u))) ==
            if ':' in HostText(u) then LengthError else Parsed(PartsInfo(u))
  {
    HostOfParts(u);
    WithoutAll(u.userinfo.user);
    ParsesAfterUser(u.userinfo.user, HostText(u), u.userinfo.user + (['@'] + HostText(u)));
  }

  lemma ParsesAfterUser(user: string, h: string, rest: string)
    requires IsFree(user) && rest == user + (['@'] + h)
    ensures ParseAuthority(rest) ==
            if ':' in h then LengthError else Parsed(Info(HostAndPort(h).0, HostAndPort(h).1, user, ""))
  {
    FirstAt(user, '@', h);
    PassesOne(user, '@', h, '/');
    PassesOne(user, '@', h, ':');
    DropPast(user, '@', h);
    FoundIn(h, ':');
  }

  lemma FoundIn(s: string, c: char)
    ensures IndexOf(s, c, 0) < |s| <==> c in s
  {
    IndexOfIsFirst(s, c, 0);
  }

  lemma ParsesUserPassword(u: Parts)
    requires WellFormed(u) && u.userinfo.UserPassword?
    ensures ParseAuthority(u.userinfo.user + ([':'] + (u.userinfo.password + (['@'] + HostText(u))))) ==
            Parsed(PartsInfo(u))
  {
    HostOfParts(u);
    WithoutAll(u.userinfo.user);
    WithoutAll(u.userinfo.password);
    var (user, password, h) := (u.userinfo.user, u.userinfo.password, HostText(u));
    ParsesAfterPassword(user, password, h, user + ([':'] + (password + (['@'] + h))));
  }

  lemma ParsesAfterPassword(user: string, password: string, h: string, rest: string)
    requires IsFree(user) && '@' !in password && '/' !in password
    requires rest == user + ([':'] + (password + (['@'] + h)))
    ensures ParseAuthority(rest) == Parsed(Info(HostAndPort(h).0, HostAndPort(h).1, user, password))
  {
    PasswordDelimiters(user, password, h, rest);
    UserPasswordSlices(user, password, h);
  }

  lemma PasswordDelimiters(user: string, password: string, h: string, rest: string)
    requires IsFree(user) && '@' !in password && '/' !in password
    requires rest == user + ([':'] + (password + (['@'] + h)))
    ensures IndexOf(rest, ':', 0) == |user| && IndexOf(rest, '@', 0) == |user| + 1 + |password| < IndexOf(rest, '/', 0)
  {
    var after := password + (['@'] + h);
    FirstAt(user, ':', after);
    PassesOne(user, ':', after, '@');
    PassesOne(user, ':', after, '/');
    FirstAt(password, '@', h);
    PassesOne(password, '@', h, '/');
  }

  lemma UserPasswordSlices(user: string, password: string, h: string)
    ensures var rest := user + ([':'] + (password + (['@'] + h)));
            var at := |user| + 1 + |password|;
            rest[..|user|] == user && rest[|user| + 1..at] == password && rest[at + 1..] == h
  {
    var after := password + (['@'] + h);
    DropPast(user, ':', after);
    DropPast(password, '@', h);
    var rest := user + ([':'] + after);
    assert rest[|user| + 1..][..|password|] == rest[|user| + 1..|user| + 1 + |password|];
    assert rest[|user| + 1..][|password| + 1..] == rest[|user| + 1 + |password| + 1..];
  }

  lemma ParsesComposedText(u: Parts)
    requires WellFormed(u)
    ensures ParseText(Compose(u)) ==
            if u.userinfo.User? && ':' in HostText(u) then LengthError else Parsed(PartsInfo(u))
  {
    WithoutAll(u.scheme);
    ParsesScheme(u.scheme, UserText(u.userinfo) + HostText(u));
    match u.userinfo
    case NoUser =>
      UserTextThen("", "", HostText(u));
      ParsesNoUser(u);
    case User(user) =>
      UserTextThen(user, "", HostText(u));
      ParsesUser(u);
    case UserPassword(user, password) =>
      UserTextThen(user, password, HostText(u));
      ParsesUserPassword(u);
  }

  lemma UserTextThen(user: string, password: string, h: string)
    ensures UserText(NoUser) + h == h
    ensures UserText(User(user)) + h == user + (['@'] + h)
    ensures UserText(UserPassword(user, password)) + h == user + ([':'] + (password + (['@'] + h)))
  {
    Back(user, "@", h);
    Back(user, ":" + (password + "@"), h);
    Back(":", password + "@", h);
    Back(password, "@", h);
  }

  /** What a C string keeps of a composed URL: all of it but what follows a NUL in the path. */
  function CutTail(u: Parts): Parts {
    u.(tail := UpToNul(u.tail))
  }

  lemma {:induction false} NulBehind(a: string, b: string)
    requires '\0' !in a
    ensures UpToNul(a + b) == a + UpToNul(b)
  {
    if a == "" {
      assert a + b == b && a + UpToNul(b) == UpToNul(b);
    } else {
      var (c, rest) := (a[0], a[1..]);
      assert a == [c] + rest && c in a && '\0' !in rest;
      NulBehind(rest, b);
      CutCons(c, rest + b, a + b);
      Associate("", [c], rest, UpToNul(b));
    }
  }

  lemma CutCons(c: char, t: string, s: string)
    requires c != '\0' && s == [c] + t
    ensures UpToNul(s) == [c] + UpToNul(t)
  {
    assert s[0] == c && s[1..] == t;
  }

  lemma TailLast(u: Parts)
    ensures Compose(u) == BeforeTail(u) + u.tail
  {
    assert HostText(u) == (u.host + PortText(u.port)) + u.tail;
    Associate(UserText(u.userinfo), u.host + PortText(u.port), "", u.tail);
    var front := u.host + PortText(u.port);
    assert UserText(u.userinfo) + (front + u.tail) == (UserText(u.userinfo) + front) + u.tail;
    Associate(u.scheme, "://", UserText(u.userinfo) + front, u.tail);
  }

  lemma CutComposed(u: Parts)
    requires '\0' !in BeforeTail(u) && (u.tail != "" ==> u.tail[0] == '/')
    ensures UpToNul(Compose(u)) == Compose(CutTail(u))
    ensures CutTail(u).tail != "" ==> CutTail(u).tail[0] == '/'
    ensures WellFormed(u) ==> WellFormed(CutTail(u))
  {
    TailLast(u);
    TailLast(CutTail(u));
    NulBehind(BeforeTail(u), u.tail);
  }

  /** Parsing gives the parts back, whatever the path holds, except that a user name without a password
      makes the parser fail exactly when a `:` follows the `@` (before any NUL). */
  lemma ParsesComposed(u: Parts)
    requires WellFormed(u)
    ensures ParseUrl(Compose(u)) ==
            if u.userinfo.User? && ':' in HostText(CutTail(u)) then LengthError else Parsed(PartsInfo(u))
  {
    CutComposed(u);
    ParsesComposedText(CutTail(u));
  }

  lemma AfterScheme(scheme: string, rest: string)
    ensures (scheme + ("://" + rest))[|scheme| + 3..] == rest
  {
  }

  /** A user name, no password and a port: the parser throws. */
  lemma UserPortThrows(scheme: string, user: string, host: string, digits: string)
    requires WellFormed(Parts(scheme, User(user), host, Port(digits), ""))
    ensures ParseUrl(scheme + ("://" + (user + ("@" + (host + (":" + digits)))))) == LengthError
  {
    var u := Parts(scheme, User(user), host, Port(digits), "");
    assert CutTail(u) == u;
    assert HostText(u) == host + (":" + digits) && HostText(u)[|host|] == ':';
    assert UserText(u.userinfo) + HostText(u) == user + ("@" + (host + (":" + digits)));
    ParsesComposed(u);
  }

  /** The documented form http://admin@host:80 */
  lemma UserWithPortFails()
    ensures ParseUrl("http" + ("://" + ("admin" + ("@" + ("host" + (":" + "80")))))) == LengthError
  {
    AdminWellFormed("http", "admin", "host", "80");
    UserPortThrows("http", "admin", "host", "80");
  }

  lemma AdminWellFormed(scheme: string, user: string, host: string, digits: string)
    requires scheme == "http" && user == "admin" && host == "host" && digits == "80"
    ensures WellFormed(Parts(scheme, User(user), host, Port(digits), ""))
  {
    assert Without(scheme, ":") && Without(user, ":@/") && Without(host, ":/") && Without(digits, "@/");
    assert '\0' !in scheme && '\0' !in "://" && '\0' !in user + "@" && '\0' !in host + (":" + digits);
  }

  // ----- ControllerClientInfo::GetURL -----

  function Digit(n: nat): char
    requires n < 10
  {
    ('0' as int + n) as char
  }

  /** std::to_string */
  function Decimal(n: nat): (s: string)
    ensures s != ""
  {
    if n < 10 then [Digit(n)] else Decimal(n / 10) + [Digit(n % 10)]
  }

  lemma {:induction false} DecimalReadsBack(n: nat)
    requires n < 0x1_0000
    ensures PortValue(Decimal(n)) == n
  {
    if n >= 10 {
      DecimalReadsBack(n / 10);
      AppendDigit(Decimal(n / 10), n % 10, Decimal(n));
    } else {
      AppendDigit("", n, Decimal(n));
    }
  }

  /** The digits are the decimal ones, the first of them no 0 unless it is the only one. */
  lemma {:induction false} DecimalIsCanonical(n: nat)
    ensures forall i | 0 <= i < |Decimal(n)| :: '0' <= Decimal(n)[i] <= '9'
    ensures Decimal(n)[0] == '0' <==> n == 0
  {
    if n >= 10 {
      DecimalIsCanonical(n / 10);
    }
  }

  /** A port is read from the left in 16 bits; a byte that is no digit counts too, a byte from 128 on as
      a negative char. */
  lemma PortByBytes(s: string, c: char)
    requires c as int < 256
    ensures PortValue("") == 0
    ensures var signed := if c as int < 128 then c as int else c as int - 256;
            PortValue(s + [c]) == (PortValue(s) * 10 + signed - 48) % 65536
  {
    PortOfPrefix(s, [c], |s|);
  }

  /** A text without `://` gives nothing, not even an exception. */
  lemma NoSchemeGivesNothing(url: string)
    requires NowhereIn(UpToNul(url), "://", 0, |UpToNul(url)|)
    ensures ParseUrl(url) == Parsed(Info("", 0, "", ""))
  {
    FindIs(UpToNul(url), "://", 0, |UpToNul(url)|);
  }

  lemma AppendDigit(front: string, d: nat, s: string)
    requires d < 10 && s == front + [Digit(d)]
    ensures PortValue(s) == (PortValue(front) * 10 + d) % 0x1_0000
  {
    PortOfPrefix(front, [Digit(d)], |front|);
    assert s[|front|] == Digit(d) && SignedChar(Digit(d)) == '0' as int + d;
  }

  lemma {:induction false} PortOfPrefix(a: string, b: string, n: nat)
    requires n <= |a|
    ensures PortOfFirst(a + b, n) == PortOfFirst(a, n)
  {
    if n > 0 {
      PortOfPrefix(a, b, n - 1);
    }
  }

  lemma {:induction false} DecimalHasNo(n: nat, c: char)
    requires !('0' <= c <= '9')
    ensures c !in Decimal(n)
  {
    if n >= 10 {
      DecimalHasNo(n / 10, c);
    }
  }

  /** The parts GetURL prints, with `shown` standing for the host or its resolved address. */
  function PrintedParts(info: Info, shown: string, includeNamePassword: bool, tail: string): Parts
    requires 0 <= info.port
  {
    Parts("http", if includeNamePassword then UserPassword(info.username, info.password) else NoUser,
          shown, if info.port != 0 then Port(Decimal(info.port)) else NoPort, tail)
  }

  function PrintedUrl(info: Info, shown: string, includeNamePassword: bool): string
    requires 0 <= info.port
  {
    if info.host == "" then "" else Compose(PrintedParts(info, shown, includeNamePassword, ""))
  }

  function Printed(info: Info, shown: string, includeNamePassword: bool): Info {
    if includeNamePassword then info.(host := shown) else Info(shown, info.port, "", "")
  }

  /** What the printed fields must be free of: the delimiters that would end them, and NUL. */
  predicate Printable(info: Info, shown: string, includeNamePassword: bool) {
    Delimited(info, shown, includeNamePassword) && NulFree(Printed(info, shown, includeNamePassword))
  }

  predicate Delimited(info: Info, shown: string, includeNamePassword: bool) {
    if includeNamePassword then
      Without(info.username, ":@/") && Without(info.password, "@/") && Without(shown, ":/")
    else
      Without(shown, ":@/")
  }

  predicate NulFree(info: Info) {
    '\0' !in info.host && '\0' !in info.username && '\0' !in info.password
  }

  /** Parsing the URL GetURL prints, with or without a path behind it, gives the printed fields back
      exactly when they are free of the delimiters and of NUL. */
  lemma UrlRoundTrips(info: Info, shown: string, includeNamePassword: bool, tail: string)
    requires info.host != "" && shown != "" && 0 <= info.port < 0x1_0000
    requires tail != "" ==> tail[0] == '/'
    ensures ParseUrl(PrintedUrl(info, shown, includeNamePassword) + tail) ==
            Parsed(Printed(info, shown, includeNamePassword))
       <==> Printable(info, shown, includeNamePassword)
  {
    var u := PrintedParts(info, shown, includeNamePassword, tail);
    ComposeTail(PrintedParts(info, shown, includeNamePassword, ""), u);
    if Printable(info, shown, includeNamePassword) {
      PrintableIsWellFormed(info, shown, includeNamePassword, tail);
      DecimalReadsBack(info.port);
      ParsesComposed(u);
    }
    if ParseUrl(Compose(u)) == Parsed(Printed(info, shown, includeNamePassword)) {
      ParsedIsNulFree(UpToNul(Compose(u)));
      PrintedIsNulFree(info, shown, includeNamePassword, tail);
      CutComposed(u);
      ParsedBackIsPrintable(info, shown, includeNamePassword, CutTail(u));
    }
  }

  lemma SliceIsNulFree(s: string, i: nat, j: nat)
    requires i <= j <= |s| && '\0' !in s
    ensures '\0' !in s[i..j]
  {
  }

  lemma HostIsNulFree(h: string)
    requires '\0' !in h
    ensures '\0' !in HostAndPort(h).0
  {
    SliceIsNulFree(h, 0, |HostAndPort(h).0|);
  }

  lemma AuthorityIsNulFree(rest: string)
    requires '\0' !in rest && ParseAuthority(rest).Parsed?
    ensures NulFree(ParseAuthority(rest).info)
  {
    var at, colon := IndexOf(rest, '@', 0), IndexOf(rest, ':', 0);
    if at < IndexOf(rest, '/', 0) {
      SliceIsNulFree(rest, at + 1, |rest|);
      HostIsNulFree(rest[at + 1..]);
      SliceIsNulFree(rest, 0, at);
      if colon < at {
        SliceIsNulFree(rest, 0, colon);
        SliceIsNulFree(rest, colon + 1, at);
      }
    } else {
      HostIsNulFree(rest);
    }
  }

  /** The fields parsed from a text without NUL hold none. */
  lemma ParsedIsNulFree(text: string)
    requires '\0' !in text && ParseText(text).Parsed?
    ensures NulFree(ParseText(text).info)
  {
    var k := Find(text, "://", 0);
    if k < |text| {
      SliceIsNulFree(text, k + 3, |text|);
      AuthorityIsNulFree(text[k + 3..]);
    }
  }

  lemma PrintedIsNulFree(info: Info, shown: string, includeNamePassword: bool, tail: string)
    requires 0 <= info.port && NulFree(Printed(info, shown, includeNamePassword))
    ensures '\0' !in BeforeTail(PrintedParts(info, shown, includeNamePassword, tail))
  {
    DecimalHasNo(info.port, '\0');
    var u := PrintedParts(info, shown, includeNamePassword, tail);
    assert '\0' !in "http" && '\0' !in "://" && '\0' !in UserText(u.userinfo) && '\0' !in PortText(u.port);
  }

  lemma PrintableIsWellFormed(info: Info, shown: string, includeNamePassword: bool, tail: string)
    requires 0 <= info.port && Printable(info, shown, includeNamePassword) && (tail != "" ==> tail[0] == '/')
    ensures WellFormed(PrintedParts(info, shown, includeNamePassword, tail))
  {
    DecimalHasNo(info.port, '@');
    DecimalHasNo(info.port, '/');
    PrintedIsNulFree(info, shown, includeNamePassword, tail);
  }

  lemma ComposeTail(u: Parts, v: Parts)
    requires u.tail == "" && v == u.(tail := v.tail)
    ensures Compose(u) + v.tail == Compose(v)
  {
    Back(u.host, PortText(u.port), v.tail);
    assert HostText(u) == u.host + PortText(u.port);
    Back(UserText(u.userinfo), HostText(u), v.tail);
    Back("://", UserText(u.userinfo) + HostText(u), v.tail);
    Back(u.scheme, "://" + (UserText(u.userinfo) + HostText(u)), v.tail);
  }

  lemma ParsedBackIsPrintable(info: Info, shown: string, includeNamePassword: bool, u: Parts)
    requires shown != "" && 0 <= info.port && (u.tail != "" ==> u.tail[0] == '/')
    requires u == PrintedParts(info, shown, includeNamePassword, u.tail)
    requires ParseText(Compose(u)) == Parsed(Printed(info, shown, includeNamePassword))
    ensures Delimited(info, shown, includeNamePassword)
  {
    var rest := UserText(u.userinfo) + HostText(u);
    ParsesHttp(rest);
    if includeNamePassword {
      UserParsedBack(info.username, info.password, HostText(u), rest, Printed(info, shown, true));
      HostParsedBack(shown, HostText(u));
    } else {
      assert rest == HostText(u);
      LoneHostParsedBack(u, rest, info.port);
    }
  }

  lemma ParsesHttp(rest: string)
    ensures ParseText("http" + ("://" + rest)) == ParseAuthority(rest)
  {
    FindScheme("http", rest, 0);
    AfterScheme("http", rest);
  }

  lemma UserParsedBack(user: string, password: string, h: string, rest: string, info: Info)
    requires rest == user + (":" + (password + "@")) + h
    requires ParseAuthority(rest) == Parsed(info) && info.username == user && info.password == password
    ensures Without(user, ":@/") && Without(password, "@/") && info.host == HostAndPort(h).0
  {
    UserPasswordAt(user, password, h, rest);
    IndexOfIsFirst(rest, '@', 0);
    IndexOfIsFirst(rest, '/', 0);
    IndexOfIsFirst(rest, ':', 0);
    var at, slash := IndexOf(rest, '@', 0), IndexOf(rest, '/', 0);
    if at < slash {
      assert |user| == IndexOf(rest, ':', 0);
      assert |user| + 1 + |password| == at;
      forall c | c in user ensures c !in ":@/" {
        var i :| 0 <= i < |user| && user[i] == c;
        assert rest[i] == user[i];
      }
      forall c | c in password ensures c !in "@/" {
        var i :| 0 <= i < |password| && password[i] == c;
        assert rest[|user| + 1 + i] == password[i];
      }
    }
  }

  lemma UserPasswordAt(user: string, password: string, h: string, rest: string)
    requires rest == user + (":" + (password + "@")) + h
    ensures rest[|user|] == ':' && rest[|user| + 1 + |password|] == '@' && rest[|user| + 2 + |password|..] == h
    ensures forall i | 0 <= i < |user| :: rest[i] == user[i]
    ensures forall i | 0 <= i < |password| :: rest[|user| + 1 + i] == password[i]
  {
  }

  lemma HostParsedBack(host: string, h: string)
    requires HostAndPort(h).0 == host
    ensures Without(host, ":/") && host <= h
  {
    IndexOfIsFirst(h, ':', 0);
    IndexOfIsFirst(h, '/', 0);
    forall c | c in host ensures c !in ":/" {
      var i :| 0 <= i < |host| && host[i] == c;
      assert h[i] == host[i];
    }
  }

  lemma LoneHostParsedBack(u: Parts, h: string, port: int)
    requires u.userinfo.NoUser? && u.host != "" && h == HostText(u) && (u.tail != "" ==> u.tail[0] == '/')
    requires ParseAuthority(h) == Parsed(Info(u.host, port, "", ""))
    ensures Without(u.host, ":@/")
  {
    NotTakenForUser(u, h, port);
    IndexOfIsFirst(h, '@', 0);
    var host := u.host;
    HostParsedBack(host, h);
    forall c | c in host ensures c !in ":@/" {
      var i :| 0 <= i < |host| && host[i] == c;
      assert h[i] == host[i] && c !in ":/";
      assert ':' in ":/" && '/' in ":/";
    }
  }

  lemma NotTakenForUser(u: Parts, h: string, port: int)
    requires u.userinfo.NoUser? && u.host != "" && h == HostText(u) && (u.tail != "" ==> u.tail[0] == '/')
    requires ParseAuthority(h) == Parsed(Info(u.host, port, "", ""))
    ensures IndexOf(h, '@', 0) >= IndexOf(h, '/', 0)
  {
    var at := IndexOf(h, '@', 0);
    if at < IndexOf(h, '/', 0) {
      assert HostAndPort(h[at + 1..]).0 == u.host;
      HostParsedBack(u.host, h[at + 1..]);
      if at == 0 {
        LastShifted(h, u.host);
        AfterHost(u, h);
      } else {
        EmptyUser(h, u.host, port);
        AfterHost(u, h);
      }
    }
  }

  lemma EmptyUser(h: string, host: string, port: int)
    requires 0 < IndexOf(h, '@', 0) < IndexOf(h, '/', 0)
    requires ParseAuthority(h) == Parsed(Info(host, port, "", ""))
    ensures h[0] == ':'
  {
    assert IndexOf(h, ':', 0) == 0;
  }

  lemma LastShifted(h: string, host: string)
    requires host != "" && |h| > |host| && host <= h[1..]
    ensures Without(host, ":/") ==> h[|host|] != ':' && h[|host|] != '/'
  {
    assert h[|host|] == h[1..][|host| - 1] == host[|host| - 1];
    assert h[|host|] in host && ':' in ":/" && '/' in ":/";
  }

  lemma AfterHost(u: Parts, h: string)
    requires h == HostText(u) && (u.tail != "" ==> u.tail[0] == '/')
    ensures |h| >= |u.host| && (|h| > |u.host| ==> h[|u.host|] == ':' || h[|u.host|] == '/')
    ensures forall i | 0 <= i < |u.host| :: h[i] == u.host[i]
    ensures Without(u.host, ":/") && u.host != "" ==> h[0] != ':'
  {
    if u.host != "" {
      assert h[0] == u.host[0] && u.host[0] in u.host && ':' in ":/";
    }
  }

  // ----- ControllerClientInfo -----

  /** A search that starts further on, but not past the hit, finds the same place. */
  lemma SkipAhead(s: string, c: char, from: nat, mid: nat)
    requires from <= mid <= |s| && mid <= IndexOf(s, c, from)
    ensures IndexOf(s, c, mid) == IndexOf(s, c, from)
  {
    IndexOfIsFirst(s, c, from);
    IndexOfIs(s, c, mid, IndexOf(s, c, from));
  }

  lemma InDrop(s: string, c: char, k: nat)
    requires k <= |s|
    ensures IndexOf(s, c, k) == k + IndexOf(s[k..], c, 0)
  {
    assert s == s[..k] + s[k..];
    IndexOfSuffix(s[..k], s[k..], c, 0);
  }

  lemma HostAndPortInPlace(s: string, k: nat)
    requires k <= |s|
    ensures HostAndPort(s[k..]) == HostAndPortBetween(s, k, IndexOf(s, ':', k), IndexOf(s, '/', k))
  {
    InDrop(s, ':', k);
    InDrop(s, '/', k);
    var port, slash := IndexOf(s, ':', k), IndexOf(s, '/', k);
    if port < slash {
      PortInPlace(s, k, s[k..], port, slash);
    } else {
      NoPortInPlace(s, k, s[k..], port, slash);
    }
  }

  lemma PortInPlace(s: string, k: nat, h: string, port: nat, slash: nat)
    requires k <= port < slash <= |s| && h == s[k..]
    requires IndexOf(h, ':', 0) == port - k && IndexOf(h, '/', 0) == slash - k
    ensures HostAndPort(h) == HostAndPortBetween(s, k, port, slash)
  {
    SliceOfDrop(s, k, k, port);
    SliceOfDrop(s, k, port + 1, slash);
    WithPort(h, port - k, slash - k, s[k..port], s[port + 1..slash]);
  }

  lemma NoPortInPlace(s: string, k: nat, h: string, port: nat, slash: nat)
    requires k <= slash <= port <= |s| && h == s[k..]
    requires IndexOf(h, ':', 0) == port - k && IndexOf(h, '/', 0) == slash - k
    ensures HostAndPort(h) == HostAndPortBetween(s, k, port, slash)
  {
    SliceOfDrop(s, k, k, slash);
    WithoutPort(h, slash - k, s[k..slash]);
  }

  function HostAndPortBetween(s: string, k: nat, port: nat, slash: nat): (string, int)
    requires k <= port <= |s| && k <= slash <= |s|
  {
    if port < slash then (s[k..port], PortValue(s[port + 1..slash])) else (s[k..slash], 0)
  }

  lemma WithoutPort(h: string, slash: nat, host: string)
    requires IndexOf(h, '/', 0) == slash <= IndexOf(h, ':', 0) && host == h[..slash]
    ensures HostAndPort(h) == (host, 0)
  {
  }

  lemma WithPort(h: string, port: nat, slash: nat, host: string, digits: string)
    requires port == IndexOf(h, ':', 0) < slash == IndexOf(h, '/', 0)
    requires host == h[..port] && digits == h[port + 1..slash]
    ensures HostAndPort(h) == (host, PortValue(digits))
  {
  }

  lemma SliceOfDrop(s: string, k: nat, i: nat, j: nat)
    requires k <= i <= j <= |s|
    ensures s[k..][i - k..j - k] == s[i..j]
    ensures i == k ==> s[k..][..j - k] == s[i..j]
  {
  }

  /** What stands before the host: the credentials and how many characters they take. */
  datatype UserTaken = Takes(username: string, password: string, used: nat) | Throws

  function TakesUser(rest: string): (t: UserTaken)
    ensures t.Takes? ==> t.used <= |rest|
  {
    var at, slash, colon := IndexOf(rest, '@', 0), IndexOf(rest, '/', 0), IndexOf(rest, ':', 0);
    if at >= slash then Takes("", "", 0)
    else if colon == |rest| then Takes(rest[..at], "", at + 1)
    else if colon < at then Takes(rest[..colon], rest[colon + 1..at], at + 1)
    else Throws
  }

  lemma AuthorityByUser(rest: string)
    ensures var t := TakesUser(rest);
            ParseAuthority(rest) ==
            if t.Throws? then LengthError
            else Parsed(Info(HostAndPort(rest[t.used..]).0, HostAndPort(rest[t.used..]).1, t.username, t.password))
  {
  }

  /** What stands between `://` and the first `:` behind it. */
  function UserBeforeColon(text: string): string {
    var start := Find(text, "://", 0) + 3;
    if start <= |text| then text[start..IndexOf(text, ':', start)] else ""
  }

  lemma ParsedInPlace(url: string, start: nat, username: string, password: string, hostname: nat)
    requires start <= hostname <= |url| && start == Find(url, "://", 0) + 3
    requires TakesUser(url[start..]) == Takes(username, password, hostname - start)
    ensures ParseText(url) ==
            Parsed(Info(HostAndPort(url[hostname..]).0, HostAndPort(url[hostname..]).1, username, password))
  {
    AuthorityByUser(url[start..]);
    assert url[start..][hostname - start..] == url[hostname..];
  }

  class ControllerClientInfo {
    var host: string
    var httpPort: int
    var username: string
    var password: string
    var additionalHeaders: seq<string>
    var unixEndpoint: string
    var userAgent: string

    constructor ()
      ensures View() == NO_INFO && additionalHeaders == [] && unixEndpoint == "" && userAgent == ""
    {
      host, httpPort, username, password := "", 0, "", "";
      additionalHeaders, unixEndpoint, userAgent := [], "", "";
    }

    function View(): Info
      reads this
    {
      Info(host, httpPort, username, password)
    }

    method Reset()
      modifies this
      ensures View() == NO_INFO && additionalHeaders == [] && unixEndpoint == "" && userAgent == old(userAgent)
    {
      host := "";
      httpPort := 0;
      username := "";
      password := "";
      additionalHeaders := [];
      unixEndpoint := "";
    }

    method ParseClientInfoPort(s: string, port: nat, length: nat)
      requires port + length <= |s|
      modifies this`httpPort
      ensures httpPort == PortValue(s[port..port + length])
    {
      httpPort := 0;
      for i := 0 to length
        invariant httpPort == PortOfFirst(s[port..port + length], i)
      {
        httpPort := (httpPort * 10 + (SignedChar(s[port + i]) - '0' as int)) % 0x1_0000;
      }
    }

    method HostAndPortFrom(url: string, hostname: nat, slash: nat)
      requires hostname <= |url| && slash == IndexOf(url, '/', hostname) && httpPort == 0
      modifies this`httpPort, this`host
      ensures (host, httpPort) == HostAndPort(url[hostname..])
    {
      HostAndPortInPlace(url, hostname);
      var port := IndexOf(url, ':', hostname);
      if slash == |url| {
        if port == |url| {
          assert url[hostname..] == url[hostname..slash];
          host := url[hostname..];
        } else {
          ParseClientInfoPort(url, port + 1, |url| - (port + 1));
          host := url[hostname..port];
        }
      } else {
        if port != |url| && port < slash {
          ParseClientInfoPort(url, port + 1, slash - (port + 1));
          host := url[hostname..port];
        } else {
          host := url[hostname..slash];
        }
      }
    }

    /** The user information in url[start..at), if the authority has any; the host begins at `hostname`. */
    method UserPasswordFrom(url: string, start: nat, slash: nat) returns (thrown: bool, hostname: nat)
      requires start <= |url| && slash == IndexOf(url, '/', start) && View() == NO_INFO
      modifies this`username, this`password
      ensures thrown <==> TakesUser(url[start..]).Throws?
      ensures thrown ==> username == url[start..IndexOf(url, ':', start)] && password == ""
      ensures !thrown ==> start <= hostname <= |url| && slash == IndexOf(url, '/', hostname)
      ensures !thrown ==> TakesUser(url[start..]) == Takes(username, password, hostname - start)
    {
      ghost var rest := url[start..];
      var at := IndexOf(url, '@', start);
      InDrop(url, '@', start);
      InDrop(url, '/', start);
      if at != |url| && (slash == |url| || at < slash) {
        hostname := at + 1;
        SkipAhead(url, '/', start, hostname);
        var colon := IndexOf(url, ':', start);
        InDrop(url, ':', start);
        if colon != |url| {
          username := url[start..colon];
          if at < colon + 1 {
            return true, hostname;
          }
          password := url[colon + 1..at];
          SliceOfDrop(url, start, start, colon);
          SliceOfDrop(url, start, colon + 1, at);
        } else {
          username := url[start..at];
          SliceOfDrop(url, start, start, at);
        }
        return false, hostname;
      }
      return false, start;
    }

    method ParseFields(text: string) returns (thrown: bool)
      modifies this
      ensures thrown <==> ParseText(text).LengthError?
      ensures View() == if thrown then Info("", 0, UserBeforeColon(text), "") else ParseText(text).info
      ensures additionalHeaders == [] && unixEndpoint == "" && userAgent == old(userAgent)
    {
      Reset();
      var colonSlashSlash := Find(text, "://", 0);
      if colonSlashSlash == |text| {
        return false;
      }
      var start := colonSlashSlash + 3;
      var slash := IndexOf(text, '/', start);
      var hostname;
      thrown, hostname := UserPasswordFrom(text, start, slash);
      if thrown {
        AuthorityByUser(text[start..]);
      } else {
        ParsedInPlace(text, start, username, password, hostname);
        HostAndPortFrom(text, hostname, slash);
      }
    }

    /** The URL comes as a C string. When std::length_error is thrown, the user name has been stored and
        nothing else. */
    method ParseClientInfoFromURL(url: string) returns (thrown: bool)
      modifies this
      ensures thrown <==> ParseUrl(url).LengthError?
      ensures View() == if thrown then Info("", 0, UserBeforeColon(UpToNul(url)), "") else ParseUrl(url).info
      ensures additionalHeaders == [] && unixEndpoint == "" && userAgent == old(userAgent)
    {
      thrown := ParseFields(UpToNul(url));
    }

    /** `ip` is what looking up the host gave, empty unless it was one unique address. */
    method GetURL(includeNamePassword: bool, resolve: bool, ip: string) returns (url: string)
      requires 0 <= httpPort
      ensures url == PrintedUrl(View(), if resolve && ip != "" then ip else host, includeNamePassword)
    {
      url := "";
      if host == "" {
        return;
      }
      url := url + "http://";
      if includeNamePassword {
        url := url + username;
        url := url + ":";
        url := url + password;
        url := url + "@";
      }
      ghost var start := url;
      if resolve {
        url := url + (if ip == "" then host else ip);
      } else {
        url := url + host;
      }
      ghost var shown := if resolve && ip != "" then ip else host;
      assert url == start + shown;
      if httpPort != 0 {
        url := url + ":";
        url := url + Decimal(httpPort);
      }
      PrintedPieces(View(), shown, includeNamePassword, start, url);
    }
  }

  lemma PrintedPieces(info: Info, shown: string, includeNamePassword: bool, start: string, url: string)
    requires info.host != "" && 0 <= info.port
    requires start == if includeNamePassword then "" + "http://" + info.username + ":" + info.password + "@"
                      else "" + "http://"
    requires url == if info.port != 0 then start + shown + ":" + Decimal(info.port) else start + shown
    ensures url == PrintedUrl(info, shown, includeNamePassword)
  {
    var u := PrintedParts(info, shown, includeNamePassword, "");
    StartText(info.username, info.password);
    assert start == "http" + ("://" + UserText(u.userinfo));
    if info.port != 0 {
      HostPieces(start, shown, Decimal(info.port));
    } else {
      HostPieces(start, shown, "");
    }
    Associate("http", "://", UserText(u.userinfo), HostText(u));
  }

  /** Written out: nothing without a host; else http://, the credentials if asked for, the host or its
      address, and the port unless it is 0. */
  lemma PrintedInOrder(info: Info, shown: string, includeNamePassword: bool)
    requires 0 <= info.port
    ensures PrintedUrl(info, shown, includeNamePassword) ==
            if info.host == "" then ""
            else
              var user := if includeNamePassword then info.username + ":" + info.password + "@" else "";
              "http://" + user + shown + if info.port != 0 then ":" + Decimal(info.port) else ""
  {
    if info.host != "" {
      var start := if includeNamePassword then "" + "http://" + info.username + ":" + info.password + "@"
                   else "" + "http://";
      var url := if info.port != 0 then start + shown + ":" + Decimal(info.port) else start + shown;
      PrintedPieces(info, shown, includeNamePassword, start, url);
      FrontTogether("http://", info.username, ":", info.password, "@");
      Back(start + shown, ":", Decimal(info.port));
    }
  }

  lemma FrontTogether(a: string, b: string, c: string, d: string, e: string)
    ensures "" + a + b + c + d + e == a + (b + c + d + e)
    ensures "" + a == a + ""
  {
  }

  lemma Back(a: string, b: string, c: string)
    ensures a + b + c == a + (b + c) && a + "" == a
  {
  }

  lemma StartText(user: string, password: string)
    ensures "" + "http://" + user + ":" + password + "@" == "http" + ("://" + (user + (":" + (password + "@"))))
    ensures "" + "http://" == "http" + ("://" + "")
  {
  }

  lemma HostPieces(start: string, shown: string, digits: string)
    ensures start + shown + ":" + digits == start + (shown + (":" + digits + ""))
    ensures start + shown == start + (shown + ("" + ""))
  {
  }

  lemma Associate(a: string, b: string, c: string, d: string)
    ensures a + (b + c) + d == a + (b + (c + d))
  {
  }

  // ----- The host parser of the BinPickingTaskResource constructor -----

  /** The base URI the client keeps ends in a slash. */
  function EnsureSlash(baseuri: string): (r: string)
    requires baseuri != ""
    ensures r != "" && r[|r| - 1] == '/'
    ensures baseuri <= r && |r| <= |baseuri| + 1 && (r == baseuri <==> baseuri[|baseuri| - 1] == '/')
  {
    if baseuri[|baseuri| - 1] != '/' then baseuri + "/" else baseuri
  }

  /** Behind the first `:`, if `://` and more stand there; the text from the colon on is read as a C
      string. */
  function HostStart(base: string): (start: nat)
    ensures start < |base| || start == 0
  {
    var colon := IndexOf(base, ':', 0);
    var p := UpToNul(base[colon..]);
    if |p| > 3 && p[..3] == "://" then colon + 3 else 0
  }

  function BinPickingHost(base: string): string
    requires base != "" && base[|base| - 1] == '/'
  {
    var start := HostStart(base);
    var port, path := IndexOf(base, ':', start), IndexOf(base, '/', start);
    base[start..if port < path then port else path]
  }

  method MujinControllerIp(baseuri: string) returns (ip: string)
    requires baseuri != "" && baseuri[|baseuri| - 1] == '/'
    ensures ip == BinPickingHost(baseuri)
  {
    var querystart := IndexOf(baseuri, '?', 0);
    var protocolend := IndexOf(baseuri, ':', 0);
    if protocolend != |baseuri| {
      var p := UpToNul(baseuri[protocolend..]);
      if |p| > 3 && p[..3] == "://" {
        protocolend := protocolend + 3;
      } else {
        protocolend := 0;
      }
    } else {
      protocolend := 0;
    }
    var pathstart := IndexOf(baseuri, '/', protocolend);
    IndexOfIsFirst(baseuri, '/', protocolend);
    var end := if pathstart != |baseuri| then pathstart else querystart;
    var port := IndexOf(baseuri, ':', protocolend);
    ip := baseuri[protocolend..if port < end then port else end];
  }

  lemma HostStartOfUrl(scheme: string, rest: string)
    requires ':' !in scheme
    ensures HostStart(scheme + ("://" + rest)) == if rest != "" && rest[0] != '\0' then |scheme| + 3 else 0
  {
    var base := scheme + ("://" + rest);
    assert "://" + rest == [':'] + ("//" + rest);
    FirstAt(scheme, ':', "//" + rest);
    Slices(scheme, "://" + rest);
    NulBehind("://", rest);
    assert ("://" + UpToNul(rest))[..3] == "://";
  }

  lemma BinPickingHostOfUrl(scheme: string, rest: string)
    requires ':' !in scheme && rest != "" && rest[0] != '\0' && rest[|rest| - 1] == '/'
    ensures BinPickingHost(scheme + ("://" + rest)) == HostAndPort(rest).0
  {
    var base, start := scheme + ("://" + rest), |scheme| + 3;
    HostStartOfUrl(scheme, rest);
    AfterScheme(scheme, rest);
    HostAndPortInPlace(base, start);
    IndexOfIsFirst(base, '/', start);
  }

  lemma HostIgnoresSlash(rest: string)
    ensures HostAndPort(rest + "/").0 == HostAndPort(rest).0
  {
    IndexOfIsFirst(rest, ':', 0);
    IndexOfIsFirst(rest, '/', 0);
    AppendKeepsFirst(rest, "/", ':');
    AppendKeepsFirst(rest, "/", '/');
    var port, slash := IndexOf(rest, ':', 0), IndexOf(rest, '/', 0);
    Prefixes(rest, "/", port);
    Prefixes(rest, "/", slash);
  }

  lemma Prefixes(a: string, b: string, i: nat)
    requires i <= |a|
    ensures (a + b)[..i] == a[..i]
  {
  }

  lemma AppendKeepsFirst(a: string, b: string, c: char)
    ensures IndexOf(a + b, c, 0) == if IndexOf(a, c, 0) < |a| then IndexOf(a, c, 0) else |a| + IndexOf(b, c, 0)
  {
    var i := IndexOf(a, c, 0);
    IndexOfIsFirst(a, c, 0);
    if i < |a| {
      assert Absent(a + b, c, 0, i) && (a + b)[i] == c;
      IndexOfIs(a + b, c, 0, i);
    } else {
      IndexOfAppend(a, b, c, 0);
    }
  }

  lemma EnsureSlashAfter(scheme: string, rest: string)
    requires rest != ""
    ensures EnsureSlash(scheme + ("://" + rest)) == scheme + ("://" + EnsureSlash(rest))
  {
    var base := scheme + ("://" + rest);
    assert base[|base| - 1] == rest[|rest| - 1];
    assert base + "/" == scheme + ("://" + (rest + "/"));
  }

  lemma BinPickingHostOfBase(scheme: string, rest: string)
    requires ':' !in scheme && rest != "" && rest[0] != '\0'
    ensures BinPickingHost(EnsureSlash(scheme + ("://" + rest))) == HostAndPort(rest).0
  {
    EnsureSlashAfter(scheme, rest);
    BinPickingHostOfUrl(scheme, EnsureSlash(rest));
    if rest[|rest| - 1] != '/' {
      HostIgnoresSlash(rest);
    }
  }

  /** Nothing to read behind `://`: the second parser starts over at the scheme. */
  lemma BinPickingHostOfScheme(scheme: string, rest: string)
    requires ':' !in scheme && (rest == "" || rest[0] == '\0')
    ensures BinPickingHost(EnsureSlash(scheme + ("://" + rest))) == "" <==> scheme == "" || scheme[0] == '/'
  {
    var base := EnsureSlash(scheme + ("://" + rest));
    var rest' := if rest == "" then rest else EnsureSlash(rest);
    SlashBehindScheme(scheme, rest);
    HostStartOfUrl(scheme, rest');
    FirstOf(scheme, "://" + rest');
    IndexOfIsFirst(base, '/', 0);
    if scheme != "" {
      assert scheme[0] in scheme;
    }
  }

  lemma SlashBehindScheme(scheme: string, rest: string)
    ensures EnsureSlash(scheme + ("://" + rest)) == scheme + ("://" + if rest == "" then rest else EnsureSlash(rest))
  {
    if rest == "" {
      assert scheme + ("://" + rest) == scheme + "://" && (scheme + "://")[|scheme| + 2] == '/';
    } else {
      EnsureSlashAfter(scheme, rest);
    }
  }

  lemma FirstOf(a: string, b: string)
    requires b != ""
    ensures (a + b)[0] == if a == "" then b[0] else a[0]
  {
  }

  lemma ParsesScheme(scheme: string, rest: string)
    requires ':' !in scheme
    ensures ParseText(scheme + ("://" + rest)) == ParseAuthority(rest)
  {
    FindScheme(scheme, rest, 0);
    AfterScheme(scheme, rest);
  }

  lemma NoScheme(s: string)
    requires ':' !in s
    ensures ParseText(s) == Parsed(NO_INFO)
  {
    forall k | 0 <= k < |s| ensures !OccursAt(s, "://", k) {
      assert s[k] in s;
      NotAtScheme(s, k);
    }
    FindIs(s, "://", 0, |s|);
  }

  lemma CutIs(s: string, n: nat)
    requires n <= |s| && '\0' !in s[..n] && (n < |s| ==> s[n] == '\0')
    ensures UpToNul(s) == s[..n]
  {
    assert s == s[..n] + s[n..];
    NulBehind(s[..n], s[n..]);
    assert UpToNul(s[n..]) == "" && s[..n] + "" == s[..n];
  }

  lemma IndexOfPrefix(s: string, n: nat, c: char)
    requires n <= |s|
    ensures IndexOf(s[..n], c, 0) == if IndexOf(s, c, 0) < n then IndexOf(s, c, 0) else n
  {
    assert s == s[..n] + s[n..];
    AppendKeepsFirst(s[..n], s[n..], c);
  }

  /** The host in a text cut at its first NUL is the host in the text, cut at its first NUL. */
  lemma HostOfCut(rest: string)
    ensures HostAndPort(UpToNul(rest)).0 == UpToNul(HostAndPort(rest).0)
  {
    var cut, n := UpToNul(rest), |UpToNul(rest)|;
    assert cut == rest[..n];
    IndexOfPrefix(rest, n, ':');
    IndexOfPrefix(rest, n, '/');
    var (port, slash) := (IndexOf(rest, ':', 0), IndexOf(rest, '/', 0));
    var end := if port < slash then port else slash;
    HostEnds(rest, end);
    HostEnds(cut, if end < n then end else n);
    if end < n {
      assert rest[..end] == cut[..end];
      SliceIsNulFree(cut, 0, end);
    } else {
      assert rest[..end][..n] == cut && cut[..n] == cut;
      CutIs(rest[..end], n);
    }
  }

  lemma HostEnds(h: string, end: nat)
    requires end == if IndexOf(h, ':', 0) < IndexOf(h, '/', 0) then IndexOf(h, ':', 0) else IndexOf(h, '/', 0)
    ensures HostAndPort(h).0 == h[..end]
  {
  }

  /** What the client's parser finds in scheme://rest when no user information stands there. */
  lemma ClientHost(scheme: string, rest: string)
    requires ':' !in scheme && IndexOf(rest, '@', 0) >= IndexOf(rest, '/', 0)
    ensures var p := ParseUrl(scheme + ("://" + rest));
            p.Parsed? && p.info.host == if '\0' in scheme then "" else UpToNul(HostAndPort(rest).0)
  {
    if '\0' in scheme {
      NulInScheme(scheme, scheme + ("://" + rest));
    } else {
      CutUrl(scheme, rest);
      ParsesScheme(scheme, UpToNul(rest));
      LoneHost(UpToNul(rest), rest);
      HostOfCut(rest);
    }
  }

  lemma NulInScheme(scheme: string, base: string)
    requires ':' !in scheme && '\0' in scheme && scheme <= base
    ensures ParseUrl(base) == Parsed(NO_INFO)
  {
    var n := |UpToNul(scheme)|;
    assert base[..n] == scheme[..n] && base[n] == scheme[n];
    CutIs(base, n);
    NoScheme(base[..n]);
  }

  lemma CutUrl(scheme: string, rest: string)
    requires '\0' !in scheme
    ensures UpToNul(scheme + ("://" + rest)) == scheme + ("://" + UpToNul(rest))
  {
    NulBehind(scheme, "://" + rest);
    NulBehind("://", rest);
  }

  lemma LoneHost(cut: string, rest: string)
    requires cut == UpToNul(rest) && IndexOf(rest, '@', 0) >= IndexOf(rest, '/', 0)
    ensures ParseAuthority(cut) == Parsed(Info(HostAndPort(cut).0, HostAndPort(cut).1, "", ""))
  {
    IndexOfPrefix(rest, |cut|, '@');
    IndexOfPrefix(rest, |cut|, '/');
  }

  /** When the two parsers agree: something must stand behind `://`, with no NUL up to the end of the
      host (unless the host is empty); or else the scheme is empty or begins with a slash. */
  predicate SameHost(scheme: string, rest: string) {
    var host := HostAndPort(rest).0;
    if rest != "" && rest[0] != '\0' then host == "" || '\0' !in scheme + host
    else scheme == "" || scheme[0] == '/'
  }

  /** Without user information the two parsers agree exactly then. */
  lemma HostsAgree(scheme: string, rest: string)
    requires ':' !in scheme && IndexOf(rest, '@', 0) >= IndexOf(rest, '/', 0)
    ensures var base := scheme + ("://" + rest);
            ParseUrl(base).Parsed? &&
            (BinPickingHost(EnsureSlash(base)) == ParseUrl(base).info.host <==> SameHost(scheme, rest))
  {
    ClientHost(scheme, rest);
    if rest != "" && rest[0] != '\0' {
      BinPickingHostOfBase(scheme, rest);
    } else {
      BinPickingHostOfScheme(scheme, rest);
      HostBeforeNul(rest);
    }
  }

  /** A base URI that ends at `://` has no host for the client, and its scheme for the host in the
      second parser: for `http://` that is `http`. */
  lemma BareSchemeIsHost(scheme: string)
    requires ':' !in scheme && '/' !in scheme
    ensures var base := scheme + ("://" + "");
            ParseUrl(base).Parsed? && ParseUrl(base).info.host == "" && BinPickingHost(base) == scheme
  {
    ClientHost(scheme, "");
    HostBeforeNul("");
    HostStartOfUrl(scheme, "");
    FirstAt(scheme, ':', "//");
    FirstAt(scheme + ":", '/', "/");
    assert scheme + ("://" + "") == scheme + ([':'] + "//") == (scheme + ":") + (['/'] + "/");
  }

  lemma HostBeforeNul(rest: string)
    requires rest == "" || rest[0] == '\0'
    ensures UpToNul(HostAndPort(rest).0) == ""
  {
    HostOfCut(rest);
    assert UpToNul(rest) == "";
  }

  /** With a user name and a password the second parser takes the user name for the host, and with a
      user name alone it takes `user@host`. */
  lemma BinPickingTakesTheUser(u: Parts)
    requires WellFormed(u) && !u.userinfo.NoUser? && (u.userinfo.User? ==> ':' !in HostText(CutTail(u)))
    ensures var host := BinPickingHost(EnsureSlash(Compose(u)));
            ParseUrl(Compose(u)) == Parsed(PartsInfo(u)) &&
            host == (if u.userinfo.User? then u.userinfo.user + ("@" + u.host) else u.userinfo.user) &&
            (host == u.host <==> u.userinfo.UserPassword? && u.userinfo.user == u.host)
  {
    ParsesComposed(u);
    var rest := UserText(u.userinfo) + HostText(u);
    WithoutAll(u.scheme);
    WithoutAll(u.userinfo.user);
    UserTextFirst(u, rest);
    BinPickingHostOfBase(u.scheme, rest);
    if u.userinfo.User? {
      UserBeforeHost(u.userinfo.user, HostText(u), rest);
      HostBehindUser(u, rest);
    } else {
      UserFirst(u.userinfo.user, u.userinfo.password, HostText(u), rest);
    }
  }

  lemma UserTextFirst(u: Parts, rest: string)
    requires WellFormed(u) && !u.userinfo.NoUser? && rest == UserText(u.userinfo) + HostText(u)
    ensures rest != "" && rest[0] != '\0'
  {
    assert '@' in UserText(u.userinfo);
    var c := UserText(u.userinfo)[0];
    assert BeforeTail(u)[|u.scheme| + 3] == c && BeforeTail(u)[|u.scheme| + 3] in BeforeTail(u);
  }

  lemma UserBeforeHost(user: string, h: string, rest: string)
    requires rest == user + "@" + h
    ensures rest == user + (['@'] + h)
  {
  }

  lemma UserFirst(user: string, password: string, h: string, rest: string)
    requires ':' !in user && '/' !in user && rest == user + (":" + (password + "@")) + h
    ensures HostAndPort(rest).0 == user
  {
    var after := password + ("@" + h);
    assert rest == user + ([':'] + after);
    FirstAt(user, ':', after);
    PassesOne(user, ':', after, '/');
    DropPast(user, ':', after);
  }

  lemma HostBehindUser(u: Parts, rest: string)
    requires WellFormed(u) && u.userinfo.User? && ':' !in HostText(CutTail(u))
    requires rest == u.userinfo.user + (['@'] + HostText(u))
    ensures HostAndPort(rest).0 == u.userinfo.user + ("@" + u.host)
  {
    WithoutAll(u.userinfo.user);
    WithoutAll(u.host);
    var user := u.userinfo.user;
    NoPortThen(CutTail(u));
    assert u.port.NoPort? && HostText(u) == u.host + u.tail;
    assert rest == (user + ("@" + u.host)) + u.tail;
    HostAlone(user + ("@" + u.host), u.tail);
  }

  lemma NoPortThen(u: Parts)
    ensures ':' !in HostText(u) ==> u.port.NoPort?
  {
    if u.port.Port? {
      assert HostText(u)[|u.host|] == ':';
    }
  }
}
