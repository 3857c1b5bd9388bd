/**
 * The printed form of an account proxy and its parser, down to the URL splitting of Python's standard
 * library. What that library takes from Unicode tables is a parameter.
 */
module ProxyUrl {
  import opened Util
  import opened PercentEncoding

  // ---- string pieces -----------------------------------------------------------------------------------

  /** `str.partition`: the text before the first `c`, whether there is one, and the text after it. */
  function Partition(s: string, c: char): (string, bool, string)
  {
    if s == "" then ("", false, "")
    else if s[0] == c then ("", true, s[1..])
    else
      var (a, found, b) := Partition(s[1..], c);
      ([s[0]] + a, found, b)
  }

  /** `str.rpartition`: likewise around the last `c`. */
  function LastPartition(s: string, c: char): (string, bool, string)
  {
    if c !in s then ("", false, s)
    else if s[|s| - 1] == c then (s[..|s| - 1], true, "")
    else
      var (a, _, b) := LastPartition(s[..|s| - 1], c);
      (a, true, b + [s[|s| - 1]])
  }

  /** `s.split(c, n)`. */
  function SplitAtMost(s: string, c: char, n: nat): (r: seq<string>)
    ensures r != []
    decreases n
  {
    if n == 0 || c !in s then [s]
    else
      var (a, _, b) := Partition(s, c);
      [a] + SplitAtMost(b, c, n - 1)
  }

  function Split(s: string, c: char): seq<string> { SplitAtMost(s, c, |s|) }

  predicate HasMarker(s: string) { |s| >= 3 && (s[..3] == "://" || HasMarker(s[1..])) }

  predicate Digit(c: char) { '0' <= c <= '9' }

  predicate Digits(s: string) { forall i :: 0 <= i < |s| ==> Digit(s[i]) }

  function Decimal(n: int): string
    decreases n < 0, if n < 0 then -n else n
  {
    if n < 0 then "-" + Decimal(-n)
    else if n < 10 then [(n + '0' as int) as char]
    else Decimal(n / 10) + [(n % 10 + '0' as int) as char]
  }

  function Value(s: string): int
    requires Digits(s)
  {
    if s == "" then 0 else Value(s[..|s| - 1]) * 10 + (s[|s| - 1] as int - '0' as int)
  }

  lemma {:induction false} DecimalHasValue(n: nat)
    ensures Decimal(n) != "" && Digits(Decimal(n)) && Value(Decimal(n)) == n
  {
    if n < 10 {
      assert Decimal(n)[..|Decimal(n)| - 1] == "";
    } else {
      DecimalHasValue(n / 10);
      var s := Decimal(n);
      assert s[..|s| - 1] == Decimal(n / 10);
    }
  }

  lemma {:induction false} PartitionSplits(s: string, c: char)
    ensures var (a, found, b) := Partition(s, c);
      found == (c in s) && if found then s == a + [c] + b && c !in a else a == s && b == ""
  {
    if s != "" && s[0] != c { PartitionSplits(s[1..], c); }
  }

  lemma {:induction false} PartitionAt(a: string, c: char, b: string)
    requires c !in a
    ensures Partition(a + [c] + b, c) == (a, true, b)
  {
    var s := a + [c] + b;
    if a == "" {
      assert s[0] == c && s[1..] == b;
    } else {
      assert s[0] == a[0] && a[0] in a && s[1..] == a[1..] + [c] + b;
      PartitionAt(a[1..], c, b);
      assert [a[0]] + a[1..] == a;
    }
  }

  lemma {:induction false} LastPartitionAt(a: string, c: char, b: string)
    requires c !in b
    ensures LastPartition(a + [c] + b, c) == (a, true, b)
    decreases |b|
  {
    var s := a + [c] + b;
    assert s[|a|] == c;
    if b == "" {
      assert s[|s| - 1] == c && s[..|s| - 1] == a;
    } else {
      var front := b[..|b| - 1];
      assert s[|s| - 1] == b[|b| - 1] && b[|b| - 1] in b && s[..|s| - 1] == a + [c] + front;
      LastPartitionAt(a, c, front);
      assert front + [b[|b| - 1]] == b;
    }
  }

  // ---- hosts -----------------------------------------------------------------------------------------------

  /**
   * What the library looks up: lower case, letters and digits, decimal digits, compatibility
   * normalisation, and whether a network location with brackets is well-formed.
   */
  datatype Tables = Tables(
    lower: string -> string, alnum: char -> bool, digit: char -> Option<nat>,
    compatible: string -> string, brackets: string -> bool)

  predicate AsciiAlnum(c: char) { Digit(c) || 'a' <= c <= 'z' || 'A' <= c <= 'Z' }

  /** On ASCII the tables say what ASCII says, and no capital of ASCII survives lowering. */
  ghost predicate Standard(t: Tables)
  {
    && (forall s :: Ascii(s) ==> t.lower(s) == AsciiLower(s))
    && (forall s, i :: 0 <= i < |t.lower(s)| ==> !Capital(t.lower(s)[i]))
    && (forall c :: AsciiChar(c) ==> t.alnum(c) == AsciiAlnum(c))
    && (forall c :: AsciiChar(c) ==> t.digit(c) == if Digit(c) then Some(c as int - '0' as int) else None)
  }

  datatype Error =
    | Format | FieldCount | HostInvalid | HostNotAllowed | PortNotNumber | Address | HasPath | PortRange
    | NoCredentials | CredentialsTooLong

  /** One number of a dotted address: up to three digits, no leading zero, at most 255. */
  predicate Octet(s: string)
  {
    && 1 <= |s| <= 3 && Digits(s) && (s[0] == '0' ==> |s| == 1) && Value(s) <= 255
  }

  predicate Ipv4(host: string)
  {
    var octets := Split(host, '.');
    |octets| == 4 && forall i :: 0 <= i < 4 ==> Octet(octets[i])
  }

  /** Loopback, the unspecified address and the link-local network. */
  predicate Forbidden(host: string)
    requires Ipv4(host)
  {
    var octets := Split(host, '.');
    assert Octet(octets[0]) && Octet(octets[1]) && Octet(octets[2]) && Octet(octets[3]);
    var a, b, c, d := Value(octets[0]), Value(octets[1]), Value(octets[2]), Value(octets[3]);
    a == 127 || (a == 0 && b == 0 && c == 0 && d == 0) || (a == 169 && b == 254)
  }

  predicate Label(t: Tables, s: string)
  {
    1 <= |s| <= 63 && s[0] != '-' && s[|s| - 1] != '-' && forall i :: 0 <= i < |s| ==> t.alnum(s[i]) || s[i] == '-'
  }

  function StripDots(s: string): string { if s != "" && s[|s| - 1] == '.' then StripDots(s[..|s| - 1]) else s }

  predicate Delimiter(c: char) { c in "\r\n\0/@?#:" }

  predicate EndsWith(s: string, suffix: string) { |s| >= |suffix| && s[|s| - |suffix|..] == suffix }

  predicate AllowedText(host: string)
  {
    forall i :: 0 <= i < |host| ==> !Delimiter(host[i]) && !IsSpace(host[i])
  }

  /** The tests of `validate_proxy_account_host` on the normalised host. */
  function HostError(t: Tables, host: string): Option<Error>
  {
    if host == "" || |host| > 253 || !AllowedText(host) then Some(HostInvalid)
    else if host == "localhost" || EndsWith(host, ".localhost") then Some(HostNotAllowed)
    else if Ipv4(host) then if Forbidden(host) then Some(HostNotAllowed) else None
    else if exists i :: 0 <= i < |Split(host, '.')| && !Label(t, Split(host, '.')[i]) then Some(HostInvalid)
    else None
  }

  function NormalHost(t: Tables, value: string): string { StripDots(t.lower(Strip(value))) }

  /** `validate_proxy_account_host`. */
  function ValidateHost(t: Tables, value: string): Result<string, Error>
  {
    var host := NormalHost(t, value);
    match HostError(t, host)
    case Some(error) => Failure(error)
    case None => Success(host)
  }

  const Schemes: seq<string> := ["http", "https", "socks5", "socks5h"]

  /** `validate_proxy_api_scheme`, on the ASCII schemes that URL splitting yields. */
  function ValidateScheme(value: string): Result<string, Error>
  {
    var scheme := AsciiLower(Strip(if value == "" then "http" else value));
    if scheme in Schemes then Success(scheme) else Failure(Address)
  }

  // ---- URL splitting ------------------------------------------------------------------------------------------

  datatype UrlParts = UrlParts(scheme: string, netloc: string, path: string, query: string, fragment: string)

  function SkipControls(s: string): string { if s != "" && s[0] as int <= 32 then SkipControls(s[1..]) else s }

  predicate Unsafe(c: char) { c in "\t\r\n" }

  function DropUnsafe(s: string): string
  {
    if s == "" then "" else (if Unsafe(s[0]) then "" else [s[0]]) + DropUnsafe(s[1..])
  }

  predicate SchemeChar(c: char) { AsciiAlnum(c) || c in "+-." }

  predicate SchemeName(s: string)
  {
    s != "" && AsciiAlnum(s[0]) && !Digit(s[0]) && forall i :: 0 <= i < |s| ==> SchemeChar(s[i])
  }

  /** The longest prefix without a character that ends the network location. */
  function NetlocLength(s: string): (n: nat)
    ensures n <= |s|
  {
    if s == "" || s[0] in "/?#" then 0 else 1 + NetlocLength(s[1..])
  }

  function DropPunctuation(s: string): string
  {
    if s == "" then "" else (if s[0] in "@:#?" then "" else [s[0]]) + DropPunctuation(s[1..])
  }

  /** Whether normalisation would bring up a delimiter. */
  predicate Deceptive(t: Tables, netloc: string)
  {
    && !Ascii(netloc)
    && var n := DropPunctuation(netloc);
    t.compatible(n) != n && exists i :: 0 <= i < |t.compatible(n)| && t.compatible(n)[i] in "/?#@:"
  }

  function UrlSplit(t: Tables, url: string): Option<UrlParts>
  {
    var clean := DropUnsafe(SkipControls(url));
    var (before, found, after) := Partition(clean, ':');
    var (scheme, rest) := if found && SchemeName(before) then (AsciiLower(before), after) else ("", clean);
    var n := if |rest| >= 2 && rest[..2] == "//" then NetlocLength(rest[2..]) else 0;
    var (netloc, tail) := if |rest| >= 2 && rest[..2] == "//" then (rest[2..][..n], rest[2..][n..]) else ("", rest);
    if ('[' in netloc) != (']' in netloc) || ('[' in netloc && !t.brackets(netloc)) || Deceptive(t, netloc) then None
    else
      var (upper, _, fragment) := Partition(tail, '#');
      var (path, _, query) := Partition(upper, '?');
      Some(UrlParts(scheme, netloc, path, query, fragment))
  }

  /** Host name and port text of a network location. */
  function HostAndPort(netloc: string): (string, string)
  {
    var (_, _, info) := LastPartition(netloc, '@');
    var (_, open, bracketed) := Partition(info, '[');
    if open then
      var (name, _, rest) := Partition(bracketed, ']');
      (name, Partition(rest, ':').2)
    else
      var (name, _, port) := Partition(info, ':');
      (name, port)
  }

  /** `SplitResult.hostname`: lower case up to a zone. */
  function HostName(t: Tables, netloc: string): string
  {
    var (name, zone, rest) := Partition(HostAndPort(netloc).0, '%');
    t.lower(name) + (if zone then ['%'] + rest else "")
  }

  /** `SplitResult.port`, 0 when absent. */
  function PortOf(netloc: string): Result<int, Error>
  {
    var port := HostAndPort(netloc).1;
    if port == "" then Success(0)
    else if Digits(port) && Value(port) <= 65535 then Success(Value(port))
    else Failure(Address)
  }

  /** User name and password, still encoded, empty when absent. */
  function UserInfo(netloc: string): (string, string)
  {
    var (info, _, _) := LastPartition(netloc, '@');
    var (user, _, password) := Partition(info, ':');
    (user, password)
  }

  // ---- the parser ----------------------------------------------------------------------------------------------

  datatype Entry = Entry(scheme: string, host: string, port: int, username: string, password: string)

  /** `int(text)`: digits with single underscores between them. */
  function NumberBody(t: Tables, s: string, afterDigit: bool, value: int): Option<int>
  {
    if s == "" then if afterDigit then Some(value) else None
    else if s[0] == '_' then if afterDigit && |s| > 1 then NumberBody(t, s[1..], false, value) else None
    else
      match t.digit(s[0])
      case None => None
      case Some(d) => NumberBody(t, s[1..], true, value * 10 + d)
  }

  function Number(t: Tables, text: string): Option<int>
  {
    var s := Strip(text);
    if s != "" && s[0] == '+' then NumberBody(t, s[1..], false, 0)
    else if s != "" && s[0] == '-' then
      match NumberBody(t, s[1..], false, 0)
      case None => None
      case Some(n) => Some(-n)
    else NumberBody(t, s, false, 0)
  }

  function FromFields(t: Tables, line: string): Result<Entry, Error>
  {
    var fields := SplitAtMost(line, ':', 3);
    if |fields| != 4 then Failure(FieldCount)
    else
      match ValidateHost(t, fields[0])
      case Failure(error) => Failure(error)
      case Success(host) =>
        (match Number(t, fields[1])
        case None => Failure(PortNotNumber)
        case Some(port) => Success(Entry("socks5", host, port, fields[2], fields[3])))
  }

  function FromParts(t: Tables, parts: UrlParts): Result<Entry, Error>
  {
    var scheme, port := ValidateScheme(parts.scheme), PortOf(parts.netloc);
    var host := ValidateHost(t, HostName(t, parts.netloc));
    if scheme.Failure? || host.Failure? || port.Failure? then Failure(Address)
    else if (parts.path != "" && parts.path != "/") || parts.query != "" || parts.fragment != "" then Failure(HasPath)
    else
      var (user, password) := UserInfo(parts.netloc);
      Success(Entry(scheme.value, host.value, port.value, Unquote(user), Unquote(password)))
  }

  function FromUrl(t: Tables, url: string): Result<Entry, Error>
  {
    match UrlSplit(t, url)
    case None => Failure(Address)
    case Some(parts) => FromParts(t, parts)
  }

  /** An entry is written as a URL, with or without its scheme, or as four fields. */
  function FromLine(t: Tables, line: string): Result<Entry, Error>
  {
    if !HasMarker(line) && '@' !in line then FromFields(t, line)
    else FromUrl(t, if HasMarker(line) then line else "socks5://" + line)
  }

  predicate Readable(line: string)
  {
    line != "" && |line| <= 2000 && '\r' !in line && '\n' !in line && '\0' !in line
  }

  /** The checks common to both notations. */
  function Checked(e: Entry): Result<Entry, Error>
  {
    var username := Strip(e.username);
    if e.port < 1 || e.port > 65535 then Failure(PortRange)
    else if username == "" || e.password == "" then Failure(NoCredentials)
    else if |username| > 300 || |e.password| > 500 then Failure(CredentialsTooLong)
    else Success(e.(username := username))
  }

  function Finished(raw: Result<Entry, Error>): Result<Entry, Error>
  {
    match raw
    case Failure(error) => Failure(error)
    case Success(e) => Checked(e)
  }

  /** `parse_account_proxy_line`. */
  function ParseLine(t: Tables, value: string): Result<Entry, Error>
  {
    var line := Strip(value);
    if Readable(line) then Finished(FromLine(t, line)) else Failure(Format)
  }

  function Credentials(e: Entry): string { Quote(e.username) + ":" + Quote(e.password) }

  function Netloc(e: Entry): string
  {
    Credentials(e) + "@" + (e.host + ":" + Decimal(e.port))
  }

  function Printed(e: Entry): string { e.scheme + ":" + ("//" + Netloc(e)) }

  /** `account_proxy_url`: empty when a part is missing. */
  function AccountProxyUrl(e: Entry): Result<string, Error>
  {
    match ValidateScheme(if e.scheme == "" then "socks5" else e.scheme)
    case Failure(error) => Failure(error)
    case Success(scheme) =>
      var host := Strip(e.host);
      if host == "" || e.port == 0 || e.username == "" || e.password == "" then Success("")
      else Success(Printed(e.(scheme := scheme, host := host)))
  }

  // ---- what is accepted ------------------------------------------------------------------------------------------

  /** The entries that come out of the parser with an ASCII host. */
  ghost predicate WellFormed(t: Tables, e: Entry)
  {
    && HasNormalHost(t, e) && Ascii(e.host)
    && 1 <= e.port <= 65535
    && e.username != "" && Strip(e.username) == e.username && |e.username| <= 300
    && e.password != "" && |e.password| <= 500
  }

  lemma {:induction false} StripDotsIsPrefix(s: string)
    ensures StripDots(s) <= s && StripDots(StripDots(s)) == StripDots(s)
  {
    if s != "" && s[|s| - 1] == '.' { StripDotsIsPrefix(s[..|s| - 1]); }
  }

  /** A validated ASCII host is its own normal form. */
  lemma ValidatedHostIsNormal(t: Tables, value: string)
    requires Standard(t)
    ensures var v := ValidateHost(t, value);
      v.Success? && Ascii(v.value) ==> NormalHost(t, v.value) == v.value && HostError(t, v.value) == None
  {
    var host := NormalHost(t, value);
    if HostError(t, host) == None && Ascii(host) {
      StripDotsIsPrefix(t.lower(Strip(value)));
      assert forall i :: 0 <= i < |host| ==> host[i] == t.lower(Strip(value))[i];
      assert forall i :: 0 <= i < |host| ==> !IsSpace(host[i]);
      StripKeeps(host);
      assert AsciiLower(host) == host;
    }
  }

  predicate HasNormalHost(t: Tables, e: Entry)
  {
    e.scheme in Schemes && NormalHost(t, e.host) == e.host && HostError(t, e.host) == None
  }

  lemma CheckedIsWellFormed(t: Tables, raw: Entry)
    requires HasNormalHost(t, raw) && Ascii(raw.host) && Checked(raw).Success?
    ensures WellFormed(t, Checked(raw).value)
  {
    StripIsIdempotent(raw.username);
  }

  lemma FieldsGiveNormalHost(t: Tables, line: string)
    requires Standard(t)
    ensures var r := FromFields(t, line); r.Success? && Ascii(r.value.host) ==> HasNormalHost(t, r.value)
  {
    ValidatedHostIsNormal(t, SplitAtMost(line, ':', 3)[0]);
  }

  lemma PartsGiveNormalHost(t: Tables, parts: UrlParts)
    requires Standard(t)
    ensures var r := FromParts(t, parts); r.Success? && Ascii(r.value.host) ==> HasNormalHost(t, r.value)
  {
    ValidatedHostIsNormal(t, HostName(t, parts.netloc));
  }

  lemma LineGivesNormalHost(t: Tables, line: string)
    requires Standard(t)
    ensures var r := FromLine(t, line); r.Success? && Ascii(r.value.host) ==> HasNormalHost(t, r.value)
  {
    if !HasMarker(line) && '@' !in line {
      FieldsGiveNormalHost(t, line);
    } else {
      var parts := UrlSplit(t, if HasMarker(line) then line else "socks5://" + line);
      if parts.Some? { PartsGiveNormalHost(t, parts.value); }
    }
  }

  lemma FinishedIsWellFormed(t: Tables, r: Result<Entry, Error>, e: Entry)
    requires Finished(r) == Success(e) && Ascii(e.host)
    requires r.Success? && Ascii(r.value.host) ==> HasNormalHost(t, r.value)
    ensures WellFormed(t, e)
  {
    CheckedIsWellFormed(t, r.value);
  }

  lemma ParsedIsWellFormed(t: Tables, value: string, e: Entry)
    requires Standard(t) && ParseLine(t, value) == Success(e) && Ascii(e.host)
    ensures WellFormed(t, e)
  {
    LineGivesNormalHost(t, Strip(value));
    FinishedIsWellFormed(t, FromLine(t, Strip(value)), e);
  }

  // ---- the round trip -------------------------------------------------------------------------------------

  /** Characters of host names: nothing that a URL gives a meaning. */
  predicate HostChar(c: char) { AsciiAlnum(c) || c == '-' || c == '.' }

  lemma {:induction false} SplitCovers(s: string, c: char, n: nat, i: nat)
    requires n >= |s| && i < |s| && s[i] != c
    ensures exists k :: 0 <= k < |SplitAtMost(s, c, n)| && s[i] in SplitAtMost(s, c, n)[k]
    decreases n
  {
    if c !in s {
      assert s[i] in SplitAtMost(s, c, n)[0];
    } else {
      PartitionSplits(s, c);
      var (a, _, b) := Partition(s, c);
      var rest := SplitAtMost(b, c, n - 1);
      assert SplitAtMost(s, c, n) == [a] + rest;
      if i < |a| {
        assert a[i] == s[i];
        assert s[i] in SplitAtMost(s, c, n)[0];
      } else {
        var j := i - |a| - 1;
        assert b[j] == s[i];
        SplitCovers(b, c, n - 1, j);
        var k :| 0 <= k < |rest| && b[j] in rest[k];
        assert SplitAtMost(s, c, n)[k + 1] == rest[k];
      }
    }
  }

  lemma HostCharsOnly(t: Tables, host: string)
    requires Standard(t) && Ascii(host) && HostError(t, host) == None
    ensures host != "" && forall i :: 0 <= i < |host| ==> HostChar(host[i])
  {
    var labels := Split(host, '.');
    forall i | 0 <= i < |host| ensures HostChar(host[i]) {
      if host[i] != '.' {
        SplitCovers(host, '.', |host|, i);
        var k :| 0 <= k < |labels| && host[i] in labels[k];
        if Ipv4(host) {
          assert Octet(labels[k]);
        } else {
          assert Label(t, labels[k]);
        }
      }
    }
  }

  /** Visible ASCII without brackets and without what ends a network location. */
  predicate Plain(c: char) { 33 <= c as int < 127 && c !in "/?#[]" }

  predicate AllPlain(s: string) { forall i :: 0 <= i < |s| ==> Plain(s[i]) }

  predicate AllVisible(s: string) { forall i :: 0 <= i < |s| ==> 33 <= s[i] as int < 127 }

  predicate SmallAlnum(c: char) { Digit(c) || 'a' <= c <= 'z' }

  /** What reading a printed entry back relies on. */
  ghost predicate Printable(e: Entry)
  {
    && e.scheme != "" && 'a' <= e.scheme[0] <= 'z' && (forall i :: 0 <= i < |e.scheme| ==> SmallAlnum(e.scheme[i]))
    && e.host != "" && (forall i :: 0 <= i < |e.host| ==> HostChar(e.host[i]) && !Capital(e.host[i]))
    && 1 <= e.port <= 65535
  }

  lemma SchemeIsSmall(scheme: string)
    requires scheme in Schemes
    ensures scheme != "" && 'a' <= scheme[0] <= 'z' && forall i :: 0 <= i < |scheme| ==> SmallAlnum(scheme[i])
  {
    assert scheme == Schemes[0] || scheme == Schemes[1] || scheme == Schemes[2] || scheme == Schemes[3];
  }

  lemma LowerHostIsItself(t: Tables, host: string)
    requires Standard(t) && Ascii(host) && NormalHost(t, host) == host && HostError(t, host) == None
    ensures t.lower(host) == host && forall i :: 0 <= i < |host| ==> !Capital(host[i])
  {
    HostCharsOnly(t, host);
    StripKeeps(host);
    StripDotsIsPrefix(t.lower(host));
    assert t.lower(host) == AsciiLower(host);
    assert host == t.lower(host);
  }

  lemma WellFormedIsPrintable(t: Tables, e: Entry)
    requires Standard(t) && WellFormed(t, e)
    ensures Printable(e) && t.lower(e.host) == e.host
  {
    SchemeIsSmall(e.scheme);
    HostCharsOnly(t, e.host);
    LowerHostIsItself(t, e.host);
  }

  lemma QuoteIsPlain(s: string)
    ensures AllPlain(Quote(s)) && ':' !in Quote(s) && '@' !in Quote(s)
  {
    QuotedChars(Utf8(s));
    forall i | 0 <= i < |Quote(s)| ensures Plain(Quote(s)[i]) && Quote(s)[i] != ':' && Quote(s)[i] != '@' {
      assert QuotedChar(Quote(s)[i]);
    }
  }

  lemma HostIsPlain(e: Entry)
    requires Printable(e)
    ensures AllPlain(e.host) && ':' !in e.host && '@' !in e.host && '[' !in e.host && '%' !in e.host
    ensures AllPlain(Decimal(e.port)) && '@' !in Decimal(e.port) && '[' !in Decimal(e.port)
  {
    DecimalHasValue(e.port);
    assert forall i :: 0 <= i < |e.host| ==> HostChar(e.host[i]);
  }

  lemma NetlocIsPlain(e: Entry)
    requires Printable(e)
    ensures AllPlain(Netloc(e))
  {
    HostIsPlain(e);
    QuoteIsPlain(e.username);
    QuoteIsPlain(e.password);
    assert AllPlain(Credentials(e));
    assert AllPlain(e.host + ":" + Decimal(e.port));
  }

  lemma {:induction false} PlainNetlocIsWhole(s: string)
    requires AllPlain(s)
    ensures NetlocLength(s) == |s|
  {
    if s != "" {
      assert Plain(s[0]);
      PlainNetlocIsWhole(s[1..]);
    }
  }

  lemma {:induction false} VisibleIsKept(s: string)
    requires AllVisible(s)
    ensures DropUnsafe(s) == s && SkipControls(s) == s
  {
    if s != "" { VisibleIsKept(s[1..]); }
  }

  lemma NetlocReadsBack(e: Entry)
    requires Printable(e)
    ensures UserInfo(Netloc(e)) == (Quote(e.username), Quote(e.password))
    ensures HostAndPort(Netloc(e)) == (e.host, Decimal(e.port))
  {
    HostIsPlain(e);
    QuoteIsPlain(e.username);
    var info := e.host + ":" + Decimal(e.port);
    LastPartitionAt(Credentials(e), '@', info);
    PartitionAt(Quote(e.username), ':', Quote(e.password));
    PartitionAt(e.host, ':', Decimal(e.port));
    PartitionSplits(info, '[');
    assert '[' !in info;
  }

  lemma PrintedIsVisible(e: Entry)
    requires Printable(e)
    ensures AllVisible(Printed(e)) && Strip(Printed(e)) == Printed(e)
  {
    NetlocIsPlain(e);
    assert AllVisible(Netloc(e)) by { assert forall i :: 0 <= i < |Netloc(e)| ==> Plain(Netloc(e)[i]); }
    assert AllVisible(e.scheme) by { assert forall i :: 0 <= i < |e.scheme| ==> SmallAlnum(e.scheme[i]); }
    StripKeeps(Printed(e));
  }

  lemma SmallSchemeIsName(scheme: string)
    requires scheme != "" && 'a' <= scheme[0] <= 'z' && forall i :: 0 <= i < |scheme| ==> SmallAlnum(scheme[i])
    ensures SchemeName(scheme) && AsciiLower(scheme) == scheme && Strip(scheme) == scheme && ':' !in scheme
  {
    assert forall i :: 0 <= i < |scheme| ==> SchemeChar(scheme[i]) && !Capital(scheme[i]);
    assert AsciiLower(scheme) == scheme;
    assert SmallAlnum(scheme[|scheme| - 1]);
    StripKeeps(scheme);
  }

  lemma PlainNetlocIsAllowed(t: Tables, netloc: string)
    requires AllPlain(netloc)
    ensures '[' !in netloc && ']' !in netloc && !Deceptive(t, netloc)
  {
    assert forall i :: 0 <= i < |netloc| ==> Plain(netloc[i]);
    assert Ascii(netloc);
  }

  lemma NetlocIsCut(netloc: string)
    requires AllPlain(netloc)
    ensures var rest := "//" + netloc;
      && |rest| >= 2 && rest[..2] == "//" && rest[2..] == netloc && NetlocLength(rest[2..]) == |netloc|
      && netloc[..|netloc|] == netloc && netloc[|netloc|..] == ""
  {
    PlainNetlocIsWhole(netloc);
    assert ("//" + netloc)[2..] == netloc;
  }

  lemma CleanUrlSplits(t: Tables, url: string, scheme: string, netloc: string)
    requires url == scheme + [':'] + ("//" + netloc) && DropUnsafe(SkipControls(url)) == url
    requires SchemeName(scheme) && AsciiLower(scheme) == scheme && ':' !in scheme && AllPlain(netloc)
    ensures UrlSplit(t, url) == Some(UrlParts(scheme, netloc, "", "", ""))
  {
    PartitionAt(scheme, ':', "//" + netloc);
    NetlocIsCut(netloc);
    PlainNetlocIsAllowed(t, netloc);
    assert Partition("", '#') == ("", false, "") && Partition("", '?') == ("", false, "");
  }

  lemma PrintedSplits(t: Tables, e: Entry)
    requires Printable(e)
    ensures UrlSplit(t, Printed(e)) == Some(UrlParts(e.scheme, Netloc(e), "", "", ""))
  {
    PrintedIsVisible(e);
    VisibleIsKept(Printed(e));
    SmallSchemeIsName(e.scheme);
    NetlocIsPlain(e);
    CleanUrlSplits(t, Printed(e), e.scheme, Netloc(e));
  }

  lemma {:induction false} MarkerIsFound(a: string, b: string)
    ensures HasMarker(a + "://" + b)
  {
    var s := a + "://" + b;
    if a == "" {
      assert s[..3] == "://";
    } else {
      assert s[1..] == a[1..] + "://" + b;
      MarkerIsFound(a[1..], b);
    }
  }

  /** Each part of the printed network location is read as it was. */
  lemma NetlocPartsReadBack(t: Tables, e: Entry)
    requires Printable(e) && t.lower(e.host) == e.host
    ensures HostName(t, Netloc(e)) == e.host && PortOf(Netloc(e)) == Success(e.port)
  {
    NetlocReadsBack(e);
    HostIsPlain(e);
    DecimalHasValue(e.port);
    PartitionSplits(e.host, '%');
    assert Partition(e.host, '%') == (e.host, false, "");
  }

  lemma NormalHostValidates(t: Tables, e: Entry)
    requires HasNormalHost(t, e) && Printable(e)
    ensures ValidateHost(t, e.host) == Success(e.host) && ValidateScheme(e.scheme) == Success(e.scheme)
  {
    SmallSchemeIsName(e.scheme);
  }

  lemma ValidPartsRead(t: Tables, e: Entry, netloc: string)
    requires ValidateScheme(e.scheme) == Success(e.scheme) && ValidateHost(t, e.host) == Success(e.host)
    requires HostName(t, netloc) == e.host && PortOf(netloc) == Success(e.port)
    requires UserInfo(netloc) == (Quote(e.username), Quote(e.password))
    ensures FromParts(t, UrlParts(e.scheme, netloc, "", "", "")) == Success(e)
  {
    UnquoteQuote(e.username);
    UnquoteQuote(e.password);
  }

  lemma PartsReadBack(t: Tables, e: Entry)
    requires Printable(e) && t.lower(e.host) == e.host && HasNormalHost(t, e)
    ensures FromParts(t, UrlParts(e.scheme, Netloc(e), "", "", "")) == Success(e)
  {
    NetlocPartsReadBack(t, e);
    NetlocReadsBack(e);
    NormalHostValidates(t, e);
    ValidPartsRead(t, e, Netloc(e));
  }

  lemma PrintedUrlReads(t: Tables, e: Entry)
    requires Printable(e) && t.lower(e.host) == e.host && HasNormalHost(t, e)
    ensures FromUrl(t, Printed(e)) == Success(e)
  {
    PrintedSplits(t, e);
    PartsReadBack(t, e);
  }

  lemma PrintedHasMarker(e: Entry)
    ensures HasMarker(Printed(e))
  {
    assert Printed(e) == e.scheme + "://" + Netloc(e);
    MarkerIsFound(e.scheme, Netloc(e));
  }

  lemma UrlOfWellFormed(t: Tables, e: Entry)
    requires Standard(t) && WellFormed(t, e)
    ensures AccountProxyUrl(e) == Success(Printed(e))
  {
    WellFormedIsPrintable(t, e);
    SmallSchemeIsName(e.scheme);
    assert HostChar(e.host[0]) && HostChar(e.host[|e.host| - 1]);
    StripKeeps(e.host);
  }

  lemma ReadLineParses(t: Tables, line: string, e: Entry)
    requires Strip(line) == line && FromLine(t, line) == Success(e) && Checked(e) == Success(e)
    ensures ParseLine(t, line) == if Readable(line) then Success(e) else Failure(Format)
  {
  }

  lemma VisibleIsReadable(s: string)
    requires AllVisible(s) && s != ""
    ensures Readable(s) <==> |s| <= 2000
  {
  }

  lemma ReadUrlParses(t: Tables, e: Entry)
    requires Printable(e) && FromUrl(t, Printed(e)) == Success(e) && Checked(e) == Success(e)
    ensures ParseLine(t, Printed(e)) == if |Printed(e)| <= 2000 then Success(e) else Failure(Format)
  {
    PrintedIsVisible(e);
    PrintedHasMarker(e);
    VisibleIsReadable(Printed(e));
    assert FromLine(t, Printed(e)) == FromUrl(t, Printed(e));
    ReadLineParses(t, Printed(e), e);
  }

  lemma WellFormedParsesBack(t: Tables, e: Entry)
    requires Standard(t) && WellFormed(t, e)
    ensures ParseLine(t, Printed(e)) == if |Printed(e)| <= 2000 then Success(e) else Failure(Format)
  {
    WellFormedIsPrintable(t, e);
    PrintedUrlReads(t, e);
    assert Checked(e) == Success(e);
    ReadUrlParses(t, e);
  }

  /**
   * The printed URL of every accepted entry with an ASCII host parses back to that entry, credentials and
   * all, exactly when it is short enough to be read.
   */
  lemma PrintedUrlParsesBack(t: Tables, value: string, e: Entry)
    requires Standard(t) && ParseLine(t, value) == Success(e) && Ascii(e.host)
    ensures AccountProxyUrl(e).Success?
    ensures var url := AccountProxyUrl(e).value;
      ParseLine(t, url) == if |url| <= 2000 then Success(e) else Failure(Format)
  {
    ParsedIsWellFormed(t, value, e);
    UrlOfWellFormed(t, e);
    WellFormedParsesBack(t, e);
  }

  // ---- the notation with four fields -------------------------------------------------------------------------

  function Fields(e: Entry): string { e.host + ":" + (Decimal(e.port) + ":" + (e.username + ":" + e.password)) }

  function Fold(value: int, s: string): int
    requires Digits(s)
    decreases |s|
  {
    if s == "" then value else Fold(value * 10 + (s[0] as int - '0' as int), s[1..])
  }

  lemma {:induction false} FoldExtends(value: int, s: string, c: char)
    requires Digits(s) && Digit(c)
    ensures Digits(s + [c]) && Fold(value, s + [c]) == Fold(value, s) * 10 + (c as int - '0' as int)
    decreases |s|
  {
    var longer := s + [c];
    assert Digits(longer);
    if s == "" {
      assert longer == [c] && longer[1..] == "";
    } else {
      assert longer[1..] == s[1..] + [c];
      FoldExtends(value * 10 + (s[0] as int - '0' as int), s[1..], c);
    }
  }

  lemma {:induction false} FoldIsValue(s: string)
    requires Digits(s)
    ensures Fold(0, s) == Value(s)
    decreases |s|
  {
    if s != "" {
      var front := s[..|s| - 1];
      FoldIsValue(front);
      FoldExtends(0, front, s[|s| - 1]);
      assert front + [s[|s| - 1]] == s;
    }
  }

  lemma {:induction false} DigitsAreNumber(t: Tables, s: string, afterDigit: bool, value: int)
    requires Standard(t) && Digits(s) && (s != "" || afterDigit)
    ensures NumberBody(t, s, afterDigit, value) == Some(Fold(value, s))
  {
    if s != "" {
      assert AsciiChar(s[0]) && Digit(s[0]);
      DigitsAreNumber(t, s[1..], true, value * 10 + (s[0] as int - '0' as int));
    }
  }

  lemma DecimalIsNumber(t: Tables, n: nat)
    requires Standard(t)
    ensures Number(t, Decimal(n)) == Some(n)
  {
    var s := Decimal(n);
    DecimalHasValue(n);
    assert Digit(s[0]) && Digit(s[|s| - 1]);
    StripKeeps(s);
    FoldIsValue(s);
    DigitsAreNumber(t, s, false, 0);
  }

  lemma FieldsSplit(e: Entry)
    requires Printable(e) && ':' !in e.username
    ensures SplitAtMost(Fields(e), ':', 3) == [e.host, Decimal(e.port), e.username, e.password]
  {
    HostIsPlain(e);
    DecimalHasValue(e.port);
    var last := e.username + ":" + e.password;
    var middle := Decimal(e.port) + ":" + last;
    PartitionAt(e.username, ':', e.password);
    PartitionAt(Decimal(e.port), ':', last);
    PartitionAt(e.host, ':', middle);
    assert SplitAtMost(last, ':', 1) == [e.username] + SplitAtMost(e.password, ':', 0);
    assert SplitAtMost(middle, ':', 2) == [Decimal(e.port)] + SplitAtMost(last, ':', 1);
    assert SplitAtMost(Fields(e), ':', 3) == [e.host] + SplitAtMost(middle, ':', 2);
  }

  lemma FieldsRead(t: Tables, e: Entry)
    requires Standard(t) && Printable(e) && HasNormalHost(t, e) && e.scheme == "socks5" && ':' !in e.username
    ensures FromFields(t, Fields(e)) == Success(e)
  {
    FieldsSplit(e);
    DecimalIsNumber(t, e.port);
  }

  /** Whether a line is taken for four fields and read as it stands. */
  predicate FieldLine(line: string)
  {
    !HasMarker(line) && '@' !in line && Readable(line) && Strip(line) == line
  }

  lemma FieldLineParses(t: Tables, line: string, e: Entry)
    requires FieldLine(line) && FromFields(t, line) == Success(e) && Checked(e) == Success(e)
    ensures ParseLine(t, line) == Success(e)
  {
  }

  /** Where the notation with four fields can express an entry, it reads the same entry as the URL does. */
  lemma NotationsAgree(t: Tables, e: Entry)
    requires Standard(t) && WellFormed(t, e) && e.scheme == "socks5" && ':' !in e.username
    requires FieldLine(Fields(e)) && |Printed(e)| <= 2000
    ensures ParseLine(t, Fields(e)) == ParseLine(t, Printed(e)) == Success(e)
  {
    FieldsParse(t, e);
    WellFormedParsesBack(t, e);
  }

  lemma FieldsParse(t: Tables, e: Entry)
    requires Standard(t) && WellFormed(t, e) && e.scheme == "socks5" && ':' !in e.username && FieldLine(Fields(e))
    ensures ParseLine(t, Fields(e)) == Success(e)
  {
    WellFormedIsPrintable(t, e);
    FieldsRead(t, e);
    assert Checked(e) == Success(e);
    FieldLineParses(t, Fields(e), e);
  }

  // ---- an accepted entry whose URL is too long ------------------------------------------------------------------

  function WidePassword(n: nat): string { if n == 0 then "" else ['\U{1F511}'] + WidePassword(n - 1) }

  function WideEntry(n: nat): Entry { Entry("socks5", "a", 1, "u", WidePassword(n)) }

  lemma {:induction false} WidePasswordBytes(n: nat)
    ensures |WidePassword(n)| == n && |Utf8(WidePassword(n))| == 4 * n
    ensures forall i :: 0 <= i < n ==> WidePassword(n)[i] == '\U{1F511}'
  {
    if n > 0 { WidePasswordBytes(n - 1); }
  }

  lemma {:induction false} NoSlashNoMarker(s: string)
    requires '/' !in s
    ensures !HasMarker(s)
  {
    if |s| >= 3 {
      assert s[1] in s;
      NoSlashNoMarker(s[1..]);
    }
  }

  lemma SingleLetterHost(t: Tables)
    requires Standard(t)
    ensures ValidateHost(t, "a") == Success("a")
  {
    assert Ascii("a") && AsciiLower("a") == "a" && Strip("a") == "a" && StripDots("a") == "a";
    assert t.lower("a") == "a";
    assert Split("a", '.') == ["a"];
    assert t.alnum('a');
    assert Label(t, "a");
  }

  lemma WideEntryIsWellFormed(t: Tables, n: nat)
    requires Standard(t) && 1 <= n <= 500
    ensures WellFormed(t, WideEntry(n))
  {
    WidePasswordBytes(n);
    SingleLetterHost(t);
    assert Schemes[2] == "socks5";
    assert Strip("u") == "u";
  }

  lemma WideLineChars(n: nat)
    requires 1 <= n
    ensures var line := "a:1:u:" + WidePassword(n);
      && |line| == n + 6
      && (forall i :: 0 <= i < |line| ==> line[i] !in "/@\r\n\0")
      && !IsSpace(line[0]) && !IsSpace(line[|line| - 1])
  {
    WidePasswordBytes(n);
    var line, password := "a:1:u:" + WidePassword(n), WidePassword(n);
    assert line[|line| - 1] == password[n - 1];
    assert forall i :: 6 <= i < |line| ==> line[i] == password[i - 6];
  }

  lemma WideEntryIsFieldLine(n: nat)
    requires 1 <= n <= 500
    ensures FieldLine(Fields(WideEntry(n)))
  {
    var line := Fields(WideEntry(n));
    assert Decimal(1) == "1";
    assert line == "a:1:u:" + WidePassword(n);
    WideLineChars(n);
    NoSlashNoMarker(line);
    StripKeeps(line);
  }

  lemma {:induction false} QuotedSum(a: seq<Byte>, b: seq<Byte>)
    ensures QuoteBytes(a + b) == QuoteBytes(a) + QuoteBytes(b)
  {
    if a == [] {
      assert a + b == b;
    } else {
      assert (a + b)[1..] == a[1..] + b;
      QuotedSum(a[1..], b);
    }
  }

  lemma {:induction false} ReservedBytesQuoted(bs: seq<Byte>)
    requires forall i :: 0 <= i < |bs| ==> bs[i] >= 0x80
    ensures |QuoteBytes(bs)| == 3 * |bs|
  {
    if bs != [] { ReservedBytesQuoted(bs[1..]); }
  }

  lemma {:induction false} WidePasswordQuoted(n: nat)
    ensures |Quote(WidePassword(n))| == 12 * n
  {
    if n > 0 {
      var first := EncodeChar('\U{1F511}');
      WidePasswordQuoted(n - 1);
      ReservedBytesQuoted(first);
      QuotedSum(first, Utf8(WidePassword(n - 1)));
      assert WidePassword(n)[1..] == WidePassword(n - 1);
    }
  }

  lemma WideUrlLength(n: nat)
    ensures |Printed(WideEntry(n))| == 12 * n + 15
  {
    WidePasswordQuoted(n);
    assert Utf8("u") == EncodeChar('u') + Utf8("");
    assert QuoteBytes([117]) == Escape(117) + QuoteBytes([]);
    assert |Quote("u")| == 1;
    assert Decimal(1) == "1";
  }

  /**
   * Acceptance alone does not give the round trip. These entries are all accepted, and their printed URL is
   * refused from 166 characters of the password on.
   */
  lemma AcceptedUrlCanBeTooLong(t: Tables, n: nat)
    requires Standard(t) && 1 <= n <= 500
    ensures var e := WideEntry(n);
      && ParseLine(t, Fields(e)) == Success(e) && Ascii(e.host)
      && ParseLine(t, Printed(e)) == if n >= 166 then Failure(Format) else Success(e)
  {
    var e := WideEntry(n);
    WideEntryIsWellFormed(t, n);
    WideEntryIsFieldLine(n);
    FieldsParse(t, e);
    WideUrlLength(n);
    WellFormedParsesBack(t, e);
  }
}
