/** Which hosts an account proxy may have, told from the addresses and names themselves. */
module ProxyHosts {
  import opened Util
  import opened PercentEncoding
  import opened ProxyUrl

  /** The dotted notation of an address. */
  function Dotted(a: nat, b: nat, c: nat, d: nat): string
  {
    Decimal(a) + ['.'] + (Decimal(b) + ['.'] + (Decimal(c) + ['.'] + Decimal(d)))
  }

  lemma DecimalLength(n: nat)
    requires n <= 255
    ensures 1 <= |Decimal(n)| <= 3 && (n >= 10 ==> Decimal(n)[0] != '0')
  {
    if n >= 100 {
      assert Decimal(n) == Decimal(n / 10) + [(n % 10 + '0' as int) as char];
      assert Decimal(n / 10) == Decimal(n / 10 / 10) + [(n / 10 % 10 + '0' as int) as char];
    }
  }

  lemma DecimalIsOctet(n: nat)
    requires n <= 255
    ensures Octet(Decimal(n)) && Value(Decimal(n)) == n && '.' !in Decimal(n)
  {
    DecimalHasValue(n);
    DecimalLength(n);
    assert forall i :: 0 <= i < |Decimal(n)| ==> Digit(Decimal(n)[i]);
  }

  lemma SplitFront(a: string, rest: string, n: nat)
    requires '.' !in a && n > 0
    ensures SplitAtMost(a + ['.'] + rest, '.', n) == [a] + SplitAtMost(rest, '.', n - 1)
  {
    PartitionAt(a, '.', rest);
    assert (a + ['.'] + rest)[|a|] == '.';
  }

  lemma FourPartsSplit(a: string, b: string, c: string, d: string, n: nat)
    requires '.' !in a && '.' !in b && '.' !in c && '.' !in d && n >= 3
    ensures SplitAtMost(a + ['.'] + (b + ['.'] + (c + ['.'] + d)), '.', n) == [a, b, c, d]
  {
    SplitFront(a, b + ['.'] + (c + ['.'] + d), n);
    SplitFront(b, c + ['.'] + d, n - 1);
    SplitFront(c, d, n - 2);
  }

  /** A text that splits into four octets is an address, which their values decide about. */
  lemma OctetsDecide(host: string, a: string, b: string, c: string, d: string)
    requires Split(host, '.') == [a, b, c, d] && Octet(a) && Octet(b) && Octet(c) && Octet(d)
    ensures Ipv4(host)
    ensures Forbidden(host) <==>
      Value(a) == 127 || (Value(a) == 0 && Value(b) == 0 && Value(c) == 0 && Value(d) == 0)
      || (Value(a) == 169 && Value(b) == 254)
  {
  }

  lemma DottedDecides(a: nat, b: nat, c: nat, d: nat)
    requires a <= 255 && b <= 255 && c <= 255 && d <= 255
    ensures Ipv4(Dotted(a, b, c, d))
    ensures Forbidden(Dotted(a, b, c, d)) <==>
      a == 127 || (a == 169 && b == 254) || (a == 0 && b == 0 && c == 0 && d == 0)
  {
    DecimalIsOctet(a);
    DecimalIsOctet(b);
    DecimalIsOctet(c);
    DecimalIsOctet(d);
    FourPartsSplit(Decimal(a), Decimal(b), Decimal(c), Decimal(d), |Dotted(a, b, c, d)|);
    OctetsDecide(Dotted(a, b, c, d), Decimal(a), Decimal(b), Decimal(c), Decimal(d));
  }

  predicate DigitOrDot(c: char) { Digit(c) || c == '.' }

  lemma DottedChars(a: nat, b: nat, c: nat, d: nat)
    requires a <= 255 && b <= 255 && c <= 255 && d <= 255
    ensures var s := Dotted(a, b, c, d);
      7 <= |s| <= 15 && (forall i :: 0 <= i < |s| ==> DigitOrDot(s[i])) && Digit(s[0]) && Digit(s[|s| - 1])
  {
    DecimalIsOctet(a);
    DecimalIsOctet(b);
    DecimalIsOctet(c);
    DecimalIsOctet(d);
  }

  lemma LocalEndsInT(s: string)
    requires s == "localhost" || EndsWith(s, ".localhost")
    ensures s != "" && s[|s| - 1] == 't'
  {
  }

  lemma DigitOrDotIsAllowed(c: char)
    requires DigitOrDot(c)
    ensures AsciiChar(c) && LowerChar(c) == c && !Delimiter(c) && !IsSpace(c)
  {
  }

  lemma DigitsAreLow(s: string)
    requires forall i :: 0 <= i < |s| ==> DigitOrDot(s[i])
    ensures Ascii(s) && AsciiLower(s) == s && AllowedText(s)
  {
    forall i | 0 <= i < |s| ensures AsciiChar(s[i]) && LowerChar(s[i]) == s[i] && !Delimiter(s[i]) && !IsSpace(s[i]) {
      DigitOrDotIsAllowed(s[i]);
    }
    assert AsciiLower(s) == s;
  }

  /** A text of digits and dots that starts and ends with a digit is its own normal form, and no local name. */
  lemma NumericIsNormal(t: Tables, s: string)
    requires Standard(t) && s != "" && (forall i :: 0 <= i < |s| ==> DigitOrDot(s[i]))
    requires Digit(s[0]) && Digit(s[|s| - 1])
    ensures NormalHost(t, s) == s && AllowedText(s) && s != "localhost" && !EndsWith(s, ".localhost")
  {
    StripKeeps(s);
    DigitsAreLow(s);
    if s == "localhost" || EndsWith(s, ".localhost") { LocalEndsInT(s); }
  }

  /** An address is refused exactly when it is a loopback, link-local or the unspecified one. */
  lemma AddressesExactly(t: Tables, a: nat, b: nat, c: nat, d: nat)
    requires Standard(t) && a <= 255 && b <= 255 && c <= 255 && d <= 255
    ensures ValidateHost(t, Dotted(a, b, c, d)) ==
      if a == 127 || (a == 169 && b == 254) || (a == 0 && b == 0 && c == 0 && d == 0) then Failure(HostNotAllowed)
      else Success(Dotted(a, b, c, d))
  {
    DottedChars(a, b, c, d);
    NumericIsNormal(t, Dotted(a, b, c, d));
    DottedDecides(a, b, c, d);
  }

  lemma LoweredIsAllowed(value: string)
    requires AllowedText(value)
    ensures AllowedText(AsciiLower(value))
  {
  }

  lemma LocalIsRefused(t: Tables, s: string)
    requires s != "" && |s| <= 253 && AllowedText(s) && (s == "localhost" || EndsWith(s, ".localhost"))
    ensures HostError(t, s) == Some(HostNotAllowed)
  {
  }

  lemma NormalForm(t: Tables, value: string)
    requires Standard(t) && Ascii(value) && Strip(value) == value
    requires AsciiLower(value) != "" && AsciiLower(value)[|value| - 1] != '.'
    ensures NormalHost(t, value) == AsciiLower(value)
  {
  }

  /** The local host is refused under its name and under every name inside its domain, in any spelling. */
  lemma LocalNamesAreRefused(t: Tables, value: string)
    requires Standard(t) && Ascii(value) && Strip(value) == value && AllowedText(value) && |value| <= 253
    requires AsciiLower(value) == "localhost" || EndsWith(AsciiLower(value), ".localhost")
    ensures ValidateHost(t, value) == Failure(HostNotAllowed)
  {
    LocalEndsInT(AsciiLower(value));
    LoweredIsAllowed(value);
    NormalForm(t, value);
    LocalIsRefused(t, AsciiLower(value));
  }
}
