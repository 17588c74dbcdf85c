/**
 * The port recorded for a new crawl target. A host ending in `:` and
 * digits (the pattern `/\:([0-9]*)$/`) gives those digits; otherwise
 * the scheme decides, 80 for `http`, 443 for `https` and 80 for any
 * other scheme.
 */
module PortDerivation {
  import opened Wrappers
  import opened JsValues

  /** The port as the source holds it: a number from the scheme, or the
      digit text the pattern captured (possibly empty). */
  datatype PortValue = PortNumber(n: nat) | PortDigits(digits: string)

  /** The pattern matches with its `:` at position `p`: only digits follow
      it up to the end of the host. */
  ghost predicate ColonDigitsAt(host: string, p: int) {
    0 <= p < |host| && host[p] == ':' && AllDigits(host[p + 1..])
  }

  /** The length of the longest run of digits that ends the string. */
  function TrailingDigitCount(s: string): (k: nat)
    ensures k <= |s|
    ensures forall i :: |s| - k <= i < |s| ==> IsDigit(s[i])
    ensures k < |s| ==> !IsDigit(s[|s| - k - 1])
  {
    if s != [] && IsDigit(s[|s| - 1]) then TrailingDigitCount(s[..|s| - 1]) + 1 else 0
  }

  /** A digit run that reaches the end and is not preceded by a digit is
      the longest one. */
  lemma {:induction false} TrailingDigitCountExact(s: string, j: nat)
    requires j <= |s|
    requires forall i :: j <= i < |s| ==> IsDigit(s[i])
    requires j == 0 || !IsDigit(s[j - 1])
    ensures TrailingDigitCount(s) == |s| - j
  {
    if j < |s| {
      var init := s[..|s| - 1];
      assert forall i :: j <= i < |init| ==> IsDigit(init[i]);
      TrailingDigitCountExact(init, j);
    }
  }

  /** The pattern can match at one position at most. */
  lemma ColonDigitsMatchIsUnique(host: string, p: int, q: int)
    requires ColonDigitsAt(host, p) && ColonDigitsAt(host, q)
    ensures p == q
  {
  }

  /** What the capture group holds after `host.match(/\:([0-9]*)$/)`, or
      `None` when the pattern does not match. */
  function PortSuffix(host: string): (m: Option<string>)
    ensures m.Some? <==> exists p :: ColonDigitsAt(host, p)
    ensures m.Some? ==> |m.value| < |host| && ColonDigitsAt(host, |host| - |m.value| - 1)
    ensures m.Some? ==> host == host[..|host| - |m.value| - 1] + ":" + m.value
  {
    var k := TrailingDigitCount(host);
    if k < |host| && host[|host| - k - 1] == ':' then
      var m := Some(host[|host| - k..]);
      assert ColonDigitsAt(host, |host| - k - 1);
      assert host == host[..|host| - k - 1] + ":" + m.value;
      m
    else
      NoColonBeforeTrailingDigits(host);
      None
  }

  /** When the longest trailing digit run is not preceded by `:`, the
      pattern matches nowhere. */
  lemma NoColonBeforeTrailingDigits(host: string)
    requires var k := TrailingDigitCount(host); !(k < |host| && host[|host| - k - 1] == ':')
    ensures forall p :: !ColonDigitsAt(host, p)
  {
    forall p | ColonDigitsAt(host, p)
      ensures false
    {
      assert forall i :: p + 1 <= i < |host| ==> host[p + 1..][i - p - 1] == host[i];
      TrailingDigitCountExact(host, p + 1);
    }
  }

  /** The same match found by walking back from the end of the host over
      its digits. */
  method ScanPortSuffix(host: string) returns (m: Option<string>)
    ensures m == PortSuffix(host)
  {
    var i := |host|;
    while i > 0 && IsDigit(host[i - 1])
      invariant 0 <= i <= |host|
      invariant forall t :: i <= t < |host| ==> IsDigit(host[t])
    {
      i := i - 1;
    }
    TrailingDigitCountExact(host, i);
    if i > 0 && host[i - 1] == ':' {
      m := Some(host[i..]);
    } else {
      m := None;
    }
  }

  /** The port of a new record, by the source's if/else chain: the host's
      own trailing digits after `:`, or else a scheme default, 443 only
      for `https`. */
  function DerivePort(scheme: string, host: string): (port: PortValue)
    ensures match port
            case PortDigits(d) =>
              AllDigits(d) && |d| < |host| && host == host[..|host| - |d| - 1] + ":" + d
            case PortNumber(n) =>
              (forall p :: !ColonDigitsAt(host, p)) && (n == 80 || (n == 443 && scheme == "https"))
  {
    match PortSuffix(host)
    case Some(digits) =>
      assert ColonDigitsAt(host, |host| - |digits| - 1);
      assert forall i :: 0 <= i < |digits| ==> digits[i] == host[|host| - |digits|..][i];
      PortDigits(digits)
    case None =>
      if scheme == "http" then PortNumber(80)
      else if scheme == "https" then PortNumber(443)
      else PortNumber(80)
  }

  /** The integer the port stands for; the empty capture stands for none. */
  function PortNumberOf(port: PortValue): (n: Option<nat>)
    requires port.PortDigits? ==> AllDigits(port.digits)
    ensures n.None? <==> port == PortDigits("")
  {
    match port
    case PortNumber(n) => Some(n)
    case PortDigits(d) => if d == "" then None else Some(DigitsValue(d))
  }

  /** A trailing `:digits` wins over the scheme: the port is those digits. */
  lemma ExplicitPortWins(scheme: string, base: string, digits: string)
    requires AllDigits(digits)
    ensures DerivePort(scheme, base + ":" + digits) == PortDigits(digits)
  {
    var host := base + ":" + digits;
    assert forall i :: |base| + 1 <= i < |host| ==> host[i] == digits[i - |base| - 1];
    TrailingDigitCountExact(host, |base| + 1);
    assert host[|host| - |digits|..] == digits;
  }

  /** Without a trailing `:digits` the scheme decides: 443 for `https`,
      80 for `http` and for every other scheme. */
  lemma SchemeDefaultPort(scheme: string, host: string)
    requires forall p :: !ColonDigitsAt(host, p)
    ensures DerivePort(scheme, host) == PortNumber(if scheme == "https" then 443 else 80)
  {
  }

  /** Writing a number after `:` in the host stores that number as the port. */
  lemma ExplicitPortNumber(scheme: string, base: string, n: nat)
    ensures var port := DerivePort(scheme, base + ":" + Decimal(n));
            port.PortDigits? && AllDigits(port.digits) && PortNumberOf(port) == Some(n)
  {
    ExplicitPortWins(scheme, base, Decimal(n));
    DigitsValueOfDecimal(n);
  }

  /** An explicit port overrides the scheme. */
  lemma ExplicitPortExample()
    ensures PortNumberOf(DerivePort("http", "example.com:3000")) == Some(3000)
  {
    DigitsValueOf3000();
    ExplicitPortWins("http", "example.com", "3000");
    ExampleHostWithPort();
  }

  lemma ExampleHostWithPort()
    ensures "example.com" + ":" + "3000" == "example.com:3000"
  {
  }

  lemma DigitsValueOf3000()
    ensures AllDigits("3000") && DigitsValue("3000") == 3000
  {
    var s := "3000";
    assert s[..3] == "300";
    assert s[..3][..2] == "30";
    assert s[..3][..2][..1] == "3";
    assert DigitsValue("3") == 3;
  }

  /** A bare trailing `:` captures the empty digit string. */
  lemma EmptyCaptureExample()
    ensures DerivePort("https", "example.com:") == PortDigits("")
    ensures PortNumberOf(DerivePort("https", "example.com:")) == None
  {
    ExplicitPortWins("https", "example.com", "");
    assert "example.com" + ":" + "" == "example.com:";
  }

  /** Without a port in the host: `https` gives 443, `http` and any other
      scheme give 80, and `user:passwd@` before the host is no port. */
  lemma SchemeDefaultExamples()
    ensures DerivePort("https", "example.com") == PortNumber(443)
    ensures DerivePort("http", "example.com") == PortNumber(80)
    ensures DerivePort("ftp", "example.com") == PortNumber(80)
    ensures DerivePort("https", "user:passwd@example.com") == PortNumber(443)
  {
    NoPortIn("example.com");
    NoPortIn("user:passwd@example.com");
  }

  /** A host whose last character is a letter has no trailing `:digits`. */
  lemma NoPortIn(host: string)
    requires host != [] && 'a' <= host[|host| - 1] <= 'z'
    ensures forall p :: !ColonDigitsAt(host, p)
  {
    forall p | 0 <= p < |host| && host[p] == ':'
      ensures !AllDigits(host[p + 1..])
    {
      assert host[p + 1..][|host| - p - 2] == host[|host| - 1];
    }
  }
}
