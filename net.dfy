/**
 * Simplified models of the three Go standard-library calls that runAdd makes:
 * net.SplitHostPort, strconv.Atoi and net.ParseIP. The registration logic
 * itself takes these as parameters; this module supplies one concrete
 * instance of them. SplitHostPort follows Go's algorithm: split at the last
 * colon; a leading '[' must be closed by the first ']' just before that colon
 * (anything, a zone included, may stand inside the brackets); no stray
 * bracket elsewhere; what the host part contains is not checked. Atoi reads
 * a signed decimal 64-bit int. ParseIP accepts dotted-decimal IPv4 only.
 */
module Net {
  import opened Results

  /** An 8-bit byte, the element type of Go's net.IP. */
  newtype byte = x: int | 0 <= x < 256

  /** Go's net.IP: a slice of bytes. */
  datatype IP = IP(bytes: seq<byte>)

  /** The twelve bytes that prefix an IPv4 address in its 16-byte form (::ffff:0:0/96). */
  const V4InV6Prefix: seq<byte> := [0, 0, 0, 0, 0, 0, 0, 0, 0, 0, 0xff, 0xff]

  /** net.IPv4: the 16-byte form of the address a.b.c.d. */
  function IPv4(a: byte, b: byte, c: byte, d: byte): IP {
    IP(V4InV6Prefix + [a, b, c, d])
  }

  // ---------------------------------------------------------------------------
  // Searching a string for one character.

  /** The first index of `c` in `s`, or -1 when `c` does not occur. */
  function IndexOf(s: string, c: char): (i: int)
    ensures -1 <= i < |s|
    ensures 0 <= i ==> s[i] == c
    ensures forall k :: 0 <= k < |s| && (i < 0 || k < i) ==> s[k] != c
    decreases |s|
  {
    if |s| == 0 then -1
    else if s[0] == c then 0
    else
      var j := IndexOf(s[1..], c);
      if j < 0 then -1 else j + 1
  }

  /** The last index of `c` in `s`, or -1 when `c` does not occur. */
  function LastIndexOf(s: string, c: char): (i: int)
    ensures -1 <= i < |s|
    ensures 0 <= i ==> s[i] == c
    ensures forall k :: i < k < |s| ==> s[k] != c
    decreases |s|
  {
    if |s| == 0 then -1
    else if s[|s| - 1] == c then |s| - 1
    else LastIndexOf(s[..|s| - 1], c)
  }

  // ---------------------------------------------------------------------------
  // net.SplitHostPort and net.JoinHostPort.

  const MissingPort := "missing port in address"
  const TooManyColons := "too many colons in address"

  /** The message of a net.AddrError for address `addr`. */
  function AddrError(addr: string, why: string): Error {
    Error(if addr == "" then why else "address " + addr + ": " + why)
  }

  /**
   * net.SplitHostPort: splits "host:port", "[host]:port" or "[host%zone]:port"
   * at the last colon. A successful split always rebuilds `hostport` exactly,
   * the port holds no colon and the host no bracket.
   */
  function SplitHostPort(hostport: string): (r: Result<(string, string)>)
    ensures r.Ok? ==> ':' !in r.value.1 && '[' !in r.value.0 && ']' !in r.value.0
    ensures r.Ok? ==> hostport == r.value.0 + ":" + r.value.1 || hostport == "[" + r.value.0 + "]:" + r.value.1
  {
    var i := LastIndexOf(hostport, ':');
    if i < 0 then Err(AddrError(hostport, MissingPort))
    else if hostport[0] == '[' then
      // The first ']' must come just before the last ':'.
      var end := IndexOf(hostport, ']');
      if end < 0 then Err(AddrError(hostport, "missing ']' in address"))
      else if end + 1 == |hostport| then Err(AddrError(hostport, MissingPort))
      else if end + 1 != i then
        if hostport[end + 1] == ':' then Err(AddrError(hostport, TooManyColons))
        else Err(AddrError(hostport, MissingPort))
      else
        assert hostport == "[" + hostport[1..end] + "]:" + hostport[i + 1..];
        CheckBrackets(hostport, hostport[1..end], 1, end + 1, i)
    else
      var host := hostport[..i];
      if ':' in host then Err(AddrError(hostport, TooManyColons))
      else
        assert hostport == host + ":" + hostport[i + 1..];
        CheckBrackets(hostport, host, 0, 0, i)
  }

  /** The last step of SplitHostPort: no stray bracket from positions j and k on. */
  function CheckBrackets(hostport: string, host: string, j: nat, k: nat, i: nat): Result<(string, string)>
    requires j <= k <= i < |hostport|
  {
    if '[' in hostport[j..] then Err(AddrError(hostport, "unexpected '[' in address"))
    else if ']' in hostport[k..] then Err(AddrError(hostport, "unexpected ']' in address"))
    else Ok((host, hostport[i + 1..]))
  }

  /** net.JoinHostPort: brackets the host when it holds a colon. */
  function JoinHostPort(host: string, port: string): string {
    if ':' in host then "[" + host + "]:" + port else host + ":" + port
  }

  /** In a + [c] + b with no c in b, the last c is the one after a. */
  lemma {:induction false} LastIndexOfJoin(a: string, c: char, b: string)
    requires c !in b
    ensures LastIndexOf(a + [c] + b, c) == |a|
    decreases |b|
  {
    var s := a + [c] + b;
    if |b| > 0 {
      var b' := b[..|b| - 1];
      assert b[|b| - 1] in b;
      assert s[..|s| - 1] == a + [c] + b';
      assert forall x :: x in b' ==> x in b;
      LastIndexOfJoin(a, c, b');
    }
  }

  /** In a + [c] + b with no c in a, the first c is the one after a. */
  lemma {:induction false} IndexOfJoin(a: string, c: char, b: string)
    requires c !in a
    ensures IndexOf(a + [c] + b, c) == |a|
    decreases |a|
  {
    var s := a + [c] + b;
    if |a| > 0 {
      assert a[0] in a;
      assert s[1..] == a[1..] + [c] + b;
      assert forall x :: x in a[1..] ==> x in a;
      IndexOfJoin(a[1..], c, b);
    }
  }

  /** A character that does not occur has no last index. */
  lemma {:induction false} LastIndexOfAbsent(s: string, c: char)
    requires c !in s
    ensures LastIndexOf(s, c) == -1
    decreases |s|
  {
    if |s| > 0 {
      assert s[|s| - 1] in s;
      assert forall x :: x in s[..|s| - 1] ==> x in s;
      LastIndexOfAbsent(s[..|s| - 1], c);
    }
  }

  /** A character that does not occur has no first index. */
  lemma {:induction false} IndexOfAbsent(s: string, c: char)
    requires c !in s
    ensures IndexOf(s, c) == -1
    decreases |s|
  {
    if |s| > 0 {
      assert s[0] in s;
      assert forall x :: x in s[1..] ==> x in s;
      IndexOfAbsent(s[1..], c);
    }
  }

  /** Splitting what JoinHostPort built gives back its host and port. */
  lemma SplitJoinHostPort(host: string, port: string)
    requires '[' !in host && ']' !in host
    requires ':' !in port && '[' !in port && ']' !in port
    ensures SplitHostPort(JoinHostPort(host, port)) == Ok((host, port))
  {
    if ':' in host {
      SplitJoinBracketed(host, port);
    } else {
      SplitJoinPlain(host, port);
    }
  }

  lemma SplitJoinBracketed(host: string, port: string)
    requires '[' !in host && ']' !in host
    requires ':' !in port && '[' !in port && ']' !in port
    ensures SplitHostPort("[" + host + "]:" + port) == Ok((host, port))
  {
    var s := "[" + host + "]:" + port;
    var n := |host|;
    LastColonOfBracketed(host, port);
    OpenBracketFirst(host, port);
    BracketedCheck(host, port);
    assert s[0] == '[';
  }

  /** The last colon of "[host]:port" is the one after the ']'. */
  lemma LastColonOfBracketed(host: string, port: string)
    requires ':' !in port
    ensures LastIndexOf("[" + host + "]:" + port, ':') == |host| + 2
  {
    assert "[" + host + "]:" + port == ("[" + host + "]") + [':'] + port;
    LastIndexOfJoin("[" + host + "]", ':', port);
  }

  /** The first ']' of "[host]:port" is the one closing the host when the host holds none. */
  lemma OpenBracketFirst(host: string, port: string)
    requires ']' !in host
    ensures IndexOf("[" + host + "]:" + port, ']') == |host| + 1
  {
    var front := "[" + host;
    assert front == ['['] + host;
    assert ']' !in front;
    assert "[" + host + "]:" + port == front + [']'] + (":" + port);
    IndexOfJoin(front, ']', ":" + port);
  }

  /** The bracket checks of SplitHostPort pass on "[host]:port" and yield host and port. */
  lemma BracketedCheck(host: string, port: string)
    requires '[' !in host && ']' !in host
    requires '[' !in port && ']' !in port
    ensures var s := "[" + host + "]:" + port;
      var n := |host|;
      CheckBrackets(s, s[1..n + 1], 1, n + 2, n + 2) == Ok((host, port))
  {
    var s := "[" + host + "]:" + port;
    var n := |host|;
    assert s[1..] == host + "]:" + port;
    assert s[n + 2..] == ":" + port;
    assert s[1..n + 1] == host;
    assert s[n + 3..] == port;
  }

  lemma SplitJoinPlain(host: string, port: string)
    requires ':' !in host && '[' !in host && ']' !in host
    requires ':' !in port && '[' !in port && ']' !in port
    ensures SplitHostPort(host + ":" + port) == Ok((host, port))
  {
    var s := host + ":" + port;
    var n := |host|;
    assert s == host + [':'] + port;
    LastIndexOfJoin(host, ':', port);
    assert s[..n] == host;
    assert s[0] != '[' by {
      if n > 0 { assert s[0] == host[0]; }
    }
    assert s[n + 1..] == port;
  }

  // ---------------------------------------------------------------------------
  // Decimal digits.

  predicate IsDigit(c: char) {
    '0' <= c <= '9'
  }

  predicate AllDigits(s: string) {
    forall k :: 0 <= k < |s| ==> IsDigit(s[k])
  }

  /** A canonical decimal numeral: digits only, no leading zero except in "0". */
  predicate Canonical(s: string) {
    |s| >= 1 && AllDigits(s) && (s[0] == '0' ==> |s| == 1)
  }

  function DigitChar(d: nat): (c: char)
    requires d < 10
    ensures IsDigit(c)
  {
    ('0' as int + d) as char
  }

  /** The value of a string of decimal digits (0 for the empty string). */
  function ValueOf(s: string): nat
    requires AllDigits(s)
    decreases |s|
  {
    if |s| == 0 then 0
    else ValueOf(s[..|s| - 1]) * 10 + (s[|s| - 1] as int - '0' as int)
  }

  /** The canonical decimal numeral of `n`. */
  function Decimal(n: nat): (s: string)
    ensures Canonical(s)
    ensures s[0] == '0' ==> n == 0
    decreases n
  {
    if n < 10 then [DigitChar(n)] else Decimal(n / 10) + [DigitChar(n % 10)]
  }

  lemma {:induction false} ValueOfDecimal(n: nat)
    ensures ValueOf(Decimal(n)) == n
    decreases n
  {
    if n >= 10 {
      var t := Decimal(n / 10);
      ValueOfDecimal(n / 10);
      assert (t + [DigitChar(n % 10)])[..|t|] == t;
    }
  }

  lemma {:induction false} PositiveValue(s: string)
    requires |s| >= 1 && AllDigits(s) && s[0] != '0'
    ensures ValueOf(s) > 0
    decreases |s|
  {
    if |s| > 1 {
      PositiveValue(s[..|s| - 1]);
    }
  }

  lemma {:induction false} DecimalOfValue(s: string)
    requires Canonical(s)
    ensures Decimal(ValueOf(s)) == s
    decreases |s|
  {
    if |s| > 1 {
      var t := s[..|s| - 1];
      var d := s[|s| - 1] as int - '0' as int;
      assert Canonical(t);
      DecimalOfValue(t);
      PositiveValue(t);
      assert ValueOf(s) == ValueOf(t) * 10 + d;
      assert s == t + [DigitChar(d)];
    }
  }

  // ---------------------------------------------------------------------------
  // strconv.Atoi and strconv.Itoa, for Go's 64-bit int.

  const MinInt := -0x8000_0000_0000_0000
  const MaxInt := 0x7fff_ffff_ffff_ffff

  /** The message of a strconv.NumError (`num` is not escaped as strconv.Quote would). */
  function NumError(fn: string, num: string, err: string): Error {
    Error("strconv." + fn + ": parsing \"" + num + "\": " + err)
  }

  /**
   * strconv.Atoi: an optional sign followed by at least one decimal digit,
   * whose value must fit in a 64-bit int.
   */
  function Atoi(s: string): (r: Result<int>)
    ensures r.Ok? ==> MinInt <= r.value <= MaxInt
  {
    var signed := |s| > 0 && (s[0] == '+' || s[0] == '-');
    var digits := if signed then s[1..] else s;
    if |digits| == 0 || !AllDigits(digits) then Err(NumError("Atoi", s, "invalid syntax"))
    else
      var v: int := if signed && s[0] == '-' then -(ValueOf(digits) as int) else ValueOf(digits);
      if v < MinInt || MaxInt < v then Err(NumError("Atoi", s, "value out of range"))
      else Ok(v)
  }

  /** strconv.Itoa. */
  function Itoa(n: int): string {
    if n < 0 then "-" + Decimal(-n) else Decimal(n)
  }

  /** Atoi reads back every 64-bit int that Itoa writes. */
  lemma {:induction false} AtoiItoa(n: int)
    requires MinInt <= n <= MaxInt
    ensures Atoi(Itoa(n)) == Ok(n)
  {
    var s := Itoa(n);
    if n < 0 {
      ValueOfDecimal(-n);
      assert s[1..] == Decimal(-n);
    } else {
      ValueOfDecimal(n);
      assert IsDigit(s[0]);
    }
  }

  // ---------------------------------------------------------------------------
  // net.ParseIP, restricted to dotted-decimal IPv4.

  /** The elements of `parts` separated by `sep` (strings.Join). */
  function JoinWith(parts: seq<string>, sep: char): string
    decreases |parts|
  {
    if |parts| == 0 then ""
    else if |parts| == 1 then parts[0]
    else parts[0] + [sep] + JoinWith(parts[1..], sep)
  }

  /** The pieces of `s` between occurrences of `sep` (strings.Split). */
  function SplitOn(s: string, sep: char): (parts: seq<string>)
    ensures |parts| >= 1
    ensures forall k :: 0 <= k < |parts| ==> sep !in parts[k]
    ensures JoinWith(parts, sep) == s
    decreases |s|
  {
    var i := IndexOf(s, sep);
    if i < 0 then [s]
    else
      var rest := SplitOn(s[i + 1..], sep);
      SplitOnStep(s, sep, i, rest);
      [s[..i]] + rest
  }

  /** JoinWith on a sequence of two or more pieces. */
  lemma JoinWithCons(x: string, rest: seq<string>, sep: char)
    requires |rest| >= 1
    ensures JoinWith([x] + rest, sep) == x + [sep] + JoinWith(rest, sep)
  {
    assert ([x] + rest)[1..] == rest;
  }

  /** One step of SplitOn: the piece before the first separator, then the rest. */
  lemma SplitOnStep(s: string, sep: char, i: int, rest: seq<string>)
    requires 0 <= i < |s| && s[i] == sep
    requires forall k :: 0 <= k < i ==> s[k] != sep
    requires |rest| >= 1 && JoinWith(rest, sep) == s[i + 1..]
    requires forall k :: 0 <= k < |rest| ==> sep !in rest[k]
    ensures var parts := [s[..i]] + rest;
      (forall k :: 0 <= k < |parts| ==> sep !in parts[k]) && JoinWith(parts, sep) == s
  {
    var parts := [s[..i]] + rest;
    JoinWithCons(s[..i], rest, sep);
    assert s == s[..i] + [sep] + s[i + 1..];
    assert forall k :: 0 <= k < i ==> s[..i][k] == s[k];
    assert sep !in s[..i];
    assert forall k :: 1 <= k < |parts| ==> parts[k] == rest[k - 1];
  }

  lemma {:induction false} SplitOnJoinWith(parts: seq<string>, sep: char)
    requires |parts| >= 1
    requires forall k :: 0 <= k < |parts| ==> sep !in parts[k]
    ensures SplitOn(JoinWith(parts, sep), sep) == parts
    decreases |parts|
  {
    var s := JoinWith(parts, sep);
    var p := parts[0];
    if |parts| == 1 {
      assert IndexOf(s, sep) == -1;
    } else {
      var rest := JoinWith(parts[1..], sep);
      assert s == p + [sep] + rest;
      assert sep !in p;
      assert forall k :: 0 <= k < |p| ==> s[k] == p[k];
      assert s[|p|] == sep;
      assert IndexOf(s, sep) == |p|;
      assert s[..|p|] == p;
      assert s[|p| + 1..] == rest;
      SplitOnJoinWith(parts[1..], sep);
      assert parts == [p] + parts[1..];
    }
  }

  /** A string with no dot is not a dotted-decimal address. */
  lemma ParseIPNeedsDot(s: string)
    requires '.' !in s
    ensures ParseIP(s).None?
  {
    IndexOfAbsent(s, '.');
    assert SplitOn(s, '.') == [s];
  }

  /** One field of a dotted-decimal IPv4 address. */
  predicate IsOctet(f: string) {
    Canonical(f) && ValueOf(f) < 256
  }

  /**
   * net.ParseIP for dotted-decimal IPv4: exactly four canonical decimal
   * fields, each at most 255; the result is the 16-byte form. Every other
   * string, IPv6 literals included, gives nil (None).
   */
  function ParseIP(s: string): (r: Option<IP>)
    ensures r.Some? ==> |r.value.bytes| == 16 && r.value.bytes[..12] == V4InV6Prefix
  {
    var f := SplitOn(s, '.');
    if |f| == 4 && IsOctet(f[0]) && IsOctet(f[1]) && IsOctet(f[2]) && IsOctet(f[3]) then
      Some(IPv4(ValueOf(f[0]) as byte, ValueOf(f[1]) as byte, ValueOf(f[2]) as byte, ValueOf(f[3]) as byte))
    else None
  }

  /** net.IP.String for an IPv4 address. */
  function FormatIPv4(a: byte, b: byte, c: byte, d: byte): string {
    JoinWith([Decimal(a as nat), Decimal(b as nat), Decimal(c as nat), Decimal(d as nat)], '.')
  }

  /** A string of digits holds none of the separators of host:port and dotted-decimal syntax. */
  lemma DigitsHaveNoSeparator(s: string)
    requires AllDigits(s)
    ensures '.' !in s && ':' !in s && '[' !in s && ']' !in s
  {
  }

  /** Every dotted-decimal address parses to its own 16-byte form. */
  lemma ParseFormatIPv4(a: byte, b: byte, c: byte, d: byte)
    ensures ParseIP(FormatIPv4(a, b, c, d)) == Some(IPv4(a, b, c, d))
  {
    var parts := [Decimal(a as nat), Decimal(b as nat), Decimal(c as nat), Decimal(d as nat)];
    DigitsHaveNoSeparator(parts[0]);
    DigitsHaveNoSeparator(parts[1]);
    DigitsHaveNoSeparator(parts[2]);
    DigitsHaveNoSeparator(parts[3]);
    SplitOnJoinWith(parts, '.');
    ValueOfDecimal(a as nat);
    ValueOfDecimal(b as nat);
    ValueOfDecimal(c as nat);
    ValueOfDecimal(d as nat);
  }

  /** Conversely, ParseIP accepts only strings that are written as FormatIPv4 writes them. */
  lemma FormatParseIPv4(s: string)
    requires ParseIP(s).Some?
    ensures var b := ParseIP(s).value.bytes;
      s == FormatIPv4(b[12], b[13], b[14], b[15])
  {
    var f := SplitOn(s, '.');
    DecimalOfValue(f[0]);
    DecimalOfValue(f[1]);
    DecimalOfValue(f[2]);
    DecimalOfValue(f[3]);
    var b := ParseIP(s).value.bytes;
    assert b[12..] == [b[12], b[13], b[14], b[15]];
    assert [Decimal(b[12] as nat), Decimal(b[13] as nat), Decimal(b[14] as nat), Decimal(b[15] as nat)] == f;
  }

  /** A formatted IPv4 address holds no colon and no bracket, so SplitHostPort cannot split it. */
  lemma FormatIPv4HasNoSeparator(a: byte, b: byte, c: byte, d: byte)
    ensures ':' !in FormatIPv4(a, b, c, d) && '[' !in FormatIPv4(a, b, c, d) && ']' !in FormatIPv4(a, b, c, d)
  {
    var parts := [Decimal(a as nat), Decimal(b as nat), Decimal(c as nat), Decimal(d as nat)];
    DigitsHaveNoSeparator(parts[0]);
    DigitsHaveNoSeparator(parts[1]);
    DigitsHaveNoSeparator(parts[2]);
    DigitsHaveNoSeparator(parts[3]);
    assert JoinWith(parts[3..], '.') == parts[3];
    assert JoinWith(parts[2..], '.') == parts[2] + "." + parts[3] by {
      assert parts[2..][1..] == parts[3..];
    }
    assert JoinWith(parts[1..], '.') == parts[1] + "." + JoinWith(parts[2..], '.') by {
      assert parts[1..][1..] == parts[2..];
    }
  }
}
