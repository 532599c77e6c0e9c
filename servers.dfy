/**
 The cluster member record (the source's `Server` bean), its address key, and the
 few Java library operations the membership code relies on to turn text into
 members and back: `String.split` with a one-character separator,
 `Integer.parseInt` / `Long.parseLong`, and decimal printing of numbers.
 */
module Servers {

  /** `Constants.IP_PORT_SPLITER`: the character between ip and port in an address key. */
  const SEP: char := ':'

  const INT_MIN: int := -0x8000_0000
  const INT_MAX: int := 0x7fff_ffff
  const LONG_MIN: int := -0x8000_0000_0000_0000
  const LONG_MAX: int := 0x7fff_ffff_ffff_ffff

  predicate IsInt(n: int) { INT_MIN <= n <= INT_MAX }
  predicate IsLong(n: int) { LONG_MIN <= n <= LONG_MAX }

  datatype Option<T> = None | Some(value: T)

  /** Why a piece of text could not be read: a field or the port is missing
      (an index past the end of a split), or a number does not parse. */
  datatype ParseError = MissingField | BadNumber

  datatype Result<T> = Ok(value: T) | Err(error: ParseError)

  /** One cluster member as the manager stores it. A `new Server()` that only
      had ip and port set carries site "", alive false and lastRefTime 0. */
  datatype Server = Server(site: string, ip: string, port: int, alive: bool, lastRefTime: int)

  /** `ip + IP_PORT_SPLITER + port`, the text a node puts in its heartbeat. */
  function Address(ip: string, port: int): string
  {
    ip + [SEP] + IntToString(port)
  }

  /** A member's identity: two records are equal exactly when their keys are. */
  function Key(s: Server): string
  {
    Address(s.ip, s.port)
  }

  /** `list.contains(s)` under key equality. */
  predicate KeyIn(k: string, list: seq<Server>)
  {
    exists i :: 0 <= i < |list| && Key(list[i]) == k
  }

  function KeySet(list: seq<Server>): set<string>
  {
    set i | 0 <= i < |list| :: Key(list[i])
  }

  predicate KeysUnique(list: seq<Server>)
  {
    forall i, j :: 0 <= i < j < |list| ==> Key(list[i]) != Key(list[j])
  }

  lemma KeyInKeySet(k: string, list: seq<Server>)
    ensures KeyIn(k, list) <==> k in KeySet(list)
  {
    if k in KeySet(list) {
      var i :| 0 <= i < |list| && Key(list[i]) == k;
    }
  }

  // ---------------------------------------------------------------------
  // Decimal text of numbers
  // ---------------------------------------------------------------------

  predicate IsDigit(c: char) { '0' <= c <= '9' }

  predicate AllDigits(s: string)
  {
    forall i :: 0 <= i < |s| ==> IsDigit(s[i])
  }

  function DigitValue(c: char): nat
    requires IsDigit(c)
  {
    (c as int) - ('0' as int)
  }

  function DigitChar(d: nat): (c: char)
    requires d < 10
    ensures IsDigit(c) && DigitValue(c) == d
  {
    (('0' as int) + d) as char
  }

  /** The value of a string of decimal digits, read left to right. */
  function DecimalValue(s: string): nat
    requires AllDigits(s)
  {
    if s == [] then 0 else DecimalValue(s[..|s| - 1]) * 10 + DigitValue(s[|s| - 1])
  }

  /** The shortest decimal text of a natural number. */
  function NatToString(n: nat): (s: string)
    ensures |s| > 0 && AllDigits(s)
    decreases n
  {
    if n < 10 then [DigitChar(n)] else NatToString(n / 10) + [DigitChar(n % 10)]
  }

  /** `Integer.toString` / `Long.toString` (and string concatenation of a number). */
  function IntToString(n: int): (s: string)
    ensures |s| > 0 && SEP !in s && '#' !in s
    decreases if n < 0 then 1 else 0
  {
    if n < 0 then "-" + IntToString(-n)
    else
      var digits := NatToString(n);
      assert forall i :: 0 <= i < |digits| ==> IsDigit(digits[i]);
      digits
  }

  lemma {:induction false} DecimalRoundTrip(n: nat)
    ensures DecimalValue(NatToString(n)) == n
    decreases n
  {
    if n >= 10 {
      DecimalRoundTrip(n / 10);
      var s := NatToString(n);
      assert s[..|s| - 1] == NatToString(n / 10);
    }
  }

  /** `Integer.parseInt` (bounds INT_MIN..INT_MAX) and `Long.parseLong` (LONG_MIN..LONG_MAX):
      an optional sign followed by at least one digit, whose value lies in range. */
  function ParseInteger(s: string, lo: int, hi: int): (r: Option<int>)
    ensures r.Some? ==> lo <= r.value <= hi
  {
    if |s| == 0 then None
    else
      var body := if s[0] == '-' || s[0] == '+' then s[1..] else s;
      if |body| == 0 || !AllDigits(body) then None
      else
        var v: int := if s[0] == '-' then -(DecimalValue(body) as int) else DecimalValue(body);
        if lo <= v <= hi then Some(v) else None
  }

  function ParseInt(s: string): Option<int> { ParseInteger(s, INT_MIN, INT_MAX) }
  function ParseLong(s: string): Option<int> { ParseInteger(s, LONG_MIN, LONG_MAX) }

  /** Printing a number and parsing it back gives the number, whenever it is in range. */
  lemma ParseIntegerRoundTrip(n: int, lo: int, hi: int)
    requires lo <= n <= hi
    ensures ParseInteger(IntToString(n), lo, hi) == Some(n)
  {
    var s := IntToString(n);
    if n < 0 {
      var d := NatToString(-n);
      assert IntToString(-n) == d;
      assert s == "-" + d;
      assert s[0] == '-' && s[1..] == d;
      DecimalRoundTrip(-n);
      assert DecimalValue(d) == -n;
    } else {
      var d := NatToString(n);
      assert s == d;
      DecimalRoundTrip(n);
      assert IsDigit(s[0]);
    }
  }

  // ---------------------------------------------------------------------
  // String.split with a one-character separator
  // ---------------------------------------------------------------------

  /** `s` cut at every occurrence of `c`, keeping empty pieces. */
  function Pieces(s: string, c: char): (r: seq<string>)
    ensures |r| >= 1
  {
    if s == [] then [""]
    else
      var rest := Pieces(s[1..], c);
      if s[0] == c then [""] + rest else [[s[0]] + rest[0]] + rest[1..]
  }

  function StripTrailingEmpty(p: seq<string>): seq<string>
  {
    if |p| > 0 && p[|p| - 1] == "" then StripTrailingEmpty(p[..|p| - 1]) else p
  }

  /** Java's `s.split(c)`: the whole string when `c` does not occur, otherwise the
      pieces between occurrences with the trailing empty pieces removed. */
  function Split(s: string, c: char): seq<string>
  {
    if c !in s then [s] else StripTrailingEmpty(Pieces(s, c))
  }

  lemma {:induction false} PiecesNoSeparator(x: string, c: char)
    requires c !in x
    ensures Pieces(x, c) == [x]
  {
    if x != [] {
      PiecesNoSeparator(x[1..], c);
      assert [x[0]] + x[1..] == x;
    }
  }

  lemma {:induction false} PiecesConcat(x: string, c: char, y: string)
    requires c !in x
    ensures Pieces(x + [c] + y, c) == [x] + Pieces(y, c)
  {
    var s := x + [c] + y;
    if x == [] {
      assert s[1..] == y;
    } else {
      assert s[1..] == x[1..] + [c] + y;
      PiecesConcat(x[1..], c, y);
      assert [x[0]] + x[1..] == x;
    }
  }

  // ---------------------------------------------------------------------
  // ip:port entries
  // ---------------------------------------------------------------------

  /** `a.split(IP_PORT_SPLITER)[0]` as ip and `Integer.parseInt(a.split(IP_PORT_SPLITER)[1])`
      as port; a missing piece or a bad port is an error. */
  function ParseAddress(a: string): Result<(string, int)>
  {
    var parts := Split(a, SEP);
    if |parts| < 2 then Err(MissingField)
    else match ParseInt(parts[1])
      case None => Err(BadNumber)
      case Some(port) => Ok((parts[0], port))
  }

  /** An address built from an ip without the separator and an int port parses back to both. */
  lemma AddressRoundTrip(ip: string, port: int)
    requires SEP !in ip && IsInt(port)
    ensures ParseAddress(Address(ip, port)) == Ok((ip, port))
  {
    var digits := IntToString(port);
    PiecesConcat(ip, SEP, digits);
    PiecesNoSeparator(digits, SEP);
    assert Pieces(Address(ip, port), SEP) == [ip, digits];
    assert SEP in Address(ip, port) by {
      assert Address(ip, port)[|ip|] == SEP;
    }
    ParseIntegerRoundTrip(port, INT_MIN, INT_MAX);
  }

  /** An entry without the separator has no port piece and is refused. */
  lemma AddressWithoutSeparator(a: string)
    requires SEP !in a
    ensures ParseAddress(a) == Err(MissingField)
  {
  }
}
