/**
 * The parts of Rust's `std::net` that the lookup relies on: IPv4 addresses, their textual
 * form and `Ipv4Addr`'s `FromStr` parser, and the `IpAddr` sum of an IPv4 and an IPv6 address.
 *
 * The parser follows the standard library's grammar: exactly four fields separated by '.',
 * each field one to three ASCII decimal digits, no leading zero unless the field is "0",
 * and a value of at most 255. Nothing else (signs, spaces, empty fields) is accepted.
 * The main result is `ParseIffFormat`: a string parses to `a` exactly when it is the
 * canonical dotted-quad text of `a`.
 */
module Net {
  import opened Wrappers

  type Octet = x: int | 0 <= x < 256

  /** `std::net::Ipv4Addr`: four octets, most significant first. */
  datatype Ipv4Addr = Ipv4Addr(o0: Octet, o1: Octet, o2: Octet, o3: Octet)

  /** The eight 16-bit segments of an IPv6 address. */
  type Segments = s: seq<bv16> | |s| == 8 witness [0, 0, 0, 0, 0, 0, 0, 0]

  /** `std::net::Ipv6Addr`. The lookup never inspects its segments. */
  datatype Ipv6Addr = Ipv6Addr(segments: Segments)

  /** `std::net::IpAddr`. */
  datatype IpAddr = V4(v4: Ipv4Addr) | V6(v6: Ipv6Addr)

  // ---------------------------------------------------------------------------------------
  // Decimal digits

  predicate IsDigit(ch: char) {
    '0' <= ch <= '9'
  }

  predicate AllDigits(s: string) {
    forall i :: 0 <= i < |s| ==> IsDigit(s[i])
  }

  function DigitValue(ch: char): (v: nat)
    requires IsDigit(ch)
    ensures v < 10
  {
    ch as int - '0' as int
  }

  function DigitChar(v: nat): (ch: char)
    requires v < 10
    ensures IsDigit(ch) && DigitValue(ch) == v
  {
    ('0' as int + v) as char
  }

  /** The value of a string of decimal digits, most significant digit first. */
  function DecimalValue(s: string): nat
    requires AllDigits(s)
  {
    if s == [] then 0 else DecimalValue(s[..|s| - 1]) * 10 + DigitValue(s[|s| - 1])
  }

  // ---------------------------------------------------------------------------------------
  // One octet

  /** The shape the standard library accepts for one field of a dotted quad. */
  predicate IsOctetText(s: string) {
    && 1 <= |s| <= 3
    && AllDigits(s)
    && (s[0] == '0' ==> |s| == 1)
  }

  function ParseOctet(s: string): Option<Octet> {
    if IsOctetText(s) && DecimalValue(s) < 256 then Some(DecimalValue(s)) else None
  }

  /** The shortest decimal text of an octet. */
  function FormatOctet(o: Octet): (s: string)
    ensures IsOctetText(s)
    ensures '.' !in s
  {
    if o < 10 then [DigitChar(o)]
    else if o < 100 then [DigitChar(o / 10), DigitChar(o % 10)]
    else [DigitChar(o / 100), DigitChar(o / 10 % 10), DigitChar(o % 10)]
  }

  lemma OctetRoundTrip(o: Octet)
    ensures ParseOctet(FormatOctet(o)) == Some(o)
  {
    var s := FormatOctet(o);
    if o < 10 {
      assert s[..0] == [];
      assert DecimalValue(s) == o;
    } else if o < 100 {
      assert s[..1] == [DigitChar(o / 10)];
      assert s[..1][..0] == [];
      assert DecimalValue(s[..1]) == o / 10;
      assert DecimalValue(s) == o;
    } else {
      assert s[..2] == [DigitChar(o / 100), DigitChar(o / 10 % 10)];
      assert s[..2][..1] == [DigitChar(o / 100)];
      assert s[..2][..1][..0] == [];
      assert DecimalValue(s[..2][..1]) == o / 100;
      assert DecimalValue(s[..2]) == o / 100 * 10 + o / 10 % 10;
      assert DecimalValue(s) == o;
    }
  }

  lemma TwoDigitCanonical(s: string, o: Octet)
    requires IsOctetText(s) && |s| == 2 && DecimalValue(s) == o
    ensures FormatOctet(o) == s
  {
    var d0 := DigitValue(s[0]);
    var d1 := DigitValue(s[1]);
    assert s[..1][..0] == [];
    assert DecimalValue(s[..1]) == d0;
    assert o == d0 * 10 + d1 && d0 >= 1;
    assert o / 10 == d0 && o % 10 == d1;
    assert [DigitChar(o / 10), DigitChar(o % 10)] == s;
  }

  lemma ThreeDigitCanonical(s: string, o: Octet)
    requires IsOctetText(s) && |s| == 3 && DecimalValue(s) == o
    ensures FormatOctet(o) == s
  {
    var d0 := DigitValue(s[0]);
    var d1 := DigitValue(s[1]);
    var d2 := DigitValue(s[2]);
    assert s[..2][..1][..0] == [];
    assert DecimalValue(s[..2][..1]) == d0;
    assert DecimalValue(s[..2]) == d0 * 10 + d1;
    assert o == (d0 * 10 + d1) * 10 + d2 && d0 >= 1;
    assert o / 100 == d0 && o / 10 % 10 == d1 && o % 10 == d2;
    assert [DigitChar(o / 100), DigitChar(o / 10 % 10), DigitChar(o % 10)] == s;
  }

  /** A field that parses is the canonical text of its value: there is one spelling per octet. */
  lemma OctetCanonical(s: string, o: Octet)
    requires ParseOctet(s) == Some(o)
    ensures FormatOctet(o) == s
  {
    assert IsOctetText(s) && DecimalValue(s) == o;
    if |s| == 1 {
      assert s[..0] == [];
      assert o == DigitValue(s[0]);
      assert [DigitChar(o)] == s;
    } else if |s| == 2 {
      TwoDigitCanonical(s, o);
    } else {
      ThreeDigitCanonical(s, o);
    }
  }

  // ---------------------------------------------------------------------------------------
  // Fields separated by '.'

  function IndexOfDot(s: string): (i: nat)
    requires '.' in s
    ensures i < |s| && s[i] == '.' && '.' !in s[..i]
  {
    if s[0] == '.' then 0
    else
      assert s == [s[0]] + s[1..];
      var j := IndexOfDot(s[1..]);
      assert s[..j + 1] == [s[0]] + s[1..][..j];
      j + 1
  }

  /** The maximal dot-free runs of `s`, in order; `Split("")` is `[""]`. */
  function Split(s: string): (parts: seq<string>)
    ensures |parts| >= 1
    ensures forall i :: 0 <= i < |parts| ==> '.' !in parts[i]
    decreases |s|
  {
    if '.' in s then
      var i := IndexOfDot(s);
      [s[..i]] + Split(s[i + 1..])
    else
      [s]
  }

  function Join(parts: seq<string>): string
    requires |parts| >= 1
  {
    if |parts| == 1 then parts[0] else parts[0] + "." + Join(parts[1..])
  }

  lemma {:induction false} JoinSplit(s: string)
    ensures Join(Split(s)) == s
    decreases |s|
  {
    if '.' in s {
      var i := IndexOfDot(s);
      JoinSplit(s[i + 1..]);
      assert Split(s)[1..] == Split(s[i + 1..]);
      assert s == s[..i] + "." + s[i + 1..];
    }
  }

  /** Splitting a dot-free `field`, a '.', and `rest` gives `field` followed by the fields of `rest`. */
  lemma SplitCons(field: string, rest: string)
    requires '.' !in field
    ensures Split(field + "." + rest) == [field] + Split(rest)
  {
    var s := field + "." + rest;
    assert s[|field|] == '.';
    assert s[..|field|] == field;
    assert IndexOfDot(s) == |field|;
    assert s[|field| + 1..] == rest;
  }

  lemma {:induction false} SplitJoin(parts: seq<string>)
    requires |parts| >= 1
    requires forall i :: 0 <= i < |parts| ==> '.' !in parts[i]
    ensures Split(Join(parts)) == parts
  {
    if |parts| > 1 {
      var tail := parts[1..];
      assert forall i :: 0 <= i < |tail| ==> tail[i] == parts[i + 1];
      SplitJoin(tail);
      SplitCons(parts[0], Join(tail));
      assert parts == [parts[0]] + tail;
    }
  }

  // ---------------------------------------------------------------------------------------
  // Dotted quads

  /**
   * `<Ipv4Addr as FromStr>::from_str(s).ok()`. A string it accepts is the canonical text of
   * the address it yields: there is one spelling per address.
   */
  function ParseIpv4(s: string): (r: Option<Ipv4Addr>)
    ensures r.Some? ==> FormatIpv4(r.value) == s
  {
    var p := Split(s);
    if |p| == 4 && ParseOctet(p[0]).Some? && ParseOctet(p[1]).Some?
       && ParseOctet(p[2]).Some? && ParseOctet(p[3]).Some?
    then
      var a := Ipv4Addr(ParseOctet(p[0]).value, ParseOctet(p[1]).value,
                        ParseOctet(p[2]).value, ParseOctet(p[3]).value);
      OctetCanonical(p[0], a.o0);
      OctetCanonical(p[1], a.o1);
      OctetCanonical(p[2], a.o2);
      OctetCanonical(p[3], a.o3);
      assert [FormatOctet(a.o0), FormatOctet(a.o1), FormatOctet(a.o2), FormatOctet(a.o3)] == p;
      JoinSplit(s);
      Some(a)
    else None
  }

  /** The `Display` text of an address: its four octets in decimal, joined by '.'. */
  function FormatIpv4(a: Ipv4Addr): string {
    Join([FormatOctet(a.o0), FormatOctet(a.o1), FormatOctet(a.o2), FormatOctet(a.o3)])
  }

  lemma ParseFormat(a: Ipv4Addr)
    ensures ParseIpv4(FormatIpv4(a)) == Some(a)
  {
    var fields := [FormatOctet(a.o0), FormatOctet(a.o1), FormatOctet(a.o2), FormatOctet(a.o3)];
    SplitJoin(fields);
    OctetRoundTrip(a.o0);
    OctetRoundTrip(a.o1);
    OctetRoundTrip(a.o2);
    OctetRoundTrip(a.o3);
  }

  /** A string parses to `a` exactly when it is the canonical text of `a`. */
  lemma ParseIffFormat(s: string, a: Ipv4Addr)
    ensures ParseIpv4(s) == Some(a) <==> s == FormatIpv4(a)
  {
    if s == FormatIpv4(a) {
      ParseFormat(a);
    }
  }

  /** An endpoint without an assigned address carries the empty string, which does not parse. */
  lemma EmptyDoesNotParse()
    ensures ParseIpv4("") == None
  {
    assert Split("") == [""];
  }

  /** A field with a leading zero is refused (no octal-looking text). */
  lemma LeadingZeroDoesNotParse()
    ensures ParseIpv4("01.2.3.4") == None
  {
    var f := "01";
    assert !IsOctetText(f);
    assert ParseOctet(f) == None;
    var s := "01.2.3.4";
    assert s[2] == '.' && '.' !in s[..2];
    assert IndexOfDot(s) == 2;
    assert s[..2] == f;
    var p := Split(s);
    assert p[0] == f;
  }

  /** A field above 255 is refused. */
  lemma OverflowDoesNotParse()
    ensures ParseIpv4("256.1.1.1") == None
  {
    var f := "256";
    assert f[..2] == "25" && f[..2][..1] == "2" && f[..2][..1][..0] == [];
    assert DecimalValue("2") == 2;
    assert DecimalValue("25") == 25;
    assert DecimalValue(f) == 256;
    assert ParseOctet(f) == None;
    var t := "256.1.1.1";
    assert t[3] == '.' && '.' !in t[..3];
    assert IndexOfDot(t) == 3;
    assert t[..3] == f;
    var p := Split(t);
    assert p[0] == f;
  }

  /** Three fields are not an address. */
  lemma ThreeFieldsDoNotParse()
    ensures ParseIpv4("1.2.3") == None
  {
    var u := "1.2.3";
    assert u[1] == '.' && '.' !in u[..1];
    assert IndexOfDot(u) == 1;
    var v := u[2..];
    assert v == "2.3";
    assert v[1] == '.' && '.' !in v[..1];
    assert IndexOfDot(v) == 1;
    assert v[2..] == "3";
    assert '.' !in "3";
    assert Split("3") == ["3"];
    assert v[..1] == "2";
    assert Split(v) == ["2", "3"];
    assert u[..1] == "1";
    assert Split(u) == ["1", "2", "3"];
  }
}
