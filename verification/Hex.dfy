/** Key files hold a 32-byte key as 64 hex digits: `format!("{b:02x}")` one way, `parse_hex` of
    `users.rs` the other. */
module Hex {
  import opened Bytes

  const DIGITS: string := "0123456789abcdef"

  function DigitChar(n: nat): char
    requires n < 16
  {
    DIGITS[n]
  }

  function DigitValue(c: char): Option<nat> {
    if '0' <= c <= '9' then Some(c as int - '0' as int)
    else if 'a' <= c <= 'f' then Some(c as int - 'a' as int + 10)
    else if 'A' <= c <= 'F' then Some(c as int - 'A' as int + 10)
    else None
  }

  function PrintByte(b: byte): string { [DigitChar(b / 16), DigitChar(b % 16)] }

  function Print(bytes: seq<byte>): string {
    if bytes == [] then "" else PrintByte(bytes[0]) + Print(bytes[1..])
  }

  /** `u8::from_str_radix` on two characters: two digits, or a plus sign and one digit. */
  function ParseByte(c0: char, c1: char): Option<byte> {
    match (DigitValue(c0), DigitValue(c1))
    case (Some(hi), Some(lo)) => Some(hi * 16 + lo)
    case (None, Some(lo)) => if c0 == '+' then Some(lo) else None
    case (_, None) => None
  }

  function ParsePairs(s: string): Option<seq<byte>>
    requires |s| % 2 == 0
  {
    if s == "" then Some([])
    else
      match (ParseByte(s[0], s[1]), ParsePairs(s[2..]))
      case (Some(b), Some(rest)) => Some([b] + rest)
      case _ => None
  }

  /** Unicode White_Space, which `str::trim` removes. */
  predicate IsSpace(c: char) {
    var n := c as int;
    || 9 <= n <= 13 || n == 32 || n == 0x85 || n == 0xA0 || n == 0x1680 || 0x2000 <= n <= 0x200A
    || n == 0x2028 || n == 0x2029 || n == 0x202F || n == 0x205F || n == 0x3000
  }

  function TrimStart(s: string): string {
    if s != "" && IsSpace(s[0]) then TrimStart(s[1..]) else s
  }

  function TrimEnd(s: string): string {
    if s != "" && IsSpace(s[|s| - 1]) then TrimEnd(s[..|s| - 1]) else s
  }

  function Trim(s: string): string { TrimEnd(TrimStart(s)) }

  function ParseKey(content: string): (key: Option<Bytes32>)
  {
    var hex := Trim(content);
    if |hex| != 64 then None
    else
      match ParsePairs(hex)
      case None => None
      case Some(bytes) => ParsedLength(hex); Some(bytes)
  }

  lemma {:induction false} ParsedLength(s: string)
    requires |s| % 2 == 0
    ensures ParsePairs(s).Some? ==> 2 * |ParsePairs(s).value| == |s|
    decreases |s|
  {
    if s == "" {
    } else {
      ParsedLength(s[2..]);
    }
  }

  function Prepend(front: seq<byte>, rest: Option<seq<byte>>): Option<seq<byte>> {
    match rest
    case None => None
    case Some(bytes) => Some(front + bytes)
  }

  lemma PrependTwice(front: seq<byte>, b: byte, rest: Option<seq<byte>>)
    ensures Prepend(front, Prepend([b], rest)) == Prepend(front + [b], rest) && Prepend([], rest) == rest
  {
    if rest.Some? {
      assert front + ([b] + rest.value) == front + [b] + rest.value && [] + rest.value == rest.value;
    }
  }

  /** `parse_hex` as the source runs it, two characters at a time. */
  method ParseHex(text: string) returns (key: Option<Bytes32>)
    ensures key == ParseKey(text)
  {
    var hex := Trim(text);
    if |hex| != 64 {
      return None;
    }
    var psk: seq<byte> := [];
    ParsedLength(hex);
    assert hex[0..] == hex;
    PrependTwice([], 0, ParsePairs(hex));
    for i := 0 to 32
      invariant |psk| == i
      invariant ParsePairs(hex) == Prepend(psk, ParsePairs(hex[2 * i..]))
    {
      ghost var rest := hex[2 * i..];
      assert rest[2..] == hex[2 * (i + 1)..] && rest[0] == hex[2 * i] && rest[1] == hex[2 * i + 1];
      var b := ParseByte(hex[2 * i], hex[2 * i + 1]);
      if b.None? {
        return None;
      }
      assert ParsePairs(rest) == Prepend([b.value], ParsePairs(rest[2..]));
      PrependTwice(psk, b.value, ParsePairs(rest[2..]));
      psk := psk + [b.value];
    }
    assert hex[64..] == "" && psk + [] == psk;
    key := Some(psk);
  }

  lemma DigitRoundTrip(n: nat)
    requires n < 16
    ensures DigitValue(DigitChar(n)) == Some(n) && !IsSpace(DigitChar(n))
    ensures '0' <= DigitChar(n) <= '9' || 'a' <= DigitChar(n) <= 'f'
  {
  }

  lemma ByteRoundTrip(b: byte)
    ensures var s := PrintByte(b);
      && ParseByte(s[0], s[1]) == Some(b) && !IsSpace(s[0]) && !IsSpace(s[1])
      && forall c :: c in s ==> '0' <= c <= '9' || 'a' <= c <= 'f'
  {
    DigitRoundTrip(b / 16);
    DigitRoundTrip(b % 16);
  }

  lemma {:induction false} PrintRoundTrip(bytes: seq<byte>)
    ensures |Print(bytes)| == 2 * |bytes| && ParsePairs(Print(bytes)) == Some(bytes)
    ensures forall c :: c in Print(bytes) ==> !IsSpace(c) && ('0' <= c <= '9' || 'a' <= c <= 'f')
  {
    if bytes == [] {
    } else {
      var first, rest := PrintByte(bytes[0]), Print(bytes[1..]);
      ByteRoundTrip(bytes[0]);
      PrintRoundTrip(bytes[1..]);
      assert (first + rest)[2..] == rest && (first + rest)[0] == first[0] && (first + rest)[1] == first[1];
      assert [bytes[0]] + bytes[1..] == bytes;
    }
  }

  /** Printing a key and parsing the file gives the key back. */
  lemma KeyRoundTrip(key: Bytes32)
    ensures ParseKey(Print(key)) == Some(key)
  {
    PrintRoundTrip(key);
    var s := Print(key);
    assert s[0] in s && s[|s| - 1] in s;
  }

  // ----- What else parses -----

  predicate AllSpace(s: string) { forall c :: c in s ==> IsSpace(c) }

  lemma {:induction false} TrimStartSkips(a: string, s: string)
    requires AllSpace(a)
    ensures TrimStart(a + s) == TrimStart(s)
  {
    if a == "" {
      assert a + s == s;
    } else {
      assert a[0] in a && (a + s)[1..] == a[1..] + s;
      TrimStartSkips(a[1..], s);
    }
  }

  lemma {:induction false} TrimEndSkips(s: string, b: string)
    requires AllSpace(b)
    ensures TrimEnd(s + b) == TrimEnd(s)
    decreases |b|
  {
    if b == "" {
      assert s + b == s;
    } else {
      assert b[|b| - 1] in b && (s + b)[..|s + b| - 1] == s + b[..|b| - 1];
      TrimEndSkips(s, b[..|b| - 1]);
    }
  }

  lemma {:induction false} TrimStartKeepsEnd(s: string, b: string)
    requires AllSpace(b)
    ensures TrimEnd(TrimStart(s + b)) == TrimEnd(TrimStart(s))
  {
    if s == "" {
      assert s + b == b && b + "" == b;
      TrimStartSkips(b, "");
    } else if IsSpace(s[0]) {
      assert (s + b)[1..] == s[1..] + b;
      TrimStartKeepsEnd(s[1..], b);
    } else {
      TrimEndSkips(s, b);
    }
  }

  /** White space around a key does not matter: a key file may end in a newline. */
  lemma SpaceIsIgnored(a: string, s: string, b: string)
    requires AllSpace(a) && AllSpace(b)
    ensures ParseKey(a + s + b) == ParseKey(s)
  {
    assert a + s + b == a + (s + b);
    TrimStartSkips(a, s + b);
    TrimStartKeepsEnd(s, b);
  }

  lemma NewlineIsIgnored(s: string)
    ensures ParseKey(s + "\n") == ParseKey(s) && ParseKey(s + "\r\n") == ParseKey(s)
    ensures ParseKey(" \t" + s) == ParseKey(s)
  {
    assert "" + s + "\n" == s + "\n" && "" + s + "\r\n" == s + "\r\n" && " \t" + s + "" == " \t" + s;
    SpaceIsIgnored("", s, "\n");
    SpaceIsIgnored("", s, "\r\n");
    SpaceIsIgnored(" \t", s, "");
  }

  function UpperChar(c: char): char {
    if 'a' <= c <= 'z' then (c as int - 'a' as int + 'A' as int) as char else c
  }

  function Upper(s: string): string { seq(|s|, i requires 0 <= i < |s| => UpperChar(s[i])) }

  lemma {:induction false} UpperParses(s: string)
    requires |s| % 2 == 0 && ParsePairs(s).Some?
    ensures ParsePairs(Upper(s)) == ParsePairs(s)
    decreases |s|
  {
    if s == "" {
      assert Upper(s) == "";
    } else {
      UpperParses(s[2..]);
      assert Upper(s)[2..] == Upper(s[2..]);
    }
  }

  lemma {:induction false} UpperTrims(s: string)
    ensures TrimStart(Upper(s)) == Upper(TrimStart(s)) && TrimEnd(Upper(s)) == Upper(TrimEnd(s))
  {
    UpperTrimsStart(s);
    UpperTrimsEnd(s);
  }

  lemma {:induction false} UpperTrimsStart(s: string)
    ensures TrimStart(Upper(s)) == Upper(TrimStart(s))
  {
    if s != "" && IsSpace(s[0]) {
      assert Upper(s)[1..] == Upper(s[1..]);
      UpperTrimsStart(s[1..]);
    }
  }

  lemma {:induction false} UpperTrimsEnd(s: string)
    ensures TrimEnd(Upper(s)) == Upper(TrimEnd(s))
  {
    if s != "" && IsSpace(s[|s| - 1]) {
      assert Upper(s)[..|s| - 1] == Upper(s[..|s| - 1]);
      UpperTrimsEnd(s[..|s| - 1]);
    }
  }

  /** Upper-case digits give the same key. */
  lemma CaseIsIgnored(s: string)
    requires ParseKey(s).Some?
    ensures ParseKey(Upper(s)) == ParseKey(s)
  {
    UpperTrims(s);
    UpperTrims(TrimStart(s));
    UpperParses(Trim(s));
  }

  predicate IsHexDigit(c: char) { '0' <= c <= '9' || 'a' <= c <= 'f' || 'A' <= c <= 'F' }

  lemma {:induction false} OnlyHexPairsParse(s: string)
    requires |s| % 2 == 0 && ParsePairs(s).Some?
    ensures forall c :: c in s ==> IsHexDigit(c) || c == '+'
    ensures forall i :: 0 <= i < |s| && i % 2 == 1 ==> IsHexDigit(s[i])
    decreases |s|
  {
    if s == "" {
    } else {
      OnlyHexPairsParse(s[2..]);
      assert s == [s[0], s[1]] + s[2..];
      forall i | 0 <= i < |s| && i % 2 == 1 ensures IsHexDigit(s[i]) {
        if i >= 2 {
          assert s[i] == s[2..][i - 2];
        }
      }
    }
  }

  /** Whatever parses is 64 hex digits between white space, except that the first of a pair may be
      a plus sign. */
  lemma OnlyHexParses(text: string)
    requires ParseKey(text).Some?
    ensures var s := Trim(text);
      && |s| == 64 && (forall c :: c in s ==> IsHexDigit(c) || c == '+')
      && forall i :: 0 <= i < 64 && i % 2 == 1 ==> IsHexDigit(s[i])
  {
    OnlyHexPairsParse(Trim(text));
  }

  /** The high digit comes first, and a plus sign may stand in its place. */
  lemma HighDigitFirst()
    ensures Print([0x0a, 0xf1]) == "0af1" && ParsePairs("0aF1") == Some([0x0a, 0xf1])
    ensures ParseByte('+', 'a') == Some(0x0a) && ParseByte('a', '+') == None
  {
    assert PrintByte(0x0a) == "0a" && PrintByte(0xf1) == "f1";
    assert Print([0xf1]) == PrintByte(0xf1) + Print([]);
    ParsePair('F', '1', 0xf1, "", []);
    assert ['F', '1'] + "" == ['F', '1'] && [0xf1] + [] == [0xf1];
    ParsePair('0', 'a', 0x0a, ['F', '1'], [0xf1]);
    assert ['0', 'a'] + ['F', '1'] == "0aF1" && [0x0a] + [0xf1] == [0x0a, 0xf1];
  }

  lemma ParsePair(c0: char, c1: char, b: byte, rest: string, bytes: seq<byte>)
    requires ParseByte(c0, c1) == Some(b) && |rest| % 2 == 0 && ParsePairs(rest) == Some(bytes)
    ensures ParsePairs([c0, c1] + rest) == Some([b] + bytes)
  {
    assert ([c0, c1] + rest)[2..] == rest;
  }
}
