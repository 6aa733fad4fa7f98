/** The string primitives the file format and the scanner rest on: trimming, splitting,
    numerals, and UTF-8 as section 4 of RFC 3629 defines it. */
module Text {
  import opened Basics

  // ---------------------------------------------------------------- white space

  /** The Unicode White_Space property. */
  predicate IsWhitespace(c: char) {
    var u := c as int;
    || 9 <= u <= 13 || u == 0x20 || u == 0x85 || u == 0xA0 || u == 0x1680
    || 0x2000 <= u <= 0x200A || u == 0x2028 || u == 0x2029 || u == 0x202F || u == 0x205F || u == 0x3000
  }

  function TrimStart(s: string): string {
    if s != [] && IsWhitespace(s[0]) then TrimStart(s[1..]) else s
  }

  function TrimEnd(s: string): string {
    if s != [] && IsWhitespace(s[|s| - 1]) then TrimEnd(s[..|s| - 1]) else s
  }

  function Trim(s: string): string { TrimEnd(TrimStart(s)) }

  /** What trimming leaves has no white space at either end, so it stays put under a second trim. */
  predicate Trimmed(s: string) {
    s == [] || (!IsWhitespace(s[0]) && !IsWhitespace(s[|s| - 1]))
  }

  lemma TrimmedFixed(s: string)
    requires Trimmed(s)
    ensures Trim(s) == s
  {}

  lemma {:induction false} TrimStartShape(s: string) returns (k: nat)
    ensures k <= |s| && TrimStart(s) == s[k..]
    ensures forall i :: 0 <= i < k ==> IsWhitespace(s[i])
    ensures k < |s| ==> !IsWhitespace(s[k])
  {
    k := 0;
    if s != [] && IsWhitespace(s[0]) {
      var j := TrimStartShape(s[1..]);
      k := j + 1;
      assert s[1..][j..] == s[k..];
      assert forall i :: 0 < i < k ==> s[i] == s[1..][i - 1];
    }
  }

  lemma {:induction false} TrimEndShape(s: string)
    ensures TrimEnd(s) == [] || !IsWhitespace(TrimEnd(s)[|TrimEnd(s)| - 1])
    ensures |TrimEnd(s)| <= |s| && TrimEnd(s) == s[..|TrimEnd(s)|]
    ensures forall i :: |TrimEnd(s)| <= i < |s| ==> IsWhitespace(s[i])
  {
    if s != [] && IsWhitespace(s[|s| - 1]) { TrimEndShape(s[..|s| - 1]); }
  }

  /** Trimming cuts white space off both ends and nothing else. */
  lemma TrimShape(s: string) returns (a: nat, b: nat)
    ensures a <= b <= |s| && Trim(s) == s[a..b] && Trimmed(Trim(s))
    ensures forall i :: 0 <= i < a ==> IsWhitespace(s[i])
    ensures forall i :: b <= i < |s| ==> IsWhitespace(s[i])
  {
    a := TrimStartShape(s);
    var u := s[a..];
    TrimEndShape(u);
    b := a + |Trim(s)|;
    assert forall i :: b <= i < |s| ==> s[i] == u[i - a];
  }

  predicate Blank(s: string) { forall i :: 0 <= i < |s| ==> IsWhitespace(s[i]) }

  /** Trimming takes the blanks at both ends and nothing else. */
  lemma TrimAround(a: string, t: string, b: string)
    requires Blank(a) && Trimmed(t) && Blank(b)
    ensures Trim(a + t + b) == t
  {
    hide Trim, IsWhitespace;
    var s := a + t + b;
    var lo, hi := TrimShape(s);
    assert forall i :: 0 <= i < |a| ==> s[i] == a[i];
    assert forall i :: |a| <= i < |a| + |t| ==> s[i] == t[i - |a|];
    assert forall i :: |a| + |t| <= i < |s| ==> s[i] == b[i - |a| - |t|];
    assert lo < hi ==> s[lo..hi][0] == s[lo] && s[lo..hi][hi - lo - 1] == s[hi - 1];
    assert t != [] ==> s[|a|] == t[0] && s[|a| + |t| - 1] == t[|t| - 1];
    assert s[|a|..|a| + |t|] == t;
  }

  // ---------------------------------------------------------------- splitting

  /** The index of the first `d`, or the length when there is none. */
  function IndexOf(s: string, d: char): (k: nat)
    ensures k <= |s|
    ensures forall i :: 0 <= i < k ==> s[i] != d
    ensures k < |s| ==> s[k] == d
  {
    if s == [] || s[0] == d then 0 else 1 + IndexOf(s[1..], d)
  }

  function Split(s: string, d: char): (parts: seq<string>)
    ensures parts != []
    decreases |s|
  {
    var k := IndexOf(s, d);
    if k == |s| then [s] else [s[..k]] + Split(s[k + 1..], d)
  }

  function SplitOnce(s: string, d: char): Option<(string, string)> {
    var k := IndexOf(s, d);
    if k == |s| then None else Some((s[..k], s[k + 1..]))
  }

  function Join(parts: seq<string>, d: char): string {
    if |parts| == 0 then [] else if |parts| == 1 then parts[0] else parts[0] + [d] + Join(parts[1..], d)
  }

  lemma IndexOfCut(a: string, d: char, rest: string)
    requires d !in a
    ensures IndexOf(a + [d] + rest, d) == |a|
    ensures IndexOf(a, d) == |a|
    ensures (a + [d] + rest)[..|a|] == a && (a + [d] + rest)[|a| + 1..] == rest
  {
    var s := a + [d] + rest;
    assert forall i :: 0 <= i < |a| ==> s[i] == a[i] && s[i] != d;
    assert s[|a|] == d;
  }

  lemma {:induction false} SplitOfJoin(parts: seq<string>, d: char)
    requires parts != []
    requires forall i :: 0 <= i < |parts| ==> d !in parts[i]
    ensures Split(Join(parts, d), d) == parts
  {
    IndexOfCut(parts[0], d, Join(parts[1..], d));
    if |parts| > 1 {
      SplitOfJoin(parts[1..], d);
      assert parts == [parts[0]] + parts[1..];
    }
  }

  /** Lines as `str::lines` yields them: the terminator and one carriage return before it are dropped. */
  function Lines(s: string): (ls: seq<string>)
    decreases |s|
  {
    if s == [] then [] else
      var k := IndexOf(s, '\n');
      if k == |s| then [s] else [StripCr(s[..k])] + Lines(s[k + 1..])
  }

  function StripCr(s: string): string {
    if s != [] && s[|s| - 1] == '\r' then s[..|s| - 1] else s
  }

  function Unlines(ls: seq<string>): string {
    if ls == [] then [] else ls[0] + ['\n'] + Unlines(ls[1..])
  }

  predicate PlainLine(s: string) { '\n' !in s && '\r' !in s }

  lemma LinesCut(a: string, rest: string)
    requires PlainLine(a)
    ensures Lines(a + ['\n'] + rest) == [a] + Lines(rest)
  {
    IndexOfCut(a, '\n', rest);
    assert StripCr(a) == a;
  }

  lemma {:induction false} LinesOfUnlines(ls: seq<string>)
    requires forall i :: 0 <= i < |ls| ==> PlainLine(ls[i])
    ensures Lines(Unlines(ls)) == ls
  {
    if ls != [] {
      LinesOfUnlines(ls[1..]);
      LinesCut(ls[0], Unlines(ls[1..]));
      assert ls == [ls[0]] + ls[1..];
    }
  }

  lemma {:induction false} UnlinesAppend(a: seq<string>, b: seq<string>)
    ensures Unlines(a + b) == Unlines(a) + Unlines(b)
  {
    if a == [] {
      assert a + b == b;
    } else {
      assert (a + b)[1..] == a[1..] + b;
      UnlinesAppend(a[1..], b);
    }
  }

  // ---------------------------------------------------------------- numerals

  function Digit(d: nat): (c: char)
    requires d < 16
    ensures DigitValue(c) == d
  {
    if d < 10 then ('0' as int + d) as char else ('a' as int + (d - 10)) as char
  }

  /** `char::to_digit` for radixes up to 16; 99 stands for "not a digit". */
  function DigitValue(c: char): nat {
    if '0' <= c <= '9' then c as int - '0' as int
    else if 'a' <= c <= 'f' then c as int - 'a' as int + 10
    else if 'A' <= c <= 'F' then c as int - 'A' as int + 10
    else 99
  }

  function Digits(s: string, radix: nat): Option<nat> {
    if s == [] then Some(0) else
      var d := DigitValue(s[|s| - 1]);
      var high := Digits(s[..|s| - 1], radix);
      if high.None? || d >= radix then None else Some(high.value * radix + d)
  }

  /** `from_str_radix` of an unsigned type with values below `bound`: one leading '+' is accepted. */
  function ParseUnsigned(s: string, radix: nat, bound: nat): Option<nat> {
    var body := if |s| > 1 && s[0] == '+' then s[1..] else s;
    if body == [] then None else
      var v := Digits(body, radix);
      if v.None? || v.value >= bound then None else v
  }

  /** Row ids are unbounded in the model, so parsing one has no overflow case. */
  function ParseRowId(s: string): Option<nat> {
    var body := if |s| > 1 && s[0] == '+' then s[1..] else s;
    if body == [] then None else Digits(body, 10)
  }

  /** `str::parse::<i64>`. */
  function ParseI64(s: string): Option<int> {
    if |s| > 1 && s[0] == '-' then
      var v := Digits(s[1..], 10);
      if v.None? || v.value > 0x8000_0000_0000_0000 then None else
        var i: int := -(v.value as int);
        Some(i)
    else
      ParseUnsigned(s, 10, 0x8000_0000_0000_0000)
  }

  function Decimal(n: nat): string {
    if n < 10 then [Digit(n)] else Decimal(n / 10) + [Digit(n % 10)]
  }

  function DecimalInt(i: int): string {
    if i < 0 then ['-'] + Decimal(-i) else Decimal(i)
  }

  predicate IsDigitChar(c: char) { '0' <= c <= '9' }

  lemma {:induction false} DecimalShape(n: nat)
    ensures Decimal(n) != []
    ensures forall i :: 0 <= i < |Decimal(n)| ==> IsDigitChar(Decimal(n)[i])
    ensures Digits(Decimal(n), 10) == Some(n)
  {
    if n < 10 {
      assert Digits([], 10) == Some(0);
      assert [Digit(n)][..0] == [];
    } else {
      DecimalShape(n / 10);
      assert Decimal(n)[..|Decimal(n)| - 1] == Decimal(n / 10);
    }
  }

  lemma DecimalParses(n: nat)
    ensures ParseRowId(Decimal(n)) == Some(n)
    ensures forall bound :: n < bound ==> ParseUnsigned(Decimal(n), 10, bound) == Some(n)
  {
    DecimalShape(n);
    assert IsDigitChar(Decimal(n)[0]);
  }

  lemma DecimalIntParses(i: int)
    requires -0x8000_0000_0000_0000 <= i < 0x8000_0000_0000_0000
    ensures ParseI64(DecimalInt(i)) == Some(i)
  {
    if i < 0 {
      var t := DecimalInt(i);
      assert t[0] == '-' && t[1..] == Decimal(-i);
      assert |t| > 1 && Digits(t[1..], 10) == Some(-i) by { DecimalShape(-i); }
    } else {
      var t := DecimalInt(i);
      assert t[0] != '-' by { DecimalShape(i); assert IsDigitChar(Decimal(i)[0]); }
      assert ParseUnsigned(t, 10, 0x8000_0000_0000_0000) == Some(i) by { DecimalParses(i); }
    }
  }

  lemma DecimalInjective(m: nat, n: nat)
    requires Decimal(m) == Decimal(n)
    ensures m == n
  {
    DecimalShape(m);
    DecimalShape(n);
  }

  /** `{:0width$x}` of a number that fits the width. */
  function Hex(n: nat, width: nat): (s: string)
    ensures |s| == width
  {
    if width == 0 then [] else Hex(n / 16, width - 1) + [Digit(n % 16)]
  }

  function Pow16(w: nat): nat { if w == 0 then 1 else 16 * Pow16(w - 1) }

  predicate IsHexChar(c: char) { '0' <= c <= '9' || 'a' <= c <= 'f' }

  lemma {:induction false} HexShape(n: nat, width: nat)
    requires n < Pow16(width)
    ensures forall i :: 0 <= i < width ==> IsHexChar(Hex(n, width)[i])
    ensures Digits(Hex(n, width), 16) == Some(n)
  {
    if width > 0 {
      assert n / 16 < Pow16(width - 1);
      HexShape(n / 16, width - 1);
      assert Hex(n, width)[..width - 1] == Hex(n / 16, width - 1);
    }
  }

  lemma HexWidths()
    ensures Pow16(2) == 0x100 && Pow16(8) == 0x1_0000_0000 && Pow16(16) == 0x1_0000_0000_0000_0000
  {
    assert Pow16(2) == 0x100;
    assert Pow16(4) == 0x1_0000;
    assert Pow16(6) == 0x100_0000;
    assert Pow16(8) == 0x1_0000_0000;
    assert Pow16(10) == 0x100_0000_0000;
    assert Pow16(12) == 0x1_0000_0000_0000;
    assert Pow16(14) == 0x100_0000_0000_0000;
  }

  lemma HexParses(n: nat, width: nat, bound: nat)
    requires n < Pow16(width) && n < bound && width > 0
    ensures ParseUnsigned(Hex(n, width), 16, bound) == Some(n)
    ensures forall i :: 0 <= i < width ==> IsHexChar(Hex(n, width)[i])
  {
    HexShape(n, width);
    assert IsHexChar(Hex(n, width)[0]);
  }

  // ---------------------------------------------------------------- UTF-8

  type Byte = b: nat | b < 256

  function EncodeChar(c: char): (b: seq<Byte>)
    ensures 1 <= |b| <= 4
  {
    var u := c as int;
    if u < 0x80 then [u]
    else if u < 0x800 then [0xC0 + u / 0x40, 0x80 + u % 0x40]
    else if u < 0x1_0000 then [0xE0 + u / 0x1000, 0x80 + u / 0x40 % 0x40, 0x80 + u % 0x40]
    else [0xF0 + u / 0x4_0000, 0x80 + u / 0x1000 % 0x40, 0x80 + u / 0x40 % 0x40, 0x80 + u % 0x40]
  }

  predicate Tail(b: int) { 0x80 <= b <= 0xBF }

  /** The code point of a two-, three- or four-byte sequence, if it is well formed. */
  function Scalar2(a: int, b: int): Option<int> {
    if 0xC2 <= a <= 0xDF && Tail(b) then Some((a - 0xC0) * 0x40 + (b - 0x80)) else None
  }

  function Scalar3(a: int, b: int, c: int): Option<int> {
    if 0xE0 <= a <= 0xEF && Tail(b) && Tail(c) && (a == 0xE0 ==> b >= 0xA0) && (a == 0xED ==> b <= 0x9F)
    then Some((a - 0xE0) * 0x1000 + (b - 0x80) * 0x40 + (c - 0x80)) else None
  }

  function Scalar4(a: int, b: int, c: int, d: int): Option<int> {
    if 0xF0 <= a <= 0xF4 && Tail(b) && Tail(c) && Tail(d) && (a == 0xF0 ==> b >= 0x90) && (a == 0xF4 ==> b <= 0x8F)
    then Some((a - 0xF0) * 0x4_0000 + (b - 0x80) * 0x1000 + (c - 0x80) * 0x40 + (d - 0x80)) else None
  }

  lemma ScalarRanges(a: int, b: int, c: int, d: int)
    ensures Scalar2(a, b).Some? ==> 0x80 <= Scalar2(a, b).value < 0x800
    ensures Scalar3(a, b, c).Some? ==>
              0x800 <= Scalar3(a, b, c).value < 0xD800 || 0xE000 <= Scalar3(a, b, c).value < 0x1_0000
    ensures Scalar4(a, b, c, d).Some? ==> 0x1_0000 <= Scalar4(a, b, c, d).value < 0x11_0000
  {}

  /** The first character of a byte string, if it starts with a well-formed UTF-8 sequence. */
  function DecodeChar(b: seq<Byte>): (r: Option<(char, nat)>)
    ensures r.Some? ==> 1 <= r.value.1 <= |b|
  {
    if b == [] then None
    else if b[0] < 0x80 then Some((b[0] as char, 1))
    else if |b| >= 2 && Scalar2(b[0], b[1]).Some? then
      ScalarRanges(b[0], b[1], 0, 0);
      Some((Scalar2(b[0], b[1]).value as char, 2))
    else if |b| >= 3 && Scalar3(b[0], b[1], b[2]).Some? then
      ScalarRanges(b[0], b[1], b[2], 0);
      Some((Scalar3(b[0], b[1], b[2]).value as char, 3))
    else if |b| >= 4 && Scalar4(b[0], b[1], b[2], b[3]).Some? then
      ScalarRanges(b[0], b[1], b[2], b[3]);
      Some((Scalar4(b[0], b[1], b[2], b[3]).value as char, 4))
    else None
  }

  function Utf8(s: string): seq<Byte> {
    if s == [] then [] else EncodeChar(s[0]) + Utf8(s[1..])
  }

  /** `String::from_utf8`. */
  function FromUtf8(b: seq<Byte>): Option<string>
    decreases |b|
  {
    if b == [] then Some([]) else
      var first := DecodeChar(b);
      if first.None? then None else
        var rest := FromUtf8(b[first.value.1..]);
        if rest.None? then None else Some([first.value.0] + rest.value)
  }

  lemma ScalarOfParts2(u: int)
    requires 0x80 <= u < 0x800
    ensures Scalar2(0xC0 + u / 0x40, 0x80 + u % 0x40) == Some(u)
  {}

  lemma ScalarOfParts3(u: int)
    requires 0x800 <= u < 0xD800 || 0xE000 <= u < 0x1_0000
    ensures Scalar2(0xE0 + u / 0x1000, 0x80 + u / 0x40 % 0x40) == None
    ensures Scalar3(0xE0 + u / 0x1000, 0x80 + u / 0x40 % 0x40, 0x80 + u % 0x40) == Some(u)
  {
    assert u == u / 0x1000 * 0x1000 + u / 0x40 % 0x40 * 0x40 + u % 0x40;
  }

  lemma ScalarOfParts4(u: int)
    requires 0x1_0000 <= u < 0x11_0000
    ensures Scalar4(0xF0 + u / 0x4_0000, 0x80 + u / 0x1000 % 0x40, 0x80 + u / 0x40 % 0x40, 0x80 + u % 0x40) == Some(u)
  {
    assert u == u / 0x4_0000 * 0x4_0000 + u / 0x1000 % 0x40 * 0x1000 + u / 0x40 % 0x40 * 0x40 + u % 0x40;
  }

  lemma DecodeEncodedChar(c: char, rest: seq<Byte>)
    ensures DecodeChar(EncodeChar(c) + rest) == Some((c, |EncodeChar(c)|))
  {
    var u := c as int;
    var e := EncodeChar(c);
    var b := e + rest;
    assert forall i :: 0 <= i < |e| ==> b[i] == e[i];
    if u < 0x80 {
    } else if u < 0x800 {
      ScalarOfParts2(u);
    } else if u < 0x1_0000 {
      ScalarOfParts3(u);
    } else {
      ScalarOfParts4(u);
    }
  }

  lemma PartsOfScalar3(a: int, b: int, c: int)
    requires Scalar3(a, b, c).Some?
    ensures var u := Scalar3(a, b, c).value;
            u / 0x1000 == a - 0xE0 && u / 0x40 % 0x40 == b - 0x80 && u % 0x40 == c - 0x80
  {
    var u := Scalar3(a, b, c).value;
    assert u / 0x40 == (a - 0xE0) * 0x40 + (b - 0x80);
  }

  lemma PartsOfScalar4(a: int, b: int, c: int, d: int)
    requires Scalar4(a, b, c, d).Some?
    ensures var u := Scalar4(a, b, c, d).value;
            u / 0x4_0000 == a - 0xF0 && u / 0x1000 % 0x40 == b - 0x80 && u / 0x40 % 0x40 == c - 0x80 &&
            u % 0x40 == d - 0x80
  {
    var u := Scalar4(a, b, c, d).value;
    assert u / 0x40 == (a - 0xF0) * 0x1000 + (b - 0x80) * 0x40 + (c - 0x80);
    assert u / 0x1000 == (a - 0xF0) * 0x40 + (b - 0x80);
  }

  /** A decoded sequence is the only encoding of its character: no overlong forms are accepted. */
  lemma EncodeDecodedChar(b: seq<Byte>)
    requires DecodeChar(b).Some?
    ensures EncodeChar(DecodeChar(b).value.0) == b[..DecodeChar(b).value.1]
  {
    var n := DecodeChar(b).value.1;
    if n == 2 {
      ScalarRanges(b[0], b[1], 0, 0);
      assert b[..2] == [b[0], b[1]];
    } else if n == 3 {
      ScalarRanges(b[0], b[1], b[2], 0);
      PartsOfScalar3(b[0], b[1], b[2]);
      assert b[..3] == [b[0], b[1], b[2]];
    } else if n == 4 {
      ScalarRanges(b[0], b[1], b[2], b[3]);
      PartsOfScalar4(b[0], b[1], b[2], b[3]);
      assert b[..4] == [b[0], b[1], b[2], b[3]];
    }
  }

  lemma {:induction false} FromUtf8OfUtf8(s: string)
    ensures FromUtf8(Utf8(s)) == Some(s)
  {
    if s != [] {
      DecodeEncodedChar(s[0], Utf8(s[1..]));
      FromUtf8OfUtf8(s[1..]);
      assert Utf8(s)[|EncodeChar(s[0])|..] == Utf8(s[1..]);
      assert s == [s[0]] + s[1..];
    }
  }

  lemma FromUtf8Cut(b: seq<Byte>) returns (c: char, n: nat)
    requires b != [] && FromUtf8(b).Some?
    ensures 1 <= n <= |b| && EncodeChar(c) == b[..n]
    ensures FromUtf8(b[n..]).Some? && FromUtf8(b).value == [c] + FromUtf8(b[n..]).value
  {
    c, n := DecodeChar(b).value.0, DecodeChar(b).value.1;
    EncodeDecodedChar(b);
  }

  lemma {:induction false} Utf8OfFromUtf8(b: seq<Byte>)
    requires FromUtf8(b).Some?
    ensures Utf8(FromUtf8(b).value) == b
    decreases |b|
  {
    if b != [] {
      var c, n := FromUtf8Cut(b);
      Utf8OfFromUtf8(b[n..]);
      assert ([c] + FromUtf8(b[n..]).value)[1..] == FromUtf8(b[n..]).value;
      assert b == b[..n] + b[n..];
    }
  }
}
