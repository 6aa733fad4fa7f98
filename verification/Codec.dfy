/** The value and string codec of the database file (`storage/codec.rs`) and the index keys built on it. */
module Codec {
  import opened Basics
  import opened Text
  import opened Values

  // ---------------------------------------------------------------- strings

  function HexBytes(b: seq<Byte>): string {
    if b == [] then [] else Hex(b[0], 2) + HexBytes(b[1..])
  }

  function EncodeString(s: string): string { HexBytes(Utf8(s)) }

  /** The bytes a hex string spells, pair by pair; each pair goes through `u8::from_str_radix`. */
  function UnhexBytes(s: string): Option<seq<Byte>> {
    if s == [] then Some([])
    else if |s| == 1 then None
    else
      var b := ParseUnsigned(s[..2], 16, 256);
      var rest := UnhexBytes(s[2..]);
      if b.None? || rest.None? then None else Some([b.value] + rest.value)
  }

  function DecodeString(s: string): Result<string, Error> {
    match UnhexBytes(s)
    case None => Err(Execution)
    case Some(bytes) =>
      match FromUtf8(bytes)
      case None => Err(Execution)
      case Some(t) => Ok(t)
  }

  function Prepend(bytes: seq<Byte>, rest: Option<seq<Byte>>): Option<seq<Byte>> {
    if rest.None? then None else Some(bytes + rest.value)
  }

  lemma PrependNone(rest: Option<seq<Byte>>)
    ensures Prepend([], rest) == rest
  {
    assert rest.Some? ==> [] + rest.value == rest.value;
  }

  lemma PrependStep(bytes: seq<Byte>, s: string)
    requires |s| >= 2
    ensures Prepend(bytes, UnhexBytes(s)) ==
            var b := ParseUnsigned(s[..2], 16, 256);
            if b.None? then None else Prepend(bytes + [b.value], UnhexBytes(s[2..]))
  {
    hide ParseUnsigned;
    var b, rest := ParseUnsigned(s[..2], 16, 256), UnhexBytes(s[2..]);
    assert b.Some? && rest.Some? ==> bytes + ([b.value] + rest.value) == (bytes + [b.value]) + rest.value;
  }

  /** The loop of `decode_string`: pairs are decoded left to right into a byte vector. */
  method DecodeStringLoop(input: string) returns (r: Result<string, Error>)
    ensures r == DecodeString(input)
  {
    hide Digits, FromUtf8;
    if |input| % 2 != 0 {
      OddHexFails(input);
      return Err(Execution);
    }
    var bytes: seq<Byte> := [];
    var i := 0;
    assert input[0..] == input;
    PrependNone(UnhexBytes(input));
    while i < |input|
      invariant 0 <= i <= |input| && i % 2 == 0
      invariant UnhexBytes(input) == Prepend(bytes, UnhexBytes(input[i..]))
    {
      assert input[i..][..2] == input[i..i + 2] && input[i..][2..] == input[i + 2..];
      PrependStep(bytes, input[i..]);
      var b := ParseUnsigned(input[i..i + 2], 16, 256);
      if b.None? { return Err(Execution); }
      bytes := bytes + [b.value];
      i := i + 2;
    }
    assert input[i..] == [];
    assert bytes + [] == bytes;
    r := match FromUtf8(bytes) case None => Err(Execution) case Some(t) => Ok(t);
  }

  lemma {:induction false} OddHexFails(s: string)
    requires |s| % 2 == 1
    ensures UnhexBytes(s).None?
  {
    if |s| > 1 { OddHexFails(s[2..]); }
  }

  predicate AllHex(s: string) { forall i :: 0 <= i < |s| ==> IsHexChar(s[i]) }

  lemma {:induction false} UnhexOfHex(b: seq<Byte>)
    ensures UnhexBytes(HexBytes(b)) == Some(b)
    ensures AllHex(HexBytes(b))
  {
    if b != [] {
      HexWidths();
      HexParses(b[0], 2, 256);
      UnhexOfHex(b[1..]);
      assert HexBytes(b)[..2] == Hex(b[0], 2) && HexBytes(b)[2..] == HexBytes(b[1..]);
      assert b == [b[0]] + b[1..];
    }
  }

  lemma StringRoundTrip(s: string)
    ensures DecodeString(EncodeString(s)) == Ok(s)
    ensures AllHex(EncodeString(s))
  {
    UnhexOfHex(Utf8(s));
    FromUtf8OfUtf8(s);
  }

  // ---------------------------------------------------------------- values

  function HexWords(v: seq<F32>): (w: seq<string>)
    ensures |w| == |v|
  {
    if v == [] then [] else [Hex(v[0], 8)] + HexWords(v[1..])
  }

  function EncodeValue(v: Value): string {
    match v
    case Null => "N"
    case Integer(i) => "I:" + DecimalInt(i)
    case Float(f) => "F:" + Hex(f, 16)
    case Boolean(b) => "B:" + (if b then "1" else "0")
    case Text(s) => "T:" + EncodeString(s)
    case Vector(xs) => "V:" + Join(HexWords(xs), ',')
    case Place(p) => "P:" + Hex(p.lon, 16) + "," + Hex(p.lat, 16)
  }

  function ParseWords(parts: seq<string>): Option<seq<F32>> {
    if parts == [] then Some([]) else
      var w := ParseUnsigned(parts[0], 16, 0x1_0000_0000);
      var rest := ParseWords(parts[1..]);
      if w.None? || rest.None? then None else Some([w.value] + rest.value)
  }

  function DecodeVector(body: string): Result<Value, Error> {
    if body == [] then Ok(Vector([])) else
      match ParseWords(Split(body, ','))
      case None => Err(Execution)
      case Some(xs) => Ok(Vector(xs))
  }

  function ParseF64Bits(s: string): (r: Option<F64>) {
    var v := ParseUnsigned(s, 16, 0x1_0000_0000_0000_0000);
    if v.None? then None else Some(v.value)
  }

  function DecodePlace(body: string): Result<Value, Error> {
    match SplitOnce(body, ',')
    case None => Err(Execution)
    case Some((lon, lat)) =>
      var x, y := ParseF64Bits(lon), ParseF64Bits(lat);
      if x.None? || y.None? then Err(Execution) else Ok(Place(Point(x.value, y.value)))
  }

  function DecodeInteger(body: string): Result<Value, Error> {
    var i := ParseI64(body);
    if i.None? then Err(Execution) else Ok(Integer(i.value))
  }

  function DecodeTagged(kind: string, body: string): Result<Value, Error> {
    if kind == "N" then Ok(Null)
    else if kind == "I" then DecodeInteger(body)
    else if kind == "F" then
      var f := ParseF64Bits(body);
      if f.None? then Err(Execution) else Ok(Float(f.value))
    else if kind == "B" then
      if body == "0" then Ok(Boolean(false)) else if body == "1" then Ok(Boolean(true)) else Err(Execution)
    else if kind == "T" then
      match DecodeString(body)
      case Ok(s) => Ok(Text(s))
      case Err(e) => Err(e)
    else if kind == "V" then DecodeVector(body)
    else if kind == "P" then DecodePlace(body)
    else Err(Execution)
  }

  function DecodeValue(input: string): Result<Value, Error> {
    match SplitOnce(input, ':')
    case None => DecodeTagged(input, "")
    case Some((kind, body)) => DecodeTagged(kind, body)
  }

  lemma {:induction false} HexWordsParse(v: seq<F32>)
    ensures ParseWords(HexWords(v)) == Some(v)
    ensures forall i :: 0 <= i < |v| ==> |HexWords(v)[i]| == 8 && AllHex(HexWords(v)[i])
  {
    if v != [] {
      HexWidths();
      HexParses(v[0], 8, 0x1_0000_0000);
      HexWordsParse(v[1..]);
      assert HexWords(v)[1..] == HexWords(v[1..]);
      assert v == [v[0]] + v[1..];
    }
  }

  lemma VectorRoundTrip(xs: seq<F32>)
    ensures DecodeVector(Join(HexWords(xs), ',')) == Ok(Vector(xs))
  {
    if xs != [] {
      HexWordsParse(xs);
      var w := HexWords(xs);
      assert forall i :: 0 <= i < |w| ==> AllHex(w[i]) && ',' !in w[i];
      SplitOfJoin(w, ',');
      assert |w[0]| == 8;
      assert Join(w, ',') != [];
    }
  }

  /** No separator of the file format occurs in what the codec writes. */
  predicate FieldSafe(s: string) { '\t' !in s && '\n' !in s && '\r' !in s && '=' !in s }

  predicate FieldChar(c: char) { c != '\t' && c != '\n' && c != '\r' && c != '=' }

  lemma FieldSafeChars(s: string)
    requires forall i :: 0 <= i < |s| ==> FieldChar(s[i])
    ensures FieldSafe(s)
  {}

  lemma F64Text(f: F64)
    ensures ParseF64Bits(Hex(f, 16)) == Some(f)
    ensures AllHex(Hex(f, 16)) && ',' !in Hex(f, 16)
  {
    HexWidths();
    HexParses(f, 16, 0x1_0000_0000_0000_0000);
  }

  lemma IntegerText(i: I64)
    ensures DecodeInteger(DecimalInt(i)) == Ok(Integer(i))
    ensures FieldSafe(DecimalInt(i))
  {
    DecimalIntParses(i);
    DecimalShape(if i < 0 then -(i as int) else i);
    FieldSafeChars(DecimalInt(i));
  }

  lemma VectorText(xs: seq<F32>)
    ensures DecodeVector(Join(HexWords(xs), ',')) == Ok(Vector(xs))
    ensures FieldSafe(Join(HexWords(xs), ','))
  {
    VectorRoundTrip(xs);
    HexWordsParse(xs);
    JoinSafe(HexWords(xs));
    FieldSafeChars(Join(HexWords(xs), ','));
  }

  function PlaceText(p: Point): string { Hex(p.lon, 16) + "," + Hex(p.lat, 16) }

  lemma PlaceTextDecodes(p: Point)
    ensures DecodePlace(PlaceText(p)) == Ok(Place(p))
    ensures FieldSafe(PlaceText(p))
  {
    F64Text(p.lon);
    F64Text(p.lat);
    IndexOfCut(Hex(p.lon, 16), ',', Hex(p.lat, 16));
    FieldSafeChars(PlaceText(p));
  }

  lemma {:induction false} JoinSafe(w: seq<string>)
    requires forall i :: 0 <= i < |w| ==> AllHex(w[i])
    ensures forall i :: 0 <= i < |Join(w, ',')| ==> IsHexChar(Join(w, ',')[i]) || Join(w, ',')[i] == ','
  {
    if |w| > 1 { JoinSafe(w[1..]); }
  }

  lemma TagCut(kind: char, body: string)
    requires kind != ':'
    ensures DecodeValue([kind, ':'] + body) == DecodeTagged([kind], body)
  {
    assert [kind, ':'] + body == [kind] + [':'] + body;
    IndexOfCut([kind], ':', body);
  }

  /** The text after the tag of every variant but `Null`. */
  function Payload(v: Value): string {
    match v
    case Null => ""
    case Integer(i) => DecimalInt(i)
    case Float(f) => Hex(f, 16)
    case Boolean(b) => if b then "1" else "0"
    case Text(s) => EncodeString(s)
    case Vector(xs) => Join(HexWords(xs), ',')
    case Place(p) => PlaceText(p)
  }

  function Tag(v: Value): (c: char)
    ensures FieldChar(c) && c != ':'
  {
    match v
    case Null => 'N' case Integer(_) => 'I' case Float(_) => 'F' case Boolean(_) => 'B'
    case Text(_) => 'T' case Vector(_) => 'V' case Place(_) => 'P'
  }

  lemma EncodeValueShape(v: Value)
    ensures v.Null? ==> EncodeValue(v) == "N"
    ensures !v.Null? ==> EncodeValue(v) == [Tag(v), ':'] + Payload(v)
  {
    if v.Place? { assert EncodeValue(v) == "P:" + PlaceText(v.p); }
  }

  lemma PayloadDecodes(v: Value)
    ensures DecodeTagged([Tag(v)], Payload(v)) == Ok(v)
  {
    match v
    case Null =>
    case Integer(i) => IntegerText(i);
    case Float(f) => F64Text(f);
    case Boolean(b) =>
    case Text(s) => StringRoundTrip(s);
    case Vector(xs) => VectorText(xs);
    case Place(p) => PlaceTextDecodes(p);
  }

  lemma PayloadSafe(v: Value)
    ensures FieldSafe(Payload(v))
  {
    match v
    case Null =>
    case Integer(i) => IntegerText(i);
    case Float(f) => F64Text(f); FieldSafeChars(Hex(f, 16));
    case Boolean(b) =>
    case Text(s) => StringRoundTrip(s); FieldSafeChars(EncodeString(s));
    case Vector(xs) => VectorText(xs);
    case Place(p) => PlaceTextDecodes(p);
  }

  /** Decoding a value's encoding gives the value back, bit for bit. */
  lemma ValueRoundTrip(v: Value)
    ensures DecodeValue(EncodeValue(v)) == Ok(v)
  {
    EncodeValueShape(v);
    PayloadDecodes(v);
    if v.Null? {
      assert IndexOf("N", ':') == 1;
    } else {
      TagCut(Tag(v), Payload(v));
    }
  }

  lemma EncodeStringSafe(s: string)
    ensures FieldSafe(EncodeString(s))
  {
    StringRoundTrip(s);
    FieldSafeChars(EncodeString(s));
  }

  lemma EncodeValueSafe(v: Value)
    ensures FieldSafe(EncodeValue(v))
  {
    EncodeValueShape(v);
    PayloadSafe(v);
  }

  // ---------------------------------------------------------------- index keys

  /** The key a value has in the primary and secondary index maps. */
  function IndexKey(v: Value): Result<string, Error> {
    match v
    case Null => Ok("N")
    case Integer(i) => Ok("I:" + DecimalInt(i))
    case Float(f) => if Finite64(f) then Ok("F:" + Hex(f, 16)) else Err(Execution)
    case Boolean(b) => Ok("B:" + (if b then "1" else "0"))
    case Text(s) => Ok("T:" + EncodeString(s))
    case Vector(xs) =>
      if forall i :: 0 <= i < |xs| ==> Finite32(xs[i]) then Ok("V:" + Join(HexWords(xs), ',')) else Err(Execution)
    case Place(p) =>
      if Finite64(p.lon) && Finite64(p.lat) then Ok("P:" + Hex(p.lon, 16) + "," + Hex(p.lat, 16)) else Err(Execution)
  }

  /** Exactly the finite values have a key; it is the file encoding, so it names the value and its variant. */
  lemma IndexKeyNamesValue(v: Value)
    ensures IndexKey(v).Ok? <==> Finite(v)
    ensures Finite(v) ==> IndexKey(v).value == EncodeValue(v) && DecodeValue(IndexKey(v).value) == Ok(v)
  {
    ValueRoundTrip(v);
  }

  lemma IndexKeyInjective(v: Value, w: Value)
    requires Finite(v) && Finite(w)
    ensures IndexKey(v) == IndexKey(w) <==> v == w
  {
    IndexKeyNamesValue(v);
    IndexKeyNamesValue(w);
  }
}
