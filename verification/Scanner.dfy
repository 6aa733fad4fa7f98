/** The quote- and bracket-aware splitter of the SQL parser and the literals it feeds (`sql/parser.rs`). */
module Scanner {
  import opened Basics
  import opened Text
  import opened Values
  import opened Ast

  // ---------------------------------------------------------------- scanning

  datatype Scan = Scan(quote: Option<char>, parens: nat, brackets: nat)

  const TOP: Scan := Scan(None, 0, 0)

  predicate IsMark(c: char) { c in {'\'', '"', '(', ')', '[', ']'} }

  function Less(n: nat): nat { if n == 0 then 0 else n - 1 }

  function Advance(st: Scan, c: char): Scan {
    if st.quote.Some? then (if c == st.quote.value then st.(quote := None) else st)
    else if c == '\'' || c == '"' then st.(quote := Some(c))
    else if c == '(' then st.(parens := st.parens + 1)
    else if c == ')' then st.(parens := Less(st.parens))
    else if c == '[' then st.(brackets := st.brackets + 1)
    else if c == ']' then st.(brackets := Less(st.brackets))
    else st
  }

  /** A delimiter outside quotes, parentheses and brackets. */
  predicate AtCut(st: Scan, c: char, d: char) {
    st == TOP && !IsMark(c) && c == d
  }

  /** The text between the cuts. */
  function Segments(s: string, d: char, st: Scan): (r: seq<string>)
    ensures r != []
  {
    if s == [] then [[]]
    else if AtCut(st, s[0], d) then [[]] + Segments(s[1..], d, st)
    else
      var rest := Segments(s[1..], d, Advance(st, s[0]));
      [[s[0]] + rest[0]] + rest[1..]
  }

  function TrimAll(parts: seq<string>): (r: seq<string>)
    ensures |r| == |parts| && forall i :: 0 <= i < |r| ==> r[i] == Trim(parts[i])
  {
    seq(|parts|, i requires 0 <= i < |parts| => Trim(parts[i]))
  }

  function SplitTopLevel(s: string, d: char): (r: seq<string>)
    ensures r != []
  {
    TrimAll(Segments(s, d, TOP))
  }

  /** The first cut, if there is one. */
  function SplitOnceTopLevel(s: string, d: char, st: Scan): Option<(string, string)> {
    if s == [] then None
    else if AtCut(st, s[0], d) then Some(([], s[1..]))
    else
      match SplitOnceTopLevel(s[1..], d, Advance(st, s[0]))
      case None => None
      case Some((a, b)) => Some(([s[0]] + a, b))
  }

  // ---------------------------------------------------------------- the loops

  lemma SegmentsStep(s: string, i: nat, d: char, st: Scan)
    requires i < |s|
    ensures Segments(s[i..], d, st) ==
            if AtCut(st, s[i], d) then [[]] + Segments(s[i + 1..], d, st)
            else var rest := Segments(s[i + 1..], d, Advance(st, s[i])); [[s[i]] + rest[0]] + rest[1..]
  {
    assert s[i..][1..] == s[i + 1..];
  }

  /** The finished segments, and the one the scan is in joined to what follows it. */
  function Resumed(done: seq<string>, open: string, rest: seq<string>): seq<string>
    requires rest != []
  {
    done + [open + rest[0]] + rest[1..]
  }

  lemma ResumedCut(done: seq<string>, open: string, rest: seq<string>)
    requires rest != []
    ensures Resumed(done, open, [[]] + rest) == Resumed(done + [open], [], rest)
  {
    assert open + [] == open && [] + rest[0] == rest[0];
  }

  lemma ResumedOn(done: seq<string>, open: string, c: char, rest: seq<string>)
    requires rest != []
    ensures Resumed(done, open, [[c] + rest[0]] + rest[1..]) == Resumed(done, open + [c], rest)
  {
    assert open + ([c] + rest[0]) == open + [c] + rest[0];
  }

  method SplitTopLevelLoop(input: string, d: char) returns (result: seq<string>)
    ensures result == SplitTopLevel(input, d)
  {
    hide Segments, Trim, AtCut, Advance;
    result := [];
    ghost var done: seq<string> := [];
    var start := 0;
    var st := TOP;
    var i := 0;
    assert input[0..] == input;
    ResumedStart(Segments(input, d, TOP));
    while i < |input|
      invariant 0 <= start <= i <= |input| && result == TrimAll(done)
      invariant Segments(input, d, TOP) == Resumed(done, input[start..i], Segments(input[i..], d, st))
    {
      SegmentsStep(input, i, d, st);
      assert input[start..i + 1] == input[start..i] + [input[i]];
      if AtCut(st, input[i], d) {
        ResumedCut(done, input[start..i], Segments(input[i + 1..], d, st));
        done := done + [input[start..i]];
        result := result + [Trim(input[start..i])];
        start := i + 1;
        assert input[start..i + 1] == [];
      } else {
        ResumedOn(done, input[start..i], input[i], Segments(input[i + 1..], d, Advance(st, input[i])));
        st := Advance(st, input[i]);
      }
      i := i + 1;
    }
    SegmentsEnd(input[i..], d, st);
    assert input[start..i] + [] == input[start..];
    result := result + [Trim(input[start..])];
  }

  lemma ResumedStart(all: seq<string>)
    requires all != []
    ensures Resumed([], [], all) == all
  {
    assert [] + all[0] == all[0];
  }

  lemma SegmentsEnd(s: string, d: char, st: Scan)
    requires s == []
    ensures Segments(s, d, st) == [[]]
  {}

  method SplitOnceLoop(input: string, d: char) returns (r: Option<(string, string)>)
    ensures r == SplitOnceTopLevel(input, d, TOP)
  {
    hide AtCut, Advance;
    var st := TOP;
    var i := 0;
    assert input[0..] == input && input[..0] == [];
    AfterNothing(SplitOnceTopLevel(input, d, TOP));
    while i < |input|
      invariant 0 <= i <= |input|
      invariant SplitOnceTopLevel(input, d, TOP) == After(input[..i], SplitOnceTopLevel(input[i..], d, st))
    {
      assert input[i..][1..] == input[i + 1..] && input[..i + 1] == input[..i] + [input[i]];
      if AtCut(st, input[i], d) {
        assert input[..i] + [] == input[..i];
        return Some((input[..i], input[i + 1..]));
      }
      AfterStep(input[..i], input[i], SplitOnceTopLevel(input[i + 1..], d, Advance(st, input[i])));
      st := Advance(st, input[i]);
      i := i + 1;
    }
    r := None;
  }

  function After(a: string, r: Option<(string, string)>): Option<(string, string)> {
    match r
    case None => None
    case Some((b, c)) => Some((a + b, c))
  }

  lemma AfterNothing(r: Option<(string, string)>)
    ensures After([], r) == r
  {
    if r.Some? { assert [] + r.value.0 == r.value.0; }
  }

  lemma AfterStep(a: string, c: char, r: Option<(string, string)>)
    ensures After(a + [c], r) == After(a, After([c], r))
  {
    if r.Some? { assert a + [c] + r.value.0 == a + ([c] + r.value.0); }
  }

  // ---------------------------------------------------------------- laws of splitting

  /** Nothing is lost: the segments joined by the delimiter are the input. */
  lemma {:induction false} SegmentsJoin(s: string, d: char, st: Scan)
    ensures Join(Segments(s, d, st), d) == s
  {
    if s != [] {
      if AtCut(st, s[0], d) {
        SegmentsJoin(s[1..], d, st);
        assert Segments(s, d, st)[1..] == Segments(s[1..], d, st);
      } else {
        SegmentsJoin(s[1..], d, Advance(st, s[0]));
        var rest := Segments(s[1..], d, Advance(st, s[0]));
        assert Segments(s, d, st)[1..] == rest[1..];
        if |rest| > 1 {
          assert [s[0]] + rest[0] + [d] + Join(rest[1..], d) == [s[0]] + (rest[0] + [d] + Join(rest[1..], d));
        }
      }
    }
  }

  /** No cut anywhere in the text. */
  predicate Uncut(s: string, d: char, st: Scan) {
    s == [] || (!AtCut(st, s[0], d) && Uncut(s[1..], d, Advance(st, s[0])))
  }

  lemma {:induction false} UncutIff(s: string, d: char, st: Scan)
    ensures Uncut(s, d, st) <==> Segments(s, d, st) == [s]
    ensures Uncut(s, d, st) <==> |Segments(s, d, st)| == 1
    ensures Uncut(s, d, st) <==> SplitOnceTopLevel(s, d, st) == None
  {
    if s != [] && !AtCut(st, s[0], d) {
      UncutIff(s[1..], d, Advance(st, s[0]));
      assert s == [s[0]] + s[1..];
    }
  }

  lemma {:induction false} SegmentsUncut(s: string, d: char, st: Scan)
    ensures var r := Segments(s, d, st);
            Uncut(r[0], d, st) && forall i :: 0 < i < |r| ==> Uncut(r[i], d, TOP)
  {
    if s != [] {
      SegmentsUncut(s[1..], d, Advance(st, s[0]));
      var rest := Segments(s[1..], d, Advance(st, s[0]));
      if !AtCut(st, s[0], d) { assert ([s[0]] + rest[0])[1..] == rest[0]; }
    }
  }

  lemma {:induction false} UncutPrefix(s: string, k: nat, d: char, st: Scan)
    requires k <= |s| && Uncut(s, d, st)
    ensures Uncut(s[..k], d, st)
  {
    if k > 0 {
      UncutPrefix(s[1..], k - 1, d, Advance(st, s[0]));
      assert s[..k][1..] == s[1..][..k - 1];
    }
  }

  lemma {:induction false} UncutAfterSpace(s: string, k: nat, d: char)
    requires k <= |s| && Uncut(s, d, TOP) && forall i :: 0 <= i < k ==> IsWhitespace(s[i])
    ensures Uncut(s[k..], d, TOP)
  {
    if k > 0 {
      assert IsWhitespace(s[0]) && Advance(TOP, s[0]) == TOP;
      UncutAfterSpace(s[1..], k - 1, d);
      assert s[1..][k - 1..] == s[k..];
    }
  }

  lemma TrimUncut(s: string, d: char)
    requires Uncut(s, d, TOP)
    ensures Uncut(Trim(s), d, TOP) && Trim(Trim(s)) == Trim(s)
  {
    hide Uncut, Trim;
    var a, b := TrimShape(s);
    UncutAfterSpace(s, a, d);
    UncutPrefix(s[a..], b - a, d, TOP);
    assert s[a..][..b - a] == s[a..b];
    TrimmedFixed(Trim(s));
  }

  /** Every segment of a split splits to itself. */
  lemma SplitStable(s: string, d: char, i: nat)
    requires i < |SplitTopLevel(s, d)|
    ensures SplitTopLevel(SplitTopLevel(s, d)[i], d) == [SplitTopLevel(s, d)[i]]
    ensures SplitOnceTopLevel(SplitTopLevel(s, d)[i], d, TOP) == None
  {
    hide Segments, Uncut, Trim, SplitOnceTopLevel;
    SegmentsUncut(s, d, TOP);
    var part := Segments(s, d, TOP)[i];
    TrimUncut(part, d);
    UncutIff(Trim(part), d, TOP);
  }

  /** Splitting once gives the first segment and a rest that splits into the others. */
  lemma {:induction false} SplitOnceIsFirstCut(s: string, d: char, st: Scan)
    ensures var r := Segments(s, d, st);
            match SplitOnceTopLevel(s, d, st)
            case None => |r| == 1
            case Some((a, b)) => r == [a] + Segments(b, d, TOP) && s == a + [d] + b
  {
    if s != [] && !AtCut(st, s[0], d) {
      SplitOnceIsFirstCut(s[1..], d, Advance(st, s[0]));
    }
    if s != [] { assert s == [s[0]] + s[1..]; }
  }

  // ---------------------------------------------------------------- literals

  /** Float parsing is a parameter; what is not a finite float is an error. */
  datatype Floats = Floats(f64: string -> Option<F64>, f32: string -> Option<F32>)

  function ParseF64(s: string, fl: Floats): Result<F64, Error> {
    match fl.f64(Trim(s))
    case None => Err(Parse)
    case Some(f) => if Finite64(f) then Ok(f) else Err(Parse)
  }

  function ParseF32s(parts: seq<string>, fl: Floats): Result<seq<F32>, Error> {
    if parts == [] then Ok([]) else
      match fl.f32(Trim(parts[0]))
      case None => Err(Parse)
      case Some(f) =>
        if !Finite32(f) then Err(Parse) else
          match ParseF32s(parts[1..], fl)
          case Err(e) => Err(e)
          case Ok(rest) => Ok([f] + rest)
  }

  predicate SameCi(s: string, upper: string) { LowerAscii(s) == LowerAscii(upper) }

  predicate StartsWithCi(s: string, upper: string) { |upper| <= |s| && SameCi(s[..|upper|], upper) }

  /** `str::replace` of a doubled quote by a single one. */
  function Undouble(s: string, q: char): string {
    if s == [] then []
    else if |s| >= 2 && s[0] == q && s[1] == q then [q] + Undouble(s[2..], q)
    else [s[0]] + Undouble(s[1..], q)
  }

  function ParseQuoted(s: string): Option<string> {
    if |s| < 2 || (s[0] != '\'' && s[0] != '"') || s[|s| - 1] != s[0] then None
    else Some(Undouble(s[1..|s| - 1], s[0]))
  }

  function ParenthesizedBody(s: string): Option<string> {
    var t := Trim(s);
    if |t| >= 2 && t[0] == '(' && t[|t| - 1] == ')' then Some(t[1..|t| - 1]) else None
  }

  function ParsePoint(s: string, fl: Floats): Result<Value, Error> {
    match ParenthesizedBody(s)
    case None => Err(Parse)
    case Some(body) =>
      var parts := SplitTopLevel(body, ',');
      if |parts| != 2 then Err(Parse) else
        match ParseF64(parts[0], fl)
        case Err(e) => Err(e)
        case Ok(lon) =>
          match ParseF64(parts[1], fl)
          case Err(e) => Err(e)
          case Ok(lat) => Ok(Place(Point(lon, lat)))
  }

  function ParseVector(body: string, fl: Floats): Result<Value, Error> {
    if Trim(body) == [] then Ok(Vector([])) else
      match ParseF32s(SplitTopLevel(body, ','), fl)
      case Err(e) => Err(e)
      case Ok(v) => Ok(Vector(v))
  }

  function ParseNumber(s: string, fl: Floats): Result<Value, Error> {
    if '.' in s || 'e' in s || 'E' in s then
      match ParseF64(s, fl)
      case Err(e) => Err(e)
      case Ok(f) => Ok(Float(f))
    else
      match ParseI64(s)
      case None => Err(Parse)
      case Some(i) => if -0x8000_0000_0000_0000 <= i < 0x8000_0000_0000_0000 then Ok(Integer(i)) else Err(Parse)
  }

  /** `parse_value`. */
  function ParseValue(input: string, fl: Floats): Result<Value, Error> {
    var s := Trim(input);
    if SameCi(s, "NULL") then Ok(Null)
    else if SameCi(s, "TRUE") then Ok(Boolean(true))
    else if SameCi(s, "FALSE") then Ok(Boolean(false))
    else if ParseQuoted(s).Some? then Ok(Text(ParseQuoted(s).value))
    else if StartsWithCi(s, "POINT") then ParsePoint(s[5..], fl)
    else if |s| >= 2 && s[0] == '[' && s[|s| - 1] == ']' then ParseVector(s[1..|s| - 1], fl)
    else ParseNumber(s, fl)
  }

  function ParseValues(parts: seq<string>, fl: Floats): Result<seq<Value>, Error> {
    if parts == [] then Ok([]) else
      match ParseValue(parts[0], fl)
      case Err(e) => Err(e)
      case Ok(v) =>
        match ParseValues(parts[1..], fl)
        case Err(e) => Err(e)
        case Ok(rest) => Ok([v] + rest)
  }

  /** A comma-separated list of literals. */
  function ParseList(s: string, fl: Floats): Result<seq<Value>, Error> { ParseValues(SplitTopLevel(s, ','), fl) }

  // ---------------------------------------------------------------- printing literals

  /** How floats are printed, which is a parameter like how they are parsed. */
  datatype Printer = Printer(f64: F64 -> string, f32: F32 -> string)

  /** A numeral: nothing in it is special to the splitter or blank. */
  predicate IsNumeral(s: string) {
    && s != [] && (s[0] == '-' || IsDigitChar(s[0]))
    && forall i :: 0 <= i < |s| ==> !IsMark(s[i]) && s[i] != ',' && !IsWhitespace(s[i])
  }

  /** Parsing a printed finite float gives it back bit for bit, and a 64-bit one does not look like an integer. */
  ghost predicate Printed(pr: Printer, fl: Floats) {
    && (forall x: F64 :: Finite64(x) ==>
          && fl.f64(pr.f64(x)) == Some(x) && IsNumeral(pr.f64(x))
          && ('.' in pr.f64(x) || 'e' in pr.f64(x) || 'E' in pr.f64(x)))
    && forall x: F32 :: Finite32(x) ==> fl.f32(pr.f32(x)) == Some(x) && IsNumeral(pr.f32(x))
  }

  /** The text with every quote written twice. */
  function Doubled(s: string, q: char): string {
    if s == [] then [] else (if s[0] == q then [q, q] else [s[0]]) + Doubled(s[1..], q)
  }

  function Literal(v: Value, pr: Printer): string {
    match v
    case Null => "NULL"
    case Boolean(b) => if b then "TRUE" else "FALSE"
    case Integer(i) => DecimalInt(i)
    case Text(s) => ['\''] + Doubled(s, '\'') + ['\'']
    case Float(f) => pr.f64(f)
    case Place(p) => "POINT" + Bracketed('(', [pr.f64(p.lon), pr.f64(p.lat)], ')')
    case Vector(xs) => Bracketed('[', Coordinates(xs, pr), ']')
  }

  function Bracketed(open: char, parts: seq<string>, close: char): string { [open] + Join(parts, ',') + [close] }

  function Coordinates(xs: seq<F32>, pr: Printer): (r: seq<string>)
    ensures |r| == |xs| && forall i :: 0 <= i < |xs| ==> r[i] == pr.f32(xs[i])
  {
    seq(|xs|, i requires 0 <= i < |xs| => pr.f32(xs[i]))
  }

  function Literals(vs: seq<Value>, pr: Printer): (r: seq<string>)
    ensures |r| == |vs| && forall i :: 0 <= i < |vs| ==> r[i] == Literal(vs[i], pr)
  {
    seq(|vs|, i requires 0 <= i < |vs| => Literal(vs[i], pr))
  }

  function PrintList(vs: seq<Value>, pr: Printer): string { Join(Literals(vs, pr), ',') }

  // ---------------------------------------------------------------- splitting what was printed

  function ScanAll(s: string, st: Scan): Scan {
    if s == [] then st else ScanAll(s[1..], Advance(st, s[0]))
  }

  /** Text that a scan passes without a cut and leaves at the top level. */
  predicate Closed(s: string, d: char) { Uncut(s, d, TOP) && ScanAll(s, TOP) == TOP }

  lemma {:induction false} SegmentsAfter(a: string, b: string, d: char, st: Scan)
    requires Uncut(a, d, st)
    ensures var rest := Segments(b, d, ScanAll(a, st)); Segments(a + b, d, st) == [a + rest[0]] + rest[1..]
  {
    if a == [] {
      assert a + b == b;
      assert [] + Segments(b, d, st)[0] == Segments(b, d, st)[0];
    } else {
      assert (a + b)[0] == a[0] && (a + b)[1..] == a[1..] + b;
      SegmentsAfter(a[1..], b, d, Advance(st, a[0]));
      var rest := Segments(b, d, ScanAll(a, st));
      assert [a[0]] + (a[1..] + rest[0]) == a + rest[0];
    }
  }

  lemma {:induction false} SegmentsOfJoin(parts: seq<string>, d: char)
    requires parts != [] && !IsMark(d) && forall i :: 0 <= i < |parts| ==> Closed(parts[i], d)
    ensures Segments(Join(parts, d), d, TOP) == parts
  {
    assert Closed(parts[0], d);
    if |parts| == 1 {
      UncutIff(parts[0], d, TOP);
    } else {
      var tail := Join(parts[1..], d);
      SegmentsOfJoin(parts[1..], d);
      assert Join(parts, d) == parts[0] + ([d] + tail);
      SegmentsAfter(parts[0], [d] + tail, d, TOP);
      assert ([d] + tail)[1..] == tail;
      assert Segments([d] + tail, d, TOP) == [[]] + parts[1..];
      assert parts[0] + [] == parts[0];
    }
  }

  const QUOTED: Scan := Scan(Some('\''), 0, 0)

  lemma {:induction false} DoubledStaysQuoted(s: string, rest: string, d: char)
    ensures Uncut(Doubled(s, '\'') + rest, d, QUOTED) == Uncut(rest, d, QUOTED)
    ensures ScanAll(Doubled(s, '\'') + rest, QUOTED) == ScanAll(rest, QUOTED)
  {
    hide Uncut, ScanAll, Advance, AtCut;
    if s == [] {
      assert Doubled(s, '\'') + rest == rest;
    } else {
      var t := Doubled(s[1..], '\'') + rest;
      DoubledStaysQuoted(s[1..], rest, d);
      QuotedSteps(s[0], t, d);
      assert Doubled(s, '\'') + rest == (if s[0] == '\'' then ['\'', '\''] else [s[0]]) + t;
    }
  }

  /** Inside quotes a character, or a doubled quote, changes nothing. */
  lemma QuotedSteps(c: char, t: string, d: char)
    ensures var more := (if c == '\'' then ['\'', '\''] else [c]) + t;
            Uncut(more, d, QUOTED) == Uncut(t, d, QUOTED) && ScanAll(more, QUOTED) == ScanAll(t, QUOTED)
  {
    if c == '\'' {
      assert ['\'', '\''] + t == ['\''] + (['\''] + t);
      Consed('\'', ['\''] + t, d, QUOTED);
      Consed('\'', t, d, TOP);
    } else {
      Consed(c, t, d, QUOTED);
    }
  }

  lemma Consed(c: char, t: string, d: char, st: Scan)
    ensures Uncut([c] + t, d, st) <==> !AtCut(st, c, d) && Uncut(t, d, Advance(st, c))
    ensures ScanAll([c] + t, st) == ScanAll(t, Advance(st, c))
  {
    assert ([c] + t)[1..] == t;
  }

  lemma TextClosed(s: string)
    ensures Closed(['\''] + Doubled(s, '\'') + ['\''], ',')
  {
    hide Doubled;
    var tail := Doubled(s, '\'') + ['\''];
    assert ['\''] + Doubled(s, '\'') + ['\''] == ['\''] + tail;
    assert (['\''] + tail)[1..] == tail && Advance(TOP, '\'') == QUOTED;
    DoubledStaysQuoted(s, ['\''], ',');
    assert ['\''][1..] == [] && Advance(QUOTED, '\'') == TOP;
    assert ScanAll(['\''], QUOTED) == TOP && Uncut(['\''], ',', QUOTED);
  }

  lemma {:induction false} PlainClosed(s: string)
    requires forall i :: 0 <= i < |s| ==> !IsMark(s[i]) && s[i] != ','
    ensures Closed(s, ',')
  {
    if s != [] {
      assert Advance(TOP, s[0]) == TOP;
      PlainClosed(s[1..]);
    }
  }

  lemma NumeralShape(i: int)
    ensures |DecimalInt(i)| >= 1 && forall k :: 0 <= k < |DecimalInt(i)| ==>
            DecimalInt(i)[k] == '-' || IsDigitChar(DecimalInt(i)[k])
  {
    hide Decimal;
    DecimalShape(if i < 0 then -i else i);
  }

  // ---------------------------------------------------------------- brackets

  /** Text without marks does not end the brackets it stands in, and is not cut there. */
  lemma {:induction false} InBrackets(s: string, rest: string, st: Scan)
    requires st.quote.None? && st != TOP && forall i :: 0 <= i < |s| ==> !IsMark(s[i])
    ensures Uncut(s + rest, ',', st) == Uncut(rest, ',', st)
    ensures ScanAll(s + rest, st) == ScanAll(rest, st)
  {
    if s == [] {
      assert s + rest == rest;
    } else {
      InBrackets(s[1..], rest, st);
      assert s + rest == [s[0]] + (s[1..] + rest);
      Consed(s[0], s[1..] + rest, ',', st);
    }
  }

  lemma BracketedClosed(open: char, parts: seq<string>, close: char)
    requires (open == '(' && close == ')') || (open == '[' && close == ']')
    requires forall i :: 0 <= i < |parts| ==> IsNumeral(parts[i])
    ensures Closed(Bracketed(open, parts, close), ',') && Trimmed(Bracketed(open, parts, close))
  {
    hide Uncut, ScanAll, Join;
    var body := Join(parts, ',');
    JoinUnmarked(parts);
    var st := Advance(TOP, open);
    assert Bracketed(open, parts, close) == [open] + (body + [close]);
    Consed(open, body + [close], ',', TOP);
    InBrackets(body, [close], st);
    assert [close] + [] == [close];
    Consed(close, [], ',', st);
    NothingClosed();
  }

  lemma NothingClosed()
    ensures Closed([], ',')
  {}

  lemma {:induction false} JoinUnmarked(parts: seq<string>)
    requires forall i :: 0 <= i < |parts| ==> IsNumeral(parts[i])
    ensures forall i :: 0 <= i < |Join(parts, ',')| ==> !IsMark(Join(parts, ',')[i])
    ensures parts != [] ==> Join(parts, ',') != [] && !IsWhitespace(Join(parts, ',')[0])
  {
    if |parts| > 1 {
      JoinUnmarked(parts[1..]);
      var tail := Join(parts[1..], ',');
      assert Join(parts, ',') == parts[0] + [','] + tail;
    }
  }

  /** The numerals between brackets split into themselves. */
  lemma BodySplits(parts: seq<string>)
    requires parts != [] && forall i :: 0 <= i < |parts| ==> IsNumeral(parts[i])
    ensures SplitTopLevel(Join(parts, ','), ',') == parts
  {
    hide Closed, Join;
    forall i | 0 <= i < |parts| ensures Closed(parts[i], ',') && Trimmed(parts[i]) { PlainClosed(parts[i]); }
    SegmentsOfJoin(parts, ',');
    TrimmedAll(parts);
  }

  lemma {:induction false} ClosedConcat(a: string, b: string, st: Scan)
    requires Uncut(a, ',', st) && ScanAll(a, st) == TOP && Closed(b, ',')
    ensures Uncut(a + b, ',', st) && ScanAll(a + b, st) == TOP
  {
    if a == [] {
      assert a + b == b;
    } else {
      assert (a + b)[1..] == a[1..] + b;
      ClosedConcat(a[1..], b, Advance(st, a[0]));
    }
  }

  lemma PointClosed(parts: seq<string>)
    requires forall i :: 0 <= i < |parts| ==> IsNumeral(parts[i])
    ensures Closed("POINT" + Bracketed('(', parts, ')'), ',') && Trimmed("POINT" + Bracketed('(', parts, ')'))
  {
    hide Uncut, ScanAll, Bracketed;
    var body := Bracketed('(', parts, ')');
    BracketedClosed('(', parts, ')');
    PlainClosed("POINT");
    ClosedConcat("POINT", body, TOP);
    BracketedEnds('(', parts, ')');
  }

  lemma BracketedEnds(open: char, parts: seq<string>, close: char)
    ensures var s := Bracketed(open, parts, close);
            |s| >= 2 && s[0] == open && s[|s| - 1] == close && s[1..|s| - 1] == Join(parts, ',')
  {}

  lemma LiteralClosed(v: Value, pr: Printer, fl: Floats)
    requires Finite(v) && Printed(pr, fl)
    ensures Closed(Literal(v, pr), ',') && Trimmed(Literal(v, pr))
  {
    hide Closed, Doubled, DecimalInt, Bracketed;
    match v
    case Null => PlainClosed("NULL");
    case Boolean(b) => PlainClosed(Literal(v, pr));
    case Integer(i) =>
      NumeralShape(i);
      PlainClosed(Literal(v, pr));
    case Text(s) => TextClosed(s);
    case Float(f) => PlainClosed(pr.f64(f));
    case Place(p) => PointClosed([pr.f64(p.lon), pr.f64(p.lat)]);
    case Vector(xs) => BracketedClosed('[', Coordinates(xs, pr), ']');
  }

  lemma {:induction false} UndoubleDoubled(s: string, q: char)
    ensures Undouble(Doubled(s, q), q) == s
  {
    if s != [] {
      UndoubleDoubled(s[1..], q);
      if s[0] == q {
        assert Doubled(s, q)[2..] == Doubled(s[1..], q);
      } else {
        assert Doubled(s, q)[1..] == Doubled(s[1..], q);
      }
    }
  }

  /** Text in either kind of quotes, with those inside doubled, is the text. */
  lemma TextParses(s: string, q: char, fl: Floats)
    requires q == '\'' || q == '"'
    ensures ParseValue([q] + Doubled(s, q) + [q], fl) == Ok(Text(s))
  {
    hide Doubled, Undouble, Trim, SameCi, StartsWithCi, ParsePoint, ParseVector, ParseNumber;
    var t := [q] + Doubled(s, q) + [q];
    TrimmedFixed(t);
    NoWord(t, "NULL");
    NoWord(t, "TRUE");
    NoWord(t, "FALSE");
    assert t[1..|t| - 1] == Doubled(s, q);
    UndoubleDoubled(s, q);
  }

  lemma NoWord(t: string, word: string)
    requires t != [] && word != [] && (t[0] in {'-', '\'', '"', '['} || IsDigitChar(t[0])) && 'A' <= word[0] <= 'Z'
    ensures !SameCi(t, word) && !StartsWithCi(t, word)
  {
    assert LowerAscii(t)[0] == t[0];
    assert LowerAscii(word)[0] != t[0];
    if |word| <= |t| { assert LowerAscii(t[..|word|])[0] == t[0]; }
  }

  lemma NumeralParses(i: I64, fl: Floats)
    ensures ParseValue(DecimalInt(i), fl) == Ok(Integer(i))
  {
    hide DecimalInt, Trim, ParseI64, SameCi, StartsWithCi, ParsePoint, ParseVector;
    var t := DecimalInt(i);
    NumeralShape(i);
    TrimmedFixed(t);
    NoWord(t, "NULL");
    NoWord(t, "TRUE");
    NoWord(t, "FALSE");
    NoWord(t, "POINT");
    DecimalIntParses(i);
  }

  lemma FloatParses(f: F64, pr: Printer, fl: Floats)
    requires Finite64(f) && Printed(pr, fl)
    ensures ParseValue(pr.f64(f), fl) == Ok(Float(f))
    ensures ParseF64(pr.f64(f), fl) == Ok(f)
  {
    hide Trim, ParseI64, SameCi, StartsWithCi, ParsePoint, ParseVector;
    var t := pr.f64(f);
    TrimmedFixed(t);
    NoWord(t, "NULL");
    NoWord(t, "TRUE");
    NoWord(t, "FALSE");
    NoWord(t, "POINT");
  }

  lemma PointBodyParses(p: Point, pr: Printer, fl: Floats)
    requires Finite(Place(p)) && Printed(pr, fl)
    ensures ParsePoint(Bracketed('(', [pr.f64(p.lon), pr.f64(p.lat)], ')'), fl) == Ok(Place(p))
  {
    hide Trim, Bracketed, Join, ParseF64, SplitTopLevel, Closed, Finite64;
    var parts := [pr.f64(p.lon), pr.f64(p.lat)];
    BracketedClosed('(', parts, ')');
    BracketedEnds('(', parts, ')');
    TrimmedFixed(Bracketed('(', parts, ')'));
    BodySplits(parts);
    FloatParses(p.lon, pr, fl);
    FloatParses(p.lat, pr, fl);
  }

  lemma PointParses(p: Point, pr: Printer, fl: Floats)
    requires Finite(Place(p)) && Printed(pr, fl)
    ensures ParseValue(Literal(Place(p), pr), fl) == Ok(Place(p))
  {
    hide Trim, ParsePoint, ParseVector, ParseNumber, Bracketed, SameCi, StartsWithCi, Closed;
    var parts := [pr.f64(p.lon), pr.f64(p.lat)];
    var body := Bracketed('(', parts, ')');
    PointClosed(parts);
    TrimmedFixed("POINT" + body);
    BracketedEnds('(', parts, ')');
    PointWords(body);
    assert ("POINT" + body)[5..] == body;
    PointBodyParses(p, pr, fl);
  }

  lemma PointWords(body: string)
    requires body != []
    ensures var t := "POINT" + body;
            && !SameCi(t, "NULL") && !SameCi(t, "TRUE") && !SameCi(t, "FALSE") && StartsWithCi(t, "POINT")
  {
    var t := "POINT" + body;
    assert LowerAscii(t)[0] == 'p';
    assert LowerAscii("NULL")[0] == 'n' && LowerAscii("TRUE")[0] == 't' && LowerAscii("FALSE")[0] == 'f';
    assert t[..5] == "POINT";
  }

  lemma {:induction false} CoordinatesParse(xs: seq<F32>, pr: Printer, fl: Floats)
    requires Finite(Vector(xs)) && Printed(pr, fl)
    ensures ParseF32s(Coordinates(xs, pr), fl) == Ok(xs)
  {
    hide Trim;
    if xs != [] {
      TrimmedFixed(pr.f32(xs[0]));
      assert Coordinates(xs, pr)[1..] == Coordinates(xs[1..], pr);
      CoordinatesParse(xs[1..], pr, fl);
      assert xs == [xs[0]] + xs[1..];
    }
  }

  lemma VectorParses(xs: seq<F32>, pr: Printer, fl: Floats)
    requires Finite(Vector(xs)) && Printed(pr, fl)
    ensures ParseValue(Literal(Vector(xs), pr), fl) == Ok(Vector(xs))
  {
    hide ParseI64, ParsePoint, Bracketed, Join, ParseF32s, SameCi, StartsWithCi, Trim, Closed, SplitTopLevel;
    var parts := Coordinates(xs, pr);
    var t := Bracketed('[', parts, ']');
    BracketedClosed('[', parts, ']');
    TrimmedFixed(t);
    BracketedEnds('[', parts, ']');
    NoWord(t, "NULL");
    NoWord(t, "TRUE");
    NoWord(t, "FALSE");
    NoWord(t, "POINT");
    CoordinatesParse(xs, pr, fl);
    if xs == [] {
      NothingTrimmed();
    } else {
      JoinUnmarked(parts);
      NotBlank(Join(parts, ','));
      BodySplits(parts);
    }
  }

  lemma NothingTrimmed()
    ensures Trim(Join([], ',')) == []
  {}

  lemma NotBlank(s: string)
    requires s != [] && !IsWhitespace(s[0])
    ensures Trim(s) != []
  {
    var a, b := TrimShape(s);
  }

  lemma LiteralParses(v: Value, pr: Printer, fl: Floats)
    requires Finite(v) && Printed(pr, fl)
    ensures ParseValue(Literal(v, pr), fl) == Ok(v)
  {
    hide Doubled, DecimalInt, ParseQuoted, ParsePoint, ParseVector, ParseNumber, Trim, Bracketed, Printed, Finite;
    match v
    case Null => TrimmedFixed("NULL");
    case Boolean(b) =>
      TrimmedFixed(Literal(v, pr));
      assert LowerAscii("TRUE")[0] == 't' && LowerAscii("FALSE")[0] == 'f' && LowerAscii("NULL")[0] == 'n';
    case Integer(i) => NumeralParses(i, fl);
    case Text(s) => TextParses(s, '\'', fl);
    case Float(f) => FloatFinite(f); FloatParses(f, pr, fl);
    case Place(p) => PointParses(p, pr, fl);
    case Vector(xs) => VectorParses(xs, pr, fl);
  }

  lemma FloatFinite(f: F64)
    requires Finite(Float(f))
    ensures Finite64(f)
  {}

  lemma {:induction false} LiteralsParse(vs: seq<Value>, pr: Printer, fl: Floats)
    requires Printed(pr, fl) && forall i :: 0 <= i < |vs| ==> Finite(vs[i])
    ensures ParseValues(Literals(vs, pr), fl) == Ok(vs)
  {
    hide Literal, ParseValue, Printed, Finite;
    if vs != [] {
      LiteralParses(vs[0], pr, fl);
      assert Literals(vs, pr)[1..] == Literals(vs[1..], pr);
      LiteralsParse(vs[1..], pr, fl);
      assert vs == [vs[0]] + vs[1..];
    }
  }

  lemma TrimmedAll(parts: seq<string>)
    requires forall i :: 0 <= i < |parts| ==> Trimmed(parts[i])
    ensures TrimAll(parts) == parts
  {
    forall i | 0 <= i < |parts| ensures Trim(parts[i]) == parts[i] { TrimmedFixed(parts[i]); }
  }

  /** Printing a list of finite values and parsing it again gives the list back bit for bit, if and only if the list is
      not empty: the empty text splits into one empty segment, which is no literal. */
  lemma LiteralListRoundTrip(vs: seq<Value>, pr: Printer, fl: Floats)
    requires Printed(pr, fl) && forall i :: 0 <= i < |vs| ==> Finite(vs[i])
    ensures ParseList(PrintList(vs, pr), fl) == Ok(vs) <==> vs != []
    ensures ParseList(PrintList([], pr), fl) == Err(Parse)
  {
    hide Literal, ParseValue, Closed, Trimmed, Join, ParseValues, Printed, Finite;
    if vs != [] {
      var parts := Literals(vs, pr);
      forall i | 0 <= i < |parts| ensures Closed(parts[i], ',') && Trimmed(parts[i]) { LiteralClosed(vs[i], pr, fl); }
      SegmentsOfJoin(parts, ',');
      TrimmedAll(parts);
      LiteralsParse(vs, pr, fl);
    }
    EmptyListFails(pr, fl);
  }

  lemma EmptyListFails(pr: Printer, fl: Floats)
    ensures ParseList(PrintList([], pr), fl) == Err(Parse)
  {
    assert PrintList([], pr) == "";
    assert SplitTopLevel("", ',') == [""];
    TrimmedFixed("");
    assert LowerAscii("NULL")[0] == 'n' && LowerAscii("TRUE")[0] == 't' && LowerAscii("FALSE")[0] == 'f';
    assert ParseValue("", fl) == Err(Parse);
  }
}
