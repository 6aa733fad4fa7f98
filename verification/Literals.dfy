/** What the literal parser accepts besides what is printed for it: other spellings of the same values, and never a
    value that cannot be stored. */
module Literals {
  import opened Basics
  import opened Text
  import opened Values
  import opened Ast
  import opened Scanner

  /** Blanks around a literal do not matter. */
  lemma BlanksIgnored(a: string, t: string, b: string, fl: Floats)
    requires Blank(a) && Trimmed(t) && Blank(b)
    ensures ParseValue(a + t + b, fl) == ParseValue(t, fl)
  {
    hide Trim, SameCi, StartsWithCi, ParseQuoted, ParsePoint, ParseVector, ParseNumber;
    TrimAround(a, t, b);
    TrimmedFixed(t);
  }

  /** The letters of a word in any case. */
  predicate InAnyCase(s: string, word: string) {
    && |s| == |word|
    && forall i :: 0 <= i < |s| ==> 'A' <= word[i] <= 'Z' && s[i] in {word[i], (word[i] as int + 32) as char}
  }

  lemma {:induction false} AnyCaseSame(s: string, word: string)
    requires InAnyCase(s, word)
    ensures SameCi(s, word)
  {
    if s != [] { AnyCaseSame(s[1..], word[1..]); }
  }

  /** NULL, TRUE and FALSE may be written in any case. */
  lemma WordsParse(s: string, fl: Floats)
    ensures InAnyCase(s, "NULL") ==> ParseValue(s, fl) == Ok(Null)
    ensures InAnyCase(s, "TRUE") ==> ParseValue(s, fl) == Ok(Boolean(true))
    ensures InAnyCase(s, "FALSE") ==> ParseValue(s, fl) == Ok(Boolean(false))
  {
    hide Trim, StartsWithCi, ParseQuoted, ParsePoint, ParseVector, ParseNumber;
    var initials := LowerAscii("NULL")[0] == 'n' && LowerAscii("TRUE")[0] == 't' && LowerAscii("FALSE")[0] == 'f';
    assert initials;
    if InAnyCase(s, "NULL") {
      AnyCaseSame(s, "NULL");
      TrimmedFixed(s);
    } else if InAnyCase(s, "TRUE") {
      AnyCaseSame(s, "TRUE");
      TrimmedFixed(s);
    } else if InAnyCase(s, "FALSE") {
      AnyCaseSame(s, "FALSE");
      TrimmedFixed(s);
    }
  }

  /** Every accepted literal is a finite value, whatever the float parser yields. */
  lemma ParsedFinite(s: string, fl: Floats)
    ensures ParseValue(s, fl).Ok? ==> Finite(ParseValue(s, fl).value)
  {
    hide Trim, SameCi, StartsWithCi, ParseQuoted, SplitTopLevel, ParseI64, ParenthesizedBody;
    forall parts ensures ParseF32s(parts, fl).Ok? ==> Finite(Vector(ParseF32s(parts, fl).value)) {
      NumbersFinite(parts, fl);
    }
  }

  lemma {:induction false} NumbersFinite(parts: seq<string>, fl: Floats)
    ensures ParseF32s(parts, fl).Ok? ==> Finite(Vector(ParseF32s(parts, fl).value))
  {
    if parts != [] { NumbersFinite(parts[1..], fl); }
  }

  function Numerals(xs: seq<F64>, pr: Printer): (r: seq<string>)
    ensures |r| == |xs| && forall i :: 0 <= i < |r| ==> r[i] == pr.f64(xs[i])
  {
    seq(|xs|, i requires 0 <= i < |xs| => pr.f64(xs[i]))
  }

  /** A point takes two coordinates, no more and no fewer. */
  lemma PointNeedsTwo(xs: seq<F64>, pr: Printer, fl: Floats)
    requires Printed(pr, fl) && forall i :: 0 <= i < |xs| ==> Finite64(xs[i])
    ensures ParsePoint(Bracketed('(', Numerals(xs, pr), ')'), fl).Ok? <==> |xs| == 2
  {
    hide Trim, ParseF64, Bracketed, Join, Finite64, SplitTopLevel, Closed;
    var parts := Numerals(xs, pr);
    BracketedClosed('(', parts, ')');
    TrimmedFixed(Bracketed('(', parts, ')'));
    BracketedEnds('(', parts, ')');
    if xs == [] {
      EmptyBody();
    } else {
      BodySplits(parts);
      if |xs| == 2 {
        FloatParses(xs[0], pr, fl);
        FloatParses(xs[1], pr, fl);
      }
    }
  }

  lemma EmptyBody()
    ensures |SplitTopLevel(Join([], ','), ',')| == 1
  {}
}
