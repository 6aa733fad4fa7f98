/** Where the splitter cuts, said without its scanner: a cut is a delimiter outside quotes at which every
    parenthesis and bracket opened before it has been closed. */
module Cuts {
  import opened Basics
  import opened Text
  import opened Scanner

  // ---------------------------------------------------------------- quotes and counts

  /** The text is plain characters and whole quoted strings: every quote, single or double, is closed by the next
      one of its kind, and what is between the two does not count. */
  predicate Whole(s: string)
    decreases |s|
  {
    if s == [] then true
    else if s[0] == '\'' || s[0] == '"' then
      var j := IndexOf(s[1..], s[0]);
      j < |s| - 1 && Whole(s[j + 2..])
    else Whole(s[1..])
  }

  /** How many times a character stands outside quotes from one position up to another. */
  function Count(s: string, c: char, lo: nat, hi: nat): nat
    requires hi <= |s|
  {
    if hi <= lo then 0
    else Count(s, c, lo, hi - 1) + (if s[hi - 1] == c && Whole(s[..hi - 1]) then 1 else 0)
  }

  /** Every opening before the position is closed before it: from any earlier position on, there are no more
      openings than closings. Closings without an opening do not count. */
  ghost predicate AllClosed(s: string, open: char, close: char, k: nat)
    requires k <= |s|
  {
    forall i: nat :: i <= k ==> Count(s, open, i, k) <= Count(s, close, i, k)
  }

  /** A position where the text is cut. */
  ghost predicate Cut(s: string, d: char, k: nat) {
    && k < |s| && s[k] == d && d !in {'\'', '"', '(', ')', '[', ']'}
    && Whole(s[..k]) && AllClosed(s, '(', ')', k) && AllClosed(s, '[', ']', k)
  }

  // ---------------------------------------------------------------- the scanner counts the same

  lemma {:induction false} ScanSnoc(s: string, k: nat, st: Scan)
    requires k < |s|
    ensures ScanAll(s[..k + 1], st) == Advance(ScanAll(s[..k], st), s[k])
  {
    hide Advance;
    assert s[..k + 1][0] == s[0];
    if k > 0 {
      ScanSnoc(s[1..], k - 1, Advance(st, s[0]));
      assert s[..k + 1][1..] == s[1..][..k] && s[..k][1..] == s[1..][..k - 1];
    } else {
      assert s[..1][1..] == [];
    }
  }

  /** Until its closing quote a quoted string leaves the scanner as it is. */
  lemma {:induction false} ScanQuoted(s: string, st: Scan)
    requires st.quote.Some?
    ensures var j := IndexOf(s, st.quote.value);
            ScanAll(s, st) == if j < |s| then ScanAll(s[j + 1..], st.(quote := None)) else st
  {
    if s != [] && s[0] != st.quote.value {
      ScanQuoted(s[1..], st);
      var j := IndexOf(s[1..], st.quote.value);
      if j < |s| - 1 { assert s[1..][j + 1..] == s[j + 2..]; }
    }
  }

  lemma {:induction false} WholeIff(s: string, st: Scan)
    requires st.quote.None?
    ensures Whole(s) <==> ScanAll(s, st).quote.None?
    decreases |s|
  {
    if s != [] {
      var next := Advance(st, s[0]);
      if s[0] == '\'' || s[0] == '"' {
        assert next == st.(quote := Some(s[0]));
        hide Advance;
        var j := IndexOf(s[1..], s[0]);
        ScanQuoted(s[1..], next);
        if j < |s| - 1 {
          assert s[1..][j + 1..] == s[j + 2..] && next.(quote := None) == st;
          WholeIff(s[j + 2..], st);
        }
      } else {
        assert next.quote.None?;
        hide Advance;
        WholeIff(s[1..], next);
      }
    }
  }

  /** The depth of a bracket kind: as many openings as possible without their closings, from some position on. */
  ghost predicate IsDepth(s: string, open: char, close: char, k: nat, depth: nat)
    requires k <= |s|
  {
    && (forall i: nat :: i <= k ==> Count(s, open, i, k) <= Count(s, close, i, k) + depth)
    && exists i: nat :: i <= k && Count(s, open, i, k) == Count(s, close, i, k) + depth
  }

  lemma DepthZero(s: string, open: char, close: char, k: nat, depth: nat)
    requires k <= |s| && IsDepth(s, open, close, k, depth)
    ensures AllClosed(s, open, close, k) <==> depth == 0
  {
    hide Count;
  }

  /** One more character: an opening adds one, a closing takes one away unless there is none, and all else, and
      anything in quotes, leaves the depth alone. */
  lemma DepthStep(s: string, open: char, close: char, k: nat, depth: nat)
    requires k < |s| && open != close && IsDepth(s, open, close, k, depth)
    ensures IsDepth(s, open, close, k + 1,
                    if !Whole(s[..k]) then depth
                    else if s[k] == open then depth + 1
                    else if s[k] == close then Less(depth)
                    else depth)
  {
    hide Whole;
    var m := k + 1;
    var next := if !Whole(s[..k]) then depth
                else if s[k] == open then depth + 1
                else if s[k] == close then Less(depth)
                else depth;
    var (up, down) := (if s[k] == open && Whole(s[..k]) then 1 else 0, if s[k] == close && Whole(s[..k]) then 1 else 0);
    forall i: nat | i <= k
      ensures Count(s, open, i, m) == Count(s, open, i, k) + up
      ensures Count(s, close, i, m) == Count(s, close, i, k) + down
    {}
    assert Count(s, open, m, m) == 0 == Count(s, close, m, m);
    forall i: nat | i <= m ensures Count(s, open, i, m) <= Count(s, close, i, m) + next {
      if i <= k { assert Count(s, open, i, k) <= Count(s, close, i, k) + depth; }
    }
    var i: nat :| i <= k && Count(s, open, i, k) == Count(s, close, i, k) + depth;
    if down == 1 && depth == 0 {
      assert Count(s, open, m, m) == Count(s, close, m, m) + next;
    } else {
      assert Count(s, open, i, m) == Count(s, close, i, m) + next;
    }
  }

  /** Before each position the scanner knows whether it is in quotes, and both depths. */
  lemma {:induction false} ScanCounts(s: string, k: nat)
    requires k <= |s|
    ensures var st := ScanAll(s[..k], TOP);
            && (st.quote.None? <==> Whole(s[..k]))
            && IsDepth(s, '(', ')', k, st.parens) && IsDepth(s, '[', ']', k, st.brackets)
  {
    hide Whole, ScanAll, IsDepth;
    WholeIff(s[..k], TOP);
    if k == 0 {
      DepthStart(s, '(', ')');
      DepthStart(s, '[', ']');
      assert s[..0] == [];
      ScanNothing();
    } else {
      ScanCounts(s, k - 1);
      ScanSnoc(s, k - 1, TOP);
      var st := ScanAll(s[..k - 1], TOP);
      DepthStep(s, '(', ')', k - 1, st.parens);
      DepthStep(s, '[', ']', k - 1, st.brackets);
    }
  }

  lemma ScanNothing()
    ensures ScanAll([], TOP) == TOP
  {}

  lemma DepthStart(s: string, open: char, close: char)
    ensures IsDepth(s, open, close, 0, 0)
  {
    assert Count(s, open, 0, 0) == 0 == Count(s, close, 0, 0);
  }

  /** The scanner is at a cut exactly at the positions that are one. */
  lemma AtCutIff(s: string, d: char, k: nat)
    requires k < |s|
    ensures AtCut(ScanAll(s[..k], TOP), s[k], d) <==> Cut(s, d, k)
  {
    hide Whole, ScanAll, AllClosed, IsDepth;
    ScanCounts(s, k);
    var st := ScanAll(s[..k], TOP);
    DepthZero(s, '(', ')', k, st.parens);
    DepthZero(s, '[', ']', k, st.brackets);
  }

  // ---------------------------------------------------------------- the segments

  /** The stretches of text between ascending positions, from one position on. */
  function Stretches(s: string, from: nat, cuts: seq<nat>): (r: seq<string>)
    requires from <= |s| && forall i :: 0 <= i < |cuts| ==> from <= cuts[i] < |s|
    requires forall i, j :: 0 <= i < j < |cuts| ==> cuts[i] < cuts[j]
    ensures |r| == |cuts| + 1
    decreases |cuts|
  {
    if cuts == [] then [s[from..]] else [s[from..cuts[0]]] + Stretches(s, cuts[0] + 1, cuts[1..])
  }

  ghost predicate CutsFrom(s: string, d: char, from: nat, cuts: seq<nat>) {
    && (forall i, j :: 0 <= i < j < |cuts| ==> cuts[i] < cuts[j])
    && forall k :: k in cuts <==> from <= k && Cut(s, d, k)
  }

  lemma InRange(s: string, d: char, from: nat, cuts: seq<nat>)
    requires CutsFrom(s, d, from, cuts)
    ensures forall i :: 0 <= i < |cuts| ==> from <= cuts[i] < |s|
  {
    forall i | 0 <= i < |cuts| ensures from <= cuts[i] < |s| { assert cuts[i] in cuts; }
  }

  lemma {:induction false} SegmentsFrom(s: string, d: char, from: nat) returns (cuts: seq<nat>)
    requires from <= |s|
    ensures CutsFrom(s, d, from, cuts) && forall i :: 0 <= i < |cuts| ==> from <= cuts[i] < |s|
    ensures Segments(s[from..], d, ScanAll(s[..from], TOP)) == Stretches(s, from, cuts)
    decreases |s| - from
  {
    hide Cut, ScanAll, Advance, AtCut, Segments, Stretches;
    if from == |s| {
      cuts := [];
      NoCutPast(s, d);
      OneStretch(s, d);
    } else {
      var rest := SegmentsFrom(s, d, from + 1);
      cuts := if Cut(s, d, from) then [from] + rest else rest;
      MoreCuts(s, d, from, rest, cuts);
      ScanSnoc(s, from, TOP);
      AtCutIff(s, d, from);
      if Cut(s, d, from) {
        StretchCut(s, d, from, rest);
      } else {
        StretchOn(s, d, from, rest);
      }
    }
  }

  lemma OneStretch(s: string, d: char)
    ensures Segments(s[|s|..], d, ScanAll(s[..|s|], TOP)) == Stretches(s, |s|, [])
  {
    hide ScanAll;
    assert s[|s|..] == [];
  }

  lemma StretchCut(s: string, d: char, from: nat, rest: seq<nat>)
    requires from < |s| && forall i :: 0 <= i < |rest| ==> from + 1 <= rest[i] < |s|
    requires forall i, j :: 0 <= i < j < |rest| ==> rest[i] < rest[j]
    requires var st := ScanAll(s[..from], TOP);
             AtCut(st, s[from], d) && Segments(s[from + 1..], d, Advance(st, s[from])) == Stretches(s, from + 1, rest)
    ensures Segments(s[from..], d, ScanAll(s[..from], TOP)) == Stretches(s, from, [from] + rest)
  {
    hide ScanAll, Segments, Stretches;
    var st := ScanAll(s[..from], TOP);
    PlainAdvance(st, s[from], d);
    SegmentsStep(s, from, d, st);
    StretchFirst(s, from, rest);
  }

  lemma StretchFirst(s: string, from: nat, rest: seq<nat>)
    requires from < |s| && forall i :: 0 <= i < |rest| ==> from + 1 <= rest[i] < |s|
    requires forall i, j :: 0 <= i < j < |rest| ==> rest[i] < rest[j]
    ensures forall i, j :: 0 <= i < j < |[from] + rest| ==> ([from] + rest)[i] < ([from] + rest)[j]
    ensures Stretches(s, from, [from] + rest) == [[]] + Stretches(s, from + 1, rest)
  {
    assert ([from] + rest)[1..] == rest && s[from..from] == [];
  }

  lemma StretchOn(s: string, d: char, from: nat, rest: seq<nat>)
    requires from < |s| && forall i :: 0 <= i < |rest| ==> from + 1 <= rest[i] < |s|
    requires forall i, j :: 0 <= i < j < |rest| ==> rest[i] < rest[j]
    requires var st := ScanAll(s[..from], TOP);
             !AtCut(st, s[from], d) && Segments(s[from + 1..], d, Advance(st, s[from])) == Stretches(s, from + 1, rest)
    ensures Segments(s[from..], d, ScanAll(s[..from], TOP)) == Stretches(s, from, rest)
  {
    hide ScanAll, Segments, Stretches, AtCut, Advance;
    var st := ScanAll(s[..from], TOP);
    SegmentsStep(s, from, d, st);
    StretchBack(s, from, rest);
  }

  lemma MoreCuts(s: string, d: char, from: nat, rest: seq<nat>, cuts: seq<nat>)
    requires CutsFrom(s, d, from + 1, rest) && cuts == (if Cut(s, d, from) then [from] + rest else rest)
    ensures CutsFrom(s, d, from, cuts)
    ensures forall i :: 0 <= i < |cuts| ==> from <= cuts[i] < |s|
  {
    hide Cut;
    InRangeCut(s, d);
    InRange(s, d, from + 1, rest);
    forall k ensures k in cuts <==> from <= k && Cut(s, d, k) {
      assert k in [from] + rest <==> k == from || k in rest;
    }
    assert forall i :: 0 < i < |[from] + rest| ==> ([from] + rest)[i] == rest[i - 1];
  }

  lemma InRangeCut(s: string, d: char)
    ensures forall k: nat :: Cut(s, d, k) ==> k < |s|
  {
    hide Whole, AllClosed;
  }

  lemma NoCutPast(s: string, d: char)
    ensures CutsFrom(s, d, |s|, [])
  {
    hide Whole, AllClosed;
  }

  lemma PlainAdvance(st: Scan, c: char, d: char)
    requires AtCut(st, c, d)
    ensures Advance(st, c) == TOP
  {}

  lemma StretchBack(s: string, from: nat, cuts: seq<nat>)
    requires from < |s| && forall i :: 0 <= i < |cuts| ==> from + 1 <= cuts[i] < |s|
    requires forall i, j :: 0 <= i < j < |cuts| ==> cuts[i] < cuts[j]
    ensures var rest := Stretches(s, from + 1, cuts);
            Stretches(s, from, cuts) == [[s[from]] + rest[0]] + rest[1..]
  {
    var rest := Stretches(s, from + 1, cuts);
    if cuts == [] {
      assert s[from..] == [s[from]] + s[from + 1..];
    } else {
      assert s[from..cuts[0]] == [s[from]] + s[from + 1..cuts[0]];
      assert rest[1..] == Stretches(s, cuts[0] + 1, cuts[1..]);
    }
  }

  /** The splitter cuts at exactly the delimiters outside quotes with every parenthesis and bracket before them
      closed, and gives the trimmed stretches in between. */
  lemma SplitsAtCuts(s: string, d: char) returns (cuts: seq<nat>)
    ensures forall i, j :: 0 <= i < j < |cuts| ==> cuts[i] < cuts[j]
    ensures forall k :: k in cuts <==> Cut(s, d, k)
    ensures forall i :: 0 <= i < |cuts| ==> cuts[i] < |s|
    ensures |SplitTopLevel(s, d)| == |cuts| + 1
    ensures forall i :: 0 <= i <= |cuts| ==>
              SplitTopLevel(s, d)[i] ==
              Trim(s[if i == 0 then 0 else cuts[i - 1] + 1..if i == |cuts| then |s| else cuts[i]])
  {
    hide Cut, Segments, Trim, ScanAll;
    cuts := SegmentsFrom(s, d, 0);
    ScanNothing();
    assert s[..0] == [] && s[0..] == s;
    forall i | 0 <= i <= |cuts|
      ensures SplitTopLevel(s, d)[i] ==
              Trim(s[if i == 0 then 0 else cuts[i - 1] + 1..if i == |cuts| then |s| else cuts[i]])
    {
      StretchAt(s, 0, cuts, i);
    }
  }

  lemma {:induction false} StretchAt(s: string, from: nat, cuts: seq<nat>, i: nat)
    requires from <= |s| && forall i :: 0 <= i < |cuts| ==> from <= cuts[i] < |s|
    requires forall i, j :: 0 <= i < j < |cuts| ==> cuts[i] < cuts[j]
    requires i <= |cuts|
    ensures Stretches(s, from, cuts)[i] ==
            s[if i == 0 then from else cuts[i - 1] + 1..if i == |cuts| then |s| else cuts[i]]
    decreases i
  {
    if i > 0 {
      var rest := cuts[1..];
      StretchAt(s, cuts[0] + 1, rest, i - 1);
      assert Stretches(s, from, cuts)[i] == Stretches(s, cuts[0] + 1, rest)[i - 1];
      assert i > 1 ==> rest[i - 2] == cuts[i - 1];
      assert i < |cuts| ==> rest[i - 1] == cuts[i];
    } else if cuts == [] {
      assert s[from..] == s[from..|s|];
    }
  }

  /** Splitting once splits at the first of these positions. */
  lemma SplitsOnceAtFirst(s: string, d: char)
    ensures SplitOnceTopLevel(s, d, TOP).None? <==> forall k: nat :: !Cut(s, d, k)
    ensures SplitOnceTopLevel(s, d, TOP).Some? ==>
              var parts := SplitOnceTopLevel(s, d, TOP).value;
              s == parts.0 + [d] + parts.1 && Cut(s, d, |parts.0|) && forall k: nat :: k < |parts.0| ==> !Cut(s, d, k)
  {
    hide Cut, Segments, ScanAll;
    var cuts := SegmentsFrom(s, d, 0);
    ScanNothing();
    assert s[..0] == [] && s[0..] == s;
    SplitOnceIsFirstCut(s, d, TOP);
    if cuts == [] {
      assert |Segments(s, d, TOP)| == 1;
    } else {
      assert Segments(s, d, TOP)[0] == s[0..cuts[0]];
      forall k: nat | k < cuts[0] ensures !Cut(s, d, k) {}
      assert cuts[0] in cuts;
    }
  }
}
