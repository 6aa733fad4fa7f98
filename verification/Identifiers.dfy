/** What a name stands for (`identifier.rs`): blanks, quotes and case do not matter. */
module Identifiers {
  import opened Text
  import opened Ast

  predicate AllAre(s: string, c: char) { forall i :: 0 <= i < |s| ==> s[i] == c }

  lemma {:induction false} MatchesTrimmed(x: string, m: string, y: string, c: char)
    requires AllAre(x, c) && AllAre(y, c) && m != [] && m[0] != c && m[|m| - 1] != c
    ensures TrimMatches(x + m + y, c) == m
    decreases |x| + |y|
  {
    var s := x + m + y;
    if x != [] {
      assert s[0] == x[0] && s[1..] == x[1..] + m + y;
      MatchesTrimmed(x[1..], m, y, c);
    } else if y != [] {
      assert s[0] == m[0] && s[|s| - 1] == y[|y| - 1] && s[..|s| - 1] == x + m + y[..|y| - 1];
      MatchesTrimmed(x, m, y[..|y| - 1], c);
    } else {
      assert s == m;
    }
  }

  /** Text that starts and ends with a letter, a digit, an underscore or anything else but blanks and quotes. */
  predicate Bare(s: string) {
    s != [] && forall c :: c in {s[0], s[|s| - 1]} ==> !IsWhitespace(c) && c !in {'`', '"', '\''}
  }

  lemma {:induction false} Lowered(s: string, i: nat)
    requires i < |s|
    ensures LowerAscii(s)[i] == if 'A' <= s[i] <= 'Z' then (s[i] as int + 32) as char else s[i]
  {
    if i > 0 { Lowered(s[1..], i - 1); }
  }

  /** A name may be written with blanks around it, then back quotes, then double quotes, then single quotes, any
      number of each on either side, and in any case of the letters A to Z: it stands for the bare name in lower
      case. */
  lemma SpellingOf(a: string, l: seq<string>, name: string, r: seq<string>, b: string)
    requires Blank(a) && Blank(b) && Bare(name) && |l| == 3 && |r| == 3
    requires AllAre(l[0], '`') && AllAre(l[1], '"') && AllAre(l[2], '\'')
    requires AllAre(r[0], '`') && AllAre(r[1], '"') && AllAre(r[2], '\'')
    ensures var n := NormalizeIdentifier(a + (l[0] + (l[1] + (l[2] + name + r[2]) + r[1]) + r[0]) + b);
            && |n| == |name|
            && forall i :: 0 <= i < |n| ==>
                 n[i] == if 'A' <= name[i] <= 'Z' then (name[i] as int + 32) as char else name[i]
  {
    hide Trim, TrimMatches, LowerAscii, IsWhitespace;
    var single := l[2] + name + r[2];
    var double := l[1] + single + r[1];
    var back := l[0] + double + r[0];
    Ends(l[2], name, r[2]);
    Ends(l[1], single, r[1]);
    Ends(l[0], double, r[0]);
    QuotesAreNotBlank();
    TrimAround(a, back, b);
    MatchesTrimmed(l[0], double, r[0], '`');
    MatchesTrimmed(l[1], single, r[1], '"');
    MatchesTrimmed(l[2], name, r[2], '\'');
    forall i | 0 <= i < |name|
      ensures LowerAscii(name)[i] == if 'A' <= name[i] <= 'Z' then (name[i] as int + 32) as char else name[i]
    {
      Lowered(name, i);
    }
  }

  lemma Ends(x: string, m: string, y: string)
    requires m != []
    ensures var s := x + m + y;
            && s != [] && s[0] == (if x == [] then m[0] else x[0])
            && s[|s| - 1] == (if y == [] then m[|m| - 1] else y[|y| - 1])
  {}

  lemma QuotesAreNotBlank()
    ensures !IsWhitespace('`') && !IsWhitespace('"') && !IsWhitespace('\'')
  {}
}
