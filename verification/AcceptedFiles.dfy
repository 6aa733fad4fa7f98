/** What the decoder guarantees of any text it accepts, whoever wrote it. */
module AcceptedFiles {
  import opened Basics
  import opened Text
  import opened Values
  import opened Codec
  import opened Ast
  import opened Tables
  import opened TableFacts
  import opened Catalogs
  import opened CatalogRoundTrip
  import opened Identifiers

  // ---------------------------------------------------------------- tables

  /** The columns have distinct names, at most one is the primary key, and that is the table's; the next row id is
      the least above the rows. */
  predicate Consistent(t: Table) {
    && DistinctNames(t.columns) && OnePrimary(t.columns) && t.primaryKey == PrimaryColumn(t.columns)
    && t.nextRowId == LeastNext(t.rows)
  }

  /** Consistent, with indexes that hold exactly what the rows give them: in particular every row has a primary key
      and no two have the same. */
  predicate Complete(t: Table, env: Env) {
    Consistent(t) && Buildable(t) && Built(t, Tok(env, env.tokenizer)) == t
  }

  predicate Sensible(st: Decoding, env: Env) {
    && (forall n :: n in st.catalog ==> st.catalog[n].name == n && Complete(st.catalog[n], env))
    && (st.current.Some? ==> Consistent(st.current.value))
  }

  lemma ColumnConsistent(t: Table, parts: seq<string>)
    requires Consistent(t) && DecodeColumn(t, parts).Ok?
    ensures Consistent(DecodeColumn(t, parts).value)
  {
    hide DecodeString, ParseType, LeastNext;
    var columns := DecodeColumn(t, parts).value.columns;
    var c := columns[|t.columns|];
    assert forall i :: 0 <= i < |t.columns| ==> columns[i] == t.columns[i] && t.columns[i].name in Names(t.columns);
    PrimarySnoc(t.columns, c);
  }

  lemma RowConsistent(t: Table, parts: seq<string>)
    requires Consistent(t) && DecodeRow(t, parts).Ok?
    ensures Consistent(DecodeRow(t, parts).value)
  {
    hide ParseRowId, DecodeCells, PrimaryColumn, DistinctNames, OnePrimary, LeastNext;
    var id := ParseRowId(parts[1]).value;
    NextIs(t.rows, id, DecodeCells(parts[2..], map[]).value);
  }

  lemma NextIs(before: map<nat, Row>, id: nat, row: Row)
    ensures LeastNext(before[id := row]) == if LeastNext(before) < id + 1 then id + 1 else LeastNext(before)
  {
    hide LeastNext;
    var rows := before[id := row];
    var n := if LeastNext(before) < id + 1 then id + 1 else LeastNext(before);
    assert Above(rows, n);
    assert id in rows;
    assert Above(before, LeastNext(rows)) by { assert forall i :: i in before ==> i in rows; }
  }

  lemma NoRowsNext()
    ensures LeastNext(map[]) == 1
  {
    assert Above(map[], 1);
  }

  lemma RebuiltComplete(t: Table, env: Env)
    requires Consistent(t) && Buildable(t)
    ensures Complete(Built(t, Tok(env, env.tokenizer)), env)
  {
    hide LeastNext, PrimaryOk, ColumnIndexable, BuildPrimary, BuildEntries, BuildWords;
  }

  lemma PartsSensible(st: Decoding, parts: seq<string>, env: Env)
    requires parts != [] && Sensible(st, env) && DecodeParts(st, parts, env).Ok?
    ensures Sensible(DecodeParts(st, parts, env).value, env)
  {
    hide DecodeColumn, DecodeRow, DecodeDefinition, DecodeString, Built, Buildable, LeastNext;
    NoRowsNext();
    if parts[0] == "COLUMN" && st.current.Some? && DecodeColumn(st.current.value, parts).Ok? {
      ColumnConsistent(st.current.value, parts);
    }
    if parts[0] == "ROW" && st.current.Some? && DecodeRow(st.current.value, parts).Ok? {
      RowConsistent(st.current.value, parts);
    }
    if parts[0] == "ENDTABLE" && st.current.Some? && Buildable(st.current.value) {
      RebuiltComplete(st.current.value, env);
    }
  }

  // ---------------------------------------------------------------- lines

  const TAGS: set<string> := {"TABLE", "COLUMN", "INDEX", "FTS", "ROW", "ENDTABLE"}

  /** The first field of a line. */
  function LineTag(line: string): string { line[..IndexOf(line, '\t')] }

  /** After these lines a table is open: the last line that begins or ends one begins one. */
  predicate InTable(lines: seq<string>) {
    lines != [] &&
    var last := lines[|lines| - 1];
    if LineTag(last) == "TABLE" then true
    else if LineTag(last) == "ENDTABLE" then false
    else InTable(lines[..|lines| - 1])
  }

  /** The line stands where it may: a table begins where none is open, and everything else stands within one. Empty
      lines do not matter. */
  predicate InPlace(lines: seq<string>, i: nat)
    requires i < |lines|
  {
    lines[i] != [] ==>
      && LineTag(lines[i]) in TAGS
      && (LineTag(lines[i]) == "TABLE" <==> !InTable(lines[..i]))
  }

  lemma SplitTag(line: string)
    ensures Split(line, '\t')[0] == LineTag(line)
    ensures line == [] ==> LineTag(line) == []
  {}

  lemma LinePlaced(st: Decoding, line: string, env: Env)
    requires DecodeLine(st, line, env).Ok?
    ensures var (next, tag) := (DecodeLine(st, line, env).value, LineTag(line));
            && (line != [] ==> tag in TAGS && (tag == "TABLE" <==> st.current.None?))
            && (next.current.Some? <==> tag == "TABLE" || (tag != "ENDTABLE" && st.current.Some?))
  {
    hide Split, LineTag, DecodeColumn, DecodeRow, DecodeDefinition, DecodeString, Rebuild;
    SplitTag(line);
  }

  lemma LineSensible(st: Decoding, line: string, env: Env)
    requires Sensible(st, env) && DecodeLine(st, line, env).Ok?
    ensures Sensible(DecodeLine(st, line, env).value, env)
  {
    hide Sensible, Split, DecodeParts;
    if line != [] { PartsSensible(st, Split(line, '\t'), env); }
  }

  lemma {:induction false} LinesGuarantee(lines: seq<string>, env: Env)
    requires DecodeLines(Decoding(map[], None), lines, env).Ok?
    ensures var st := DecodeLines(Decoding(map[], None), lines, env).value;
            && Sensible(st, env) && (st.current.Some? <==> InTable(lines))
            && forall i :: 0 <= i < |lines| ==> InPlace(lines, i)
  {
    hide DecodeLine, LineTag, Complete, Consistent;
    if lines != [] {
      var n := |lines| - 1;
      var (init, last) := (lines[..n], lines[n]);
      assert lines == init + [last];
      DecodeAppend(Decoding(map[], None), init, [last], env);
      LinesGuarantee(init, env);
      var mid := DecodeLines(Decoding(map[], None), init, env).value;
      assert [last][1..] == [];
      assert DecodeLines(mid, [last], env) == DecodeLine(mid, last, env);
      LinePlaced(mid, last, env);
      LineSensible(mid, last, env);
      forall i | 0 <= i < |lines| ensures InPlace(lines, i) {
        if i < n {
          assert InPlace(init, i) && init[i] == lines[i] && init[..i] == lines[..i];
        } else {
          assert lines[..i] == init;
        }
      }
    }
  }

  /** Whatever text is accepted: it is empty, or begins with the header, every further line stands where it may and
      every table is ended; and every table of the catalog is filed under its name and complete. */
  lemma DecodedGuarantee(input: string, env: Env)
    requires DecodeCatalog(input, env).Ok?
    ensures var (c, lines) := (DecodeCatalog(input, env).value, Lines(input));
            && (forall n :: n in c ==> c[n].name == n && Complete(c[n], env))
            && (lines == [] ==> c == map[])
            && (lines != [] ==>
                  && lines[0] == "FSQ1" && !InTable(lines[1..])
                  && forall i :: 0 <= i < |lines| - 1 ==> InPlace(lines[1..], i))
  {
    hide Lines, DecodeLines, Complete, InTable, InPlace;
    if Lines(input) != [] { LinesGuarantee(Lines(input)[1..], env); }
  }

  /** Lines each ended by a line feed, after a carriage return where one is asked for. */
  function Ended(lines: seq<string>, returned: seq<bool>): string
    requires |lines| == |returned|
  {
    if lines == [] then [] else
      lines[0] + (if returned[0] then ['\r'] else []) + ['\n'] + Ended(lines[1..], returned[1..])
  }

  lemma {:induction false} EndedLines(lines: seq<string>, returned: seq<bool>)
    requires |lines| == |returned| && AllPlain(lines)
    ensures Lines(Ended(lines, returned)) == lines
  {
    if lines != [] {
      var (line, rest) := (lines[0] + (if returned[0] then ['\r'] else []), Ended(lines[1..], returned[1..]));
      EndedLines(lines[1..], returned[1..]);
      IndexOfCut(line, '\n', rest);
      var text := line + ['\n'] + rest;
      assert text[..|line|] == line && text[|line| + 1..] == rest;
      assert PlainLine(lines[0]) && StripCr(line) == lines[0];
      assert lines == [lines[0]] + lines[1..];
    }
  }

  /** It does not matter which lines of a file end in a carriage return and a line feed and which in a line feed
      alone. */
  lemma LineEndsIgnored(lines: seq<string>, returned: seq<bool>, env: Env)
    requires |lines| == |returned| && AllPlain(lines)
    ensures DecodeCatalog(Ended(lines, returned), env) == DecodeCatalog(Unlines(lines), env)
  {
    hide DecodeLines, Lines, Ended, Unlines;
    EndedLines(lines, returned);
    LinesOfUnlines(lines);
  }

  // ---------------------------------------------------------------- words and tags

  /** The names of a column type. */
  function TypeWords(ty: ColumnType): set<string> {
    match ty
    case IntegerType => {"int", "integer"}
    case FloatType => {"float", "real", "double"}
    case BooleanType => {"bool", "boolean"}
    case TextType => {"text", "string"}
    case VectorType => {"vector"}
    case PointType => {"point", "geo", "geography", "coordinate"}
  }

  /** A word of small letters, some of them written as capitals. */
  predicate Spells(s: string, word: string) {
    && |s| == |word| > 0
    && forall i :: 0 <= i < |s| ==>
         'a' <= word[i] <= 'z' && (s[i] == word[i] || ('A' <= s[i] <= 'Z' && s[i] as int + 32 == word[i] as int))
  }

  /** A type may be given by each of its names, in any case and with blanks around it. */
  lemma TypeSpellings(a: string, s: string, b: string, word: string, ty: ColumnType)
    requires Blank(a) && Blank(b) && word in TypeWords(ty) && Spells(s, word)
    ensures ParseType(a + s + b) == Ok(ty)
  {
    hide Trim, LowerAscii, IsWhitespace;
    forall i | 0 <= i < |s| ensures LowerAscii(s)[i] == word[i] { Lowered(s, i); }
    assert LowerAscii(s) == word;
    LettersTrimmed(s, word);
    TrimAround(a, s, b);
  }

  lemma LettersTrimmed(s: string, word: string)
    requires Spells(s, word)
    ensures Trimmed(s)
  {}

  /** A value text that is accepted begins with the tag of its variant, and a boolean is nothing but 0 or 1. */
  lemma TagsNameVariants(kind: string, body: string)
    requires ':' !in kind
    ensures var r := DecodeValue(kind + [':'] + body);
            && (r.Ok? ==> kind == [Tag(r.value)])
            && (kind == "B" && r.Ok? ==> body == (if r.value.b then "1" else "0"))
  {
    hide DecodeVector, DecodePlace, DecodeInteger, ParseF64Bits, DecodeString;
    IndexOfCut(kind, ':', body);
    KindsDecode(kind, body);
  }

  lemma KindsDecode(kind: string, body: string)
    ensures kind == "V" && DecodeVector(body).Ok? ==> DecodeVector(body).value.Vector?
    ensures kind == "P" && DecodePlace(body).Ok? ==> DecodePlace(body).value.Place?
    ensures kind == "I" && DecodeInteger(body).Ok? ==> DecodeInteger(body).value.Integer?
  {
    hide ParseWords, Split, ParseI64;
  }
}
