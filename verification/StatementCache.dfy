/** The cache of parsed statements (`ParsedStatementCache::parse`, `parse_with_cache`). */
module StatementCache {
  import opened Basics
  import opened Text
  import opened Ast

  function TrimEndMatches(s: string, c: char): string {
    if s != [] && s[|s| - 1] == c then TrimEndMatches(s[..|s| - 1], c) else s
  }

  /** The text a statement is cached under, which is also the text the parser starts from. */
  function Key(sql: string): string { Trim(TrimEndMatches(Trim(sql), ';')) }

  lemma {:induction false} EndMatchesStripped(s: string, c: char, k: nat)
    requires k <= |s| && (forall i :: k <= i < |s| ==> s[i] == c) && (k > 0 ==> s[k - 1] != c)
    ensures TrimEndMatches(s, c) == s[..k]
  {
    if k < |s| { EndMatchesStripped(s[..|s| - 1], c, k); }
    assert k == |s| ==> s[..k] == s;
  }

  /** The blanks around a statement and the semicolons after it do not matter, and nothing else is taken away. A
      semicolon that blanks keep apart from the ones at the end stays. */
  lemma KeyOf(a: string, body: string, b: string, semicolons: string, c: string)
    requires Blank(a) && Blank(b) && Blank(c) && (forall i :: 0 <= i < |semicolons| ==> semicolons[i] == ';')
    requires Trimmed(body) && (body != [] && body[|body| - 1] == ';' ==> b != [] && semicolons != [])
    ensures Key(a + body + b + semicolons + c) == body
  {
    hide Trim, TrimEndMatches;
    if semicolons == [] {
      assert a + body + b + semicolons + c == a + body + (b + c);
      TrimAround(a, body, b + c);
      EndMatchesStripped(body, ';', |body|);
      assert body[..|body|] == body;
      TrimmedFixed(body);
    } else if body == [] {
      assert a + body + b + semicolons + c == (a + b) + semicolons + c;
      TrimAround(a + b, semicolons, c);
      EndMatchesStripped(semicolons, ';', 0);
      TrimmedFixed([]);
    } else {
      var inner := body + b + semicolons;
      assert a + body + b + semicolons + c == a + inner + c;
      TrimAround(a, inner, c);
      assert b != [] ==> inner[|body| + |b| - 1] == b[|b| - 1];
      EndMatchesStripped(inner, ';', |body| + |b|);
      assert inner[..|body| + |b|] == [] + body + b;
      TrimAround([], body, b);
    }
  }

  /** `parse_sql_with_dialect` for one dialect: it looks at nothing but the normalised text, and rejects the empty one.
      What it makes of the rest is a parameter. */
  function ParseSql(sql: string, body: string -> Result<Statement, Error>): Result<Statement, Error> {
    if Key(sql) == [] then Err(Parse) else body(Key(sql))
  }

  type Cache = map<string, Statement>

  /** Every entry is what the parser says about its key. */
  predicate Faithful(cache: Cache, body: string -> Result<Statement, Error>) {
    forall k :: k in cache ==> k != [] && body(k) == Ok(cache[k])
  }

  /** One call: the cache after it and the statement. The entry with the first key makes room for a new one. */
  function Lookup(cache: Cache, capacity: nat, sql: string, body: string -> Result<Statement, Error>)
    : (Cache, Result<Statement, Error>)
  {
    if capacity == 0 then (cache, ParseSql(sql, body))
    else if Key(sql) in cache then (cache, Ok(cache[Key(sql)]))
    else
      match ParseSql(sql, body)
      case Err(e) => (cache, Err(e))
      case Ok(s) =>
        var room := if |cache| >= capacity && cache != map[] then cache - {FirstName(cache.Keys)} else cache;
        (room[Key(sql) := s], Ok(s))
  }

  /** A call gives what the uncached parser gives, and keeps the cache faithful and within its capacity. */
  lemma LookupIsParse(cache: Cache, capacity: nat, sql: string, body: string -> Result<Statement, Error>)
    requires Faithful(cache, body) && |cache| <= capacity
    ensures var (after, r) := Lookup(cache, capacity, sql, body);
            r == ParseSql(sql, body) && Faithful(after, body) && |after| <= capacity
  {
    hide Key, FirstName;
    if capacity > 0 && Key(sql) !in cache && ParseSql(sql, body).Ok? {
      if |cache| >= capacity {
        CacheNotEmpty(cache);
        var first := FirstName(cache.Keys);
        var room := cache - {first};
        Removed(cache, first);
        Added(room, Key(sql), ParseSql(sql, body).value);
      } else {
        Added(cache, Key(sql), ParseSql(sql, body).value);
      }
    }
  }

  /** What a call does to the cache: a hit, an error or a cache without room at all leaves it alone; anything else
      enters the statement, and only when the cache is full makes the entry with the least key go. */
  lemma LookupStores(cache: Cache, capacity: nat, sql: string, body: string -> Result<Statement, Error>)
    requires Faithful(cache, body) && |cache| <= capacity
    ensures var (key, (after, r)) := (Key(sql), Lookup(cache, capacity, sql, body));
            && (capacity == 0 || key in cache || r.Err? ==> after == cache)
            && (capacity > 0 && r.Ok? ==> key in after && after[key] == r.value)
            && (forall k :: k in after ==> k == key || (k in cache && after[k] == cache[k]))
            && (capacity > 0 && key !in cache && r.Ok? && |cache| < capacity ==> forall k :: k in cache ==> k in after)
            && (capacity > 0 && key !in cache && r.Ok? && |cache| == capacity ==>
                  exists first :: first in cache && (forall k :: k in cache ==> LexLe(first, k)) &&
                                  forall k :: k in cache ==> (k in after <==> k != first))
  {
    hide Key, LexLe;
    CacheNotEmpty(cache);
    if capacity > 0 && Key(sql) !in cache && ParseSql(sql, body).Ok? && |cache| == capacity {
      var first := FirstName(cache.Keys);
      assert forall k :: k in cache ==> LexLe(first, k) by { assert forall k :: k in cache <==> k in cache.Keys; }
    }
  }

  lemma CacheNotEmpty(cache: Cache)
    ensures |cache| > 0 ==> cache != map[] && cache.Keys != {}
  {
    if cache.Keys == {} { assert cache == map[]; }
  }

  lemma Removed(cache: Cache, key: string)
    requires key in cache
    ensures |cache - {key}| == |cache| - 1
  {
    assert (cache - {key}).Keys == cache.Keys - {key};
    assert |cache.Keys - {key}| == |cache.Keys| - 1;
  }

  lemma Added(cache: Cache, key: string, s: Statement)
    requires key !in cache
    ensures |cache[key := s]| == |cache| + 1
  {
    assert cache[key := s].Keys == cache.Keys + {key};
    assert |cache.Keys + {key}| == |cache.Keys| + 1;
  }

  /** The answers to a sequence of calls, and the cache they leave. */
  function Calls(cache: Cache, capacity: nat, texts: seq<string>, body: string -> Result<Statement, Error>)
    : (Cache, seq<Result<Statement, Error>>)
    decreases texts
  {
    if texts == [] then (cache, []) else
      var (after, r) := Lookup(cache, capacity, texts[0], body);
      var (end, rest) := Calls(after, capacity, texts[1..], body);
      (end, [r] + rest)
  }

  /** Over any sequence of calls the cache cannot be told from the parser, whatever it evicts, and never holds more
      than its capacity. */
  lemma {:induction false} CacheIsTransparent(cache: Cache, capacity: nat, texts: seq<string>,
                                              body: string -> Result<Statement, Error>)
    requires Faithful(cache, body) && |cache| <= capacity
    ensures var (end, answers) := Calls(cache, capacity, texts, body);
            && |answers| == |texts| && |end| <= capacity && Faithful(end, body)
            && forall i :: 0 <= i < |texts| ==> answers[i] == ParseSql(texts[i], body)
    decreases texts
  {
    hide Lookup, ParseSql, Faithful;
    if texts != [] {
      LookupIsParse(cache, capacity, texts[0], body);
      CacheIsTransparent(Lookup(cache, capacity, texts[0], body).0, capacity, texts[1..], body);
    }
  }

  class ParsedStatementCache {
    const capacity: nat
    var statements: Cache

    constructor (capacity: nat)
      ensures this.capacity == capacity && statements == map[]
    {
      this.capacity, statements := capacity, map[];
    }

    method Parse(sql: string, body: string -> Result<Statement, Error>) returns (r: Result<Statement, Error>)
      requires Faithful(statements, body) && |statements| <= capacity
      modifies this
      ensures (statements, r) == Lookup(old(statements), capacity, sql, body)
      ensures r == ParseSql(sql, body)
      ensures Faithful(statements, body) && |statements| <= capacity
    {
      hide Key, FirstName;
      LookupIsParse(statements, capacity, sql, body);
      if capacity == 0 { return ParseSql(sql, body); }
      var key := Key(sql);
      if key in statements { return Ok(statements[key]); }
      var parsed := ParseSql(sql, body);
      if parsed.Err? { return parsed; }
      if |statements| >= capacity && statements != map[] {
        assert statements.Keys != {} by { CacheNotEmpty(statements); }
        statements := statements - {FirstName(statements.Keys)};
      }
      statements := statements[key := parsed.value];
      r := parsed;
    }
  }
}
