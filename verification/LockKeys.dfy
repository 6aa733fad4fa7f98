/** The string keys of the pool's lock table, and how a merge reads them back. */
module LockKeys {
  import opened Text

  function RowPrefix(table: string): string { "row:" + table + ":" }

  /** `row_lock_key`. */
  function RowKey(table: string, id: nat): string { RowPrefix(table) + Decimal(id) }

  /** What the merge of a table makes of a locked key: not this table's, a row id, or an id it cannot read. */
  datatype Reading = Foreign | OfRow(id: nat) | Unreadable

  function ReadKey(table: string, key: string): Reading {
    if !(RowPrefix(table) <= key) then Foreign else
      match ParseRowId(key[|RowPrefix(table)|..])
      case None => Unreadable
      case Some(id) => OfRow(id)
  }

  /** The last colon separates the table from the id. */
  lemma LastColon(t: string, id: nat)
    ensures |RowKey(t, id)| > 5 + |t| && RowKey(t, id)[4 + |t|] == ':'
    ensures forall k :: 4 + |t| < k < |RowKey(t, id)| ==> RowKey(t, id)[k] != ':'
    ensures RowKey(t, id)[4..4 + |t|] == t && RowKey(t, id)[5 + |t|..] == Decimal(id)
  {
    hide Decimal;
    DecimalShape(id);
    var key := RowKey(t, id);
    forall k | 4 + |t| < k < |key| ensures key[k] != ':' {
      assert key[k] == Decimal(id)[k - 5 - |t|] && IsDigitChar(Decimal(id)[k - 5 - |t|]);
    }
  }

  /** Names with colons do not confuse two row keys. */
  lemma RowKeyInjective(t: string, i: nat, u: string, j: nat)
    requires RowKey(t, i) == RowKey(u, j)
    ensures t == u && i == j
  {
    hide RowKey, Decimal;
    LastColon(t, i);
    LastColon(u, j);
    assert |t| == |u|;
    DecimalInjective(i, j);
  }

  lemma PrefixOfRowKey(n: string, t: string, id: nat)
    ensures RowPrefix(n) <= RowKey(t, id) <==> t == n || n + ":" <= t
  {
    hide Decimal;
    var key := RowKey(t, id);
    LastColon(t, id);
    var p := RowPrefix(n);
    if p <= key {
      assert key[4 + |n|] == p[4 + |n|] == ':';
      assert |n| <= |t|;
      assert n == p[4..4 + |n|] == key[4..4 + |n|] == t[..|n|];
      assert |n| < |t| ==> t[|n|] == key[4 + |n|];
    }
    if n + ":" <= t { assert t == n + ":" + t[|n| + 1..]; }
  }

  lemma {:induction false} ColonIsNoDigit(s: string)
    requires ':' in s
    ensures Digits(s, 10).None?
  {
    var n := |s| - 1;
    assert s == s[..n] + [s[n]];
    if s[n] != ':' { ColonIsNoDigit(s[..n]); }
  }

  /** A table reads its own keys exactly, stumbles over those of a table whose name continues its own with a
      colon, and passes over all others. */
  lemma ReadOfRowKey(n: string, t: string, id: nat)
    ensures ReadKey(n, RowKey(t, id)) == if t == n then OfRow(id) else if n + ":" <= t then Unreadable else Foreign
  {
    hide Decimal, ParseRowId;
    PrefixOfRowKey(n, t, id);
    LastColon(t, id);
    if t == n {
      DecimalParses(id);
    } else if n + ":" <= t {
      var rest := RowKey(t, id)[|RowPrefix(n)|..];
      assert rest[|t| - |n| - 1] == RowKey(t, id)[4 + |t|] == ':';
      UnreadableRest(rest);
    }
  }

  lemma UnreadableRest(s: string)
    requires ':' in s
    ensures ParseRowId(s).None?
  {
    var body := if |s| > 1 && s[0] == '+' then s[1..] else s;
    assert ':' in body by { assert s == [s[0]] + s[1..]; }
    ColonIsNoDigit(body);
  }

  predicate IsInsertKey(key: string) { "insert:" <= key }

  lemma InsertKeyIsNoRow(key: string)
    requires IsInsertKey(key)
    ensures forall n :: ReadKey(n, key) == Foreign
    ensures forall t, id :: RowKey(t, id) != key
  {
    assert key[0] == 'i';
    forall n ensures ReadKey(n, key) == Foreign { assert RowPrefix(n)[0] == 'r'; }
    forall t, id ensures RowKey(t, id) != key { assert RowKey(t, id)[0] == 'r'; }
  }
}
