/** The locks of transactional INSERTs: what a lock key stands for, whom it keeps out, and how long a lock stays. */
module InsertLocks {
  import opened Basics
  import opened Text
  import opened Values
  import opened Codec
  import opened Ast
  import opened Tables
  import opened Catalogs
  import opened Engine
  import opened LockKeys
  import opened Merge
  import P = Pools
  import opened Pools
  import opened PoolFacts
  import opened PoolLaws
  import opened PoolCommits
  import opened PoolHistories
  import opened Filters

  // ---------------------------------------------------------------- what a key stands for

  /** An INSERT asks either for a primary key value, as it was given, or for whatever comes at the next row id. */
  datatype Slot = Given(v: Value) | Next(id: nat)

  function SlotOf(t: Table, s: Statement): Slot
    requires s.Insert?
  {
    if t.primaryKey.None? then Next(t.nextRowId) else
      match ValueFor(Targets(t, s.targets), s.values, t.primaryKey.value)
      case None => Next(t.nextRowId)
      case Some(v) => Given(v)
  }

  /** The k-th value is the first one given for the primary key. */
  predicate GivesKeyAt(t: Table, s: Statement, k: nat)
    requires s.Insert?
  {
    var names := Targets(t, s.targets);
    && t.primaryKey.Some? && k < |names| && k < |s.values| && names[k] == t.primaryKey.value
    && forall j :: 0 <= j < k ==> names[j] != t.primaryKey.value
  }

  lemma {:induction false} ValueForMeans(names: seq<string>, values: seq<Value>, pk: string)
    ensures match ValueFor(names, values, pk)
            case None => forall k :: 0 <= k < |names| && k < |values| ==> names[k] != pk
            case Some(v) => exists k :: 0 <= k < |names| && k < |values| && names[k] == pk && values[k] == v &&
                                        forall j :: 0 <= j < k ==> names[j] != pk
  {
    if names != [] && values != [] && names[0] != pk {
      ValueForMeans(names[1..], values[1..], pk);
      match ValueFor(names[1..], values[1..], pk)
      case None =>
        forall k | 0 <= k < |names| && k < |values| ensures names[k] != pk {
          if k > 0 { assert names[1..][k - 1] != pk; }
        }
      case Some(v) =>
        var k :| 0 <= k < |names[1..]| && k < |values[1..]| && names[1..][k] == pk && values[1..][k] == v &&
                 forall j :: 0 <= j < k ==> names[1..][j] != pk;
        forall j | 0 <= j < k + 1 ensures names[j] != pk { if j > 0 { assert names[1..][j - 1] != pk; } }
        assert names[k + 1] == pk && values[k + 1] == v;
    }
  }

  /** The slot is the first value given for the primary key, or the next row id if none is. */
  lemma SlotMeans(t: Table, s: Statement)
    requires s.Insert?
    ensures match SlotOf(t, s)
            case Given(v) => exists k: nat :: GivesKeyAt(t, s, k) && s.values[k] == v
            case Next(id) => id == t.nextRowId && forall k: nat :: !GivesKeyAt(t, s, k)
  {
    hide ValueFor, Targets;
    if t.primaryKey.Some? {
      ValueForMeans(Targets(t, s.targets), s.values, t.primaryKey.value);
      var r := ValueFor(Targets(t, s.targets), s.values, t.primaryKey.value);
      if r.Some? {
        var names := Targets(t, s.targets);
        var k :| 0 <= k < |names| && k < |s.values| && names[k] == t.primaryKey.value && s.values[k] == r.value &&
                 forall j :: 0 <= j < k ==> names[j] != t.primaryKey.value;
        assert GivesKeyAt(t, s, k);
      }
    }
  }

  /** The text of a slot in a lock key. */
  function SlotText(slot: Slot): string {
    match slot
    case Given(v) => EncodeValue(v)
    case Next(id) => "next:" + Decimal(id)
  }

  lemma InsertKeyIs(t: Table, s: Statement)
    requires s.Insert?
    ensures InsertKey(t, s).Ok? <==> (SlotOf(t, s).Given? ==> Finite(SlotOf(t, s).v))
    ensures InsertKey(t, s).Ok? ==> InsertKey(t, s).value == "insert:" + s.table + ":" + SlotText(SlotOf(t, s))
  {
    hide IndexKey, EncodeValue, Decimal, ValueFor, Targets;
    match SlotOf(t, s)
    case Given(v) => IndexKeyNamesValue(v);
    case Next(id) =>
      var start := "insert:" + s.table;
      assert start + ":" + ("next:" + Decimal(id)) == start + ":next:" + Decimal(id);
  }

  // ---------------------------------------------------------------- taking keys apart

  lemma CutUnique(a: string, x: string, b: string, y: string)
    requires a + [':'] + x == b + [':'] + y && ':' !in x && ':' !in y
    ensures a == b && x == y
  {
    var s := a + [':'] + x;
    assert s[|a|] == ':' && s[|b|] == ':';
    assert forall k :: |a| < k < |s| ==> s[k] == x[k - |a| - 1];
    assert forall k :: |b| < k < |s| ==> s[k] == y[k - |b| - 1];
    assert |a| == |b|;
    assert a == s[..|a|] && b == s[..|b|];
    assert x == s[|a| + 1..] && y == s[|b| + 1..];
  }

  /** A slot's text is "N", or a word without colons, a colon, and a text that has none and is not "N". */
  function SlotWord(slot: Slot): string {
    match slot case Next(_) => "next" case Given(v) => [Tag(v)]
  }

  function SlotRest(slot: Slot): string {
    match slot case Next(id) => Decimal(id) case Given(v) => Payload(v)
  }

  lemma NotN(s: string)
    requires forall i :: 0 <= i < |s| ==> IsHexChar(s[i]) || s[i] == ','
    ensures s != "N" && ':' !in s
  {
    assert "N"[0] == 'N';
  }

  lemma PlacePlain(p: Point)
    ensures ':' !in PlaceText(p) && PlaceText(p) != "N"
  {
    hide Hex;
    F64Text(p.lon);
    F64Text(p.lat);
    assert |PlaceText(p)| > 1;
  }

  lemma PayloadPlain(v: Value)
    requires !v.Null?
    ensures ':' !in Payload(v) && Payload(v) != "N"
  {
    hide Hex, Decimal, EncodeString, Join, HexWords, PlaceText;
    match v
    case Integer(i) => DecimalShape(if i < 0 then -(i as int) else i);
    case Float(f) => F64Text(f);
    case Boolean(b) =>
    case Text(s) =>
      StringRoundTrip(s);
      NotN(EncodeString(s));
    case Vector(xs) =>
      HexWordsParse(xs);
      JoinSafe(HexWords(xs));
      NotN(Join(HexWords(xs), ','));
    case Place(p) => PlacePlain(p);
  }

  lemma SlotParts(slot: Slot)
    requires slot != Given(Null)
    ensures SlotText(slot) == SlotWord(slot) + [':'] + SlotRest(slot)
    ensures ':' !in SlotWord(slot) && ':' !in SlotRest(slot) && SlotRest(slot) != "N"
  {
    hide EncodeValue, Payload, Decimal;
    match slot
    case Given(v) =>
      EncodeValueShape(v);
      PayloadPlain(v);
      assert [Tag(v), ':'] + Payload(v) == [Tag(v)] + [':'] + Payload(v);
    case Next(id) =>
      DecimalShape(id);
      assert "next:" + Decimal(id) == "next" + [':'] + Decimal(id);
  }

  lemma SlotPartsInjective(a: Slot, b: Slot)
    requires a != Given(Null) && b != Given(Null) && SlotWord(a) == SlotWord(b) && SlotRest(a) == SlotRest(b)
    ensures a == b
  {
    hide EncodeValue, Payload, Decimal;
    assert |"next"| == 4;
    if a.Given? && b.Given? {
      EncodeValueShape(a.v);
      EncodeValueShape(b.v);
      ValueRoundTrip(a.v);
      ValueRoundTrip(b.v);
      assert [Tag(a.v)][0] == [Tag(b.v)][0];
    } else if a.Next? && b.Next? {
      DecimalInjective(a.id, b.id);
    }
  }

  /** A lock key names table and slot, whatever colons are in the table's name. */
  lemma SlotKeyInjective(t: string, a: Slot, u: string, b: Slot)
    requires "insert:" + t + ":" + SlotText(a) == "insert:" + u + ":" + SlotText(b)
    ensures t == u && a == b
  {
    hide SlotText, SlotWord, SlotRest;
    var (x, y) := ("insert:" + t, "insert:" + u);
    if a == Given(Null) && b == Given(Null) {
      NullText();
      CutUnique(x, "N", y, "N");
    } else if a == Given(Null) {
      NullText();
      SlotParts(b);
      assert x + [':'] + "N" == y + ":" + SlotText(b) == (y + [':'] + SlotWord(b)) + [':'] + SlotRest(b);
      CutUnique(x, "N", y + [':'] + SlotWord(b), SlotRest(b));
      assert false;
    } else if b == Given(Null) {
      NullText();
      SlotParts(a);
      assert y + [':'] + "N" == x + ":" + SlotText(a) == (x + [':'] + SlotWord(a)) + [':'] + SlotRest(a);
      CutUnique(y, "N", x + [':'] + SlotWord(a), SlotRest(a));
      assert false;
    } else {
      SlotParts(a);
      SlotParts(b);
      assert x + ":" + SlotText(a) == (x + [':'] + SlotWord(a)) + [':'] + SlotRest(a);
      assert y + ":" + SlotText(b) == (y + [':'] + SlotWord(b)) + [':'] + SlotRest(b);
      CutUnique(x + [':'] + SlotWord(a), SlotRest(a), y + [':'] + SlotWord(b), SlotRest(b));
      CutUnique(x, SlotWord(a), y, SlotWord(b));
      SlotPartsInjective(a, b);
    }
    assert t == x[7..] && u == y[7..];
  }

  lemma NullText()
    ensures SlotText(Given(Null)) == "N" && ':' !in "N"
  {}

  /** Two INSERTs have the same lock key if and only if they are into one table and ask for the same thing: the same
      given key value, of the same type, or the same next row id. */
  lemma InsertKeysEqualIff(t: Table, r: Statement, u: Table, s: Statement)
    requires r.Insert? && s.Insert? && InsertKey(t, r).Ok? && InsertKey(u, s).Ok?
    ensures InsertKey(t, r) == InsertKey(u, s) <==> r.table == s.table && SlotOf(t, r) == SlotOf(u, s)
  {
    hide InsertKey, SlotOf, SlotText;
    InsertKeyIs(t, r);
    InsertKeyIs(u, s);
    if InsertKey(t, r) == InsertKey(u, s) { SlotKeyInjective(r.table, SlotOf(t, r), s.table, SlotOf(u, s)); }
  }

  /** The lock is on the value as it was given, the key on the value as it is stored: exactly in a FLOAT column, for an
      integer and the float it becomes, or for two integers that become one float, one key has two locks. */
  lemma OneKeyTwoLocksIff(ty: ColumnType, v: Value, w: Value, env: Env)
    requires Takes(ty, v, env) && Takes(ty, w, env)
    ensures v != w && Stored(ty, v, env) == Stored(ty, w, env) <==>
            ty.FloatType? &&
              (|| (v.Integer? && w == Float(env.toFloat(v.i)))
               || (w.Integer? && v == Float(env.toFloat(w.i)))
               || (v.Integer? && w.Integer? && v.i != w.i && env.toFloat(v.i) == env.toFloat(w.i)))
  {}

  // ---------------------------------------------------------------- whom a lock keeps out

  /** A transaction has locked the insert of a slot of a table. */
  ghost predicate HoldsInsert(p: Pool, c: nat, n: string, slot: Slot) {
    Active(p, c) && "insert:" + n + ":" + SlotText(slot) in p.conns[c].tx.value.locked
  }

  /** In every reachable state at most one active transaction has locked the insert of one key value into a table. */
  lemma OneInserter(p: Pool, c: nat, d: nat, n: string, slot: Slot, env: Env)
    requires Reachable(p, env) && HoldsInsert(p, c, n, slot) && HoldsInsert(p, d, n, slot)
    ensures c == d
  {
    hide Reachable, SlotText;
    if c != d { LocksExclusive(p, c, d, env); }
  }

  /** An INSERT that has been let through holds its lock. */
  lemma InsertTakesLock(p: Pool, c: nat, s: Statement, env: Env)
    requires PoolOk(p, env) && Active(p, c) && p.conns[c].pending.Nothing? && s.Insert?
    requires Stage(p.shared, p.conns[c].tx.value, s, env).ok
    ensures Enabled(p.conns[c], DoLock(s)) && s.table in p.conns[c].tx.value.staged
    ensures var q := P.Step(p, Act(c, DoLock(s)), env);
            && c in q.conns && q.conns[c].pending == Execute(s)
            && HoldsInsert(q, c, s.table, SlotOf(p.conns[c].tx.value.staged[s.table], s))
  {
    hide PoolOk, RowKey, InsertKey, SlotText, SlotOf, Stage, AutoCommit, CommitTx, Release;
    var (sh, tx) := (p.shared, p.conns[c].tx.value);
    InsertStagedOf(sh, tx, s, env);
    InsertKeyIs(tx.staged[s.table], s);
    StageLocks(sh, tx, s, env);
  }

  lemma InsertStagedOf(sh: Shared, tx: Tx, s: Statement, env: Env)
    requires s.Insert? && Stage(sh, tx, s, env).ok
    ensures s.table in tx.staged && InsertKey(tx.staged[s.table], s).Ok?
  {
    hide InsertKey;
  }

  /** What the locking section of an INSERT does to the lock table and to the transaction's lock set. */
  lemma StageLocks(sh: Shared, tx: Tx, s: Statement, env: Env)
    requires s.Insert? && s.table in tx.staged && InsertKey(tx.staged[s.table], s).Ok?
    ensures var (key, st) := (InsertKey(tx.staged[s.table], s).value, Stage(sh, tx, s, env));
            && (st.ok ==> key in st.tx.locked)
            && (s.table in sh.catalog ==> (st.ok <==> key in sh.locks ==> sh.locks[key] == tx.id))
            && (!st.ok && s.table in sh.catalog ==> st == Staging(sh, tx, false))
  {
    hide RowKey, InsertKey;
    var key := InsertKey(tx.staged[s.table], s).value;
    assert KeysToLock(tx.staged, s, env) == Ok([key]);
    LockOne(sh.locks, tx.locked, tx.id, key);
  }

  lemma LockOne(locks: map<string, nat>, locked: set<string>, id: nat, key: string)
    ensures LockAll(locks, locked, id, [key]) ==
            if key in locks && locks[key] != id then Locking(locks, locked, false)
            else Locking(locks[key := id], locked + {key}, true)
  {
    assert [key][1..] == [];
    assert LockAll(locks[key := id], locked + {key}, id, []) == Locking(locks[key := id], locked + {key}, true);
  }

  /** While a transaction has locked the insert of a key value, every INSERT of that value into the table by another
      transaction is refused, and changes nothing. */
  lemma SameInsertRefused(p: Pool, c: nat, d: nat, s: Statement, env: Env)
    requires Reachable(p, env) && Active(p, c) && Active(p, d) && c != d && p.conns[d].pending.Nothing? && s.Insert?
    requires s.table in p.conns[d].tx.value.staged
    requires HoldsInsert(p, c, s.table, SlotOf(p.conns[d].tx.value.staged[s.table], s))
    ensures Enabled(p.conns[d], DoLock(s))
    ensures LocalStep(p.shared, p.nextTx, p.conns[d], DoLock(s), env) ==
            Local(p.shared, p.nextTx, p.conns[d], Some(Err(Execution)))
  {
    hide Reachable, PoolOk, SharedOk, TxOk, InsertKey, SlotOf, SlotText, Stage;
    ReachableOk(p, env);
    ActiveOk(p, d, env);
    var (sh, tx) := (p.shared, p.conns[d].tx.value);
    LocksExclusive(p, c, d, env);
    DistinctIds(p, c, d, env);
    InsertKeyIs(tx.staged[s.table], s);
    if InsertKey(tx.staged[s.table], s).Ok? {
      TableCommitted(p, d, s.table, env);
      StageLocks(sh, tx, s, env);
    } else {
      UnkeyedFails(sh, tx, s, env);
    }
    assert Conn(Some(tx), Nothing) == p.conns[d];
  }

  lemma DistinctIds(p: Pool, c: nat, d: nat, env: Env)
    requires PoolOk(p, env) && Active(p, c) && Active(p, d) && c != d
    ensures p.conns[c].tx.value.id != p.conns[d].tx.value.id
  {
    hide SharedOk, ConnOk, IssuedOk;
  }

  lemma TableCommitted(p: Pool, c: nat, n: string, env: Env)
    requires PoolOk(p, env) && Active(p, c) && n in p.conns[c].tx.value.staged
    ensures n in p.shared.catalog
  {
    hide SharedOk, IssuedOk, ConnOk, CatalogSound, Owns, KnownKeys, Covers, SameSchemas;
    ActiveOk(p, c, env);
  }

  lemma UnkeyedFails(sh: Shared, tx: Tx, s: Statement, env: Env)
    requires s.Insert? && s.table in tx.staged && InsertKey(tx.staged[s.table], s).Err?
    ensures Stage(sh, tx, s, env) == Staging(sh, tx, false)
  {
    hide InsertKey;
  }

  // ---------------------------------------------------------------- where a lock comes from

  /** The i-th step of a run locks an INSERT into a table for a slot, on behalf of the transaction with the given id. */
  ghost predicate AsksInsert(start: Pool, events: seq<P.Event>, i: nat, n: string, slot: Slot, id: nat, env: Env)
    requires i < |events|
  {
    AsksNow(P.Run(start, events[..i], env), events[i], n, slot, id)
  }

  ghost predicate AsksNow(p: Pool, e: P.Event, n: string, slot: Slot, id: nat) {
    && e.Act? && e.c in p.conns && Enabled(p.conns[e.c], e.action)
    && e.action.DoLock? && e.action.s.Insert? && e.action.s.table == n
    && p.conns[e.c].tx.value.id == id
    && n in p.conns[e.c].tx.value.staged && SlotOf(p.conns[e.c].tx.value.staged[n], e.action.s) == slot
  }

  /** A step enters an insert key into the lock table, or gives it a new owner, only by locking that very INSERT. */
  lemma NewInsertLock(p: Pool, e: P.Event, n: string, slot: Slot, env: Env)
    requires PoolOk(p, env)
    ensures var (q, key) := (P.Step(p, e, env), "insert:" + n + ":" + SlotText(slot));
            key in q.shared.locks && !(key in p.shared.locks && p.shared.locks[key] == q.shared.locks[key]) ==>
            AsksNow(p, e, n, slot, q.shared.locks[key])
  {
    hide PoolOk, SlotText, SlotOf, RowKey, Stage, Exec, MergeCatalogs, EncodeCatalog, InsertKey;
    var (q, key) := (P.Step(p, e, env), "insert:" + n + ":" + SlotText(slot));
    if e.Act? && e.c in p.conns && Enabled(p.conns[e.c], e.action) && e.action.DoLock? {
      ActiveOk(p, e.c, env);
      StageEnters(p.shared, p.conns[e.c].tx.value, e.action.s, env, n, slot);
    }
  }

  lemma StageEnters(sh: Shared, tx: Tx, s: Statement, env: Env, n: string, slot: Slot)
    requires CatalogSound(tx.staged, env)
    ensures var (after, key) := (Stage(sh, tx, s, env).shared.locks, "insert:" + n + ":" + SlotText(slot));
            key in after && !(key in sh.locks && sh.locks[key] == after[key]) ==>
            && after[key] == tx.id && s.Insert? && s.table == n && n in tx.staged && SlotOf(tx.staged[n], s) == slot
  {
    hide SlotText, SlotOf, RowKey, KeysToLock, LockAll, InsertKey, IsInsertKey;
    var key := "insert:" + n + ":" + SlotText(slot);
    var keys := KeysToLock(tx.staged, s, env);
    IsInsert(n, slot);
    if keys.Ok? {
      var l := LockAll(sh.locks, tx.locked, tx.id, keys.value);
      LockAllFacts(sh.locks, tx.locked, tx.id, keys.value);
      KeysToLockFacts(tx.staged, s, env);
      InsertKeyIsNoRow(key);
      if key in l.locks && key !in sh.locks {
        AskedIs(tx.staged, s, env, key, n, slot);
        NewOwner(sh.locks, tx.locked, tx.id, keys.value, key);
      }
    }
  }

  lemma IsInsert(n: string, slot: Slot)
    ensures IsInsertKey("insert:" + n + ":" + SlotText(slot))
  {
    hide SlotText;
    assert "insert:" + n + ":" + SlotText(slot) == "insert:" + (n + ":" + SlotText(slot));
  }

  lemma AskedIs(staged: Catalog, s: Statement, env: Env, key: string, n: string, slot: Slot)
    requires CatalogSound(staged, env) && KeysToLock(staged, s, env).Ok? && key in KeysToLock(staged, s, env).value
    requires key == "insert:" + n + ":" + SlotText(slot)
    ensures s.Insert? && s.table == n && n in staged && SlotOf(staged[n], s) == slot
  {
    hide SlotText, SlotOf, RowKey, InsertKey, CatalogSound, Matching, IsInsertKey;
    IsInsert(n, slot);
    InsertKeyIsNoRow(key);
    if s.Insert? {
      InsertKeyIs(staged[s.table], s);
      SlotKeyInjective(s.table, SlotOf(staged[s.table], s), n, slot);
    }
  }

  lemma {:induction false} NewOwner(locks: map<string, nat>, locked: set<string>, id: nat, keys: seq<string>,
                                    key: string)
    requires key !in locks && key in LockAll(locks, locked, id, keys).locks
    ensures LockAll(locks, locked, id, keys).locks[key] == id
    decreases keys
  {
    if keys != [] && !(keys[0] in locks && locks[keys[0]] != id) {
      if keys[0] == key { LockAllFacts(locks[key := id], locked + {key}, id, keys[1..]); }
      else { NewOwner(locks[keys[0] := id], locked + {keys[0]}, id, keys[1..], key); }
    }
  }

  /** Every insert key in the lock table was put there by its owner's INSERT of that very value into that very table. */
  lemma {:induction false} InsertLockHistory(start: Pool, events: seq<P.Event>, n: string, slot: Slot, env: Env)
    returns (i: nat)
    requires PoolOk(start, env) && start.shared.locks == map[]
    requires "insert:" + n + ":" + SlotText(slot) in P.Run(start, events, env).shared.locks
    ensures i < |events|
    ensures AsksInsert(start, events, i, n, slot,
                       P.Run(start, events, env).shared.locks["insert:" + n + ":" + SlotText(slot)], env)
  {
    hide PoolOk, P.Step, SlotText, AsksNow;
    var key := "insert:" + n + ":" + SlotText(slot);
    var m := |events| - 1;
    var before := P.Run(start, events[..m], env);
    RunOk(start, events[..m], env);
    NewInsertLock(before, events[m], n, slot, env);
    if AsksNow(before, events[m], n, slot, P.Run(start, events, env).shared.locks[key]) {
      i := m;
    } else {
      i := InsertLockHistory(start, events[..m], n, slot, env);
      assert events[..m][..i] == events[..i] && events[..m][i] == events[i];
    }
  }

  /** In a transaction, an INSERT into a known table whose key value, if it gives one, has a key, is let through
      unless some other transaction of the run has locked an INSERT of that very value, or next row id, into that
      very table. */
  lemma InsertLetThrough(start: Pool, events: seq<P.Event>, c: nat, s: Statement, env: Env)
    requires PoolOk(start, env) && start.shared.locks == map[]
    requires var p := P.Run(start, events, env);
             Active(p, c) && p.conns[c].pending.Nothing? && s.Insert? && s.table in p.conns[c].tx.value.staged
    requires var slot := SlotOf(P.Run(start, events, env).conns[c].tx.value.staged[s.table], s);
             && (slot.Given? ==> Finite(slot.v))
             && forall i: nat, id: nat :: i < |events| && AsksInsert(start, events, i, s.table, slot, id, env) ==>
                  id == P.Run(start, events, env).conns[c].tx.value.id
    ensures var p := P.Run(start, events, env);
            && Enabled(p.conns[c], DoLock(s)) && Stage(p.shared, p.conns[c].tx.value, s, env).ok
  {
    hide PoolOk, P.Run, SlotText, SlotOf, InsertKey, AsksInsert, Stage;
    var p := P.Run(start, events, env);
    RunOk(start, events, env);
    var tx := p.conns[c].tx.value;
    var slot := SlotOf(tx.staged[s.table], s);
    InsertKeyIs(tx.staged[s.table], s);
    TableCommitted(p, c, s.table, env);
    StageLocks(p.shared, tx, s, env);
    if InsertKey(tx.staged[s.table], s).value in p.shared.locks {
      var i := InsertLockHistory(start, events, s.table, slot, env);
    }
  }

  // ---------------------------------------------------------------- how long a lock stays

  /** Every lock is some active transaction's. */
  ghost predicate AllOwned(p: Pool) {
    forall k :: k in p.shared.locks ==>
      exists c :: Active(p, c) && k in p.conns[c].tx.value.locked && p.conns[c].tx.value.id == p.shared.locks[k]
  }

  /** A COMMIT with locks whose rows cannot be overlaid. */
  ghost predicate MergeFails(p: Pool, e: P.Event) {
    && e.Act? && e.action.DoCommit? && Active(p, e.c) && p.conns[e.c].pending.Nothing?
    && p.conns[e.c].tx.value.locked != {} && !Overlayable(p.shared, p.conns[e.c].tx.value)
  }

  lemma {:induction false} LockAllOwns(locks: map<string, nat>, locked: set<string>, id: nat, keys: seq<string>)
    ensures var l := LockAll(locks, locked, id, keys);
            && locked <= l.locked
            && forall k :: k in l.locks ==>
                 (k in locks && l.locks[k] == locks[k]) || (l.locks[k] == id && k in l.locked)
    decreases keys
  {
    if keys != [] && !(keys[0] in locks && locks[keys[0]] != id) {
      LockAllOwns(locks[keys[0] := id], locked + {keys[0]}, id, keys[1..]);
    }
  }

  lemma StageOwns(sh: Shared, tx: Tx, s: Statement, env: Env)
    ensures var st := Stage(sh, tx, s, env);
            && st.tx.id == tx.id && tx.locked <= st.tx.locked
            && forall k :: k in st.shared.locks ==>
                 || (k in sh.locks && st.shared.locks[k] == sh.locks[k])
                 || (st.shared.locks[k] == tx.id && k in st.tx.locked)
  {
    hide RowKey, KeysToLock, LockAll;
    var keys := KeysToLock(tx.staged, s, env);
    if keys.Ok? { LockAllOwns(sh.locks, tx.locked, tx.id, keys.value); }
  }

  /** After a step of one connection, a lock is as it was, and not one the connection has given up, or it is the
      connection's. */
  ghost predicate LocksFollow(sh: Shared, conn: Conn, l: Local) {
    forall k :: k in l.shared.locks ==>
      || (l.conn.tx.Some? && k in l.conn.tx.value.locked && l.shared.locks[k] == l.conn.tx.value.id)
      || (k in sh.locks && l.shared.locks[k] == sh.locks[k] &&
          !(conn.tx.Some? && k in conn.tx.value.locked && sh.locks[k] == conn.tx.value.id))
  }

  lemma LocalFollows(sh: Shared, nextTx: nat, conn: Conn, a: Action, env: Env)
    requires Enabled(conn, a)
    requires a.DoCommit? && conn.tx.Some? && conn.tx.value.locked != {} ==>
               MergeCatalogs(sh.catalog, conn.tx.value.staged, conn.tx.value.locked, env).Ok?
    ensures LocksFollow(sh, conn, LocalStep(sh, nextTx, conn, a, env))
  {
    hide Stage, Exec, MergeCatalogs, EncodeCatalog;
    if a.DoLock? { StageOwns(sh, conn.tx.value, a.s, env); }
  }

  lemma FollowOwned(p: Pool, q: Pool, c: nat, l: Local, dropped: bool)
    requires AllOwned(p) && c in p.conns && LocksFollow(p.shared, p.conns[c], l)
    requires q.shared == l.shared && (dropped ==> l.conn.tx.None?)
    requires q.conns == if dropped then p.conns - {c} else p.conns[c := l.conn]
    ensures AllOwned(q)
  {
    forall k | k in q.shared.locks
      ensures exists d :: Active(q, d) && k in q.conns[d].tx.value.locked && q.conns[d].tx.value.id == q.shared.locks[k]
    {
      if l.conn.tx.Some? && k in l.conn.tx.value.locked && l.shared.locks[k] == l.conn.tx.value.id {
        assert Active(q, c);
      } else {
        var d :| Active(p, d) && k in p.conns[d].tx.value.locked && p.conns[d].tx.value.id == p.shared.locks[k];
        assert d != c && Active(q, d);
      }
    }
  }

  lemma KeptOwned(p: Pool, e: P.Event, env: Env)
    requires PoolOk(p, env) && AllOwned(p) && !MergeFails(p, e)
    ensures AllOwned(P.Step(p, e, env))
  {
    hide PoolOk, LocalStep, IssuedBy, Overlayable, AllOwned, LocksFollow;
    if e.Act? && e.c in p.conns && Enabled(p.conns[e.c], e.action) {
      var conn := p.conns[e.c];
      var l := LocalStep(p.shared, p.nextTx, conn, e.action, env);
      OverlaysOrEmpty(p, e, env);
      LocalFollows(p.shared, p.nextTx, conn, e.action, env);
      if e.action.DoDrop? { DropEnds(p.shared, p.nextTx, conn, e.action, env); }
      FollowOwned(p, P.Step(p, e, env), e.c, l, e.action.DoDrop?);
    } else if e.Connect? {
      ConnectOwned(p, e.c, env);
    }
  }

  lemma OverlaysOrEmpty(p: Pool, e: P.Event, env: Env)
    requires PoolOk(p, env) && !MergeFails(p, e) && e.Act? && e.c in p.conns && Enabled(p.conns[e.c], e.action)
    ensures var conn := p.conns[e.c];
            e.action.DoCommit? && conn.tx.Some? && conn.tx.value.locked != {} ==>
              MergeCatalogs(p.shared.catalog, conn.tx.value.staged, conn.tx.value.locked, env).Ok?
  {
    hide PoolOk, Overlayable, MergeCatalogs, SharedOk, TxOk;
    if e.action.DoCommit? && p.conns[e.c].tx.Some? {
      ActiveOk(p, e.c, env);
      MergesAllIff(p.shared, p.nextTx, p.conns[e.c].tx.value, env);
    }
  }

  lemma ConnectOwned(p: Pool, c: nat, env: Env)
    requires AllOwned(p)
    ensures AllOwned(P.Step(p, Connect(c), env))
  {
    var q := P.Step(p, Connect(c), env);
    forall k | k in q.shared.locks
      ensures exists d :: Active(q, d) && k in q.conns[d].tx.value.locked && q.conns[d].tx.value.id == q.shared.locks[k]
    {
      var d :| Active(p, d) && k in p.conns[d].tx.value.locked && p.conns[d].tx.value.id == p.shared.locks[k];
      assert Active(q, d);
    }
  }

  lemma DropEnds(sh: Shared, nextTx: nat, conn: Conn, a: Action, env: Env)
    requires Enabled(conn, a) && a.DoDrop?
    ensures LocalStep(sh, nextTx, conn, a, env).conn.tx.None?
  {}

  lemma DeadIsUnowned(p: Pool, k: string)
    requires Dead(p, k)
    ensures !AllOwned(p)
  {}

  /** A failed merge at one moment of a run. */
  ghost predicate MergeFailsAt(start: Pool, events: seq<P.Event>, i: nat, env: Env)
    requires i < |events|
  {
    MergeFails(P.Run(start, events[..i], env), events[i])
  }

  lemma ReachablePrefix(c: Catalog, path: bool, disk: string, events: seq<P.Event>, env: Env)
    requires CatalogSound(c, env)
    ensures Reachable(P.Run(P.Start(c, path, disk), events, env), env)
  {
    hide CatalogSound, P.Run, P.Start;
  }

  lemma FailureOrphans(c: Catalog, path: bool, disk: string, events: seq<P.Event>, i: nat, env: Env)
    requires CatalogSound(c, env) && i < |events| && MergeFailsAt(P.Start(c, path, disk), events, i, env)
    ensures !AllOwned(P.Run(P.Start(c, path, disk), events, env))
  {
    hide CatalogSound, P.Start, Overlayable, P.Step, Reachable, PoolOk, AllOwned, Dead;
    var start := P.Start(c, path, disk);
    var p := P.Run(start, events[..i], env);
    ReachablePrefix(c, path, disk, events[..i], env);
    ReachableOk(p, env);
    var k :| k in p.conns[events[i].c].tx.value.locked;
    FailedMergeLeavesDead(p, events[i].c, events[i].action.ok, k, env);
    StepOk(p, events[i], env);
    RunSplits(start, events, i, env);
    DeadRun(P.Step(p, events[i], env), events[i + 1..], k, env);
    DeadIsUnowned(P.Run(start, events, env), k);
  }

  lemma {:induction false} RunSplits(start: Pool, events: seq<P.Event>, i: nat, env: Env)
    requires i < |events|
    ensures P.Run(start, events, env) ==
            P.Run(P.Step(P.Run(start, events[..i], env), events[i], env), events[i + 1..], env)
  {
    hide P.Step;
    var m := |events| - 1;
    if i < m {
      RunSplits(start, events[..m], i, env);
      assert events[..m][..i] == events[..i] && events[..m][i] == events[i];
      assert events[..m][i + 1..] == events[i + 1..][..m - i - 1];
      assert events[i + 1..][m - i - 1] == events[m];
    } else {
      assert events[i + 1..] == [];
    }
  }

  /** Over every run of a pool: every entry of the lock table is an active transaction's, if and only if no COMMIT
      of the run has failed to overlay its locked rows. ROLLBACK, drop, a successful COMMIT and one that cannot be
      written all give back every lock; nothing gives back another transaction's. */
  lemma {:induction false} LocksOwnedIff(c: Catalog, path: bool, disk: string, events: seq<P.Event>, env: Env)
    requires CatalogSound(c, env)
    ensures var start := P.Start(c, path, disk);
            AllOwned(P.Run(start, events, env)) <==>
            forall i :: 0 <= i < |events| ==> !MergeFailsAt(start, events, i, env)
  {
    hide CatalogSound, MergeFailsAt, P.Step, PoolOk, AllOwned, Reachable;
    var start := P.Start(c, path, disk);
    if i: nat :| i < |events| && MergeFailsAt(start, events, i, env) {
      FailureOrphans(c, path, disk, events, i, env);
    } else {
      NoFailureOwned(c, path, disk, events, env);
    }
  }

  lemma {:induction false} NoFailureOwned(c: Catalog, path: bool, disk: string, events: seq<P.Event>, env: Env)
    requires CatalogSound(c, env)
    requires forall i :: 0 <= i < |events| ==> !MergeFailsAt(P.Start(c, path, disk), events, i, env)
    ensures AllOwned(P.Run(P.Start(c, path, disk), events, env))
  {
    hide CatalogSound, MergeFails, P.Step, PoolOk, Reachable;
    var start := P.Start(c, path, disk);
    if events != [] {
      var m := |events| - 1;
      forall i | 0 <= i < m ensures !MergeFailsAt(start, events[..m], i, env) {
        assert events[..m][..i] == events[..i] && events[..m][i] == events[i];
        assert !MergeFailsAt(start, events, i, env);
      }
      NoFailureOwned(c, path, disk, events[..m], env);
      ReachablePrefix(c, path, disk, events[..m], env);
      ReachableOk(P.Run(start, events[..m], env), env);
      assert !MergeFailsAt(start, events, m, env);
      KeptOwned(P.Run(start, events[..m], env), events[m], env);
    }
  }

  /** So without such a failure a definition is refused outside a transaction only while some transaction has locks. */
  lemma DefinitionRefusedIff(p: Pool, d: nat, s: Statement, env: Env)
    requires AllOwned(p) && PoolOk(p, env) && d in p.conns && p.conns[d].tx.None? && Enabled(p.conns[d], DoDdlCheck(s))
    ensures LocalStep(p.shared, p.nextTx, p.conns[d], DoDdlCheck(s), env).result.Some? <==>
            exists c :: Active(p, c) && p.conns[c].tx.value.locked != {}
  {
    hide SharedOk, IssuedOk, ConnOk, DistinctTx;
    if p.shared.locks != map[] {
      var k :| k in p.shared.locks;
      var c :| Active(p, c) && k in p.conns[c].tx.value.locked && p.conns[c].tx.value.id == p.shared.locks[k];
    }
    if c :| Active(p, c) && p.conns[c].tx.value.locked != {} {
      var k :| k in p.conns[c].tx.value.locked;
      ActiveOwns(p, c, k, env);
    }
  }

  lemma ActiveOwns(p: Pool, c: nat, k: string, env: Env)
    requires PoolOk(p, env) && Active(p, c) && k in p.conns[c].tx.value.locked
    ensures k in p.shared.locks
  {
    hide SharedOk, IssuedOk, ConnOk, DistinctTx, CatalogSound, Follows, KnownKeys, Covers, SameSchemas;
    ActiveOk(p, c, env);
  }
}
