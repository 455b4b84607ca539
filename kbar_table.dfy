/** The `stock_kbars` table and `insert_kbars_data` (fetch_and_insert_kbars.py). The table is a map
    keyed on `(symbol, time)`, which is its UNIQUE constraint; each row carries the SERIAL `id`,
    the price and volume fields and `created_at`. `nextId` is the SERIAL sequence. */
module KbarTable {
  import opened Outcomes
  import opened Seqs
  import opened Kbars

  datatype Key = Key(symbol: string, time: int)
  datatype Row = Row(id: nat, fields: Fields, createdAt: int)
  datatype Table = Table(rows: map<Key, Row>, nextId: nat)

  /** The table as `CREATE TABLE` leaves it: no rows, and the sequence starting at 1. */
  function Empty(): Table
  {
    Table(map[], 1)
  }

  /** The PRIMARY KEY invariant: every id was drawn from the sequence and no two rows share one. */
  ghost predicate WellFormed(t: Table)
  {
    && 1 <= t.nextId
    && (forall k :: k in t.rows ==> 1 <= t.rows[k].id < t.nextId)
    && (forall k, k' :: k in t.rows && k' in t.rows && t.rows[k].id == t.rows[k'].id ==> k == k')
  }

  /** `INSERT ... ON CONFLICT (symbol, time) DO UPDATE SET open = EXCLUDED.open, ...`. The id
      default is drawn from the sequence before the conflict is detected, so the sequence advances
      on the update path as well. */
  function Upsert(t: Table, key: Key, f: Fields, now: int): (u: Table)
    requires WellFormed(t)
    ensures WellFormed(u)
    ensures u.rows.Keys == t.rows.Keys + {key}
    ensures u.rows[key].fields == f
    ensures key in t.rows ==>
      u.rows[key].id == t.rows[key].id && u.rows[key].createdAt == t.rows[key].createdAt
    ensures key !in t.rows ==>
      u.rows[key].createdAt == now && forall k :: k in t.rows ==> t.rows[k].id < u.rows[key].id
    ensures forall k :: k in t.rows && k != key ==> u.rows[k] == t.rows[k]
    ensures u.nextId == t.nextId + 1
  {
    var row := if key in t.rows then t.rows[key].(fields := f) else Row(t.nextId, f, now);
    Table(t.rows[key := row], t.nextId + 1)
  }

  /** The number of bars whose parameters convert, that is, the upserts actually executed. */
  function Written(bars: seq<Bar>): (n: nat)
    ensures n <= |bars|
  {
    |Filter(bars, Convertible)|
  }

  /** The table after the row loop of `insert_kbars_data`: every convertible bar is upserted in
      order under `symbol`, and every other bar is skipped. */
  function InsertAll(t: Table, symbol: string, bars: seq<Bar>, now: int): (u: Table)
    requires WellFormed(t)
    ensures WellFormed(u)
    ensures u.nextId == t.nextId + Written(bars)
  {
    if bars == [] then t
    else
      var v := InsertAll(t, symbol, bars[..|bars| - 1], now);
      var b := bars[|bars| - 1];
      match Convert(b)
      case None => v
      case Some(f) => Upsert(v, Key(symbol, b.time), f, now)
  }

  /** The fields of the last convertible bar at `time`, if any. */
  function LastWrite(bars: seq<Bar>, time: int): Option<Fields>
  {
    if bars == [] then None
    else
      var b := bars[|bars| - 1];
      if b.time == time && Convertible(b) then Convert(b) else LastWrite(bars[..|bars| - 1], time)
  }

  /** `(symbol, time)` is written by `bars` under `symbol`. */
  predicate WrittenKey(symbol: string, bars: seq<Bar>, k: Key)
  {
    k.symbol == symbol && LastWrite(bars, k.time).Some?
  }

  /** After the loop the table holds exactly its old keys and the keys the bars wrote. */
  lemma {:induction false} InsertAllKeys(t: Table, symbol: string, bars: seq<Bar>, now: int)
    requires WellFormed(t)
    ensures forall k :: k in InsertAll(t, symbol, bars, now).rows <==> k in t.rows || WrittenKey(symbol, bars, k)
  {
    if bars != [] {
      InsertAllKeys(t, symbol, bars[..|bars| - 1], now);
    }
  }

  /** Last write wins: a written key holds the fields of the last convertible bar at its time. */
  lemma {:induction false} InsertAllLastWriteWins(t: Table, symbol: string, bars: seq<Bar>, now: int)
    requires WellFormed(t)
    ensures var u := InsertAll(t, symbol, bars, now);
      forall k :: k in u.rows && WrittenKey(symbol, bars, k) ==> u.rows[k].fields == LastWrite(bars, k.time).value
  {
    if bars != [] {
      InsertAllLastWriteWins(t, symbol, bars[..|bars| - 1], now);
      InsertAllKeys(t, symbol, bars[..|bars| - 1], now);
    }
  }

  /** Existing rows keep their `id` and `created_at`, rows the bars do not write are untouched,
      and a new row is stamped `now` with an id the table never used before. */
  lemma InsertAllKeepsIdentity(t: Table, symbol: string, bars: seq<Bar>, now: int)
    requires WellFormed(t)
    ensures var u := InsertAll(t, symbol, bars, now);
      && (forall k :: k in t.rows ==>
            k in u.rows && u.rows[k].id == t.rows[k].id && u.rows[k].createdAt == t.rows[k].createdAt)
      && (forall k :: k in t.rows && !WrittenKey(symbol, bars, k) ==> u.rows[k] == t.rows[k])
      && (forall k :: k in u.rows && k !in t.rows ==> u.rows[k].createdAt == now && t.nextId <= u.rows[k].id)
  {
    InsertAllKeepsOld(t, symbol, bars, now);
    InsertAllUntouched(t, symbol, bars, now);
    InsertAllStampsNew(t, symbol, bars, now);
  }

  lemma {:induction false} InsertAllKeepsOld(t: Table, symbol: string, bars: seq<Bar>, now: int)
    requires WellFormed(t)
    ensures var u := InsertAll(t, symbol, bars, now);
      forall k :: k in t.rows ==>
        k in u.rows && u.rows[k].id == t.rows[k].id && u.rows[k].createdAt == t.rows[k].createdAt
  {
    if bars != [] {
      InsertAllKeepsOld(t, symbol, bars[..|bars| - 1], now);
    }
  }

  lemma {:induction false} InsertAllUntouched(t: Table, symbol: string, bars: seq<Bar>, now: int)
    requires WellFormed(t)
    ensures var u := InsertAll(t, symbol, bars, now);
      forall k :: k in t.rows && !WrittenKey(symbol, bars, k) ==> k in u.rows && u.rows[k] == t.rows[k]
  {
    if bars != [] {
      InsertAllUntouched(t, symbol, bars[..|bars| - 1], now);
    }
  }

  lemma {:induction false} InsertAllStampsNew(t: Table, symbol: string, bars: seq<Bar>, now: int)
    requires WellFormed(t)
    ensures var u := InsertAll(t, symbol, bars, now);
      forall k :: k in u.rows && k !in t.rows ==> u.rows[k].createdAt == now && t.nextId <= u.rows[k].id
  {
    if bars != [] {
      InsertAllStampsNew(t, symbol, bars[..|bars| - 1], now);
    }
  }

  /** Running the loop over `a + b` is running it over `a` and then over `b`. */
  lemma {:induction false} InsertAllAppend(t: Table, symbol: string, a: seq<Bar>, b: seq<Bar>, now: int)
    requires WellFormed(t)
    ensures InsertAll(t, symbol, a + b, now) == InsertAll(InsertAll(t, symbol, a, now), symbol, b, now)
    decreases |b|
  {
    if b == [] {
      assert a + b == a;
    } else {
      assert (a + b)[..|a + b| - 1] == a + b[..|b| - 1];
      InsertAllAppend(t, symbol, a, b[..|b| - 1], now);
    }
  }

  /** A bar whose conversion raises leaves the table exactly as if it were not in the frame. */
  lemma SkippedRowHasNoEffect(t: Table, symbol: string, bars: seq<Bar>, i: nat, now: int)
    requires WellFormed(t)
    requires i < |bars| && !Convertible(bars[i])
    ensures InsertAll(t, symbol, bars, now) == InsertAll(t, symbol, bars[..i] + bars[i + 1..], now)
  {
    assert bars == bars[..i] + ([bars[i]] + bars[i + 1..]);
    InsertAllAppend(t, symbol, bars[..i], [bars[i]] + bars[i + 1..], now);
    var v := InsertAll(t, symbol, bars[..i], now);
    InsertAllAppend(v, symbol, [bars[i]], bars[i + 1..], now);
    assert [bars[i]][..0] == [];
    InsertAllAppend(t, symbol, bars[..i], bars[i + 1..], now);
  }

  /** Re-ingesting the same frame leaves the same rows: no duplicates, the same values, the same
      ids and creation times. */
  lemma InsertAllIdempotent(t: Table, symbol: string, bars: seq<Bar>, now: int, later: int)
    requires WellFormed(t)
    ensures var u := InsertAll(t, symbol, bars, now);
      InsertAll(u, symbol, bars, later).rows == u.rows
  {
    var u := InsertAll(t, symbol, bars, now);
    var w := InsertAll(u, symbol, bars, later);
    forall k ensures (k in w.rows <==> k in u.rows) && (k in u.rows ==> w.rows[k] == u.rows[k]) {
      RewrittenRowUnchanged(t, symbol, bars, now, later, k);
    }
  }

  /** One key of `InsertAllIdempotent`. */
  lemma RewrittenRowUnchanged(t: Table, symbol: string, bars: seq<Bar>, now: int, later: int, k: Key)
    requires WellFormed(t)
    ensures var u := InsertAll(t, symbol, bars, now);
      var w := InsertAll(u, symbol, bars, later);
      && (k in w.rows <==> k in u.rows)
      && (k in u.rows ==> w.rows[k] == u.rows[k])
  {
    var u := InsertAll(t, symbol, bars, now);
    InsertAllKeys(t, symbol, bars, now);
    InsertAllKeys(u, symbol, bars, later);
    if k in u.rows {
      InsertAllKeepsOld(u, symbol, bars, later);
      if WrittenKey(symbol, bars, k) {
        InsertAllLastWriteWins(t, symbol, bars, now);
        InsertAllLastWriteWins(u, symbol, bars, later);
      } else {
        InsertAllUntouched(u, symbol, bars, later);
      }
    }
  }

  /** The count returned equals the number of bars when no conversion fails, and only then. */
  lemma WrittenAll(bars: seq<Bar>)
    ensures Written(bars) == |bars| <==> forall b :: b in bars ==> Convertible(b)
  {
    FilterKeepsAll(bars, Convertible);
  }

  /** The database connection as `insert_kbars_data` sees it. */
  class KbarDatabase {
    var rows: map<Key, Row>
    var nextId: nat

    ghost function State(): Table
      reads this
    {
      Table(rows, nextId)
    }

    ghost predicate Valid()
      reads this
    {
      WellFormed(State())
    }

    /** A freshly created `stock_kbars` table. */
    constructor ()
      ensures Valid() && State() == Empty()
    {
      rows := map[];
      nextId := 1;
    }

    /** `cur.execute(insert_query, params)` for one row. */
    method ExecuteUpsert(key: Key, f: Fields, now: int)
      requires Valid()
      modifies this
      ensures Valid() && State() == Upsert(old(State()), key, f, now)
    {
      if key in rows {
        rows := rows[key := rows[key].(fields := f)];
      } else {
        rows := rows[key := Row(nextId, f, now)];
      }
      nextId := nextId + 1;
    }

    /** `insert_kbars_data(conn, symbol, df)`: an empty frame returns 0 at once; otherwise each row
        is upserted in order, a row whose conversion raises is skipped, and the number of rows
        sent is returned. `now` is the transaction time `created_at` defaults to. */
    method InsertKbarsData(symbol: string, bars: seq<Bar>, now: int) returns (inserted: nat)
      requires Valid()
      modifies this
      ensures Valid() && State() == InsertAll(old(State()), symbol, bars, now)
      ensures inserted == Written(bars)
    {
      if bars == [] {
        return 0;
      }
      inserted := 0;
      var i := 0;
      while i < |bars|
        invariant 0 <= i <= |bars|
        invariant Valid() && State() == InsertAll(old(State()), symbol, bars[..i], now)
        invariant inserted == Written(bars[..i])
      {
        var b := bars[i];
        assert bars[..i + 1][..i] == bars[..i];
        match Convert(b) {
          case None =>
          case Some(f) =>
            ExecuteUpsert(Key(symbol, b.time), f, now);
            inserted := inserted + 1;
        }
        i := i + 1;
      }
      assert bars[..i] == bars;
    }
  }

}
