/** The PDO adapter: no state in memory besides the id; every call reads or
    writes rows `(id, name, value, expiry)` of the session table. */
module PdoSessions {
  import opened SessionValues
  import opened SessionIds

  /** What a `value` column holds: text or SQL NULL. */
  type Column = v: Value | v.Null? || v.Str? witness Null

  datatype Row = Row(value: Column, expiry: int)

  /** The session table, one row per `(id, name)`: the primary key that
      `REPLACE INTO` relies on. */
  type Table = map<(string, string), Row>

  class SessionTable {
    var rows: Table

    constructor (rows: Table)
      ensures this.rows == rows
    {
      this.rows := rows;
    }
  }

  /** Decimal digits of a natural number. */
  function Digits(n: nat): (r: string)
    ensures |r| > 0
    decreases n
  {
    if n < 10 then [DigitChar(n)] else Digits(n / 10) + [DigitChar(n % 10)]
  }

  function DigitChar(d: nat): char
    requires d < 10
  {
    "0123456789"[d]
  }

  /** PHP's string conversion of an integer. */
  function DecimalString(i: int): string
  {
    if i < 0 then "-" + Digits(-i) else Digits(i)
  }

  /** The column value a bound PHP value becomes: `bindValue` binds it as a
      string (null stays NULL), and the column gives the string back. */
  function ColumnValue(v: Value): (r: Column)
    ensures r == v <==> v.Null? || v.Str?
    ensures r.Null? <==> v.Null?
  {
    match v
    case Null => Null
    case Bool(b) => Str(if b then "1" else "")
    case Int(i) => Str(DecimalString(i))
    case Str(_) => v
    case Arr(_) => Str("Array")
  }

  /** The names that `SELECT ... WHERE id = :id` finds. */
  function Names(t: Table, id: string): (r: set<string>)
    ensures forall k :: k in r <==> (id, k) in t
  {
    set p | p in t && p.0 == id :: p.1
  }

  /** The name→value array of the rows of session `id`. */
  function RowsOf(t: Table, id: string): (r: State)
    ensures forall k :: k in r <==> (id, k) in t
    ensures forall k :: k in r ==> r[k] == t[(id, k)].value
  {
    map k | k in Names(t, id) :: t[(id, k)].value
  }

  /** `DELETE FROM ... WHERE id = :id`. */
  function WithoutSession(t: Table, id: string): (r: Table)
    ensures forall p :: p in r <==> p in t && p.0 != id
  {
    map p | p in t && p.0 != id :: t[p]
  }

  /** The rows `REPLACE INTO` writes for the entries of `values`. */
  function Written(id: string, values: State, expiry: int): Table
  {
    map k | k in values :: (id, k) := Row(ColumnValue(values[k]), expiry)
  }

  /** `REPLACE INTO` of one row per entry of `values`, all with the same expiry. */
  function UpsertAll(t: Table, id: string, values: State, expiry: int): Table
  {
    t + Written(id, values, expiry)
  }

  /** `REPLACE INTO` of row `(id, key)`. */
  function Upsert(t: Table, id: string, key: string, value: Value, expiry: int): Table
  {
    t[(id, key) := Row(ColumnValue(value), expiry)]
  }

  /** One more entry is one more written row. */
  lemma WrittenStep(id: string, values: State, key: string, value: Value, expiry: int)
    ensures Written(id, values[key := value], expiry) ==
      Written(id, values, expiry)[(id, key) := Row(ColumnValue(value), expiry)]
  {
    var lhs := Written(id, values[key := value], expiry);
    assert lhs.Keys == Written(id, values, expiry)[(id, key) := Row(ColumnValue(value), expiry)].Keys;
  }

  /** Upserting one more entry after a batch is upserting the larger batch. */
  lemma UpsertAllStep(t: Table, id: string, values: State, key: string, value: Value, expiry: int)
    ensures Upsert(UpsertAll(t, id, values, expiry), id, key, value, expiry) ==
      UpsertAll(t, id, values[key := value], expiry)
  {
    var w := Written(id, values, expiry);
    var row := Row(ColumnValue(value), expiry);
    WrittenStep(id, values, key, value, expiry);
    assert (t + w)[(id, key) := row] == t + w[(id, key) := row];
  }

  /** The step of a loop that upserts the entries of `values` one by one:
      one more entry taken off the pending set is one more row written. */
  lemma UpsertAllNext(rows: Table, t: Table, id: string, values: State, pending: set<string>, key: string, expiry: int)
    requires rows == UpsertAll(t, id, values - pending, expiry)
    requires key in pending && pending <= values.Keys
    ensures Upsert(rows, id, key, values[key], expiry) == UpsertAll(t, id, values - (pending - {key}), expiry)
  {
    assert (values - pending)[key := values[key]] == values - (pending - {key});
    UpsertAllStep(t, id, values - pending, key, values[key], expiry);
  }

  /** Every row of session `id` rewritten with its own value and a new expiry. */
  function Refresh(t: Table, id: string, expiry: int): Table
  {
    map p | p in t :: if p.0 == id then Row(t[p].value, expiry) else t[p]
  }

  /** One upsert changes exactly one entry of one session's array. */
  lemma RowsOfUpsert(t: Table, id: string, key: string, row: Row, other: string)
    ensures RowsOf(t[(id, key) := row], other) ==
      if other == id then RowsOf(t, id)[key := row.value] else RowsOf(t, other)
  {
    var lhs := RowsOf(t[(id, key) := row], other);
    var rhs := if other == id then RowsOf(t, id)[key := row.value] else RowsOf(t, other);
    assert lhs.Keys == rhs.Keys;
  }

  /** Deleting one row removes exactly one entry of one session's array. */
  lemma RowsOfDeleteRow(t: Table, id: string, key: string, other: string)
    ensures RowsOf(t - {(id, key)}, other) ==
      if other == id then RowsOf(t, id) - {key} else RowsOf(t, other)
  {
    var lhs := RowsOf(t - {(id, key)}, other);
    var rhs := if other == id then RowsOf(t, id) - {key} else RowsOf(t, other);
    assert lhs.Keys == rhs.Keys;
  }

  /** Deleting a session's rows empties its array and no other. */
  lemma RowsOfWithoutSession(t: Table, id: string, other: string)
    ensures RowsOf(WithoutSession(t, id), other) == if other == id then map[] else RowsOf(t, other)
  {
    var lhs := RowsOf(WithoutSession(t, id), other);
    var rhs := if other == id then map[] else RowsOf(t, other);
    assert lhs.Keys == rhs.Keys;
  }

  /** The column values an array's entries become. */
  function Columns(values: State): (r: State)
    ensures r.Keys == values.Keys
    ensures forall k :: k in r ==> r[k] == ColumnValue(values[k])
  {
    map k | k in values :: ColumnValue(values[k])
  }

  /** Upserting a whole array merges it into the session's array... */
  lemma RowsOfUpsertAllSame(t: Table, id: string, values: State, expiry: int)
    ensures RowsOf(UpsertAll(t, id, values, expiry), id) == ArrayMerge(RowsOf(t, id), Columns(values))
  {
    var u := UpsertAll(t, id, values, expiry);
    var lhs := RowsOf(u, id);
    var rhs := ArrayMerge(RowsOf(t, id), Columns(values));
    forall k ensures k in lhs <==> k in rhs {
      assert (id, k) in u <==> (id, k) in t || k in values;
    }
    forall k | k in lhs ensures lhs[k] == rhs[k] {
      if k in values {
        assert u[(id, k)] == Written(id, values, expiry)[(id, k)];
      }
    }
    assert lhs.Keys == rhs.Keys;
  }

  /** ...and leaves every other session's array alone. */
  lemma RowsOfUpsertAllOther(t: Table, id: string, values: State, expiry: int, other: string)
    requires other != id
    ensures RowsOf(UpsertAll(t, id, values, expiry), other) == RowsOf(t, other)
  {
    var lhs := RowsOf(UpsertAll(t, id, values, expiry), other);
    assert lhs.Keys == RowsOf(t, other).Keys;
  }

  /** The arrays after upserting a whole array into one session. */
  lemma UpsertAllRows(t: Table, id: string, values: State, expiry: int)
    ensures RowsOf(UpsertAll(t, id, values, expiry), id) == ArrayMerge(RowsOf(t, id), Columns(values))
    ensures forall other :: other != id ==> RowsOf(UpsertAll(t, id, values, expiry), other) == RowsOf(t, other)
  {
    RowsOfUpsertAllSame(t, id, values, expiry);
    forall other | other != id ensures RowsOf(UpsertAll(t, id, values, expiry), other) == RowsOf(t, other) {
      RowsOfUpsertAllOther(t, id, values, expiry, other);
    }
  }

  /** Refreshing expiries changes no session's array. */
  lemma RowsOfRefresh(t: Table, id: string, expiry: int, other: string)
    ensures RowsOf(Refresh(t, id, expiry), other) == RowsOf(t, other)
  {
    var lhs := RowsOf(Refresh(t, id, expiry), other);
    assert lhs.Keys == RowsOf(t, other).Keys;
  }

  lemma RowsOfRefreshAll(t: Table, id: string, expiry: int)
    ensures forall other :: RowsOf(Refresh(t, id, expiry), other) == RowsOf(t, other)
  {
    forall other ensures RowsOf(Refresh(t, id, expiry), other) == RowsOf(t, other) {
      RowsOfRefresh(t, id, expiry, other);
    }
  }

  /** `rows` is `t` with the rows of session `id` refreshed, except those
      whose names are still pending. */
  ghost predicate RefreshedExcept(rows: Table, t: Table, id: string, pending: set<string>, expiry: int)
  {
    && rows.Keys == t.Keys
    && forall p :: p in t ==>
         rows[p] == if p.0 == id && p.1 !in pending then Row(t[p].value, expiry) else t[p]
  }

  /** The step of the loop in `save()`: rewriting one fetched row refreshes it. */
  lemma RefreshedExceptNext(rows: Table, t: Table, id: string, data: State, pending: set<string>, key: string, expiry: int)
    requires RefreshedExcept(rows, t, id, pending, expiry)
    requires data == RowsOf(t, id) && key in pending && key in data
    ensures RefreshedExcept(Upsert(rows, id, key, data[key], expiry), t, id, pending - {key}, expiry)
  {
    assert (id, key) in t;
  }

  lemma RefreshedExceptDone(rows: Table, t: Table, id: string, expiry: int)
    requires RefreshedExcept(rows, t, id, {}, expiry)
    ensures rows == Refresh(t, id, expiry)
  {
    assert rows.Keys == Refresh(t, id, expiry).Keys;
  }

  /** Refreshing twice with the same expiry is refreshing once. */
  lemma RefreshIdempotent(t: Table, id: string, expiry: int)
    ensures Refresh(Refresh(t, id, expiry), id, expiry) == Refresh(t, id, expiry)
  {
    var once := Refresh(t, id, expiry);
    assert Refresh(once, id, expiry).Keys == once.Keys;
  }

  class PdoSession {
    const name: string
    const lifetime: int
    const table: SessionTable
    var id: string
    var started: bool

    constructor (table: SessionTable, name: string, lifetime: int)
      ensures this.table == table && this.name == name && this.lifetime == lifetime
      ensures id == "" && !started
    {
      this.table := table;
      this.name := name;
      this.lifetime := lifetime;
      id := "";
      started := false;
    }

    /** Flash messages are not supported: `getFlash()` always throws. */
    function GetFlash(): (r: Outcome)
      ensures r.Fail? && r.error.FlashUnsupported?
    {
      Fail(FlashUnsupported("Flash messages are not supported in PdoMysqlSession."))
    }

    /** As written: an id is issued when there is none, then the first call
        reaches `$this->load()`, which the class does not declare, and throws
        before `started` is set. */
    method Start(entropy: string) returns (outcome: Outcome)
      modifies this`id, this`started
      ensures id == if old(id) == "" then NewId(entropy) else old(id)
      ensures started == old(started)
      ensures outcome == if old(started) then Pass else Fail(UndefinedMethod("load"))
    {
      if id == "" {
        RegenerateId(entropy);
      }
      if !started {
        outcome := Fail(UndefinedMethod("load"));
        return;
      }
      outcome := Pass;
    }

    /** `start()` as evidently intended: there is no in-memory state to load,
        so starting only issues a missing id and raises the flag. */
    method StartWithoutLoad(entropy: string)
      modifies this`id, this`started
      ensures started
      ensures id == if old(id) == "" then NewId(entropy) else old(id)
      ensures old(started) && old(id) != "" ==> unchanged(this)
    {
      if id == "" {
        RegenerateId(entropy);
      }
      if !started {
        started := true;
      }
    }

    function IsStarted(): bool
      reads this
    {
      started
    }

    /** A new id; the rows under the old id are neither moved nor removed. */
    method RegenerateId(entropy: string)
      modifies this`id
      ensures id == NewId(entropy)
      ensures |SessionPrefix| <= |id| && id[..|SessionPrefix|] == SessionPrefix && NoDot(id)
    {
      id := StripDots(Uniqid(SessionPrefix, entropy));
    }

    /** Deletes every row of the current id, then issues a new id. */
    method Destroy(entropy: string)
      modifies this`id, table
      ensures table.rows == WithoutSession(old(table.rows), old(id))
      ensures RowsOf(table.rows, old(id)) == map[]
      ensures forall other :: other != old(id) ==> RowsOf(table.rows, other) == old(RowsOf(table.rows, other))
      ensures id == NewId(entropy)
    {
      ghost var before := table.rows;
      table.rows := WithoutSession(table.rows, id);
      forall other ensures RowsOf(table.rows, other) == if other == id then map[] else RowsOf(before, other) {
        RowsOfWithoutSession(before, id, other);
      }
      RegenerateId(entropy);
    }

    /** `SELECT value ... WHERE id = :id AND name = :name`: the row's value,
        or the default when `fetchColumn` finds no row. */
    function Get(key: string, default: Value): (r: Value)
      reads this, table
      ensures r == if key in RowsOf(table.rows, id) then RowsOf(table.rows, id)[key] else default
    {
      if (id, key) in table.rows then table.rows[(id, key)].value else default
    }

    /** `SELECT COUNT(*) ... > 0`. */
    function Has(key: string): (r: bool)
      reads this, table
      ensures r <==> key in RowsOf(table.rows, id)
    {
      (id, key) in table.rows
    }

    /** Fetches the rows of the current id one by one into an array. */
    method All() returns (data: State)
      ensures data == RowsOf(table.rows, id)
    {
      var result := Names(table.rows, id);
      data := map[];
      while result != {}
        invariant result <= Names(table.rows, id)
        invariant forall k :: k in data <==> (id, k) in table.rows && k !in result
        invariant forall k :: k in data ==> data[k] == table.rows[(id, k)].value
        decreases result
      {
        var name :| name in result;
        data := data[name := table.rows[(id, name)].value];
        result := result - {name};
      }
    }

    /** `REPLACE INTO`: exactly row `(id, key)` is written. */
    method Set(key: string, value: Value, now: int)
      modifies table
      ensures table.rows == old(table.rows)[(id, key) := Row(ColumnValue(value), now + lifetime)]
      ensures Has(key) && forall d :: Get(key, d) == ColumnValue(value)
      ensures RowsOf(table.rows, id) == old(RowsOf(table.rows, id))[key := ColumnValue(value)]
      ensures forall other :: other != id ==> RowsOf(table.rows, other) == old(RowsOf(table.rows, other))
    {
      ghost var before := table.rows;
      var row := Row(ColumnValue(value), now + lifetime);
      table.rows := table.rows[(id, key) := row];
      forall other
        ensures RowsOf(table.rows, other) ==
          if other == id then RowsOf(before, id)[key := row.value] else RowsOf(before, other)
      {
        RowsOfUpsert(before, id, key, row, other);
      }
    }

    /** One `REPLACE INTO` per entry, as `set` would do for each in turn. */
    method SetValues(values: State, now: int)
      modifies table
      ensures table.rows == UpsertAll(old(table.rows), id, values, now + lifetime)
      ensures RowsOf(table.rows, id) == ArrayMerge(old(RowsOf(table.rows, id)), Columns(values))
      ensures forall other :: other != id ==> RowsOf(table.rows, other) == old(RowsOf(table.rows, other))
    {
      ghost var before := table.rows;
      var sid, expiry := id, now + lifetime;
      var remaining := values.Keys;
      while remaining != {}
        invariant remaining <= values.Keys
        invariant table.rows == UpsertAll(before, sid, values - remaining, expiry)
        decreases remaining
      {
        var key :| key in remaining;
        UpsertAllNext(table.rows, before, sid, values, remaining, key, expiry);
        table.rows := Upsert(table.rows, sid, key, values[key], expiry);
        remaining := remaining - {key};
      }
      assert values - remaining == values;
      assert table.rows == UpsertAll(old(table.rows), id, values, now + lifetime);
      UpsertAllRows(before, sid, values, expiry);
    }

    /** Deletes exactly row `(id, key)`. */
    method Delete(key: string)
      modifies table
      ensures table.rows == old(table.rows) - {(id, key)}
      ensures !Has(key)
      ensures RowsOf(table.rows, id) == old(RowsOf(table.rows, id)) - {key}
      ensures forall other :: other != id ==> RowsOf(table.rows, other) == old(RowsOf(table.rows, other))
    {
      ghost var before := table.rows;
      table.rows := table.rows - {(id, key)};
      forall other
        ensures RowsOf(table.rows, other) == if other == id then RowsOf(before, id) - {key} else RowsOf(before, other)
      {
        RowsOfDeleteRow(before, id, key, other);
      }
    }

    /** Deletes every row of the current id; the id is kept. */
    method Clear()
      modifies table
      ensures table.rows == WithoutSession(old(table.rows), id)
      ensures forall k :: !Has(k)
      ensures forall other :: other != id ==> RowsOf(table.rows, other) == old(RowsOf(table.rows, other))
    {
      ghost var before := table.rows;
      table.rows := WithoutSession(table.rows, id);
      forall other ensures RowsOf(table.rows, other) == if other == id then map[] else RowsOf(before, other) {
        RowsOfWithoutSession(before, id, other);
      }
    }

    /** Reads the session's rows and writes each back with a new expiry. */
    method Save(now: int)
      modifies table
      ensures table.rows == Refresh(old(table.rows), id, now + lifetime)
      ensures forall other :: RowsOf(table.rows, other) == old(RowsOf(table.rows, other))
    {
      ghost var before := table.rows;
      var sid, expiry := id, now + lifetime;
      var data := All();
      var remaining := data.Keys;
      while remaining != {}
        invariant remaining <= data.Keys && data == RowsOf(before, sid)
        invariant RefreshedExcept(table.rows, before, sid, remaining, expiry)
        decreases remaining
      {
        var key :| key in remaining;
        RefreshedExceptNext(table.rows, before, sid, data, remaining, key, expiry);
        table.rows := Upsert(table.rows, sid, key, data[key], expiry);
        remaining := remaining - {key};
      }
      RefreshedExceptDone(table.rows, before, sid, expiry);
      RowsOfRefreshAll(before, sid, expiry);
    }
  }
}
