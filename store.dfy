/**
 * The two SQLite tables `user_balances` and `user_otps` (sendit_telegram_app.py:30-46).
 * Each has `username` as its primary key, so a table is a finite map from
 * username to the row's single value column.
 */
module Store {
  import opened Wrappers

  /** `SELECT ... WHERE username = ?` followed by `fetchone()`: the row's value, or None. */
  function Lookup<V>(table: map<string, V>, username: string): Option<V> {
    if username in table then Some(table[username]) else None
  }

  /**
   * INSERT when no row exists, UPDATE otherwise (and `REPLACE INTO` for OTPs):
   * afterwards the row holds `value` and no other row differs.
   */
  function Upsert<V>(table: map<string, V>, username: string, value: V): (t: map<string, V>)
    ensures Lookup(t, username) == Some(value)
    ensures forall other :: other != username ==> Lookup(t, other) == Lookup(table, other)
    ensures t.Keys == table.Keys + {username}
  {
    table[username := value]
  }

  /** Writing the same value twice is the same as writing it once. */
  lemma UpsertIdempotent<V>(table: map<string, V>, username: string, value: V)
    ensures Upsert(Upsert(table, username, value), username, value) == Upsert(table, username, value)
  {
  }

  /** The last write to a row wins. */
  lemma UpsertOverwrite<V>(table: map<string, V>, username: string, first: V, second: V)
    ensures Upsert(Upsert(table, username, first), username, second) == Upsert(table, username, second)
  {
  }

  /** A row written, then another row, then the first row again: only the last value of each row stays. */
  lemma UpsertRewrite<V>(table: map<string, V>, u: string, v: string, a: V, b: V, c: V)
    requires u != v
    ensures Upsert(Upsert(Upsert(table, u, a), v, b), u, c) == Upsert(Upsert(table, v, b), u, c)
  {
  }

  /** Sum of `table[u]` over the usernames `keys`. */
  ghost function SumOver(table: map<string, real>, keys: set<string>): real
    requires keys <= table.Keys
    decreases keys
  {
    if keys == {} then 0.0
    else
      var u :| u in keys;
      table[u] + SumOver(table, keys - {u})
  }

  /** The money held by all accounts together. */
  ghost function Total(table: map<string, real>): real {
    SumOver(table, table.Keys)
  }

  /** Any key of the summed set can be taken out first. */
  lemma {:induction false} SumOverRemove(table: map<string, real>, keys: set<string>, u: string)
    requires keys <= table.Keys && u in keys
    ensures SumOver(table, keys) == table[u] + SumOver(table, keys - {u})
    decreases keys
  {
    var v :| v in keys && SumOver(table, keys) == table[v] + SumOver(table, keys - {v});
    if v != u {
      SumOverRemove(table, keys - {v}, u);
      SumOverRemove(table, keys - {u}, v);
      assert keys - {v} - {u} == keys - {u} - {v};
    }
  }

  /** The sum over `keys` depends only on the rows of `keys`. */
  lemma {:induction false} SumOverFrame(a: map<string, real>, b: map<string, real>, keys: set<string>)
    requires keys <= a.Keys && keys <= b.Keys
    requires forall u :: u in keys ==> a[u] == b[u]
    ensures SumOver(a, keys) == SumOver(b, keys)
    decreases keys
  {
    if keys != {} {
      var u :| u in keys && SumOver(a, keys) == a[u] + SumOver(a, keys - {u});
      SumOverRemove(b, keys, u);
      SumOverFrame(a, b, keys - {u});
    }
  }

  /** An upsert changes the total by the new value minus the old one (0.0 for a new row). */
  lemma TotalUpsert(table: map<string, real>, username: string, value: real)
    ensures Total(Upsert(table, username, value))
         == Total(table) - (if username in table then table[username] else 0.0) + value
  {
    var t := Upsert(table, username, value);
    var rest := table.Keys - {username};
    SumOverRemove(t, t.Keys, username);
    assert t.Keys - {username} == rest;
    SumOverFrame(t, table, rest);
    if username in table {
      SumOverRemove(table, table.Keys, username);
    } else {
      assert table.Keys == rest;
    }
  }
}
