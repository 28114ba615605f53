/** The cache the timed protocols share: an atomic map whose rows expire. A row written with a
    time to live is gone from `now + ttl` on; a time to live of 0 means for ever. */
module Cache {

  import opened Common

  type Time = nat

  datatype Row<V> = Row(value: V, expiresAt: Option<Time>)

  type Rows<K, V> = map<K, Row<V>>

  predicate Live<V>(row: Row<V>, now: Time) {
    row.expiresAt.None? || now < row.expiresAt.value
  }

  function Lookup<K, V>(rows: Rows<K, V>, key: K, now: Time): Option<V> {
    if key in rows && Live(rows[key], now) then Some(rows[key].value) else None
  }

  function Write<K, V>(rows: Rows<K, V>, key: K, value: V, ttl: nat, now: Time): Rows<K, V> {
    rows[key := Row(value, if ttl > 0 then Some(now + ttl) else None)]
  }

  function Delete<K, V>(rows: Rows<K, V>, key: K): Rows<K, V> {
    rows - {key}
  }

  /** What is written is read back until its time to live is over, for ever when that is 0; what was
      written under other keys is not affected. */
  lemma WrittenIsRead<K, V>(rows: Rows<K, V>, key: K, value: V, ttl: nat, now: Time, other: K, later: Time)
    ensures Lookup(Write(rows, key, value, ttl, now), other, later)
         == if other != key then Lookup(rows, other, later)
            else if ttl == 0 || later < now + ttl then Some(value) else None
  {
  }

  lemma DeletedIsGone<K, V>(rows: Rows<K, V>, key: K, other: K, now: Time)
    ensures Lookup(Delete(rows, key), other, now) == if other == key then None else Lookup(rows, other, now)
  {
  }

  class TtlCache<K(==), V> {
    var rows: Rows<K, V>
    var now: Time

    constructor ()
      ensures rows == map[] && now == 0
    {
      rows, now := map[], 0;
    }

    /** Sets a row; with `nx`, only when the key has no live row. */
    method Set(key: K, value: V, ttl: nat, nx: bool) returns (stored: bool)
      modifies this
      ensures now == old(now)
      ensures stored <==> !nx || Lookup(old(rows), key, now).None?
      ensures rows == if stored then Write(old(rows), key, value, ttl, now) else old(rows)
    {
      if nx && key in rows && Live(rows[key], now) {
        return false;
      }
      rows := Write(rows, key, value, ttl, now);
      stored := true;
    }

    method Get(key: K) returns (value: Option<V>)
      ensures value == Lookup(rows, key, now)
    {
      value := Lookup(rows, key, now);
    }

    method Del(key: K)
      modifies this
      ensures now == old(now) && rows == Delete(old(rows), key)
    {
      rows := Delete(rows, key);
    }
  }
}
