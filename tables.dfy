/**
 * A table keyed by a serial primary key, and the scan a `SELECT` makes over it.
 * Rows come back in ascending key order; SQL itself promises no order, so
 * this is the model's choice wherever a handler takes `result.rows[0]`.
 */
module Tables {
  import opened Values

  /** The largest value of a Postgres `integer`, the type of a knex `increments` key. */
  const MaxInt4 := 2147483647

  /** `nextval` on the key's sequence: it moves on by one, and fails once past `MaxInt4`. */
  function NextSerial(next: nat): (n: nat)
    ensures next <= MaxInt4 ==> n == next + 1
    ensures next > MaxInt4 ==> n == next
  {
    if next <= MaxInt4 then next + 1 else next
  }

  /** The length of a knex `table.string` column, which is `varchar(255)`. */
  const VarcharLength := 255

  /** A value the column takes; a longer one makes the statement fail (SQLSTATE 22001). */
  predicate FitsVarchar(s: string)
  {
    |s| <= VarcharLength
  }

  /** The same for a nullable column: NULL always fits. */
  predicate FitsVarcharOrNull(t: Option<string>)
  {
    t.None? || FitsVarchar(t.value)
  }

  /** The values of m whose keys lie in [lo, hi), in ascending key order. */
  function Scan<T>(m: map<nat, T>, lo: nat, hi: nat): seq<T>
    decreases hi - lo
  {
    if lo >= hi then []
    else if lo in m then [m[lo]] + Scan(m, lo + 1, hi)
    else Scan(m, lo + 1, hi)
  }

  /** A scan returns exactly the stored values whose keys are in range. */
  lemma {:induction false} ScanMembers<T>(m: map<nat, T>, lo: nat, hi: nat, v: T)
    ensures v in Scan(m, lo, hi) <==> exists k :: lo <= k < hi && k in m && m[k] == v
    decreases hi - lo
  {
    if lo < hi {
      ScanMembers(m, lo + 1, hi, v);
      if lo in m && m[lo] == v {
        assert v in Scan(m, lo, hi);
      }
      if exists k :: lo <= k < hi && k in m && m[k] == v {
        var k :| lo <= k < hi && k in m && m[k] == v;
        if k != lo {
          assert lo + 1 <= k < hi && k in m && m[k] == v;
        }
      }
    }
  }

  /** A scan over every key below hi sees all of m. */
  lemma ScanAll<T>(m: map<nat, T>, hi: nat, v: T)
    requires forall k :: k in m ==> k < hi
    ensures v in Scan(m, 0, hi) <==> v in m.Values
  {
    ScanMembers(m, 0, hi, v);
    if v in m.Values {
      var k :| k in m && m[k] == v;
      assert 0 <= k < hi && k in m && m[k] == v;
    }
  }

  /** The keys of m in [lo, hi). */
  ghost function KeysIn<T>(m: map<nat, T>, lo: nat, hi: nat): set<nat>
  {
    set k | k in m && lo <= k < hi
  }

  /** A scan returns one value per key in range, so nothing twice. */
  lemma {:induction false} ScanLength<T>(m: map<nat, T>, lo: nat, hi: nat)
    ensures |Scan(m, lo, hi)| == |KeysIn(m, lo, hi)|
    decreases hi - lo
  {
    if lo < hi {
      ScanLength(m, lo + 1, hi);
      if lo in m {
        assert KeysIn(m, lo, hi) == {lo} + KeysIn(m, lo + 1, hi);
      } else {
        assert KeysIn(m, lo, hi) == KeysIn(m, lo + 1, hi);
      }
    } else {
      assert KeysIn(m, lo, hi) == {};
    }
  }

  /** A full scan has exactly as many values as m has keys. */
  lemma ScanAllLength<T>(m: map<nat, T>, hi: nat)
    requires forall k :: k in m ==> k < hi
    ensures |Scan(m, 0, hi)| == |m|
  {
    ScanLength(m, 0, hi);
    assert KeysIn(m, 0, hi) == m.Keys;
  }

  /** The same, for every value at once. */
  lemma ScanAllValues<T>(m: map<nat, T>, hi: nat)
    requires forall k :: k in m ==> k < hi
    ensures forall v :: v in Scan(m, 0, hi) <==> v in m.Values
  {
    forall v ensures v in Scan(m, 0, hi) <==> v in m.Values {
      ScanAll(m, hi, v);
    }
  }
}
