/**
 * Values, the Map<String, Object> the builders and executors receive, and
 * the positional parameter slots of a prepared statement.
 *
 * A Java map is an ordered sequence of entries with distinct keys: its
 * iteration order is fixed for an unmodified map, and keySet() and values()
 * walk it in that same order, which is all the code relies on.
 */
module Records {
  import opened JavaText

  /**
   * A value stored in a map, bound to a placeholder or read from a cursor.
   * Text stands for every object that is neither a Number nor a Boolean,
   * through its toString(); integral numbers are unbounded.
   */
  datatype Value = Null | Int(i: int) | Bool(b: bool) | Text(s: string)

  datatype Entry = Entry(key: string, value: Value)

  /** A Map<String, Object>, in its iteration order. */
  type Record = seq<Entry>

  /** keySet(), in iteration order. */
  function Keys(r: Record): seq<string> {
    seq(|r|, i requires 0 <= i < |r| => r[i].key)
  }

  /** values(), in iteration order. */
  function Vals(r: Record): seq<Value> {
    seq(|r|, i requires 0 <= i < |r| => r[i].value)
  }

  predicate DistinctKeys(r: Record) {
    forall i, j | 0 <= i < j < |r| :: r[i].key != r[j].key
  }

  /** get(k), with None for an absent key. */
  function Lookup(r: Record, k: string): (res: Option<Value>)
    ensures res.None? <==> k !in Keys(r)
    ensures res.Some? ==> Entry(k, res.value) in r
  {
    if r == [] then None
    else
      assert Keys(r) == [r[0].key] + Keys(r[1..]);
      if r[0].key == k then Some(r[0].value) else Lookup(r[1..], k)
  }

  /**
   * put(k, v): a present key keeps its place and takes the new value; an
   * absent key is added (this model adds it last).
   */
  function Put(r: Record, k: string, v: Value): (r': Record)
    ensures Lookup(r', k) == Some(v)
    ensures forall k' | k' != k :: Lookup(r', k') == Lookup(r, k')
    ensures k in Keys(r) ==> Keys(r') == Keys(r)
    ensures k !in Keys(r) ==> r' == r + [Entry(k, v)]
  {
    if r == [] then [Entry(k, v)]
    else if r[0].key == k then [Entry(k, v)] + r[1..]
    else
      var tail := Put(r[1..], k, v);
      PutCons(r, k, v, tail);
      [r[0]] + tail
  }

  /** An entry with another key in front of the put done on the rest. */
  lemma PutCons(r: Record, k: string, v: Value, tail: Record)
    requires r != [] && r[0].key != k
    requires Lookup(tail, k) == Some(v)
    requires forall k' | k' != k :: Lookup(tail, k') == Lookup(r[1..], k')
    requires k in Keys(r[1..]) ==> Keys(tail) == Keys(r[1..])
    requires k !in Keys(r[1..]) ==> tail == r[1..] + [Entry(k, v)]
    ensures Lookup([r[0]] + tail, k) == Some(v)
    ensures forall k' | k' != k :: Lookup([r[0]] + tail, k') == Lookup(r, k')
    ensures k in Keys(r) ==> Keys([r[0]] + tail) == Keys(r)
    ensures k !in Keys(r) ==> [r[0]] + tail == r + [Entry(k, v)]
  {
    var t := [r[0]] + tail;
    assert t[0] == r[0] && t[1..] == tail;
    forall k' | k' != k ensures Lookup(t, k') == Lookup(r, k') {
      if k' != r[0].key {
        assert Lookup(t, k') == Lookup(tail, k');
        assert Lookup(r, k') == Lookup(r[1..], k');
      }
    }
    PutConsKeys(r, k, v, tail);
  }

  lemma PutConsKeys(r: Record, k: string, v: Value, tail: Record)
    requires r != [] && r[0].key != k
    requires k in Keys(r[1..]) ==> Keys(tail) == Keys(r[1..])
    requires k !in Keys(r[1..]) ==> tail == r[1..] + [Entry(k, v)]
    ensures k in Keys(r) ==> Keys([r[0]] + tail) == Keys(r)
    ensures k !in Keys(r) ==> [r[0]] + tail == r + [Entry(k, v)]
  {
    var t := [r[0]] + tail;
    assert Keys(r) == [r[0].key] + Keys(r[1..]);
    if k in Keys(r) {
      assert k in Keys(r[1..]);
      assert t[1..] == tail;
      assert Keys(t) == [r[0].key] + Keys(tail);
    } else {
      assert r == [r[0]] + r[1..];
    }
  }

  /** put keeps the keys distinct, so the sequence still models a map. */
  lemma PutDistinct(r: Record, k: string, v: Value)
    requires DistinctKeys(r)
    ensures DistinctKeys(Put(r, k, v))
  {
    var r' := Put(r, k, v);
    if k in Keys(r) {
      assert Keys(r') == Keys(r);
      forall i, j | 0 <= i < j < |r'| ensures r'[i].key != r'[j].key {
        assert r'[i].key == Keys(r')[i] && r'[j].key == Keys(r')[j];
        assert Keys(r)[i] == r[i].key && Keys(r)[j] == r[j].key;
      }
    } else {
      forall i | 0 <= i < |r| ensures r[i].key != k {
        assert Keys(r)[i] == r[i].key;
      }
    }
  }

  /** In a map, the j-th key looks up the j-th value: keySet() and values() walk the same order. */
  lemma {:induction false} LookupAt(r: Record, j: nat)
    requires DistinctKeys(r) && j < |r|
    ensures Keys(r)[j] == r[j].key && Vals(r)[j] == r[j].value
    ensures Lookup(r, Keys(r)[j]) == Some(Vals(r)[j])
  {
    if j > 0 {
      assert r[0].key != r[j].key;
      assert DistinctKeys(r[1..]) by {
        forall a, b | 0 <= a < b < |r| - 1 ensures r[1..][a].key != r[1..][b].key {
          assert r[1..][a] == r[a + 1] && r[1..][b] == r[b + 1];
        }
      }
      LookupAt(r[1..], j - 1);
      assert r[1..][j - 1] == r[j];
    }
  }

  // ---------------------------------------------------------------------
  // Positional parameters: setObject(index, value)
  // ---------------------------------------------------------------------

  /** The slots a loop `setObject(paramIndex++, v)` over `values` fills, starting at `start`. */
  function Slots(values: seq<Value>, start: int): map<int, Value>
    decreases |values|
  {
    if values == [] then map[] else Slots(values[1..], start + 1)[start := values[0]]
  }

  /** Slot `j` is filled exactly when it lies in the run, and holds the value at that offset. */
  lemma {:induction false} SlotsAt(values: seq<Value>, start: int, j: int)
    ensures j in Slots(values, start) <==> start <= j < start + |values|
    ensures j in Slots(values, start) ==> Slots(values, start)[j] == values[j - start]
    decreases |values|
  {
    if values != [] {
      SlotsAt(values[1..], start + 1, j);
    }
  }

  /** Binding `a` from `start` and then `b` from where it stopped binds `a + b` without a gap. */
  lemma SlotsAppend(a: seq<Value>, b: seq<Value>, start: int)
    ensures Slots(a, start) + Slots(b, start + |a|) == Slots(a + b, start)
  {
    var l := Slots(a, start) + Slots(b, start + |a|);
    var r := Slots(a + b, start);
    forall j ensures (j in l <==> j in r) && (j in l ==> l[j] == r[j]) {
      SlotsAt(a, start, j);
      SlotsAt(b, start + |a|, j);
      SlotsAt(a + b, start, j);
      if j in l && j < start + |a| {
        assert (a + b)[j - start] == a[j - start];
      } else if j in l {
        assert (a + b)[j - start] == b[j - start - |a|];
      }
    }
    assert l.Keys == r.Keys;
  }
}
