/** Cell values, named rows and key extraction shared by the storage and the query models. */
module Values {

  datatype Option<+T> = None | Some(value: T)

  newtype Byte = x: int | 0 <= x < 256

  type Bytes = seq<Byte>

  datatype Value = Null | Int(i: int) | Text(s: string) | Bool(b: bool)

  type Row = map<string, Value>

  type Key = seq<Value>

  function Cell(r: Row, c: string): Value {
    if c in r then r[c] else Null
  }

  function KeyOf(r: Row, cols: seq<string>): (k: Key)
    ensures |k| == |cols|
    ensures forall i :: 0 <= i < |cols| ==> k[i] == Cell(r, cols[i])
  {
    seq(|cols|, i requires 0 <= i < |cols| => Cell(r, cols[i]))
  }

  lemma Assoc<T>(a: seq<T>, b: seq<T>, c: seq<T>)
    ensures (a + b) + c == a + (b + c)
  {
  }

  /** The key set of a frame: what an equality join against the frame's key columns can match. */
  function KeySet(rows: seq<Row>, cols: seq<string>): set<Key> {
    set r | r in rows :: KeyOf(r, cols)
  }

  function RowSet(rows: seq<Row>): set<Row> {
    set r | r in rows
  }

  /** `frame[list(cols)]`: every row cut down to the named columns. */
  function Narrow(r: Row, cols: set<string>): Row {
    r - (r.Keys - cols)
  }

  function NarrowAll(rows: seq<Row>, cols: set<string>): (out: seq<Row>)
    ensures |out| == |rows|
    ensures forall i :: 0 <= i < |rows| ==> out[i] == Narrow(rows[i], cols)
  {
    seq(|rows|, i requires 0 <= i < |rows| => Narrow(rows[i], cols))
  }

  lemma NarrowAllConcat(a: seq<Row>, b: seq<Row>, cols: set<string>)
    ensures NarrowAll(a + b, cols) == NarrowAll(a, cols) + NarrowAll(b, cols)
  {
    var l, r := NarrowAll(a + b, cols), NarrowAll(a, cols) + NarrowAll(b, cols);
    forall i | 0 <= i < |l| ensures l[i] == r[i] {
      assert (a + b)[i] == if i < |a| then a[i] else b[i - |a|];
    }
  }

  function ColumnSet(cols: seq<string>): set<string> {
    set c | c in cols
  }

  /** Narrowing to a superset of the key columns keeps the key, absent cells included. */
  lemma NarrowKeepsKey(r: Row, cols: set<string>, key: seq<string>)
    requires ColumnSet(key) <= cols
    ensures KeyOf(Narrow(r, cols), key) == KeyOf(r, key)
  {
    forall i | 0 <= i < |key|
      ensures Cell(Narrow(r, cols), key[i]) == Cell(r, key[i])
    {
      assert key[i] in ColumnSet(key);
    }
  }

  lemma NarrowAllKeepsKeys(rows: seq<Row>, cols: set<string>, key: seq<string>)
    requires ColumnSet(key) <= cols
    ensures KeySet(NarrowAll(rows, cols), key) == KeySet(rows, key)
  {
    var out := NarrowAll(rows, cols);
    forall k | k in KeySet(rows, key)
      ensures k in KeySet(out, key)
    {
      var i :| 0 <= i < |rows| && KeyOf(rows[i], key) == k;
      NarrowKeepsKey(rows[i], cols, key);
      assert out[i] in out;
    }
    forall k | k in KeySet(out, key)
      ensures k in KeySet(rows, key)
    {
      var i :| 0 <= i < |out| && KeyOf(out[i], key) == k;
      NarrowKeepsKey(rows[i], cols, key);
      assert rows[i] in rows;
    }
  }
}
