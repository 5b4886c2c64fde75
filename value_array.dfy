/** Records and their projection onto a header row (`valueArray`). */
module Records {
  import opened Sequences

  /** A cell value: a record field holds a string, a number or nothing (`undefined`).
      Numbers are integers in this model. */
  datatype Value = Undefined | Text(s: string) | Number(n: int)

  /** A record: its fields in key order. A JavaScript object has distinct keys
      (`WellFormed`); the order is the order `Object.keys` reports. */
  type Record = seq<(string, Value)>

  ghost predicate WellFormed(data: Record) {
    Distinct(Keys(data))
  }

  /** `Object.keys(data)`. */
  function Keys(data: Record): (ks: seq<string>)
    ensures |ks| == |data|
    ensures forall i :: 0 <= i < |data| ==> ks[i] == data[i].0
  {
    if data == [] then [] else [data[0].0] + Keys(data[1..])
  }

  /** `data[key]` for the record's own fields: the value stored under `key`, `undefined` when
      the record has no such field. */
  function Get(data: Record, key: string): (v: Value)
    ensures key !in Keys(data) ==> v == Undefined
    ensures WellFormed(data) ==> forall i :: 0 <= i < |data| && data[i].0 == key ==> v == data[i].1
  {
    if data == [] then Undefined
    else if data[0].0 == key then data[0].1
    else Get(data[1..], key)
  }

  /** JavaScript truthiness of a value: `undefined`, "" and 0 are falsy. */
  predicate Truthy(v: Value): (b: bool)
    ensures !b <==> v == Undefined || v == Text("") || v == Number(0)
  {
    match v
    case Undefined => false
    case Text(s) => s != ""
    case Number(n) => n != 0
  }

  /** `headers.map((h) => data[h])`: one cell per header, in header order. */
  function ValueArray(data: Record, headers: seq<string>): (row: seq<Value>)
    ensures |row| == |headers|
    ensures forall i :: 0 <= i < |headers| ==> row[i] == Get(data, headers[i])
  {
    if headers == [] then [] else [Get(data, headers[0])] + ValueArray(data, headers[1..])
  }

  /** A header the record does not have yields an empty cell, not an error. */
  lemma MissingFieldIsEmptyCell(data: Record, headers: seq<string>, i: int)
    requires 0 <= i < |headers| && headers[i] !in Keys(data)
    ensures ValueArray(data, headers)[i] == Undefined
  {
  }

  /** Extending the header row extends the projected row: the cells under the old headers
      do not move. */
  lemma {:induction false} ValueArrayAppend(data: Record, h1: seq<string>, h2: seq<string>)
    ensures ValueArray(data, h1 + h2) == ValueArray(data, h1) + ValueArray(data, h2)
  {
    if h1 == [] {
      assert h1 + h2 == h2;
    } else {
      assert (h1 + h2)[0] == h1[0];
      assert (h1 + h2)[1..] == h1[1..] + h2;
      ValueArrayAppend(data, h1[1..], h2);
    }
  }

  /** The row depends on the record's contents, not on the order of its keys. */
  lemma ValueArrayIgnoresKeyOrder(d1: Record, d2: Record, headers: seq<string>)
    requires WellFormed(d1) && WellFormed(d2)
    requires forall p :: p in d1 <==> p in d2
    ensures ValueArray(d1, headers) == ValueArray(d2, headers)
  {
    forall i | 0 <= i < |headers|
      ensures Get(d1, headers[i]) == Get(d2, headers[i])
    {
      SameGet(d1, d2, headers[i]);
    }
  }

  lemma SameGet(d1: Record, d2: Record, key: string)
    requires WellFormed(d1) && WellFormed(d2)
    requires forall p :: p in d1 <==> p in d2
    ensures Get(d1, key) == Get(d2, key)
  {
    if key in Keys(d1) {
      var i :| 0 <= i < |d1| && Keys(d1)[i] == key;
      assert d1[i] in d2;
      var j :| 0 <= j < |d2| && d2[j] == d1[i];
    } else {
      forall j | 0 <= j < |d2| ensures Keys(d2)[j] != key {
        assert d2[j] in d1;
        var i :| 0 <= i < |d1| && d1[i] == d2[j];
        assert Keys(d1)[i] == d2[j].0;
      }
    }
  }

  /** The example of the client's test: `{date, val1, val2}` projected onto
      `["date", "val2", "val1"]`. */
  lemma ValueArrayExample()
    ensures ValueArray([("date", Text("2000-01-01")), ("val1", Text("1")), ("val2", Number(2))],
                       ["date", "val2", "val1"])
         == [Text("2000-01-01"), Number(2), Text("1")]
  {
  }
}
