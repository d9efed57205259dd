/**
  The key normaliser: the guarded lookup of an estimated key in the
  table, and the batch step that gives each row its code and drops the
  rows that have none.
 */
module KeyNormalizer {
  import opened Wrappers
  import opened Camelot
  import opened CamelotTable
  import opened Tracks

  /**
    encontrar_camelot_key: a non-string has no code, a string without a
    space (a bare note, no mode) has no code, anything else is looked up
    exactly as written.
   */
  function FindCamelotKey(k: RawKey): (r: Option<string>)
    ensures k.NotText? ==> r == None
    ensures k.Text? && ' ' !in k.s ==> r == None
    ensures r.Some? <==> k.Text? && k.s in CamelotMap
    ensures r.Some? ==> r.value == CamelotMap[k.s] && Parses(r.value) && ValidCode(Parsed(r.value))
  {
    match k
    case NotText => None
    case Text(s) =>
      KeysNameAMode();
      TableValuesAreCodes();
      if ' ' !in s then None
      else if s in CamelotMap then Some(CamelotMap[s])
      else None
  }

  /** The lookup is exact: the guard never rejects a key the table holds. */
  lemma LookupIsExact(s: string)
    ensures FindCamelotKey(Text(s)) == if s in CamelotMap then Some(CamelotMap[s]) else None
  {
  }

  /** Example: the two spellings of G sharp / A flat major get the same code. */
  lemma EnharmonicExample()
    ensures FindCamelotKey(Text("G# major")) == FindCamelotKey(Text("Ab major")) == Some("4B")
  {
  }

  /** Examples: a bare note and a lower-case spelling have no code. */
  lemma UnresolvedExamples()
    ensures FindCamelotKey(Text("D")) == None
    ensures FindCamelotKey(Text("c major")) == None
  {
  }

  // ---------------------------------------------------------------------
  // The batch step: add the code column, then drop the rows without one.
  // The list reasoning is stated for any lookup `find`, so that it does
  // not depend on the contents of the table.

  function KeepRow(find: RawKey -> Option<string>, row: Row): seq<Track> {
    match find(row.estimatedKey)
    case Some(code) => [WithCamelotKey(row, code)]
    case None => []
  }

  /** The number of rows `find` gives no code: none exactly when every row has a code. */
  function CountWith(find: RawKey -> Option<string>, rows: seq<Row>): (c: nat)
    ensures c <= |rows|
    ensures c == 0 <==> forall r :: r in rows ==> find(r.estimatedKey).Some?
  {
    if rows == [] then 0
    else
      assert forall r :: r in rows <==> r == rows[0] || r in rows[1..];
      (if find(rows[0].estimatedKey).None? then 1 else 0) + CountWith(find, rows[1..])
  }

  /** The rows `find` gives a code, with that code, in their original order. */
  function KeepWith(find: RawKey -> Option<string>, rows: seq<Row>): (kept: seq<Track>)
    ensures |kept| + CountWith(find, rows) == |rows|
  {
    if rows == [] then [] else KeepRow(find, rows[0]) + KeepWith(find, rows[1..])
  }

  /** Every kept track carries the code its own row's lookup gave. */
  lemma {:induction false} KeptWithOwnCode(find: RawKey -> Option<string>, rows: seq<Row>)
    ensures forall t :: t in KeepWith(find, rows) ==> find(t.estimatedKey) == Some(t.camelotKey)
  {
    if rows != [] {
      KeptWithOwnCode(find, rows[1..]);
    }
  }

  /**
    The kept tracks are exactly the rows `find` gives a code, each with
    that code added: nothing is kept that was not a coded row, and no
    coded row is lost.
   */
  lemma {:induction false} KeptAreCodedRows(find: RawKey -> Option<string>, rows: seq<Row>)
    ensures forall t :: t in KeepWith(find, rows) ==>
      exists r :: r in rows && find(r.estimatedKey).Some? && t == WithCamelotKey(r, find(r.estimatedKey).value)
    ensures forall r :: r in rows && find(r.estimatedKey).Some? ==>
      WithCamelotKey(r, find(r.estimatedKey).value) in KeepWith(find, rows)
  {
    if rows != [] {
      KeptAreCodedRows(find, rows[1..]);
      assert forall r :: r in rows <==> r == rows[0] || r in rows[1..];
    }
  }

  /** Keeping distributes over concatenation: the filter preserves the order of the rows. */
  lemma {:induction false} KeepWithAppend(find: RawKey -> Option<string>, a: seq<Row>, b: seq<Row>)
    ensures KeepWith(find, a + b) == KeepWith(find, a) + KeepWith(find, b)
  {
    if a == [] {
      assert a + b == b;
    } else {
      assert (a + b)[0] == a[0] && (a + b)[1..] == a[1..] + b;
      KeepWithAppend(find, a[1..], b);
      var h := KeepRow(find, a[0]);
      assert h + (KeepWith(find, a[1..]) + KeepWith(find, b)) == (h + KeepWith(find, a[1..])) + KeepWith(find, b);
    }
  }

  lemma {:induction false} CountWithAppend(find: RawKey -> Option<string>, a: seq<Row>, b: seq<Row>)
    ensures CountWith(find, a + b) == CountWith(find, a) + CountWith(find, b)
  {
    if a == [] {
      assert a + b == b;
    } else {
      assert (a + b)[0] == a[0] && (a + b)[1..] == a[1..] + b;
      CountWithAppend(find, a[1..], b);
    }
  }

  /** The `isnull().sum()` count: rows whose estimated key has no code, none exactly when every row has one. */
  function CountUnmapped(rows: seq<Row>): (c: nat)
    ensures c <= |rows|
    ensures c == 0 <==> forall r :: r in rows ==> FindCamelotKey(r.estimatedKey).Some?
  {
    CountWith(FindCamelotKey, rows)
  }

  /**
    The rows that keep their code, in their original order; the kept and
    the dropped rows add up to the input.
   */
  function KeepMapped(rows: seq<Row>): (kept: seq<Track>)
    ensures |kept| + CountUnmapped(rows) == |rows|
  {
    KeepWith(FindCamelotKey, rows)
  }

  /** Every kept track carries a code, and it is its own row's lookup result. */
  lemma KeptRowsHaveCodes(rows: seq<Row>)
    ensures forall t :: t in KeepMapped(rows) ==>
      FindCamelotKey(t.estimatedKey) == Some(t.camelotKey)
      && Parses(t.camelotKey) && ValidCode(Parsed(t.camelotKey))
  {
    KeptWithOwnCode(FindCamelotKey, rows);
  }

  /**
    The kept tracks are exactly the rows whose key is in the table, each
    with its table code added.
   */
  lemma KeptAreMappedRows(rows: seq<Row>)
    ensures forall t :: t in KeepMapped(rows) ==>
      exists r :: r in rows && r.estimatedKey.Text? && r.estimatedKey.s in CamelotMap
        && t == WithCamelotKey(r, CamelotMap[r.estimatedKey.s])
    ensures forall r :: r in rows && r.estimatedKey.Text? && r.estimatedKey.s in CamelotMap ==>
      WithCamelotKey(r, CamelotMap[r.estimatedKey.s]) in KeepMapped(rows)
  {
    KeptAreCodedRows(FindCamelotKey, rows);
  }

  /** Keeping distributes over concatenation: the filter preserves the order of the rows. */
  lemma KeepMappedAppend(a: seq<Row>, b: seq<Row>)
    ensures KeepMapped(a + b) == KeepMapped(a) + KeepMapped(b)
    ensures CountUnmapped(a + b) == CountUnmapped(a) + CountUnmapped(b)
  {
    KeepWithAppend(FindCamelotKey, a, b);
    CountWithAppend(FindCamelotKey, a, b);
  }

  /** One turn of the batch loop extends the kept prefix and the count by the row's own outcome. */
  lemma AssignStep(rows: seq<Row>, i: int)
    requires 0 <= i < |rows|
    ensures var code := FindCamelotKey(rows[i].estimatedKey);
      && KeepMapped(rows[..i + 1]) == KeepMapped(rows[..i]) + (if code.Some? then [WithCamelotKey(rows[i], code.value)] else [])
      && CountUnmapped(rows[..i + 1]) == CountUnmapped(rows[..i]) + (if code.None? then 1 else 0)
  {
    assert rows[..i + 1] == rows[..i] + [rows[i]];
    KeepMappedAppend(rows[..i], [rows[i]]);
    assert [rows[i]][1..] == [];
  }

  /**
    The batch step: assign every row its code, count the rows without
    one, and drop those rows.
   */
  method AssignCamelotKeys(rows: seq<Row>) returns (kept: seq<Track>, removed: nat)
    ensures kept == KeepMapped(rows)
    ensures removed == CountUnmapped(rows)
    ensures |kept| + removed == |rows|
    ensures forall t :: t in kept ==> Parses(t.camelotKey) && ValidCode(Parsed(t.camelotKey))
    ensures forall t :: t in kept ==>
      exists r :: r in rows && r.estimatedKey.Text? && r.estimatedKey.s in CamelotMap
        && t == WithCamelotKey(r, CamelotMap[r.estimatedKey.s])
    ensures forall r :: r in rows && r.estimatedKey.Text? && r.estimatedKey.s in CamelotMap ==>
      WithCamelotKey(r, CamelotMap[r.estimatedKey.s]) in kept
  {
    kept, removed := [], 0;
    for i := 0 to |rows|
      invariant kept == KeepMapped(rows[..i])
      invariant removed == CountUnmapped(rows[..i])
    {
      AssignStep(rows, i);
      var code := FindCamelotKey(rows[i].estimatedKey);
      match code {
        case Some(c) => kept := kept + [WithCamelotKey(rows[i], c)];
        case None => removed := removed + 1;
      }
    }
    assert rows[..|rows|] == rows;
    KeptRowsHaveCodes(rows);
    KeptAreMappedRows(rows);
  }
}
