/** The model's store operations over the `dict` table. Every operation
    answers with the record `{recordsArray, errorCode, errorMsg}`: code -1
    when the request fails validation before the store is touched, 23505
    when the store rejects a write for a unique index, and the store's own
    code for any other failure. */
module Store {
  import opened Wrappers
  import opened JsValue
  import opened Schema
  import opened Query

  /** The most rows a read returns. */
  const Limit: nat := 256

  /** The code of a request that fails validation. */
  const InvalidQuery: int := -1

  /** PostgreSQL's SQLSTATE for a unique violation, as a number. */
  const UniqueViolation: int := 23505

  const InvalidMessage: string := "query is something wrong."
  const UniqueMessage: string := "duplicate key value violates unique constraint"

  /** `{recordsArray, errorCode, errorMsg}`; None stands for `null`. */
  datatype Response = Response(records: Option<seq<Row>>, errorCode: Option<int>, errorMsg: Option<string>)

  /** The code of a store failure other than a unique violation. The
      validation code -1 is the model's own and never comes from the store. */
  type FaultCode = c: int | c != InvalidQuery && c != UniqueViolation witness 0

  /** A store failure the model does not decide (a lost connection, for
      one): `Number(err.code)` and `err.message`. */
  datatype Fault = Fault(code: FaultCode, message: string)

  function Invalid(): Response
  {
    Response(None, Some(InvalidQuery), Some(InvalidMessage))
  }

  function Failed(f: Fault): Response
  {
    Response(None, Some(f.code), Some(f.message))
  }

  function Conflicted(): Response
  {
    Response(None, Some(UniqueViolation), Some(UniqueMessage))
  }

  function Found(rows: seq<Row>): Response
  {
    Response(Some(rows), None, None)
  }

  /** `.limit(n)`: at most n rows, the first ones. */
  function Take(rows: seq<Row>, n: nat): (r: seq<Row>)
    ensures |r| <= n && |r| <= |rows|
    ensures r == rows[..|r|]
    ensures |rows| <= n ==> r == rows
    ensures |rows| > n ==> |r| == n
  {
    if |rows| <= n then rows else rows[..n]
  }

  /** The rows of `getByContents(q)` before the limit, in table order. */
  function Matching(rows: seq<Row>, q: Json): (r: seq<Row>)
    ensures forall x :: x in r <==> x in rows && RowMatches(q, x)
  {
    if rows == [] then []
    else (if RowMatches(q, rows[0]) then [rows[0]] else []) + Matching(rows[1..], q)
  }

  /** The column text a payload value is stored as: `null` is NULL, any
      other value its `String()` text. */
  function CellOf(v: Json): (c: Option<string>)
    ensures c == None <==> v == JNull
  {
    if v == JNull then None else Some(ToText(v))
  }

  /** Column `key` of a new row: the payload's value, or NULL (the column
      default) when the payload lacks the key. */
  function NewCell(p: Payload, key: string): Option<string>
  {
    if key in p then CellOf(p[key]) else None
  }

  /** The rows a bulk insert adds, the ids drawn from the sequence in order. */
  function InsertedRows(start: int, batch: seq<Payload>): seq<Row>
  {
    seq(|batch|, i requires 0 <= i < |batch| =>
      Row(start + i, NewCell(batch[i], "ja"), NewCell(batch[i], "en")))
  }

  /** A row after `UPDATE ... SET` with a payload: the keys the payload
      holds take its values, the others and the id stay. */
  function UpdatedRow(r: Row, p: Payload): Row
  {
    Row(r.id,
        if "ja" in p then CellOf(p["ja"]) else r.ja,
        if "en" in p then CellOf(p["en"]) else r.en)
  }

  /** The table after `UPDATE dict SET p WHERE id = n`. */
  function UpdateRows(rows: seq<Row>, n: int, p: Payload): seq<Row>
  {
    seq(|rows|, i requires 0 <= i < |rows| =>
      if rows[i].id == n then UpdatedRow(rows[i], p) else rows[i])
  }

  /** The ids a bulk insert hands out are strictly increasing and all drawn
      from `[start, start + |batch|)`, so none of them is an id of a table
      whose ids lie below `start`. */
  lemma InsertedIds(start: int, batch: seq<Payload>, rows: seq<Row>)
    requires forall x :: x in rows ==> x.id < start
    ensures var added := InsertedRows(start, batch);
      && |added| == |batch|
      && (forall i, j :: 0 <= i < j < |added| ==> added[i].id < added[j].id)
      && (forall x :: x in added ==> start <= x.id < start + |batch| && x !in rows)
  {
  }

  /** Updating is idempotent: a row that already took a payload's values is
      left as it is by the same payload. */
  lemma UpdatedRowIdempotent(r: Row, p: Payload)
    ensures UpdatedRow(UpdatedRow(r, p), p) == UpdatedRow(r, p)
    ensures UpdatedRow(r, p).id == r.id
  {
  }

  /** An update by id leaves the rows with other ids exactly as they were,
      in order, and turns the rows with the id into their updated forms. */
  lemma {:induction false} UpdateRowsSplit(rows: seq<Row>, n: int, p: Payload)
    ensures |UpdateRows(rows, n, p)| == |rows|
    ensures WithoutId(UpdateRows(rows, n, p), n) == WithoutId(rows, n)
    ensures forall x :: x in WithId(UpdateRows(rows, n, p), n) <==>
      exists y :: y in WithId(rows, n) && x == UpdatedRow(y, p)
  {
    var u := UpdateRows(rows, n, p);
    if rows != [] {
      var tail := UpdateRows(rows[1..], n, p);
      assert u[1..] == tail;
      UpdateRowsSplit(rows[1..], n, p);
      var h := rows[0];
      assert u[0] == if h.id == n then UpdatedRow(h, p) else h;
      assert u[0].id == h.id;
      assert WithoutId(u, n) == (if h.id == n then [] else [u[0]]) + WithoutId(tail, n);
      assert WithId(u, n) == (if h.id == n then [u[0]] else []) + WithId(tail, n);
      assert WithId(rows, n) == (if h.id == n then [h] else []) + WithId(rows[1..], n);
    }
  }

  /** The table is valid and every id was handed out by a sequence that
      starts at 1 and now stands at `nextId`. */
  predicate StateValid(rows: seq<Row>, nextId: int)
  {
    && TableValid(rows)
    && 1 <= nextId
    && forall i :: 0 <= i < |rows| ==> 1 <= rows[i].id < nextId
  }

  /** A write's answer, the table after it and the sequence after it. */
  datatype Outcome = Outcome(resp: Response, rows: seq<Row>, nextId: int)

  // ------------------------------------------------------------------
  // Reads: they do not change the table
  // ------------------------------------------------------------------

  /** `getAll()`: the first `Limit` rows. */
  function GetAll(rows: seq<Row>, fault: Option<Fault>): (resp: Response)
    ensures fault.Some? ==> resp == Failed(fault.value)
    ensures fault.None? ==> resp.errorCode == None && resp.records.Some?
    ensures fault.None? ==> var got := resp.records.value;
      && |got| == (if |rows| <= Limit then |rows| else Limit)
      && got == rows[..|got|]
      && (|rows| <= Limit ==> got == rows)
  {
    if fault.Some? then Failed(fault.value) else Found(Take(rows, Limit))
  }

  /** `getById(id)`: the row with the id; -1 for a non-integer id. */
  function GetById(rows: seq<Row>, id: Num, fault: Option<Fault>): (resp: Response)
    requires TableValid(rows)
    ensures !id.Int? ==> resp == Invalid()
    ensures id.Int? && fault.Some? ==> resp == Failed(fault.value)
    ensures id.Int? && fault.None? ==>
      && resp.errorCode == None && resp.records.Some?
      && |resp.records.value| <= 1
      && (forall x :: x in resp.records.value <==> x in rows && x.id == id.n)
  {
    if !id.Int? then Invalid()
    else if fault.Some? then Failed(fault.value)
    else
      AtMostOneWithId(rows, id.n);
      Found(Take(WithId(rows, id.n), Limit))
  }

  /** `getByContents(q)`: the first `Limit` rows the filter of q accepts;
      -1 when q is neither an object nor an array. */
  function GetByContents(rows: seq<Row>, q: Json, fault: Option<Fault>): (resp: Response)
    ensures !IsJson(q) ==> resp == Invalid()
    ensures IsJson(q) && fault.Some? ==> resp == Failed(fault.value)
    ensures IsJson(q) && fault.None? ==> resp.errorCode == None && resp.records.Some?
    ensures IsJson(q) && fault.None? ==> var got := resp.records.value;
      && |got| <= Limit && |got| <= |Matching(rows, q)|
      && got == Matching(rows, q)[..|got|]
      && (forall x :: x in got ==> x in rows && RowMatches(q, x))
      && (|Matching(rows, q)| <= Limit ==> got == Matching(rows, q))
      && (|Matching(rows, q)| > Limit ==> |got| == Limit)
  {
    if !IsJson(q) then Invalid()
    else if fault.Some? then Failed(fault.value)
    else
      var all := Matching(rows, q);
      var got := Take(all, Limit);
      assert forall x :: x in got ==> x in all by {
        forall x | x in got ensures x in all {
          var k :| 0 <= k < |got| && got[k] == x;
          assert all[k] == x;
        }
      }
      Found(got)
  }

  /** A filter every row passes keeps the whole table, in order. */
  lemma {:induction false} MatchingAll(rows: seq<Row>, q: Json)
    requires forall x :: x in rows ==> RowMatches(q, x)
    ensures Matching(rows, q) == rows
  {
    if rows != [] {
      assert rows[0] in rows;
      assert forall x :: x in rows[1..] ==> x in rows;
      MatchingAll(rows[1..], q);
      assert rows == [rows[0]] + rows[1..];
    }
  }

  /** As written, an array passes `isJson`, holds neither key, and so
      filters nothing: `getByContents` of any array answers the first
      `Limit` rows of the table, although its documentation says an array
      is not accepted. */
  lemma ArrayFilterAsWritten(rows: seq<Row>, items: seq<Json>)
    ensures GetByContents(rows, JArr(items), None) == Found(Take(rows, Limit))
  {
    forall x | x in rows ensures RowMatches(JArr(items), x) {
      NoKeysMatchesAll(JArr(items), x);
    }
    MatchingAll(rows, JArr(items));
  }

  /** `getByContents(q)` as documented: only an object is a filter, and an
      array is rejected with -1 like any other non-object; an object is
      answered as before. */
  function GetByContentsObjectsOnly(rows: seq<Row>, q: Json, fault: Option<Fault>): (resp: Response)
    ensures !q.JObj? ==> resp == Invalid()
    ensures q.JObj? && fault.Some? ==> resp == Failed(fault.value)
    ensures q.JObj? && fault.None? ==> resp.errorCode == None && resp.records.Some?
    ensures q.JObj? && fault.None? ==> var got := resp.records.value;
      && |got| <= Limit && |got| <= |Matching(rows, q)|
      && got == Matching(rows, q)[..|got|]
      && (|Matching(rows, q)| <= Limit ==> got == Matching(rows, q))
      && (|Matching(rows, q)| > Limit ==> |got| == Limit)
  {
    if q.JArr? then Invalid() else GetByContents(rows, q, fault)
  }

  // ------------------------------------------------------------------
  // Writes, as functions of the state before them
  // ------------------------------------------------------------------

  /** `create(body)` as written. A body rejected before the store answers
      -1; otherwise the batch is one insert: every row goes in with the next
      ids and all are returned, or a unique index rejects the batch and
      nothing changes. An empty batch passes the pre-check, because an empty
      array is truthy, and inserts nothing. */
  function CreateAsWritten(rows: seq<Row>, nextId: int, body: Json, fault: Option<Fault>): (o: Outcome)
    ensures StateValid(rows, nextId) ==> StateValid(o.rows, o.nextId)
    ensures Batch(body).None? ==> o == Outcome(Invalid(), rows, nextId)
    ensures Batch(body).Some? && fault.Some? ==> o == Outcome(Failed(fault.value), rows, nextId)
    ensures Batch(body).Some? && fault.None? ==>
      var added := InsertedRows(nextId, Batch(body).value);
      if TableValid(rows + added) then
        o == Outcome(Found(added), rows + added, nextId + |added|)
      else
        o == Outcome(Conflicted(), rows, nextId)
  {
    match Batch(body)
    case None => Outcome(Invalid(), rows, nextId)
    case Some(batch) =>
      if fault.Some? then Outcome(Failed(fault.value), rows, nextId)
      else
        var added := InsertedRows(nextId, batch);
        if TableValid(rows + added) then
          assert forall i :: 0 <= i < |rows + added| ==>
            (rows + added)[i] == if i < |rows| then rows[i] else added[i - |rows|];
          Outcome(Found(added), rows + added, nextId + |added|)
        else
          Outcome(Conflicted(), rows, nextId)
  }

  /** `create(body)` with the pre-check doing what it is there for: an empty
      batch is rejected with -1 like a missing one. Any other batch goes to
      the store as written. */
  function CreateOutcome(rows: seq<Row>, nextId: int, body: Json, fault: Option<Fault>): (o: Outcome)
    ensures StateValid(rows, nextId) ==> StateValid(o.rows, o.nextId)
    ensures Batch(body).None? || Batch(body) == Some([]) ==> o == Outcome(Invalid(), rows, nextId)
    ensures o.resp.errorCode.None? ==> o.resp.records.Some? && |o.resp.records.value| >= 1
    ensures Batch(body).Some? && Batch(body) != Some([]) ==> o == CreateAsWritten(rows, nextId, body, fault)
  {
    if Batch(body).None? || |Batch(body).value| == 0 then Outcome(Invalid(), rows, nextId)
    else CreateAsWritten(rows, nextId, body, fault)
  }

  /** `updateById(id, body)`. A non-integer id or a body that does not
      parse in update mode answers -1. Otherwise the row with the id takes
      the payload's values and is returned, unless a unique index rejects
      the result, which leaves the table as it was. */
  function UpdateOutcome(rows: seq<Row>, nextId: int, id: Num, body: Json, fault: Option<Fault>): (o: Outcome)
    ensures StateValid(rows, nextId) ==> StateValid(o.rows, o.nextId)
    ensures o.nextId == nextId
    ensures !id.Int? || Parsed(body, false).None? ==> o == Outcome(Invalid(), rows, nextId)
    ensures id.Int? && Parsed(body, false).Some? && fault.Some? ==>
      o == Outcome(Failed(fault.value), rows, nextId)
    ensures id.Int? && Parsed(body, false).Some? && fault.None? ==>
      var updated := UpdateRows(rows, id.n, Parsed(body, false).value);
      if TableValid(updated) then
        o == Outcome(Found(WithId(updated, id.n)), updated, nextId)
      else
        o == Outcome(Conflicted(), rows, nextId)
  {
    var p := Parsed(body, false);
    if !id.Int? || p.None? then Outcome(Invalid(), rows, nextId)
    else if fault.Some? then Outcome(Failed(fault.value), rows, nextId)
    else
      var updated := UpdateRows(rows, id.n, p.value);
      if TableValid(updated) then Outcome(Found(WithId(updated, id.n)), updated, nextId)
      else Outcome(Conflicted(), rows, nextId)
  }

  /** `deleteById(id)`: removes and returns the row with the id. On a store
      failure `recordsArray` is left undefined, read as None here. */
  function DeleteOutcome(rows: seq<Row>, nextId: int, id: Num, fault: Option<Fault>): (o: Outcome)
    ensures StateValid(rows, nextId) ==> StateValid(o.rows, o.nextId)
    ensures o.nextId == nextId
    ensures !id.Int? ==> o == Outcome(Invalid(), rows, nextId)
    ensures id.Int? && fault.Some? ==> o == Outcome(Failed(fault.value), rows, nextId)
    ensures id.Int? && fault.None? ==>
      o == Outcome(Found(WithId(rows, id.n)), WithoutId(rows, id.n), nextId)
  {
    if !id.Int? then Outcome(Invalid(), rows, nextId)
    else if fault.Some? then Outcome(Failed(fault.value), rows, nextId)
    else
      assert TableValid(rows) ==> TableValid(WithoutId(rows, id.n)) by {
        if TableValid(rows) {
          WithoutIdValid(rows, id.n);
        }
      }
      Outcome(Found(WithId(rows, id.n)), WithoutId(rows, id.n), nextId)
  }

  /** The table, and the sequence that hands out its ids. */
  class Dict {
    var rows: seq<Row>
    var nextId: int

    ghost predicate Valid()
      reads this
    {
      StateValid(rows, nextId)
    }

    /** A freshly migrated, empty table. */
    constructor Empty()
      ensures Valid() && rows == [] && nextId == 1
    {
      rows := [];
      nextId := 1;
    }

    /** A table holding the given rows, the sequence standing at `next`. */
    constructor Holding(initial: seq<Row>, next: int)
      requires StateValid(initial, next)
      ensures Valid() && rows == initial && nextId == next
    {
      rows := initial;
      nextId := next;
    }

    /** `create(body)`: a body that is not an array is parsed in insert mode
        and becomes a batch of one; an array is parsed element by element
        and de-duplicated. An empty batch is rejected (see CreateOutcome). */
    method Create(body: Json, fault: Option<Fault>) returns (resp: Response)
      requires Valid()
      modifies this
      ensures Valid()
      ensures Outcome(resp, rows, nextId) == CreateOutcome(old(rows), old(nextId), body, fault)
    {
      var batch: Option<seq<Payload>>;
      if body.JArr? {
        batch := Batch(body);
      } else {
        var p := ParseJsonQuery(body, true);
        batch := if p.Some? then Some([p.value]) else None;
      }
      if batch.None? || |batch.value| == 0 {
        return Invalid();
      }
      if fault.Some? {
        return Failed(fault.value);
      }
      var added := InsertedRows(nextId, batch.value);
      if !TableValid(rows + added) {
        return Conflicted();
      }
      rows := rows + added;
      nextId := nextId + |added|;
      resp := Found(added);
    }

    /** `updateById(id, body)`. */
    method UpdateById(id: Num, body: Json, fault: Option<Fault>) returns (resp: Response)
      requires Valid()
      modifies this
      ensures Valid()
      ensures Outcome(resp, rows, nextId) == UpdateOutcome(old(rows), old(nextId), id, body, fault)
    {
      var p := ParseJsonQuery(body, false);
      if !id.Int? || p.None? {
        return Invalid();
      }
      if fault.Some? {
        return Failed(fault.value);
      }
      var updated := UpdateRows(rows, id.n, p.value);
      if !TableValid(updated) {
        return Conflicted();
      }
      rows := updated;
      resp := Found(WithId(updated, id.n));
    }

    /** `deleteById(id)`. */
    method DeleteById(id: Num, fault: Option<Fault>) returns (resp: Response)
      requires Valid()
      modifies this
      ensures Valid()
      ensures Outcome(resp, rows, nextId) == DeleteOutcome(old(rows), old(nextId), id, fault)
    {
      if !id.Int? {
        return Invalid();
      }
      if fault.Some? {
        return Failed(fault.value);
      }
      WithoutIdValid(rows, id.n);
      resp := Found(WithId(rows, id.n));
      rows := WithoutId(rows, id.n);
    }
  }

  // ------------------------------------------------------------------
  // What several operations do together
  // ------------------------------------------------------------------

  lemma {:induction false} IdsOfValid(rows: seq<Row>, a: Row, b: Row)
    requires IdsUnique(rows) && a in rows && b in rows && a.id == b.id
    ensures a == b
  {
    var i :| 0 <= i < |rows| && rows[i] == a;
    var j :| 0 <= j < |rows| && rows[j] == b;
    assert !(i < j) && !(j < i);
  }

  /** A row of a valid table is exactly what `getById` returns for its id. */
  lemma {:induction false} GetByIdFindsRow(rows: seq<Row>, r: Row)
    requires TableValid(rows) && r in rows
    ensures GetById(rows, Int(r.id), None) == Found([r])
  {
    var got := GetById(rows, Int(r.id), None).records.value;
    assert r in got;
    assert |got| == 1;
    assert got[0] in rows && got[0].id == r.id;
    IdsOfValid(rows, got[0], r);
    assert got == [r];
  }

  /** Every row `create` returns is afterwards what `getById` returns for
      its id. */
  lemma {:induction false} CreateThenGet(rows: seq<Row>, nextId: int, body: Json, k: nat)
    requires StateValid(rows, nextId)
    requires CreateOutcome(rows, nextId, body, None).resp.errorCode == None
    ensures var o := CreateOutcome(rows, nextId, body, None);
      && o.resp.records.Some?
      && (k < |o.resp.records.value| ==>
            GetById(o.rows, Int(o.resp.records.value[k].id), None) == Found([o.resp.records.value[k]]))
  {
    var o := CreateOutcome(rows, nextId, body, None);
    var added := o.resp.records.value;
    if k < |added| {
      assert o.rows == rows + added;
      assert added[k] in o.rows;
      GetByIdFindsRow(o.rows, added[k]);
    }
  }

  /** The rows `updateById` returns are afterwards what `getById` returns
      for the id. */
  lemma UpdateThenGet(rows: seq<Row>, nextId: int, id: Num, body: Json)
    requires StateValid(rows, nextId)
    requires UpdateOutcome(rows, nextId, id, body, None).resp.errorCode == None
    ensures var o := UpdateOutcome(rows, nextId, id, body, None);
      id.Int? && GetById(o.rows, id, None) == o.resp
  {
    var o := UpdateOutcome(rows, nextId, id, body, None);
    AtMostOneWithId(o.rows, id.n);
  }

  /** After `deleteById` the id selects nothing, and a second delete returns
      no rows and leaves the table alone. */
  lemma DeleteThenGet(rows: seq<Row>, nextId: int, n: int)
    requires StateValid(rows, nextId)
    ensures var o := DeleteOutcome(rows, nextId, Int(n), None);
      && GetById(o.rows, Int(n), None) == Found([])
      && DeleteOutcome(o.rows, o.nextId, Int(n), None) == Outcome(Found([]), o.rows, nextId)
  {
    var o := DeleteOutcome(rows, nextId, Int(n), None);
    AtMostOneWithId(o.rows, n);
    NoneWithId(o.rows, n);
  }

  /** An id no row holds selects nothing and deletes nothing. */
  lemma {:induction false} NoneWithId(rows: seq<Row>, n: int)
    requires forall x :: x in rows ==> x.id != n
    ensures WithId(rows, n) == [] && WithoutId(rows, n) == rows
  {
    if rows != [] {
      assert rows[0] in rows;
      assert forall x :: x in rows[1..] ==> x in rows;
      NoneWithId(rows[1..], n);
      assert rows == [rows[0]] + rows[1..];
    }
  }

  /** `updateById` of an id no row holds changes nothing and returns no
      rows. */
  lemma UpdateMissingId(rows: seq<Row>, nextId: int, n: int, body: Json)
    requires StateValid(rows, nextId)
    requires Parsed(body, false).Some?
    requires forall x :: x in rows ==> x.id != n
    ensures UpdateOutcome(rows, nextId, Int(n), body, None) == Outcome(Found([]), rows, nextId)
  {
    var u := UpdateRows(rows, n, Parsed(body, false).value);
    assert u == rows;
    NoneWithId(rows, n);
  }

  /** Writing a row's own values back into it leaves the table as it was,
      so the update succeeds and returns the row. */
  lemma UpdateToOwnValues(rows: seq<Row>, nextId: int, r: Row, body: Json)
    requires StateValid(rows, nextId) && r in rows
    requires Parsed(body, false).Some?
    requires var p := Parsed(body, false).value;
      && ("ja" in p ==> CellOf(p["ja"]) == r.ja)
      && ("en" in p ==> CellOf(p["en"]) == r.en)
    ensures UpdateOutcome(rows, nextId, Int(r.id), body, None) == Outcome(Found([r]), rows, nextId)
  {
    var p := Parsed(body, false).value;
    var u := UpdateRows(rows, r.id, p);
    forall i | 0 <= i < |rows| ensures u[i] == rows[i] {
      if rows[i].id == r.id {
        IdsOfValid(rows, rows[i], r);
      }
    }
    assert u == rows;
    GetByIdFindsRow(rows, r);
  }

  /** An update that gives its row a value another row's unique column
      already holds is rejected, and the table is left as it was. */
  lemma UpdateClash(rows: seq<Row>, nextId: int, r: Row, other: Row, body: Json)
    requires StateValid(rows, nextId) && r in rows && other in rows && other.id != r.id
    requires Parsed(body, false).Some?
    requires var p := Parsed(body, false).value;
      || ("ja" in p && CellOf(p["ja"]).Some? && CellOf(p["ja"]) == other.ja)
      || ("en" in p && CellOf(p["en"]).Some? && CellOf(p["en"]) == other.en)
    ensures UpdateOutcome(rows, nextId, Int(r.id), body, None) == Outcome(Conflicted(), rows, nextId)
  {
    var p := Parsed(body, false).value;
    var u := UpdateRows(rows, r.id, p);
    var i :| 0 <= i < |rows| && rows[i] == r;
    var j :| 0 <= j < |rows| && rows[j] == other;
    assert u[i] == UpdatedRow(r, p) && u[j] == other;
    assert Conflict(u[i], u[j]) && i != j;
    ValidIffNoConflicts(u);
    assert !NoConflicts(u) by {
      if i < j {
        assert !(!Conflict(u[i], u[j]));
      } else {
        assert Conflict(u[j], u[i]);
      }
    }
  }

  /** A batch one of whose rows would repeat an existing row's unique
      column value is rejected whole, and the table is left as it was. */
  lemma CreateClash(rows: seq<Row>, nextId: int, body: Json, k: nat, other: Row)
    requires StateValid(rows, nextId) && other in rows
    requires Batch(body).Some? && k < |Batch(body).value|
    requires var p := Batch(body).value[k];
      || (NewCell(p, "ja").Some? && NewCell(p, "ja") == other.ja)
      || (NewCell(p, "en").Some? && NewCell(p, "en") == other.en)
    ensures CreateOutcome(rows, nextId, body, None) == Outcome(Conflicted(), rows, nextId)
  {
    var added := InsertedRows(nextId, Batch(body).value);
    var t := rows + added;
    var j :| 0 <= j < |rows| && rows[j] == other;
    assert t[j] == other && t[|rows| + k] == added[k];
    assert Conflict(t[j], t[|rows| + k]);
    ValidIffNoConflicts(t);
  }
}
