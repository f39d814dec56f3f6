/** The HTTP layer: how each route turns the model's answer
    `{recordsArray, errorCode, errorMsg}` into a status code and a JSON
    body, and how a path parameter is checked and read as an id. */
module Controller {
  import opened Wrappers
  import opened JsValue
  import opened Schema
  import opened Query
  import opened Store

  const InvalidBodyMessage: string := "Request Body is invalid."
  const DuplicateMessage: string := "Already nserted record is specified."
  const NotFoundMessage: string := "Record Not Found"
  const BrokenRecordMessage: string := "DB error occured: Record not found (something is wrong)."
  const NoKeysMessage: string :=
    "DB error occured: Any keys except ID of inserted record not found. (something is wrong)"
  const BadPathMessage: string := "Path Parameter is invalid."
  const IdRequiredMessage: string := "ID is required."

  /** `{resultCode, msg}` of the two checking helpers. */
  datatype Verdict = Verdict(resultCode: int, msg: Option<string>)

  /** A JSON response body: the `{id, ja, en}` of a record, or `{msg}`. */
  datatype Body = Item(row: Row) | Message(msg: string)

  datatype Reply = Reply(status: int, body: Body)

  // ------------------------------------------------------------------
  // Records as JavaScript objects
  // ------------------------------------------------------------------

  function CellJson(c: Option<string>): Json
  {
    if c.Some? then JStr(c.value) else JNull
  }

  /** A row as the driver hands it over: an object with the table's columns. */
  function RecordObject(r: Row): (o: map<string, Json>)
    ensures o.Keys == {"id", "ja", "en"}
  {
    map["id" := JNum(r.id), "ja" := CellJson(r.ja), "en" := CellJson(r.en)]
  }

  /** The test `!"id" in record`: `!` binds first, so it asks whether the
      object has a key named "false". */
  predicate FlagsMissingId(record: map<string, Json>)
  {
    "false" in record
  }

  /** `${m}` for a message that may be null. */
  function MessageText(m: Option<string>): string
  {
    if m.Some? then m.value else "null"
  }

  // ------------------------------------------------------------------
  // parseModelResponse and parseResponseJson
  // ------------------------------------------------------------------

  /** What `parseModelResponse` decides: a code wins over the records; -1 is
      a bad request, 23505 a conflict, any other code a server error; with
      no code, an absent or empty record list is "not found". */
  function ModelVerdict(records: Option<seq<Row>>, errorCode: Option<int>, errorMsg: Option<string>): (v: Verdict)
    ensures v.resultCode == 0 <==> errorCode.None? && records.Some? && |records.value| >= 1
    ensures v.resultCode == 400 <==> errorCode == Some(InvalidQuery)
    ensures v.resultCode == 409 <==> errorCode == Some(UniqueViolation)
    ensures v.resultCode == 404 <==> errorCode.None? && (records.None? || |records.value| == 0)
    ensures v.resultCode == 500 <==>
      errorCode.Some? && errorCode.value != InvalidQuery && errorCode.value != UniqueViolation
    ensures v.resultCode == 0 <==> v.msg.None?
    ensures v.resultCode == 500 ==> v.msg == Some("DB error occured: " + MessageText(errorMsg))
  {
    match errorCode
    case Some(c) =>
      if c == InvalidQuery then Verdict(400, Some(InvalidBodyMessage))
      else if c == UniqueViolation then Verdict(409, Some(DuplicateMessage))
      else Verdict(500, Some("DB error occured: " + MessageText(errorMsg)))
    case None =>
      if records.None? || |records.value| < 1 then Verdict(404, Some(NotFoundMessage))
      else if exists j :: 0 <= j < |records.value| && FlagsMissingId(RecordObject(records.value[j])) then
        Verdict(404, Some(BrokenRecordMessage))
      else Verdict(0, None)
  }

  /** `parseModelResponse(recordsArray, errorCode, errorMsg)`. */
  method ParseModelResponse(records: Option<seq<Row>>, errorCode: Option<int>, errorMsg: Option<string>)
    returns (v: Verdict)
    ensures v == ModelVerdict(records, errorCode, errorMsg)
  {
    v := Verdict(0, None);
    if errorCode.Some? {
      var c := errorCode.value;
      if c == InvalidQuery {
        return Verdict(400, Some(InvalidBodyMessage));
      } else if c == UniqueViolation {
        return Verdict(409, Some(DuplicateMessage));
      }
      return Verdict(500, Some("DB error occured: " + MessageText(errorMsg)));
    }
    if records.None? || |records.value| < 1 {
      return Verdict(404, Some(NotFoundMessage));
    }
    var recs := records.value;
    for i := 0 to |recs|
      invariant v == if exists j :: 0 <= j < i && FlagsMissingId(RecordObject(recs[j]))
                     then Verdict(404, Some(BrokenRecordMessage)) else Verdict(0, None)
    {
      v := if FlagsMissingId(RecordObject(recs[i])) then Verdict(404, Some(BrokenRecordMessage)) else v;
    }
  }

  /** What `parseResponseJson` decides: a record must hold one of the
      table's text columns. */
  function ResponseJsonVerdict(record: map<string, Json>): (v: Verdict)
    ensures v.resultCode == 0 <==> exists k :: k in Keys && k in record
    ensures v.resultCode == 0 || v == Verdict(500, Some(NoKeysMessage))
  {
    if "ja" in record || "en" in record then Verdict(0, None) else Verdict(500, Some(NoKeysMessage))
  }

  /** `parseResponseJson(record)`. */
  method ParseResponseJson(record: map<string, Json>) returns (v: Verdict)
    ensures v == ResponseJsonVerdict(record)
  {
    var insertModeEnabled := false;
    for i := 0 to |Keys|
      invariant insertModeEnabled <==> exists j :: 0 <= j < i && Keys[j] in record
    {
      if Keys[i] in record {
        insertModeEnabled := true;
      }
    }
    if !insertModeEnabled {
      return Verdict(500, Some(NoKeysMessage));
    }
    v := Verdict(0, None);
  }

  /** Neither check can fail on a row the store returns: every row carries
      both text columns and no key named "false". */
  lemma RecordChecksPass(r: Row)
    ensures !FlagsMissingId(RecordObject(r))
    ensures ResponseJsonVerdict(RecordObject(r)).resultCode == 0
  {
    assert "ja" in Keys && "ja" in RecordObject(r);
  }

  // ------------------------------------------------------------------
  // The path parameter
  // ------------------------------------------------------------------

  predicate IsDigit(c: char)
  {
    '0' <= c <= '9'
  }

  predicate AllDigits(s: string)
  {
    forall i :: 0 <= i < |s| ==> IsDigit(s[i])
  }

  /** `/^[-]?\d*$/.test(s)`: an optional minus sign, then only digits. */
  predicate IdPattern(s: string)
  {
    AllDigits(s) || (|s| >= 1 && s[0] == '-' && AllDigits(s[1..]))
  }

  /** The number a string of decimal digits denotes. */
  function DigitsValue(s: string): nat
    requires AllDigits(s)
  {
    if s == [] then 0 else DigitsValue(s[..|s| - 1]) * 10 + (s[|s| - 1] - '0') as int
  }

  /** `Number(s)` for the strings the pattern lets through: the empty string
      is 0, a lone minus sign is NaN. Strings the pattern rejects never reach
      it and are all given NonInteger here. */
  function PathNumber(s: string): (n: Num)
    ensures n.Int? ==> IdPattern(s)
    ensures IdPattern(s) && s != "-" ==> n.Int?
    ensures AllDigits(s) ==> n == Int(DigitsValue(s))
    ensures |s| >= 2 && s[0] == '-' && AllDigits(s[1..]) ==> n == Int(-(DigitsValue(s[1..]) as int))
  {
    if AllDigits(s) then Int(DigitsValue(s))
    else if |s| >= 2 && s[0] == '-' && AllDigits(s[1..]) then Int(-(DigitsValue(s[1..]) as int))
    else NonInteger
  }

  /** How a client writes an id into a path: `${id}`. */
  function IdText(n: int): string
  {
    ToText(JNum(n))
  }

  lemma {:induction false} NatTextValue(n: nat)
    ensures AllDigits(NatText(n)) && DigitsValue(NatText(n)) == n
    decreases n
  {
    var s := NatText(n);
    if n >= 10 {
      NatTextValue(n / 10);
      assert s[..|s| - 1] == NatText(n / 10);
    }
  }

  /** Every id, written into a path, passes the pattern and is read back as
      itself. */
  lemma IdTextRoundTrip(n: int)
    ensures IdPattern(IdText(n)) && PathNumber(IdText(n)) == Int(n)
  {
    if n < 0 {
      NatTextValue(-n);
      var s := IdText(n);
      assert s[1..] == NatText(-n);
      assert !AllDigits(s) by { assert !IsDigit(s[0]); }
    } else {
      NatTextValue(n);
    }
  }

  /** The cases of the pattern the tests exercise. */
  lemma PathExamples()
    ensures !IdPattern("a")
    ensures IdPattern("-1") && PathNumber("-1") == Int(-1)
    ensures IdPattern("-") && PathNumber("-") == NonInteger
    ensures IdPattern("") && PathNumber("") == Int(0)
  {
    assert !IsDigit("a"[0]);
    assert !IsDigit("-1"[0]);
    assert "-1"[1..] == "1";
    assert DigitsValue("1") == 1 by { assert "1"[..0] == ""; }
    assert !IsDigit("-"[0]);
  }

  // ------------------------------------------------------------------
  // Routes
  // ------------------------------------------------------------------

  /** `${errorMsg}` after "DB error occured: " when the message is truthy. */
  function DbErrorText(m: Option<string>): string
  {
    if m.Some? && m.value != "" then "DB error occured: " + m.value else "DB error occured}"
  }

  function BadPath(): Reply
  {
    Reply(400, Message(BadPathMessage))
  }

  /** `PATCH /item` and `DELETE /item`: an id is required. */
  function IdRequired(): Reply
  {
    Reply(400, Message(IdRequiredMessage))
  }

  /** `POST /item` after the model answered: a conflict or a bad body keep
      their codes, no records is a server error here, success is 201 with
      the first created record. */
  function PostReply(resp: Response): (r: Reply)
    ensures r.status in {201, 400, 409, 500}
    ensures r.status == 400 <==> resp.errorCode == Some(InvalidQuery)
    ensures r.status == 409 <==> resp.errorCode == Some(UniqueViolation)
    ensures r.status == 201 <==> resp.errorCode.None? && resp.records.Some? && |resp.records.value| >= 1
    ensures r.status == 201 ==> r.body == Item(resp.records.value[0])
  {
    var v := ModelVerdict(resp.records, resp.errorCode, resp.errorMsg);
    if v.resultCode == 404 then Reply(500, Message(DbErrorText(resp.errorMsg)))
    else if v.resultCode != 0 then Reply(v.resultCode, Message(v.msg.value))
    else
      var first := resp.records.value[0];
      RecordChecksPass(first);
      var v2 := ResponseJsonVerdict(RecordObject(first));
      if v2.resultCode != 0 then Reply(v2.resultCode, Message(v2.msg.GetOr("")))
      else Reply(201, Item(first))
  }

  /** `PATCH /item/:id` after the model answered: every code of
      `parseModelResponse` is the status, success is 200 with the first
      updated record. */
  function PatchReply(resp: Response): (r: Reply)
    ensures r.status in {200, 400, 404, 409, 500}
    ensures r.status == 400 <==> resp.errorCode == Some(InvalidQuery)
    ensures r.status == 409 <==> resp.errorCode == Some(UniqueViolation)
    ensures r.status == 404 <==> resp.errorCode.None? && (resp.records.None? || |resp.records.value| == 0)
    ensures r.status == 200 <==> resp.errorCode.None? && resp.records.Some? && |resp.records.value| >= 1
    ensures r.status == 200 ==> r.body == Item(resp.records.value[0])
  {
    var v := ModelVerdict(resp.records, resp.errorCode, resp.errorMsg);
    if v.resultCode != 0 then Reply(v.resultCode, Message(v.msg.value))
    else
      var first := resp.records.value[0];
      RecordChecksPass(first);
      var v2 := ResponseJsonVerdict(RecordObject(first));
      if v2.resultCode != 0 then Reply(v2.resultCode, Message(v2.msg.GetOr("")))
      else Reply(200, Item(first))
  }

  /** `DELETE /item/:id` and `GET /item/:id` after the model answered: a
      conflict code, which neither can produce, is a server error; the
      other codes are the status; success is 200 with the first record. */
  function ReadReply(resp: Response): (r: Reply)
    ensures r.status in {200, 400, 404, 500}
    ensures r.status == 400 <==> resp.errorCode == Some(InvalidQuery)
    ensures r.status == 404 <==> resp.errorCode.None? && (resp.records.None? || |resp.records.value| == 0)
    ensures r.status == 200 <==> resp.errorCode.None? && resp.records.Some? && |resp.records.value| >= 1
    ensures r.status == 200 ==> r.body == Item(resp.records.value[0])
  {
    var v := ModelVerdict(resp.records, resp.errorCode, resp.errorMsg);
    if v.resultCode == 409 then Reply(500, Message(DbErrorText(resp.errorMsg)))
    else if v.resultCode != 0 then Reply(v.resultCode, Message(v.msg.value))
    else Reply(200, Item(resp.records.value[0]))
  }

  /** The `POST /item` handler. */
  method PostItem(d: Dict, body: Json, fault: Option<Fault>) returns (reply: Reply)
    requires d.Valid()
    modifies d
    ensures d.Valid()
    ensures var o := CreateOutcome(old(d.rows), old(d.nextId), body, fault);
      reply == PostReply(o.resp) && d.rows == o.rows && d.nextId == o.nextId
  {
    var resp := d.Create(body, fault);
    var v := ParseModelResponse(resp.records, resp.errorCode, resp.errorMsg);
    if v.resultCode == 404 {
      return Reply(500, Message(DbErrorText(resp.errorMsg)));
    } else if v.resultCode != 0 {
      return Reply(v.resultCode, Message(v.msg.value));
    }
    var first := resp.records.value[0];
    var v2 := ParseResponseJson(RecordObject(first));
    reply := if v2.resultCode != 0 then Reply(v2.resultCode, Message(v2.msg.GetOr(""))) else Reply(201, Item(first));
  }

  /** The `PATCH /item/:id` handler. */
  method PatchItem(d: Dict, param: string, body: Json, fault: Option<Fault>) returns (reply: Reply)
    requires d.Valid()
    modifies d
    ensures d.Valid()
    ensures !IdPattern(param) ==> reply == BadPath() && d.rows == old(d.rows) && d.nextId == old(d.nextId)
    ensures IdPattern(param) ==>
      var o := UpdateOutcome(old(d.rows), old(d.nextId), PathNumber(param), body, fault);
      reply == PatchReply(o.resp) && d.rows == o.rows && d.nextId == o.nextId
  {
    if !IdPattern(param) {
      return BadPath();
    }
    var resp := d.UpdateById(PathNumber(param), body, fault);
    var v := ParseModelResponse(resp.records, resp.errorCode, resp.errorMsg);
    if v.resultCode != 0 {
      return Reply(v.resultCode, Message(v.msg.value));
    }
    var first := resp.records.value[0];
    var v2 := ParseResponseJson(RecordObject(first));
    reply := if v2.resultCode != 0 then Reply(v2.resultCode, Message(v2.msg.GetOr(""))) else Reply(200, Item(first));
  }

  /** The `DELETE /item/:id` handler. */
  method DeleteItem(d: Dict, param: string, fault: Option<Fault>) returns (reply: Reply)
    requires d.Valid()
    modifies d
    ensures d.Valid()
    ensures !IdPattern(param) ==> reply == BadPath() && d.rows == old(d.rows) && d.nextId == old(d.nextId)
    ensures IdPattern(param) ==>
      var o := DeleteOutcome(old(d.rows), old(d.nextId), PathNumber(param), fault);
      reply == ReadReply(o.resp) && d.rows == o.rows && d.nextId == o.nextId
  {
    if !IdPattern(param) {
      return BadPath();
    }
    var resp := d.DeleteById(PathNumber(param), fault);
    var v := ParseModelResponse(resp.records, resp.errorCode, resp.errorMsg);
    if v.resultCode == 409 {
      return Reply(500, Message(DbErrorText(resp.errorMsg)));
    } else if v.resultCode != 0 {
      return Reply(v.resultCode, Message(v.msg.value));
    }
    reply := Reply(200, Item(resp.records.value[0]));
  }

  /** The `GET /item/:id` handler. */
  method GetItem(d: Dict, param: string, fault: Option<Fault>) returns (reply: Reply)
    requires d.Valid()
    ensures !IdPattern(param) ==> reply == BadPath()
    ensures IdPattern(param) ==> reply == ReadReply(GetById(d.rows, PathNumber(param), fault))
  {
    if !IdPattern(param) {
      return BadPath();
    }
    var resp := GetById(d.rows, PathNumber(param), fault);
    var v := ParseModelResponse(resp.records, resp.errorCode, resp.errorMsg);
    if v.resultCode == 409 {
      return Reply(500, Message(DbErrorText(resp.errorMsg)));
    } else if v.resultCode != 0 {
      return Reply(v.resultCode, Message(v.msg.value));
    }
    reply := Reply(200, Item(resp.records.value[0]));
  }

  // ------------------------------------------------------------------
  // Each route's status, from the table before the request
  // ------------------------------------------------------------------

  /** `POST /item`: 400 for a body rejected before the store or an empty
      batch, 409 when a unique index rejects the batch, otherwise 201 with
      the first new row, which has the next id. */
  lemma PostStatus(rows: seq<Row>, nextId: int, body: Json)
    requires StateValid(rows, nextId)
    ensures var r := PostReply(CreateOutcome(rows, nextId, body, None).resp);
      && (Batch(body).None? || Batch(body) == Some([]) ==> r.status == 400)
      && (Batch(body).Some? && |Batch(body).value| > 0 ==>
            var added := InsertedRows(nextId, Batch(body).value);
            if TableValid(rows + added) then
              r == Reply(201, Item(added[0])) && added[0].id == nextId
            else
              r.status == 409)
  {
  }

  /** An array body with no valid element, `[]` included. As written, the
      pre-check lets the empty batch through, the insert adds nothing, and
      POST answers 500; with the pre-check doing its job it answers 400. */
  lemma NoValidElement(rows: seq<Row>, nextId: int, items: seq<Json>)
    requires StateValid(rows, nextId)
    requires forall i :: 0 <= i < |items| ==> Parsed(items[i], true).None?
    ensures Batch(JArr(items)) == Some([])
    ensures CreateAsWritten(rows, nextId, JArr(items), None) == Outcome(Found([]), rows, nextId)
    ensures PostReply(CreateAsWritten(rows, nextId, JArr(items), None).resp).status == 500
    ensures PostReply(CreateOutcome(rows, nextId, JArr(items), None).resp).status == 400
  {
    EmptyBatch(items);
    assert rows + InsertedRows(nextId, []) == rows;
  }

  /** Every row of a valid table lies in an updated table at the same place,
      so the id selects exactly the updated row. */
  lemma {:induction false} UpdatedRowSelected(rows: seq<Row>, x: Row, p: Payload)
    requires x in rows && TableValid(UpdateRows(rows, x.id, p))
    ensures WithId(UpdateRows(rows, x.id, p), x.id) == [UpdatedRow(x, p)]
  {
    var u := UpdateRows(rows, x.id, p);
    var i :| 0 <= i < |rows| && rows[i] == x;
    assert u[i] == UpdatedRow(x, p) && u[i] in u;
    AtMostOneWithId(u, x.id);
    var w := WithId(u, x.id);
    assert UpdatedRow(x, p) in w;
    assert |w| == 1 && w[0] in w;
  }

  /** `PATCH /item/:id` once the id passed the pattern: 400 for a
      non-integer id or a body without a recognised key, 404 for an id no
      row holds, 409 when a unique index rejects the new values, otherwise
      200 with the updated row. */
  lemma PatchStatus(rows: seq<Row>, nextId: int, id: Num, body: Json)
    requires StateValid(rows, nextId)
    ensures var r := PatchReply(UpdateOutcome(rows, nextId, id, body, None).resp);
      && (!id.Int? || Parsed(body, false).None? ==> r.status == 400)
      && (id.Int? && Parsed(body, false).Some? ==>
            var p := Parsed(body, false).value;
            && ((forall x :: x in rows ==> x.id != id.n) ==> r.status == 404)
            && (forall x :: x in rows && x.id == id.n ==>
                  if TableValid(UpdateRows(rows, id.n, p)) then r == Reply(200, Item(UpdatedRow(x, p)))
                  else r.status == 409))
  {
    if id.Int? && Parsed(body, false).Some? {
      var p := Parsed(body, false).value;
      if forall x :: x in rows ==> x.id != id.n {
        UpdateMissingId(rows, nextId, id.n, body);
      }
      forall x | x in rows && x.id == id.n && TableValid(UpdateRows(rows, id.n, p))
        ensures PatchReply(UpdateOutcome(rows, nextId, id, body, None).resp) == Reply(200, Item(UpdatedRow(x, p)))
      {
        UpdatedRowSelected(rows, x, p);
      }
    }
  }

  /** `DELETE /item/:id` once the id passed the pattern: 400 for a
      non-integer id, 404 for an id no row holds, otherwise 200 with the
      row, which the table no longer holds. */
  lemma DeleteStatus(rows: seq<Row>, nextId: int, id: Num)
    requires StateValid(rows, nextId)
    ensures var o := DeleteOutcome(rows, nextId, id, None); var r := ReadReply(o.resp);
      && (!id.Int? ==> r.status == 400 && o.rows == rows)
      && (id.Int? && (forall x :: x in rows ==> x.id != id.n) ==> r.status == 404 && o.rows == rows)
      && (forall x :: x in rows && id.Int? && x.id == id.n ==>
            r == Reply(200, Item(x)) && x !in o.rows && |o.rows| == |rows| - 1)
  {
    if id.Int? {
      if forall x :: x in rows ==> x.id != id.n {
        NoneWithId(rows, id.n);
      }
      forall x | x in rows && x.id == id.n
        ensures WithId(rows, id.n) == [x]
      {
        GetByIdFindsRow(rows, x);
      }
    }
  }

  /** `GET /item/:id` once the id passed the pattern: 400 for a non-integer
      id, 404 for an id no row holds, otherwise 200 with the row. */
  lemma GetStatus(rows: seq<Row>, id: Num)
    requires TableValid(rows)
    ensures var r := ReadReply(GetById(rows, id, None));
      && (!id.Int? ==> r.status == 400)
      && (id.Int? && (forall x :: x in rows ==> x.id != id.n) ==> r.status == 404)
      && (forall x :: x in rows && id.Int? && x.id == id.n ==> r == Reply(200, Item(x)))
  {
    if id.Int? {
      if forall x :: x in rows ==> x.id != id.n {
        NoneWithId(rows, id.n);
      }
      forall x | x in rows && x.id == id.n
        ensures ReadReply(GetById(rows, id, None)) == Reply(200, Item(x))
      {
        GetByIdFindsRow(rows, x);
      }
    }
  }

  /** Requesting any row by its id written into the path answers 200 with
      that row. */
  lemma GetByPathFindsRow(rows: seq<Row>, x: Row)
    requires TableValid(rows) && x in rows
    ensures IdPattern(IdText(x.id))
    ensures ReadReply(GetById(rows, PathNumber(IdText(x.id)), None)) == Reply(200, Item(x))
  {
    IdTextRoundTrip(x.id);
    GetByIdFindsRow(rows, x);
  }
}
