/** The controller's test cases, stated as contracts over the handlers on
    the table the tests start from: the five fixture rows with the ids 1 to 5,
    the sequence standing at 6. */
module Scenarios {
  import opened Wrappers
  import opened JsValue
  import opened Schema
  import opened Query
  import opened Store
  import opened Controller

  /** The table after the fixtures are inserted. */
  method FixtureTable() returns (d: Dict)
    ensures fresh(d) && d.Valid() && d.rows == Fixtures && d.nextId == 6
  {
    FixturesValid();
    d := new Dict.Holding(Fixtures, 6);
  }

  const NewJa: string := "バレットフィリア達の闇市場"
  const NewEn: string := "Barettofiriatachi no Yami-Ichiba ~ 100th Black Market"

  /** The new pair clashes with no fixture row. */
  lemma NewPairFits()
    ensures TableValid(Fixtures + [Row(6, Some(NewJa), Some(NewEn))])
  {
    FixturesValid();
    var r := Row(6, Some(NewJa), Some(NewEn));
    var f := Fixtures;
    assert |NewJa| == 13 && |NewEn| == 53;
    assert forall i :: 0 <= i < |f| ==> !Conflict(f[i], r);
    ValidSnoc(f, r);
  }

  /** A new `{ja, en}` is created with the next id, and the row the store
      then holds for that id is the one returned. */
  method PostNewPair() returns (created: Reply, fetched: Reply)
    ensures created == Reply(201, Item(Row(6, Some(NewJa), Some(NewEn))))
    ensures fetched == Reply(200, created.body)
  {
    var d := FixtureTable();
    var body := JObj(map["ja" := JStr(NewJa), "en" := JStr(NewEn)]);
    ParsedPair(NewJa, NewEn, true);
    BatchOfObject(body);
    ghost var p := map["ja" := JStr(NewJa), "en" := JStr(NewEn)];
    assert Batch(body) == Some([p]);
    assert InsertedRows(6, [p]) == [Row(6, Some(NewJa), Some(NewEn))];
    NewPairFits();
    PostStatus(Fixtures, 6, body);
    created := PostItem(d, body, None);
    assert d.rows == Fixtures + [Row(6, Some(NewJa), Some(NewEn))];
    GetByPathFindsRow(d.rows, Row(6, Some(NewJa), Some(NewEn)));
    fetched := GetItem(d, IdText(6), None);
  }

  /** `{ja: "相棒"}` repeats the first row's `ja`: 409, nothing inserted. */
  method PostExistingJa() returns (created: Reply, after: seq<Row>)
    ensures created.status == 409
    ensures after == Fixtures
  {
    var d := FixtureTable();
    var body := JObj(map["ja" := JStr("相棒")]);
    KeysAre();
    ParsedOne("ja", "相棒", true);
    BatchOfObject(body);
    assert Batch(body).value[0] == map["ja" := JStr("相棒")];
    assert Fixtures[0] in Fixtures;
    CreateClash(Fixtures, 6, body, 0, Fixtures[0]);
    created := PostItem(d, body, None);
    after := d.rows;
  }

  /** A JSON string and an empty object are both rejected with 400. The
      test sends the string as a form body, so the handler really receives
      `{}`; the string case shows that a bare string, were it delivered as
      the body, would be rejected the same way. */
  method PostInvalidBodies() returns (text: Reply, empty: Reply)
    ensures text.status == 400 && empty.status == 400
  {
    var d := FixtureTable();
    PostStatus(Fixtures, 6, JStr("相棒"));
    text := PostItem(d, JStr("相棒"), None);
    PostStatus(d.rows, d.nextId, JObj(map[]));
    empty := PostItem(d, JObj(map[]), None);
  }

  /** Writing the first row's own values back into it answers 200 with the
      row unchanged. */
  method PatchSameRecord() returns (updated: Reply)
    ensures updated == Reply(200, Item(Fixtures[0]))
  {
    var d := FixtureTable();
    var body := JObj(map["ja" := JStr("相棒"), "en" := JStr("AIBOU: Tokyo Detective Duo")]);
    ParsedPair("相棒", "AIBOU: Tokyo Detective Duo", false);
    IdTextRoundTrip(1);
    assert Fixtures[0] in Fixtures;
    UpdateToOwnValues(Fixtures, 6, Fixtures[0], body);
    updated := PatchItem(d, IdText(1), body, None);
  }

  /** Clearing the first row's `ja` and giving it a new `en` clashes with
      no other row. */
  lemma BlankJaUpdateFits()
    ensures var u := UpdateRows(Fixtures, 1, map["ja" := JNull, "en" := JStr("Party Parrot")]);
      TableValid(u) && u[0] == Row(1, None, Some("Party Parrot"))
  {
    var q := map["ja" := JNull, "en" := JStr("Party Parrot")];
    var row := Row(1, None, Some("Party Parrot"));
    var u := UpdateRows(Fixtures, 1, q);
    var rest := Fixtures[1..];
    assert u == [row] + rest;
    FixturesValid();
    TailValid(Fixtures);
    assert |"Party Parrot"| == 12;
    assert forall i :: 0 <= i < |rest| ==> !Conflict(row, rest[i]);
    ValidCons(row, rest);
  }

  /** `{ja: "", en: "Party Parrot"}` clears `ja` to NULL and sets `en`. */
  method PatchBlankJa() returns (updated: Reply)
    ensures updated == Reply(200, Item(Row(1, None, Some("Party Parrot"))))
  {
    var d := FixtureTable();
    var body := JObj(map["ja" := JStr(""), "en" := JStr("Party Parrot")]);
    NormaliseBlankJa("Party Parrot", false);
    BlankJaUpdateFits();
    assert Fixtures[0] in Fixtures;
    PatchStatus(Fixtures, 6, Int(1), body);
    IdTextRoundTrip(1);
    updated := PatchItem(d, IdText(1), body, None);
  }

  /** Giving the second row the first row's values: 409, the second row is
      still what it was. */
  method PatchOtherIdSameRecord() returns (updated: Reply, fetched: Reply)
    ensures updated.status == 409
    ensures fetched == Reply(200, Item(Row(2, Some("Hunter × Hunter"), Some("Hunter × Hunter"))))
  {
    var d := FixtureTable();
    var body := JObj(map["ja" := JStr("相棒"), "en" := JStr("AIBOU: Tokyo Detective Duo")]);
    ParsedPair("相棒", "AIBOU: Tokyo Detective Duo", false);
    IdTextRoundTrip(2);
    assert Fixtures[0] in Fixtures && Fixtures[1] in Fixtures;
    UpdateClash(Fixtures, 6, Fixtures[1], Fixtures[0], body);
    updated := PatchItem(d, IdText(2), body, None);
    GetByPathFindsRow(d.rows, Fixtures[1]);
    fetched := GetItem(d, IdText(2), None);
  }

  /** Giving the second row only the first row's `ja`: 409 as well. */
  method PatchOtherIdSameJa() returns (updated: Reply, fetched: Reply)
    ensures updated.status == 409
    ensures fetched == Reply(200, Item(Row(2, Some("Hunter × Hunter"), Some("Hunter × Hunter"))))
  {
    var d := FixtureTable();
    var body := JObj(map["ja" := JStr("相棒")]);
    KeysAre();
    ParsedOne("ja", "相棒", false);
    IdTextRoundTrip(2);
    assert Fixtures[0] in Fixtures && Fixtures[1] in Fixtures;
    UpdateClash(Fixtures, 6, Fixtures[1], Fixtures[0], body);
    updated := PatchItem(d, IdText(2), body, None);
    GetByPathFindsRow(d.rows, Fixtures[1]);
    fetched := GetItem(d, IdText(2), None);
  }

  /** An id no row holds is 404, an id that is not a number is 400, and a
      path without an id is 400. */
  method PatchBadIds() returns (missing: Reply, wrongType: Reply, noId: Reply)
    ensures missing.status == 404 && wrongType.status == 400 && noId.status == 400
  {
    var d := FixtureTable();
    var body := JObj(map["ja" := JStr("しんそつ七不思議")]);
    KeysAre();
    ParsedOne("ja", "しんそつ七不思議", false);
    PathExamples();
    PatchStatus(Fixtures, 6, Int(-1), body);
    missing := PatchItem(d, "-1", body, None);
    wrongType := PatchItem(d, "a", JObj(map["ja" := JStr("FX戦士くるみちゃん")]), None);
    noId := IdRequired();
  }

  /** Deleting the second row returns it; afterwards its id finds nothing. */
  method DeleteExisting() returns (deleted: Reply, fetched: Reply)
    ensures deleted == Reply(200, Item(Row(2, Some("Hunter × Hunter"), Some("Hunter × Hunter"))))
    ensures fetched.status == 404
  {
    var d := FixtureTable();
    IdTextRoundTrip(2);
    assert Fixtures[1] in Fixtures;
    DeleteStatus(Fixtures, 6, Int(2));
    deleted := DeleteItem(d, IdText(2), None);
    GetStatus(d.rows, Int(2));
    fetched := GetItem(d, IdText(2), None);
  }

  /** Deleting an id no row holds is 404, a non-numeric id 400. */
  method DeleteBadIds() returns (missing: Reply, wrongType: Reply, noId: Reply)
    ensures missing.status == 404 && wrongType.status == 400 && noId.status == 400
  {
    var d := FixtureTable();
    PathExamples();
    DeleteStatus(Fixtures, 6, Int(-1));
    missing := DeleteItem(d, "-1", None);
    wrongType := DeleteItem(d, "a", None);
    noId := IdRequired();
  }

  /** Reading the second row is 200 with it; -1 is 404; "a" is 400. */
  method GetRows() returns (found: Reply, missing: Reply, wrongType: Reply)
    ensures found == Reply(200, Item(Row(2, Some("Hunter × Hunter"), Some("Hunter × Hunter"))))
    ensures missing.status == 404 && wrongType.status == 400
  {
    var d := FixtureTable();
    assert Fixtures[1] in Fixtures;
    GetByPathFindsRow(Fixtures, Fixtures[1]);
    found := GetItem(d, IdText(2), None);
    PathExamples();
    GetStatus(Fixtures, Int(-1));
    missing := GetItem(d, "-1", None);
    wrongType := GetItem(d, "a", None);
  }
}
