/** The `dict` table: an auto-increment id and two nullable text columns,
    `ja` and `en`, with the unique indexes the migration declares, read with
    PostgreSQL's semantics (a NULL never equals another NULL in a unique
    index, and the empty string is an ordinary value). */
module Schema {
  import opened Wrappers

  /** The names of the two text columns (the model's `Keys`). */
  const Keys: seq<string> := ["ja", "en"]

  lemma KeysAre()
    ensures forall k :: k in Keys <==> k == "ja" || k == "en"
  {
  }

  /** One row of the table. */
  datatype Row = Row(id: int, ja: Option<string>, en: Option<string>) {

    /** The text column with the given name. */
    function Column(key: string): Option<string>
    {
      if key == "ja" then ja else en
    }
  }

  /** `c IS NULL OR c = ''`. */
  predicate Blank(c: Option<string>)
  {
    c == None || c == Some("")
  }

  /** `table.increments()`: the id is the primary key. */
  predicate IdsUnique(rows: seq<Row>)
  {
    forall i, j :: 0 <= i < j < |rows| ==> rows[i].id != rows[j].id
  }

  /** `table.text("ja").unique()`: non-null `ja` values are pairwise distinct. */
  predicate JaUnique(rows: seq<Row>)
  {
    forall i, j :: 0 <= i < j < |rows| && rows[i].ja.Some? ==> rows[i].ja != rows[j].ja
  }

  /** `table.text("en").unique()`: non-null `en` values are pairwise distinct. */
  predicate EnUnique(rows: seq<Row>)
  {
    forall i, j :: 0 <= i < j < |rows| && rows[i].en.Some? ==> rows[i].en != rows[j].en
  }

  /** Index `i_unique_dict` on `(ja, en IS NULL OR en = '')` where `en` is
      blank: among rows with a blank `en`, the non-null `ja` values differ. */
  predicate JaUniqueAmongBlankEn(rows: seq<Row>)
  {
    forall i, j :: 0 <= i < j < |rows| && Blank(rows[i].en) && Blank(rows[j].en) && rows[i].ja.Some? ==>
      rows[i].ja != rows[j].ja
  }

  /** Index `i_unique_dict2` on `(ja IS NULL OR ja = '', en)` where `ja` is
      blank: among rows with a blank `ja`, the non-null `en` values differ. */
  predicate EnUniqueAmongBlankJa(rows: seq<Row>)
  {
    forall i, j :: 0 <= i < j < |rows| && Blank(rows[i].ja) && Blank(rows[j].ja) && rows[i].en.Some? ==>
      rows[i].en != rows[j].en
  }

  /** Index `i_unique_dict3` on two boolean expressions that are never NULL,
      restricted to rows where both columns are blank: at most one such row. */
  predicate AtMostOneBothBlank(rows: seq<Row>)
  {
    forall i, j :: 0 <= i < j < |rows| && Blank(rows[i].ja) && Blank(rows[i].en) ==>
      !(Blank(rows[j].ja) && Blank(rows[j].en))
  }

  /** Every constraint of the table holds. */
  predicate TableValid(rows: seq<Row>)
  {
    && IdsUnique(rows)
    && JaUnique(rows)
    && EnUnique(rows)
    && JaUniqueAmongBlankEn(rows)
    && EnUniqueAmongBlankJa(rows)
    && AtMostOneBothBlank(rows)
  }

  /** Two rows that no valid table can hold together. */
  predicate Conflict(a: Row, b: Row)
  {
    || a.id == b.id
    || (a.ja.Some? && a.ja == b.ja)
    || (a.en.Some? && a.en == b.en)
    || (Blank(a.ja) && Blank(a.en) && Blank(b.ja) && Blank(b.en))
  }

  /** No two rows of the sequence conflict. */
  predicate NoConflicts(rows: seq<Row>)
  {
    forall i, j :: 0 <= i < j < |rows| ==> !Conflict(rows[i], rows[j])
  }

  /** The table's constraints say exactly that no two rows conflict; the two
      partial indexes on one blank column add nothing to the plain unique
      columns. */
  lemma ValidIffNoConflicts(rows: seq<Row>)
    ensures TableValid(rows) <==> NoConflicts(rows)
  {
  }

  /** A row in front of a conflict-free sequence keeps it conflict-free
      exactly when it conflicts with none of the others. */
  lemma {:induction false} NoConflictsCons(r: Row, s: seq<Row>)
    ensures NoConflicts([r] + s) <==> NoConflicts(s) && forall x :: x in s ==> !Conflict(r, x)
  {
    var t := [r] + s;
    assert forall i :: 0 <= i < |s| ==> t[i + 1] == s[i];
    if NoConflicts(t) {
      forall x | x in s ensures !Conflict(r, x) {
        var k :| 0 <= k < |s| && s[k] == x;
        assert t[0] == r && t[k + 1] == x;
      }
    }
  }

  /** A row in front of a valid table keeps it valid exactly when it
      conflicts with none of the others. */
  lemma ValidCons(r: Row, s: seq<Row>)
    ensures TableValid([r] + s) <==> TableValid(s) && forall x :: x in s ==> !Conflict(r, x)
  {
    ValidIffNoConflicts([r] + s);
    ValidIffNoConflicts(s);
    NoConflictsCons(r, s);
  }

  /** A row appended to a valid table keeps it valid when it conflicts with
      none of the rows already there. */
  lemma {:induction false} ValidSnoc(rows: seq<Row>, r: Row)
    requires TableValid(rows)
    requires forall x :: x in rows ==> !Conflict(x, r)
    ensures TableValid(rows + [r])
  {
    var t := rows + [r];
    ValidIffNoConflicts(rows);
    forall i, j | 0 <= i < j < |t| ensures !Conflict(t[i], t[j]) {
      assert t[i] == rows[i];
      if j < |rows| {
        assert t[j] == rows[j];
      } else {
        assert t[j] == r && rows[i] in rows;
      }
    }
    assert NoConflicts(t);
    ValidIffNoConflicts(t);
  }

  /** Dropping the first row keeps a table valid. */
  lemma TailValid(rows: seq<Row>)
    requires TableValid(rows) && rows != []
    ensures TableValid(rows[1..])
  {
    assert rows == [rows[0]] + rows[1..];
    ValidCons(rows[0], rows[1..]);
  }

  /** `WHERE id = n`: the rows with the given id, in table order. */
  function WithId(rows: seq<Row>, n: int): (r: seq<Row>)
    ensures forall x :: x in r <==> x in rows && x.id == n
  {
    if rows == [] then []
    else (if rows[0].id == n then [rows[0]] else []) + WithId(rows[1..], n)
  }

  /** The rows that a `WHERE id = n` delete leaves, in table order. */
  function WithoutId(rows: seq<Row>, n: int): (r: seq<Row>)
    ensures forall x :: x in r <==> x in rows && x.id != n
    ensures |r| + |WithId(rows, n)| == |rows|
  {
    if rows == [] then []
    else (if rows[0].id == n then [] else [rows[0]]) + WithoutId(rows[1..], n)
  }

  /** Ids are unique, so an id selects at most one row of a valid table. */
  lemma {:induction false} AtMostOneWithId(rows: seq<Row>, n: int)
    requires TableValid(rows)
    ensures |WithId(rows, n)| <= 1
    ensures |WithId(rows, n)| == 1 <==> exists x :: x in rows && x.id == n
  {
    if rows != [] {
      assert rows == [rows[0]] + rows[1..];
      ValidCons(rows[0], rows[1..]);
      AtMostOneWithId(rows[1..], n);
    }
  }

  /** Deleting rows keeps every constraint. */
  lemma {:induction false} WithoutIdValid(rows: seq<Row>, n: int)
    requires TableValid(rows)
    ensures TableValid(WithoutId(rows, n))
  {
    if rows != [] {
      assert rows == [rows[0]] + rows[1..];
      ValidCons(rows[0], rows[1..]);
      WithoutIdValid(rows[1..], n);
      if rows[0].id != n {
        ValidCons(rows[0], WithoutId(rows[1..], n));
      }
    }
  }

  /** The five rows of the test fixtures and the seed, with the ids 1 to 5. */
  const Fixtures: seq<Row> := [
    Row(1, Some("相棒"), Some("AIBOU: Tokyo Detective Duo")),
    Row(2, Some("Hunter × Hunter"), Some("Hunter × Hunter")),
    Row(3, None, Some("Homestuck")),
    Row(4, Some("世界制服をたくらむモララー"), None),
    Row(5, Some(""), Some(""))
  ]

  /** The fixture rows satisfy every constraint of the table. */
  lemma FixturesValid()
    ensures TableValid(Fixtures)
  {
    var f := Fixtures;
    assert f[0].ja != f[1].ja && f[0].ja != f[3].ja && f[0].ja != f[4].ja && f[1].ja != f[3].ja;
    assert f[1].ja != f[4].ja && f[3].ja != f[4].ja;
    assert f[0].en != f[1].en && f[0].en != f[2].en && f[0].en != f[4].en && f[1].en != f[2].en;
    assert f[1].en != f[4].en && f[2].en != f[4].en;
    assert NoConflicts(f);
    ValidIffNoConflicts(f);
  }
}
