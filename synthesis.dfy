/**
 * `process_binlogevent`: the SQL written for each row of a row-change
 * event, with its rollback, and the records it queues.
 */
module Synthesis {
  import opened Common
  import opened Values
  import opened SqlText
  import opened Results

  datatype Kind = Insert | Update | Delete

  /** A row image as decoded: column name and raw value, in table-definition order. */
  type RawImage = seq<(string, PyValue)>

  /** The rows of a `WriteRowsEvent`, an `UpdateRowsEvent` or a `DeleteRowsEvent`. */
  datatype Rows =
    | WriteRows(values: seq<RawImage>)
    | UpdateRows(changes: seq<(RawImage, RawImage)>)
    | DeleteRows(values: seq<RawImage>)

  datatype Event = Event(schema: string, table: string, timestamp: int, rows: Rows)

  function KindOf(e: Event): Kind {
    match e.rows
    case WriteRows(_) => Insert
    case UpdateRows(_) => Update
    case DeleteRows(_) => Delete
  }

  function RowCount(e: Event): nat {
    match e.rows
    case WriteRows(vs) => |vs|
    case UpdateRows(cs) => |cs|
    case DeleteRows(vs) => |vs|
  }

  function KindName(k: Kind): string {
    match k
    case Insert => "insert"
    case Update => "update"
    case Delete => "delete"
  }

  /** The `only_operation` restriction: unset, or one kind of event. */
  datatype OpFilter = AnyOperation | OnlyOperation(kind: Kind)

  predicate Admits(f: OpFilter, k: Kind) {
    f.AnyOperation? || f.kind == k
  }

  /** One character lower-cased, when it is one of `A` to `Z`. */
  function AsciiLowerChar(c: char): char {
    if 'A' <= c <= 'Z' then (c as int + 32) as char else c
  }

  /** `s.lower()` on the letters `A` to `Z` only; every other character is kept. */
  function AsciiLower(s: string): (r: string)
    ensures |r| == |s|
  {
    if s == [] then ""
    else [AsciiLowerChar(s[0])] + AsciiLower(s[1..])
  }

  predicate IsAscii(s: string) {
    forall i :: 0 <= i < |s| ==> s[i] as int < 128
  }

  /** Lower-casing character by character, with `lower` giving each character's lower-case form. */
  function LowerWith(lower: char -> string, s: string): string {
    if s == [] then "" else lower(s[0]) + LowerWith(lower, s[1..])
  }

  /**
   * What the argument needs of Python's `str.lower()`: ASCII characters
   * lower as `AsciiLowerChar` does, and a character outside ASCII lowers
   * to a text holding a character outside ASCII, except U+212A KELVIN SIGN,
   * which lowers to `k`.
   */
  predicate LowersLikePython(lower: char -> string) {
    && (forall c: char :: c as int < 128 ==> lower(c) == [AsciiLowerChar(c)])
    && (forall c: char :: c as int >= 128 ==> lower(c) == "k" || !IsAscii(lower(c)))
  }

  /**
   * Lowering only `A` to `Z` decides the `only_operation` check as the full
   * lowering does: a value lowers to the name of an operation under one
   * exactly when it does under the other.
   */
  lemma LowerAgreesOnOperationNames(lower: char -> string, s: string, k: Kind)
    requires LowersLikePython(lower)
    ensures LowerWith(lower, s) == KindName(k) <==> AsciiLower(s) == KindName(k)
  {
    var name := KindName(k);
    assert IsAscii(name) && forall i :: 0 <= i < |name| ==> name[i] != 'k';
    if LowerWith(lower, s) == name {
      LoweredAsciiComesFromAscii(lower, s);
      LowerAsciiText(lower, s);
    }
    if AsciiLower(s) == name {
      AsciiLowerKeepsOthers(s);
      LowerAsciiText(lower, s);
    }
  }

  /** On ASCII text the two lowerings agree. */
  lemma {:induction false} LowerAsciiText(lower: char -> string, s: string)
    requires LowersLikePython(lower) && IsAscii(s)
    ensures LowerWith(lower, s) == AsciiLower(s)
  {
    if s != [] {
      assert IsAscii(s[1..]) by {
        forall i | 0 <= i < |s[1..]| ensures s[1..][i] as int < 128 {
          assert s[1..][i] == s[i + 1];
        }
      }
      LowerAsciiText(lower, s[1..]);
    }
  }

  /** Text whose full lowering is ASCII without a `k` was ASCII already. */
  lemma {:induction false} LoweredAsciiComesFromAscii(lower: char -> string, s: string)
    requires LowersLikePython(lower)
    requires IsAscii(LowerWith(lower, s)) && forall i :: 0 <= i < |LowerWith(lower, s)| ==> LowerWith(lower, s)[i] != 'k'
    ensures IsAscii(s)
  {
    if s != [] {
      var head, tail := lower(s[0]), LowerWith(lower, s[1..]);
      assert LowerWith(lower, s) == head + tail;
      forall i | 0 <= i < |head| ensures head[i] as int < 128 && head[i] != 'k' {
        assert (head + tail)[i] == head[i];
      }
      forall i | 0 <= i < |tail| ensures tail[i] as int < 128 && tail[i] != 'k' {
        assert (head + tail)[|head| + i] == tail[i];
      }
      assert head != "k" by {
        assert |head| == 0 || head[0] != 'k';
      }
      assert s[0] as int < 128;
      LoweredAsciiComesFromAscii(lower, s[1..]);
      forall i | 0 <= i < |s| ensures s[i] as int < 128 {
        if i > 0 {
          assert s[i] == s[1..][i - 1];
        }
      }
    }
  }

  /** Text whose `AsciiLower` is ASCII was ASCII already: characters outside ASCII are kept. */
  lemma {:induction false} AsciiLowerKeepsOthers(s: string)
    requires IsAscii(AsciiLower(s))
    ensures IsAscii(s)
  {
    if s != [] {
      assert AsciiLower(s)[0] == AsciiLowerChar(s[0]);
      assert IsAscii(AsciiLower(s[1..])) by {
        forall i | 0 <= i < |s| - 1 ensures AsciiLower(s[1..])[i] as int < 128 {
          assert AsciiLower(s)[i + 1] == AsciiLower(s[1..])[i];
        }
      }
      AsciiLowerKeepsOthers(s[1..]);
      forall i | 0 <= i < |s| ensures s[i] as int < 128 {
        if i > 0 {
          assert s[i] == s[1..][i - 1];
        }
      }
    }
  }

  /**
   * The command-line check on `only_operation`: an absent or empty value
   * sets no restriction; otherwise its lower-case form must be one of
   * insert, delete or update, and anything else ends the run (`None`).
   */
  function ParseOnlyOperation(arg: Option<string>): (r: Option<OpFilter>)
    ensures (arg.None? || arg.value == "") ==> r == Some(AnyOperation)
    ensures r.Some? && r.value.OnlyOperation? ==> arg.Some? && AsciiLower(arg.value) == KindName(r.value.kind)
    ensures r.None? <==> arg.Some? && arg.value != "" && forall k :: AsciiLower(arg.value) != KindName(k)
    ensures r.Some? && r.value.AnyOperation? ==> arg.None? || arg.value == ""
    ensures forall k :: arg.Some? && arg.value != "" ==>
      (r == Some(OnlyOperation(k)) <==> AsciiLower(arg.value) == KindName(k))
  {
    if arg.None? || arg.value == "" then Some(AnyOperation)
    else
      var op := AsciiLower(arg.value);
      if op == "insert" then Some(OnlyOperation(Insert))
      else if op == "update" then Some(OnlyOperation(Update))
      else if op == "delete" then Some(OnlyOperation(Delete))
      else None
  }

  /** `convert_bytes_to_str(row[...])` on a whole image; `None` when a value does not decode. */
  function ConvertImage(raw: RawImage): (r: Option<Image>)
    ensures r.Some? <==> forall i :: 0 <= i < |raw| ==> Decodable(raw[i].1)
    ensures r.Some? ==> |r.value| == |raw|
    ensures r.Some? ==> forall i :: 0 <= i < |raw| ==>
      r.value[i].0 == raw[i].0 && ConvertBytesToStr(raw[i].1) == Some(r.value[i].1)
  {
    if raw == [] then Some([])
    else
      match ConvertBytesToStr(raw[0].1)
      case None => None
      case Some(v) =>
        match ConvertImage(raw[1..])
        case None => None
        case Some(rest) => var c: Cell := v; Some([(raw[0].0, c)] + rest)
  }

  // ---------------------------------------------------------------------
  // INSERT rows

  /** `INSERT INTO t(cols) VALUES (vals);` */
  function InsertSql(schema: string, table: string, img: Image): string {
    "INSERT INTO " + InsertTarget(schema, table) + "(" + Join(",", BacktickAll(Columns(img)))
      + ") VALUES (" + Join(",", Literals(img)) + ");"
  }

  /** The rollback of an insert: `DELETE FROM t WHERE` every column equals its value. */
  function InsertRollbackSql(schema: string, table: string, img: Image): string {
    "DELETE FROM " + InsertTarget(schema, table) + " WHERE " + Join(" AND ", Assignments(img)) + ";"
  }

  // ---------------------------------------------------------------------
  // DELETE rows

  /** `DELETE FROM` with the target name wrapped in one more pair of backticks. */
  function DeleteSql(schema: string, table: string, img: Image): string {
    "DELETE FROM `" + DeleteTarget(schema, table) + "` WHERE " + Join(" AND ", Assignments(img)) + ";"
  }

  /** The rollback of a delete: the column list is written as `` `a`,`b` `` by one join over the names. */
  function DeleteRollbackSql(schema: string, table: string, img: Image): string {
    "INSERT INTO " + DeleteTarget(schema, table) + "(" + "`" + Join("`,`", Columns(img)) + "`"
      + ") VALUES (" + Join(",", Literals(img)) + ");"
  }

  // ---------------------------------------------------------------------
  // UPDATE rows

  function UpdateStatement(schema: string, table: string, setClause: string, whereClause: string): string {
    "UPDATE " + QualifiedName(schema, table) + " SET " + setClause + " WHERE " + whereClause + ";"
  }

  /** The update as it happened: SET the after-image WHERE the row matches the before-image. */
  function UpdateSql(schema: string, table: string, before: Image, after: Image): string {
    UpdateStatement(schema, table, Join(",", Assignments(after)), Join(" AND ", Conditions(before)))
  }

  /** The direct rollback: SET the before-image WHERE the row matches the after-image. */
  function UpdateRollbackSql(schema: string, table: string, before: Image, after: Image): string {
    UpdateStatement(schema, table, Join(",", Assignments(before)), Join(" AND ", Conditions(after)))
  }

  /** The REPLACE rollback: the after-image's column names with the before-image's values. */
  function ReplaceSql(schema: string, table: string, before: Image, afterNames: seq<string>): string {
    "REPLACE INTO " + QualifiedName(schema, table) + " (" + Join(",", BacktickAll(afterNames))
      + ") VALUES (" + Join(",", Literals(before)) + ");"
  }

  /** `av[key]`: the first entry of `img` named `key`. */
  function Lookup(img: Image, key: string): (r: Option<Cell>)
    ensures r.Some? <==> key in Columns(img)
    ensures r.Some? ==> exists i :: 0 <= i < |img| && img[i] == (key, r.value)
  {
    if img == [] then None
    else if img[0].0 == key then Some(img[0].1)
    else Lookup(img[1..], key)
  }

  /** Every column that is `None` before the update can be looked up in the after-image. */
  predicate NullsCovered(before: Image, after: Image) {
    forall i :: 0 <= i < |before| && before[i].1.Null? ==> before[i].0 in Columns(after)
  }

  /**
   * What the REPLACE-without-null rollback writes for one column: the old
   * value when there was one; for an old `None`, the new value instead
   * (but `'null'`, the JSON text of `None`, when the new value is a dict or
   * list); nothing when both are `None`.
   */
  function SparseValue(v: Cell, newValue: Cell): Option<string> {
    if v.Null? then
      if newValue.Null? then None
      else if IsStructured(newValue) then Some(Quote(JsonText(Null)))
      else Some(Literal(newValue))
    else Some(Literal(v))
  }

  /** The text written for one before-image column, if any. */
  function SparsePiece(column: (string, Cell), after: Image): seq<string>
    requires column.1.Null? ==> column.0 in Columns(after)
  {
    var (key, v) := column;
    var newValue := if v.Null? then Lookup(after, key).value else Null;
    match SparseValue(v, newValue)
    case Some(lit) => [lit]
    case None => []
  }

  function SparseValues(before: Image, after: Image): seq<string>
    requires NullsCovered(before, after)
  {
    if before == [] then []
    else
      var last := before[|before| - 1];
      SparseValues(before[..|before| - 1], after) + SparsePiece(last, after)
  }

  /**
   * The column name the REPLACE-without-null field list repeats: the loop
   * variable `k` last set by the loop over the after-image, or by the loop
   * over the before-image when the after-image is empty.
   */
  function StaleKey(before: Image, after: Image): string {
    if after != [] then after[|after| - 1].0
    else if before != [] then before[|before| - 1].0
    else ""
  }

  function Repeat(name: string, n: nat): (r: seq<string>)
    ensures |r| == n && forall i :: 0 <= i < n ==> r[i] == name
  {
    if n == 0 then [] else [name] + Repeat(name, n - 1)
  }

  /** The REPLACE-without-null rollback, whose field list is a Python list written out by `str()`. */
  function ReplaceSparseSql(schema: string, table: string, before: Image, after: Image): string
    requires NullsCovered(before, after)
  {
    var values := SparseValues(before, after);
    "REPLACE INTO " + QualifiedName(schema, table) + " "
      + "(" + PyListRepr(Repeat(StaleKey(before, after), |values|)) + ") "
      + "VALUES (" + Join(",", values) + ");"
  }

  // ---------------------------------------------------------------------
  // The clause builders of an update, loops appending to a list as written

  /** `set_values` and its join: one `` `k`=literal `` per column. */
  method BuildSetClause(img: Image) returns (clause: string)
    ensures clause == Join(",", Assignments(img))
  {
    var setValues: seq<string> := [];
    for i := 0 to |img|
      invariant |setValues| == i
      invariant forall j :: 0 <= j < i ==> setValues[j] == Assignment(img[j].0, img[j].1)
    {
      var (k, v) := img[i];
      var entry;
      if IsStructured(v) {
        entry := Backtick(k) + "=" + Quote(JsonText(v));
      } else if v.Text? {
        entry := Backtick(k) + "=" + Quote(v.s);
      } else if v.Temporal? {
        entry := Backtick(k) + "=" + Quote(v.text);
      } else {
        entry := if !v.Null? then Backtick(k) + "=" + Literal(v) else Backtick(k) + "=NULL";
      }
      assert entry == Assignment(k, v);
      setValues := setValues + [entry];
    }
    assert setValues == Assignments(img);
    clause := Join(",", setValues);
  }

  /** `where_values` and its join: one test per column, `IS NULL` for `None`. */
  method BuildWhereClause(img: Image) returns (clause: string)
    ensures clause == Join(" AND ", Conditions(img))
  {
    var whereValues: seq<string> := [];
    for i := 0 to |img|
      invariant |whereValues| == i
      invariant forall j :: 0 <= j < i ==> whereValues[j] == Condition(img[j].0, img[j].1)
    {
      var (k, v) := img[i];
      var entry;
      if IsStructured(v) {
        entry := Backtick(k) + "=" + Quote(JsonText(v));
      } else if v.Text? {
        entry := Backtick(k) + "=" + Quote(v.s);
      } else if v.Temporal? {
        entry := Backtick(k) + "=" + Quote(v.text);
      } else {
        entry := if !v.Null? then Backtick(k) + "=" + Literal(v) else Backtick(k) + " IS NULL";
      }
      assert entry == Condition(k, v);
      whereValues := whereValues + [entry];
    }
    assert whereValues == Conditions(img);
    clause := Join(" AND ", whereValues);
  }

  /** `rollback_replace_set_values` and its join: the before-image's literals. */
  method BuildReplaceValues(before: Image) returns (clause: string)
    ensures clause == Join(",", Literals(before))
  {
    var setValues: seq<string> := [];
    for i := 0 to |before|
      invariant |setValues| == i
      invariant forall j :: 0 <= j < i ==> setValues[j] == Literal(before[j].1)
    {
      var v := before[i].1;
      var entry;
      if v.Null? {
        entry := "NULL";
      } else if v.Text? {
        entry := Quote(v.s);
      } else if v.Temporal? {
        entry := Quote(v.text);
      } else if IsStructured(v) {
        entry := Quote(JsonText(v));
      } else {
        entry := Literal(v);
      }
      assert entry == Literal(v);
      setValues := setValues + [entry];
    }
    assert setValues == Literals(before);
    clause := Join(",", setValues);
  }

  /**
   * `rollback_replace_set_without_null_values` and `fields_clause`: one
   * value per column kept, and for each the stale name `k`.
   */
  method BuildSparse(before: Image, after: Image, k: string) returns (values: seq<string>, fields: seq<string>)
    requires NullsCovered(before, after)
    ensures values == SparseValues(before, after)
    ensures fields == Repeat(k, |values|)
  {
    values, fields := [], [];
    for i := 0 to |before|
      invariant NullsCovered(before[..i], after)
      invariant values == SparseValues(before[..i], after)
      invariant fields == Repeat(k, |values|)
    {
      var (key, v) := before[i];
      SparseValuesStep(before, after, i);
      if v.Null? {
        var akv := Lookup(after, key).value;
        if !akv.Null? {
          if akv.Text? || akv.Temporal? {
            values := values + [Literal(akv)];
          } else if IsStructured(akv) {
            values := values + [Quote(JsonText(v))];
          } else {
            values := values + [Literal(akv)];
          }
          fields := fields + [k];
        }
      } else {
        values := values + [Literal(v)];
        fields := fields + [k];
      }
    }
    assert before[..|before|] == before;
  }

  /** One more before-image column extends the values by its piece. */
  lemma SparseValuesStep(before: Image, after: Image, i: nat)
    requires NullsCovered(before, after) && i < |before|
    ensures NullsCovered(before[..i + 1], after)
    ensures SparseValues(before[..i + 1], after) == SparseValues(before[..i], after) + SparsePiece(before[i], after)
  {
    assert before[..i + 1][..i] == before[..i] && before[..i + 1][i] == before[i];
  }

  /** The four statements of an updated row, built as the source builds them. */
  method SynthesizeUpdate(schema: string, table: string, before: Image, after: Image)
    returns (sql: string, rollbackSql: string, replaceSql: string, sparseSql: string)
    requires NullsCovered(before, after)
    ensures sql == UpdateSql(schema, table, before, after)
    ensures rollbackSql == UpdateRollbackSql(schema, table, before, after)
    ensures replaceSql == ReplaceSql(schema, table, before, Columns(after))
    ensures sparseSql == ReplaceSparseSql(schema, table, before, after)
  {
    var target := QualifiedName(schema, table);
    var setClause := BuildSetClause(after);
    var whereClause := BuildWhereClause(before);
    sql := "UPDATE " + target + " SET " + setClause + " WHERE " + whereClause + ";";
    var rollbackSetClause := BuildSetClause(before);
    var rollbackWhereClause := BuildWhereClause(after);
    rollbackSql := "UPDATE " + target + " SET " + rollbackSetClause + " WHERE " + rollbackWhereClause + ";";
    var replaceValues := BuildReplaceValues(before);
    var fieldsClause := Join(",", BacktickAll(Columns(after)));
    replaceSql := "REPLACE INTO " + target + " (" + fieldsClause + ") VALUES (" + replaceValues + ");";
    var k := StaleKey(before, after);
    var values, fields := BuildSparse(before, after, k);
    sparseSql := "REPLACE INTO " + target + " " + "(" + PyListRepr(fields) + ") " + "VALUES (" + Join(",", values) + ");";
  }

  // ---------------------------------------------------------------------
  // Records of an event

  predicate LookupsSucceed(rawBefore: RawImage, rawAfter: RawImage) {
    forall j :: 0 <= j < |rawBefore| && rawBefore[j].1.Null? ==> rawBefore[j].0 in Columns(rawAfter)
  }

  /**
   * What the decoder guarantees for the REPLACE-without-null lookup
   * `av[key]` to succeed: in every updated row, a column that is `None`
   * before the update is present in the after-image.
   */
  predicate UpdateLookupsSucceed(e: Event) {
    e.rows.UpdateRows? ==>
      forall i :: 0 <= i < |e.rows.changes| ==> LookupsSucceed(e.rows.changes[i].0, e.rows.changes[i].1)
  }

  function UpdateRecords(schema: string, table: string, time: int, before: Image, after: Image): (r: seq<Record>)
    requires NullsCovered(before, after)
  {
    var sql := UpdateSql(schema, table, before, after);
    [ Record(time, sql, UpdateRollbackSql(schema, table, before, after), Direct),
      Record(time, sql, ReplaceSql(schema, table, before, Columns(after)), ReplaceFull),
      Record(time, sql, ReplaceSparseSql(schema, table, before, after), ReplaceSparse) ]
  }

  /** An updated row puts exactly one record in each queue. */
  lemma UpdateRecordsRoute(records: seq<Record>)
    requires |records| == 3
    requires records[0].variant == Direct && records[1].variant == ReplaceFull && records[2].variant == ReplaceSparse
    ensures Route(records, Direct) == [records[0]]
    ensures Route(records, ReplaceFull) == [records[1]]
    ensures Route(records, ReplaceSparse) == [records[2]]
  {
    assert records == [records[0]] + ([records[1]] + [records[2]]);
    forall v: Variant
      ensures Route(records, v) == Route([records[0]], v) + Route([records[1]], v) + Route([records[2]], v)
    {
      RouteAppend([records[0]], [records[1]] + [records[2]], v);
      RouteAppend([records[1]], [records[2]], v);
    }
    RouteSingleton(records[0]);
    RouteSingleton(records[1]);
    RouteSingleton(records[2]);
  }

  lemma ConvertedNullsCovered(rawBefore: RawImage, rawAfter: RawImage, before: Image, after: Image)
    requires LookupsSucceed(rawBefore, rawAfter)
    requires ConvertImage(rawBefore) == Some(before) && ConvertImage(rawAfter) == Some(after)
    ensures NullsCovered(before, after)
  {
    assert Columns(after) == Columns(rawAfter);
    forall j | 0 <= j < |before| && before[j].1.Null?
      ensures before[j].0 in Columns(after)
    {
      assert ConvertBytesToStr(rawBefore[j].1) == Some(before[j].1);
    }
  }

  /** Every value of row `i`'s images converts. */
  predicate RowDecodes(e: Event, i: nat)
    requires i < RowCount(e)
  {
    match e.rows
    case WriteRows(vs) => ConvertImage(vs[i]).Some?
    case UpdateRows(cs) => ConvertImage(cs[i].0).Some? && ConvertImage(cs[i].1).Some?
    case DeleteRows(vs) => ConvertImage(vs[i]).Some?
  }

  /** The records one row yields, or `None` when converting its images raises. */
  function RowRecords(e: Event, i: nat, filter: OpFilter): (r: Option<seq<Record>>)
    requires i < RowCount(e) && UpdateLookupsSucceed(e)
    ensures r.None? <==> Admits(filter, KindOf(e)) && !RowDecodes(e, i)
    ensures r.Some? ==> forall x :: x in r.value ==> x.eventTime == e.timestamp
    ensures r.Some? && !Admits(filter, KindOf(e)) ==> r.value == []
    ensures r.Some? && Admits(filter, KindOf(e)) && KindOf(e) != Update ==> |r.value| == 1 && r.value[0].variant == Direct
    ensures r.Some? && Admits(filter, KindOf(e)) && KindOf(e) == Update ==>
      |r.value| == 3 && r.value[0].variant == Direct && r.value[1].variant == ReplaceFull && r.value[2].variant == ReplaceSparse
  {
    if !Admits(filter, KindOf(e)) then Some([])
    else
      match e.rows
      case WriteRows(vs) =>
        (match ConvertImage(vs[i])
         case None => None
         case Some(img) =>
           Some([Record(e.timestamp, InsertSql(e.schema, e.table, img), InsertRollbackSql(e.schema, e.table, img), Direct)]))
      case DeleteRows(vs) =>
        (match ConvertImage(vs[i])
         case None => None
         case Some(img) =>
           Some([Record(e.timestamp, DeleteSql(e.schema, e.table, img), DeleteRollbackSql(e.schema, e.table, img), Direct)]))
      case UpdateRows(cs) =>
        match ConvertImage(cs[i].0)
        case None => None
        case Some(before) =>
          match ConvertImage(cs[i].1)
          case None => None
          case Some(after) =>
            ConvertedNullsCovered(cs[i].0, cs[i].1, before, after);
            Some(UpdateRecords(e.schema, e.table, e.timestamp, before, after))
  }

  /** How the records of one row are tagged, given the kind of event and whether it is admitted. */
  predicate Shaped(x: seq<Record>, update: bool, admitted: bool) {
    (!admitted ==> x == []) &&
    (admitted && !update ==> |x| == 1 && x[0].variant == Direct) &&
    (admitted && update ==>
      |x| == 3 && x[0].variant == Direct && x[1].variant == ReplaceFull && x[2].variant == ReplaceSparse)
  }

  /** Every record the rows yield carries time `t`. */
  predicate AllAt(results: seq<Option<seq<Record>>>, t: int) {
    forall j, x :: 0 <= j < |results| && results[j].Some? && x in results[j].value ==> x.eventTime == t
  }

  /** What the first `n` rows of an event yield, in order. */
  function RowResults(e: Event, filter: OpFilter, n: nat): (r: seq<Option<seq<Record>>>)
    requires n <= RowCount(e) && UpdateLookupsSucceed(e)
    ensures |r| == n
  {
    if n == 0 then []
    else RowResults(e, filter, n - 1) + [RowRecords(e, n - 1, filter)]
  }

  lemma {:induction false} RowResultsFacts(e: Event, filter: OpFilter, n: nat)
    requires n <= RowCount(e) && UpdateLookupsSucceed(e)
    ensures var r := RowResults(e, filter, n);
            AllAt(r, e.timestamp) &&
            (forall j :: 0 <= j < n && r[j].Some? ==> Shaped(r[j].value, KindOf(e) == Update, Admits(filter, KindOf(e)))) &&
            (forall j :: 0 <= j < n && r[j].None? ==> !RowDecodes(e, j))
  {
    var r := RowResults(e, filter, n);
    forall j | 0 <= j < n
      ensures r[j].Some? ==> forall x :: x in r[j].value ==> x.eventTime == e.timestamp
      ensures r[j].Some? ==> Shaped(r[j].value, KindOf(e) == Update, Admits(filter, KindOf(e)))
      ensures r[j].None? ==> !RowDecodes(e, j)
    {
      RowResultsAt(e, filter, n, j);
      RowShape(e, j, filter);
    }
  }

  /** The records of one row carry the event's time and are shaped as its kind demands. */
  lemma RowShape(e: Event, i: nat, filter: OpFilter)
    requires i < RowCount(e) && UpdateLookupsSucceed(e)
    ensures var x := RowRecords(e, i, filter);
            && (x.Some? ==> forall y :: y in x.value ==> y.eventTime == e.timestamp)
            && (x.Some? ==> Shaped(x.value, KindOf(e) == Update, Admits(filter, KindOf(e))))
            && (x.None? ==> !RowDecodes(e, i))
  {
  }

  /**
   * The records of the first `n` rows, and whether one of them raised: an
   * exception ends the job, so no later row adds anything.
   */
  function Collect(results: seq<Option<seq<Record>>>, n: nat): (r: (seq<Record>, bool))
    requires n <= |results|
  {
    if n == 0 then ([], false)
    else
      var prev := Collect(results, n - 1);
      var last := results[n - 1];
      if prev.1 then prev
      else if last.None? then (prev.0, true)
      else (prev.0 + last.value, false)
  }

  lemma {:induction false} CollectAt(results: seq<Option<seq<Record>>>, n: nat, t: int)
    requires n <= |results| && AllAt(results, t)
    ensures forall x :: x in Collect(results, n).0 ==> x.eventTime == t
  {
    if n > 0 {
      CollectAt(results, n - 1, t);
    }
  }

  lemma {:induction false} CollectNothing(results: seq<Option<seq<Record>>>, n: nat)
    requires n <= |results|
    requires forall j :: 0 <= j < |results| && results[j].Some? ==> results[j].value == []
    ensures Collect(results, n).0 == []
  {
    if n > 0 {
      CollectNothing(results, n - 1);
    }
  }

  /**
   * `process_binlogevent(event, start_time, end_time)`: nothing unless
   * `start_time <= timestamp <= end_time`, then the records of every row
   * up to the first one whose conversion raises.
   */
  function EventRecords(e: Event, start: int, end: int, filter: OpFilter): (r: seq<Record>)
    requires UpdateLookupsSucceed(e)
    ensures r != [] ==> start <= e.timestamp <= end && Admits(filter, KindOf(e))
    ensures forall x :: x in r ==> x.eventTime == e.timestamp
  {
    if start <= e.timestamp <= end then
      var results := RowResults(e, filter, RowCount(e));
      RowResultsFacts(e, filter, RowCount(e));
      CollectAt(results, |results|, e.timestamp);
      if !Admits(filter, KindOf(e)) then
        CollectNothing(results, |results|);
        Collect(results, |results|).0
      else Collect(results, |results|).0
    else []
  }

  /** Once a row raised, the rows after it change nothing. */
  lemma {:induction false} RaisedIsFinal(results: seq<Option<seq<Record>>>, m: nat, n: nat)
    requires m <= n <= |results|
    requires Collect(results, m).1
    ensures Collect(results, n) == Collect(results, m)
  {
    if m < n {
      RaisedIsFinal(results, m, n - 1);
    }
  }

  lemma {:induction false} RowResultsAt(e: Event, filter: OpFilter, n: nat, i: nat)
    requires i < n <= RowCount(e) && UpdateLookupsSucceed(e)
    ensures RowResults(e, filter, n)[i] == RowRecords(e, i, filter)
    decreases n
  {
    if i < n - 1 {
      RowResultsAt(e, filter, n - 1, i);
    }
  }

  /**
   * Converts row `i` and queues its records; `None` when a conversion
   * raises, in which case nothing of this row is queued.
   */
  method ProcessRow(e: Event, i: nat, filter: OpFilter,
                    direct: RecordQueue, replace: RecordQueue, sparse: RecordQueue)
    returns (row: Option<seq<Record>>)
    requires i < RowCount(e) && UpdateLookupsSucceed(e)
    requires direct != replace && direct != sparse && replace != sparse
    modifies direct, replace, sparse
    ensures row == RowRecords(e, i, filter)
    ensures row.None? ==> unchanged(direct, replace, sparse)
    ensures row.Some? ==> direct.items == old(direct.items) + Route(row.value, Direct)
    ensures row.Some? ==> replace.items == old(replace.items) + Route(row.value, ReplaceFull)
    ensures row.Some? ==> sparse.items == old(sparse.items) + Route(row.value, ReplaceSparse)
  {
    if !Admits(filter, KindOf(e)) {
      return Some([]);
    }
    if e.rows.UpdateRows? {
      row := ProcessUpdateRow(e, i, filter, direct, replace, sparse);
    } else {
      row := ProcessImageRow(e, i, filter, direct, replace, sparse);
    }
  }

  /** An insert or delete row: one record, on the direct queue. */
  method ProcessImageRow(e: Event, i: nat, filter: OpFilter,
                         direct: RecordQueue, replace: RecordQueue, sparse: RecordQueue)
    returns (row: Option<seq<Record>>)
    requires i < RowCount(e) && UpdateLookupsSucceed(e)
    requires !e.rows.UpdateRows? && Admits(filter, KindOf(e))
    requires direct != replace && direct != sparse && replace != sparse
    modifies direct, replace, sparse
    ensures row == RowRecords(e, i, filter)
    ensures row.None? ==> unchanged(direct, replace, sparse)
    ensures row.Some? ==> direct.items == old(direct.items) + Route(row.value, Direct)
    ensures row.Some? ==> replace.items == old(replace.items) + Route(row.value, ReplaceFull)
    ensures row.Some? ==> sparse.items == old(sparse.items) + Route(row.value, ReplaceSparse)
  {
    var converted := ConvertImage(e.rows.values[i]);
    if converted.None? {
      return None;
    }
    var values := converted.value;
    var record;
    if e.rows.WriteRows? {
      record := Record(e.timestamp, InsertSql(e.schema, e.table, values), InsertRollbackSql(e.schema, e.table, values), Direct);
    } else {
      record := Record(e.timestamp, DeleteSql(e.schema, e.table, values), DeleteRollbackSql(e.schema, e.table, values), Direct);
    }
    direct.Put(record);
    RouteSingleton(record);
    row := Some([record]);
  }

  /** An update row: its statement paired with each of the three rollbacks, one per queue. */
  method ProcessUpdateRow(e: Event, i: nat, filter: OpFilter,
                          direct: RecordQueue, replace: RecordQueue, sparse: RecordQueue)
    returns (row: Option<seq<Record>>)
    requires i < RowCount(e) && UpdateLookupsSucceed(e)
    requires e.rows.UpdateRows? && Admits(filter, KindOf(e))
    requires direct != replace && direct != sparse && replace != sparse
    modifies direct, replace, sparse
    ensures row == RowRecords(e, i, filter)
    ensures row.None? ==> unchanged(direct, replace, sparse)
    ensures row.Some? ==> direct.items == old(direct.items) + Route(row.value, Direct)
    ensures row.Some? ==> replace.items == old(replace.items) + Route(row.value, ReplaceFull)
    ensures row.Some? ==> sparse.items == old(sparse.items) + Route(row.value, ReplaceSparse)
  {
    var change := e.rows.changes[i];
    var convertedBefore := ConvertImage(change.0);
    if convertedBefore.None? {
      return None;
    }
    var convertedAfter := ConvertImage(change.1);
    if convertedAfter.None? {
      return None;
    }
    var before, after := convertedBefore.value, convertedAfter.value;
    ConvertedNullsCovered(change.0, change.1, before, after);
    var sql, rollbackSql, replaceSql, sparseSql := SynthesizeUpdate(e.schema, e.table, before, after);
    var records := [Record(e.timestamp, sql, rollbackSql, Direct),
                    Record(e.timestamp, sql, replaceSql, ReplaceFull),
                    Record(e.timestamp, sql, sparseSql, ReplaceSparse)];
    assert records == UpdateRecords(e.schema, e.table, e.timestamp, before, after);
    UpdateRecordsRoute(records);
    direct.Put(records[0]);
    replace.Put(records[1]);
    sparse.Put(records[2]);
    row := Some(records);
  }

  /** `results` holds the outcome of each row of `e`, in order. */
  ghost predicate RowsOf(e: Event, filter: OpFilter, results: seq<Option<seq<Record>>>) {
    UpdateLookupsSucceed(e) && |results| == RowCount(e) &&
    forall j {:trigger RowRecords(e, j, filter)} :: 0 <= j < |results| ==> results[j] == RowRecords(e, j, filter)
  }

  lemma RowResultsAreRows(e: Event, filter: OpFilter)
    requires UpdateLookupsSucceed(e)
    ensures RowsOf(e, filter, RowResults(e, filter, RowCount(e)))
  {
    forall j | 0 <= j < RowCount(e)
      ensures RowResults(e, filter, RowCount(e))[j] == RowRecords(e, j, filter)
    {
      RowResultsAt(e, filter, RowCount(e), j);
    }
  }

  /**
   * One turn of the loop over the rows: row `i` is converted and queued after
   * the records of the rows before it; `raised` when its conversion raises,
   * which ends the event with nothing more queued.
   */
  method QueueRow(e: Event, i: nat, filter: OpFilter, ghost results: seq<Option<seq<Record>>>,
                  ghost done: seq<Record>, ghost base: Queues,
                  direct: RecordQueue, replace: RecordQueue, sparse: RecordQueue)
    returns (raised: bool, ghost done': seq<Record>)
    requires RowsOf(e, filter, results) && i < |results|
    requires Collect(results, i) == (done, false)
    requires direct != replace && direct != sparse && replace != sparse
    requires (direct.items, replace.items, sparse.items) == Extended(base, done)
    modifies direct, replace, sparse
    ensures Collect(results, i + 1) == (done', raised)
    ensures (direct.items, replace.items, sparse.items) == Extended(base, done')
  {
    var row := ProcessRow(e, i, filter, direct, replace, sparse);
    if row.None? {
      return true, done;
    }
    ExtendedAppend(base, done, row.value);
    return false, done + row.value;
  }

  /**
   * The loop over the rows of an event, in order: each row's records are
   * queued as it is converted, and the first row whose conversion raises
   * ends the loop.
   */
  method QueueRows(e: Event, filter: OpFilter, ghost results: seq<Option<seq<Record>>>,
                   direct: RecordQueue, replace: RecordQueue, sparse: RecordQueue)
    requires RowsOf(e, filter, results)
    requires direct != replace && direct != sparse && replace != sparse
    modifies direct, replace, sparse
    ensures (direct.items, replace.items, sparse.items)
         == Extended(old((direct.items, replace.items, sparse.items)), Collect(results, |results|).0)
  {
    var n := RowCount(e);
    ghost var base := (direct.items, replace.items, sparse.items);
    var i := 0;
    ghost var done: seq<Record> := [];
    assert base.0 + [] == base.0 && base.1 + [] == base.1 && base.2 + [] == base.2;
    while i < n
      invariant 0 <= i <= n
      invariant Collect(results, i) == (done, false)
      invariant (direct.items, replace.items, sparse.items) == Extended(base, done)
    {
      var raised;
      raised, done := QueueRow(e, i, filter, results, done, base, direct, replace, sparse);
      if raised {
        RaisedIsFinal(results, i + 1, n);
        return;
      }
      i := i + 1;
    }
  }

  /**
   * The job submitted for one event. Its records go to the three queues as
   * they are made; a conversion error ends the job, keeping what was queued.
   */
  method ProcessBinlogEvent(e: Event, start: int, end: int, filter: OpFilter,
                            direct: RecordQueue, replace: RecordQueue, sparse: RecordQueue)
    requires UpdateLookupsSucceed(e)
    requires direct != replace && direct != sparse && replace != sparse
    modifies direct, replace, sparse
    ensures (direct.items, replace.items, sparse.items)
         == Extended(old((direct.items, replace.items, sparse.items)), EventRecords(e, start, end, filter))
  {
    if !(start <= e.timestamp <= end) {
      assert direct.items + [] == direct.items && replace.items + [] == replace.items && sparse.items + [] == sparse.items;
      return;
    }
    ghost var results := RowResults(e, filter, RowCount(e));
    RowResultsAreRows(e, filter);
    QueueRows(e, filter, results, direct, replace, sparse);
    assert EventRecords(e, start, end, filter) == Collect(results, |results|).0;
  }
}
