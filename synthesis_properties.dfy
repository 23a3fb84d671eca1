/**
 * What the statements written by `process_binlogevent` have in common
 * across kinds of event, what each queue receives, and where the text
 * loses information.
 */
module SynthesisProperties {
  import opened Common
  import opened Values
  import opened SqlText
  import opened Results
  import opened Synthesis

  // ---------------------------------------------------------------------
  // Insert and delete

  /** Quoting every name and joining with `,` is the same as joining with `` `,` `` inside one pair of backticks. */
  lemma {:induction false} ColumnListForms(names: seq<string>)
    requires names != []
    ensures "`" + Join("`,`", names) + "`" == Join(",", BacktickAll(names))
  {
    if |names| > 1 {
      var rest := names[1..];
      ColumnListForms(rest);
      assert BacktickAll(names)[1..] == BacktickAll(rest);
      calc {
        "`" + Join("`,`", names) + "`";
        "`" + (names[0] + "`,`" + Join("`,`", rest)) + "`";
        { SplitQuotedPair(names[0], Join("`,`", rest)); }
        Backtick(names[0]) + "," + ("`" + Join("`,`", rest) + "`");
        Backtick(names[0]) + "," + Join(",", BacktickAll(rest));
      }
    }
  }

  /** The separator `` `,` `` closes one quoted name and opens the next. */
  lemma SplitQuotedPair(a: string, b: string)
    ensures "`" + (a + "`,`" + b) + "`" == Backtick(a) + "," + ("`" + b + "`")
  {
    assert "`,`" == "`" + "," + "`";
  }

  /**
   * The rollback of a delete is, character for character, the statement an
   * insert of the same row writes, when the event names a schema and the
   * row has a column.
   */
  lemma DeleteRollbackIsInsert(schema: string, table: string, img: Image)
    requires schema != "" && img != []
    ensures DeleteRollbackSql(schema, table, img) == InsertSql(schema, table, img)
  {
    ColumnListForms(Columns(img));
  }

  /**
   * Otherwise the two differ: without a schema the delete side backticks
   * the table and the insert side does not; with no column the delete side
   * still writes one empty quoted name.
   */
  lemma DeleteRollbackLength(schema: string, table: string, img: Image)
    ensures |DeleteRollbackSql(schema, table, img)|
      == |InsertSql(schema, table, img)| + (if schema == "" then 2 else 0) + (if img == [] then 2 else 0)
  {
    if img != [] {
      ColumnListForms(Columns(img));
    }
  }

  lemma DeleteRollbackIsInsertExactly(schema: string, table: string, img: Image)
    ensures DeleteRollbackSql(schema, table, img) == InsertSql(schema, table, img) <==> schema != "" && img != []
  {
    DeleteRollbackLength(schema, table, img);
    if schema != "" && img != [] {
      DeleteRollbackIsInsert(schema, table, img);
    }
  }

  /**
   * The rollback of an insert and the forward statement of a delete of the
   * same row share their condition: everything after the target name is the
   * same text.
   */
  lemma InsertRollbackSharesDeleteCondition(schema: string, table: string, img: Image)
    ensures var undo := InsertRollbackSql(schema, table, img);
            var del := DeleteSql(schema, table, img);
            |"DELETE FROM " + InsertTarget(schema, table)| <= |undo| &&
            |"DELETE FROM `" + DeleteTarget(schema, table) + "`"| <= |del| &&
            undo[|"DELETE FROM " + InsertTarget(schema, table)|..]
              == del[|"DELETE FROM `" + DeleteTarget(schema, table) + "`"|..]
              == " WHERE " + Join(" AND ", Assignments(img)) + ";"
  {
    InsertRollbackCondition(schema, table, img);
    DeleteCondition(schema, table, img);
  }

  /** The step of the proof above for the insert rollback: cut off after its target. */
  lemma InsertRollbackCondition(schema: string, table: string, img: Image)
    ensures var p := "DELETE FROM " + InsertTarget(schema, table);
            var undo := InsertRollbackSql(schema, table, img);
            |p| <= |undo| && undo[|p|..] == " WHERE " + Join(" AND ", Assignments(img)) + ";"
  {
    var p := "DELETE FROM " + InsertTarget(schema, table);
    Regroup(p, " WHERE ", Join(" AND ", Assignments(img)), ";");
    DropPrefix(p, " WHERE " + Join(" AND ", Assignments(img)) + ";");
  }

  /** The step of the proof above for the delete: cut off after its target. */
  lemma DeleteCondition(schema: string, table: string, img: Image)
    ensures var p := "DELETE FROM `" + DeleteTarget(schema, table) + "`";
            var del := DeleteSql(schema, table, img);
            |p| <= |del| && del[|p|..] == " WHERE " + Join(" AND ", Assignments(img)) + ";"
  {
    var p := "DELETE FROM `" + DeleteTarget(schema, table) + "`";
    Regroup(p, " WHERE ", Join(" AND ", Assignments(img)), ";");
    DropPrefix(p, " WHERE " + Join(" AND ", Assignments(img)) + ";");
  }

  lemma Regroup(a: string, b: string, c: string, d: string)
    ensures a + b + c + d == a + (b + c + d)
  {
  }

  lemma DropPrefix(p: string, w: string)
    ensures |p| <= |p + w| && (p + w)[|p|..] == w
  {
  }

  // ---------------------------------------------------------------------
  // Update

  /** The direct rollback of an update is the update of the swapped images, and undoing it twice gives back the forward statement. */
  lemma {:induction false} UpdateRollbackSwapsImages(schema: string, table: string, before: Image, after: Image)
    ensures UpdateRollbackSql(schema, table, before, after) == UpdateSql(schema, table, after, before)
    ensures UpdateRollbackSql(schema, table, after, before) == UpdateSql(schema, table, before, after)
  {
  }

  // ---------------------------------------------------------------------
  // The REPLACE-without-null rollback

  /** The columns the REPLACE-without-null rollback leaves out: `None` before and after. */
  function Dropped(before: Image, after: Image): (r: seq<string>)
    requires NullsCovered(before, after)
  {
    if before == [] then []
    else
      var (key, v) := before[|before| - 1];
      Dropped(before[..|before| - 1], after)
        + (if v.Null? && Lookup(after, key).value.Null? then [key] else [])
  }

  /** Every column is either written or dropped. */
  lemma {:induction false} SparseCount(before: Image, after: Image)
    requires NullsCovered(before, after)
    ensures |SparseValues(before, after)| + |Dropped(before, after)| == |before|
  {
    if before != [] {
      var init := before[..|before| - 1];
      assert NullsCovered(init, after);
      SparseCount(init, after);
    }
  }

  /** Without a `None` in the before-image, the REPLACE-without-null values are the full REPLACE values. */
  lemma {:induction false} SparseWithoutNullsIsFull(before: Image, after: Image)
    requires forall i :: 0 <= i < |before| ==> !before[i].1.Null?
    ensures NullsCovered(before, after)
    ensures SparseValues(before, after) == Literals(before)
    ensures Dropped(before, after) == []
  {
    if before != [] {
      SparseWithoutNullsIsFull(before[..|before| - 1], after);
      SparseNonNullStep(before, after);
    }
  }

  /** A last column that was not `None` is written with its old value and is not dropped. */
  lemma SparseNonNullStep(before: Image, after: Image)
    requires before != [] && !before[|before| - 1].1.Null?
    requires NullsCovered(before[..|before| - 1], after)
    ensures NullsCovered(before, after)
    ensures SparseValues(before, after)
         == SparseValues(before[..|before| - 1], after) + [Literal(before[|before| - 1].1)]
    ensures Dropped(before, after) == Dropped(before[..|before| - 1], after)
    ensures Literals(before) == Literals(before[..|before| - 1]) + [Literal(before[|before| - 1].1)]
  {
    var init, last := before[..|before| - 1], before[|before| - 1];
    assert SparsePiece(last, after) == [Literal(last.1)];
    assert init + [last] == before;
    LiteralsSnoc(init, last);
  }

  lemma {:induction false} LiteralsSnoc(img: Image, column: (string, Cell))
    ensures Literals(img + [column]) == Literals(img) + [Literal(column.1)]
  {
  }

  /**
   * For a column that is `None` before the update, the value written is
   * the after-image's: its literal when it is a scalar or text, but the
   * text `'null'` when it is a dict or a list.
   */
  lemma SparseNullColumn(key: string, after: Image)
    requires key in Columns(after)
    ensures var newValue := Lookup(after, key).value;
            SparsePiece((key, Null), after)
              == if newValue.Null? then []
                 else if IsStructured(newValue) then ["'null'"]
                 else [Literal(newValue)]
  {
    var newValue := Lookup(after, key).value;
    if !newValue.Null? && IsStructured(newValue) {
      assert JsonText(Null) == "null";
      assert Quote(JsonText(Null)) == "'null'";
    }
  }

  /** The names of the before-image columns the REPLACE-without-null rollback writes a value for, in order. */
  function Written(before: Image, after: Image): seq<string>
    requires NullsCovered(before, after)
  {
    if before == [] then []
    else
      var (key, v) := before[|before| - 1];
      Written(before[..|before| - 1], after)
        + (if v.Null? && Lookup(after, key).value.Null? then [] else [key])
  }

  /** One name per value written. */
  lemma {:induction false} WrittenCount(before: Image, after: Image)
    requires NullsCovered(before, after)
    ensures |Written(before, after)| == |SparseValues(before, after)|
  {
    if before != [] {
      var init := before[..|before| - 1];
      assert NullsCovered(init, after);
      WrittenCount(init, after);
    }
  }

  /**
   * The field list of the REPLACE-without-null rollback repeats the stale
   * loop variable once per value written. It names the columns those values
   * belong to exactly when every one of them has the stale name, so two
   * written columns with different names make the statement wrong.
   */
  lemma SparseFieldListIsStale(before: Image, after: Image)
    requires NullsCovered(before, after)
    ensures var written, listed := Written(before, after), Repeat(StaleKey(before, after), |SparseValues(before, after)|);
            listed == written <==> forall i :: 0 <= i < |written| ==> written[i] == StaleKey(before, after)
  {
    WrittenCount(before, after);
  }

  /** An update of two columns `a` and `b`: both are written, but the field list names `b` twice. */
  lemma SparseFieldListMislabels()
    ensures var before: Image := [("a", Scalar("1")), ("b", Scalar("2"))];
            var after: Image := [("a", Scalar("3")), ("b", Scalar("4"))];
            Written(before, after) == ["a", "b"] &&
            Repeat(StaleKey(before, after), |SparseValues(before, after)|) == ["b", "b"]
  {
    var before: Image := [("a", Scalar("1")), ("b", Scalar("2"))];
    var after: Image := [("a", Scalar("3")), ("b", Scalar("4"))];
    assert before[..1] == [("a", Scalar("1"))] && before[..1][..0] == [];
    assert Written(before, after) == ["a", "b"];
    WrittenCount(before, after);
  }

  // ---------------------------------------------------------------------
  // Records of an event

  /** Records that all go to the direct queue. */
  predicate DirectOnly(r: seq<Record>) {
    Route(r, Direct) == r && Route(r, ReplaceFull) == [] && Route(r, ReplaceSparse) == []
  }

  /** Records that give the three queues the same number of entries. */
  predicate Balanced(r: seq<Record>) {
    |Route(r, ReplaceFull)| == |Route(r, Direct)| && |Route(r, ReplaceSparse)| == |Route(r, Direct)|
  }

  /** How the records of one row are routed, given their tags. */
  lemma ShapedRoute(x: seq<Record>, update: bool, admitted: bool)
    requires Shaped(x, update, admitted)
    ensures !update ==> DirectOnly(x)
    ensures update ==> Balanced(x)
    ensures admitted ==> |Route(x, Direct)| == 1
  {
    if x != [] {
      RouteSingleton(x[0]);
      if update {
        UpdateRecordsRoute(x);
      } else {
        assert x == [x[0]];
      }
    }
  }

  lemma DirectOnlyAppend(a: seq<Record>, b: seq<Record>)
    requires DirectOnly(a) && DirectOnly(b)
    ensures DirectOnly(a + b)
  {
    RouteAppend(a, b, Direct);
    RouteAppend(a, b, ReplaceFull);
    RouteAppend(a, b, ReplaceSparse);
  }

  lemma BalancedAppend(a: seq<Record>, b: seq<Record>)
    requires Balanced(a) && Balanced(b)
    ensures Balanced(a + b)
  {
    RouteAppend(a, b, Direct);
    RouteAppend(a, b, ReplaceFull);
    RouteAppend(a, b, ReplaceSparse);
  }

  /** Rows of an insert or a delete only feed the direct queue. */
  lemma {:induction false} CollectRoutingDirect(results: seq<Option<seq<Record>>>, n: nat)
    requires n <= |results|
    requires forall j :: 0 <= j < |results| && results[j].Some? ==> DirectOnly(results[j].value)
    ensures DirectOnly(Collect(results, n).0)
  {
    if n > 0 {
      CollectRoutingDirect(results, n - 1);
      var prev := Collect(results, n - 1);
      var last := results[n - 1];
      if !prev.1 && last.Some? {
        assert DirectOnly(last.value);
        DirectOnlyAppend(prev.0, last.value);
        assert Collect(results, n).0 == prev.0 + last.value;
      } else {
        assert Collect(results, n).0 == prev.0;
      }
    }
  }

  /** Rows of an update feed the three queues alike. */
  lemma {:induction false} CollectRoutingUpdate(results: seq<Option<seq<Record>>>, n: nat)
    requires n <= |results|
    requires forall j :: 0 <= j < |results| && results[j].Some? ==> Balanced(results[j].value)
    ensures Balanced(Collect(results, n).0)
  {
    if n > 0 {
      CollectRoutingUpdate(results, n - 1);
      var prev := Collect(results, n - 1);
      var last := results[n - 1];
      if !prev.1 && last.Some? {
        BalancedAppend(prev.0, last.value);
      }
    }
  }

  lemma {:induction false} CollectComplete(results: seq<Option<seq<Record>>>, n: nat, update: bool)
    requires n <= |results|
    requires forall j :: 0 <= j < |results| ==> results[j].Some? && Shaped(results[j].value, update, true)
    ensures !Collect(results, n).1 && |Route(Collect(results, n).0, Direct)| == n
  {
    if n > 0 {
      CollectComplete(results, n - 1, update);
      var last := results[n - 1];
      ShapedRoute(last.value, update, true);
      RouteAppend(Collect(results, n - 1).0, last.value, Direct);
    }
  }

  /**
   * What one event contributes to each queue: an insert or a delete only
   * feeds the direct queue; an update puts one record in each of the three
   * queues per row; and when the event is in the window, admitted, and every
   * row converts, the direct queue gets one record per row.
   */
  lemma EventRecordsShape(e: Event, start: int, end: int, filter: OpFilter)
    requires UpdateLookupsSucceed(e)
    ensures var r := EventRecords(e, start, end, filter);
            (KindOf(e) != Update ==> Route(r, Direct) == r && Route(r, ReplaceFull) == [] && Route(r, ReplaceSparse) == []) &&
            (KindOf(e) == Update ==>
              |Route(r, ReplaceFull)| == |Route(r, Direct)| && |Route(r, ReplaceSparse)| == |Route(r, Direct)|) &&
            (start <= e.timestamp <= end && Admits(filter, KindOf(e)) &&
             (forall i :: 0 <= i < RowCount(e) ==> RowDecodes(e, i))
             ==> |Route(r, Direct)| == RowCount(e))
  {
    var results := RowResults(e, filter, RowCount(e));
    RowResultsFacts(e, filter, RowCount(e));
    var update, admitted := KindOf(e) == Update, Admits(filter, KindOf(e));
    forall j | 0 <= j < |results| && results[j].Some?
      ensures if update then Balanced(results[j].value) else DirectOnly(results[j].value)
    {
      ShapedRoute(results[j].value, update, admitted);
    }
    if update {
      CollectRoutingUpdate(results, |results|);
    } else {
      CollectRoutingDirect(results, |results|);
    }
    if start <= e.timestamp <= end && Admits(filter, KindOf(e)) &&
       (forall i :: 0 <= i < RowCount(e) ==> RowDecodes(e, i)) {
      CollectComplete(results, |results|, KindOf(e) == Update);
    }
  }

  // ---------------------------------------------------------------------
  // The limits of the text

  /**
   * A text value holding a quote, a comma and `` `b`=' `` renders as the
   * assignments of two columns.
   */
  lemma InjectedAssignment(a: string, b: string, x: string, y: string)
    ensures Assignment(a, Text(x + "'" + "," + Backtick(b) + "=" + "'" + y))
      == Assignment(a, Text(x)) + "," + Assignment(b, Text(y))
  {
    var s := x + "'" + "," + Backtick(b) + "=" + "'" + y;
    calc {
      Assignment(a, Text(s));
      Backtick(a) + "=" + ("'" + s + "'");
      Backtick(a) + "=" + "'" + x + "'" + "," + Backtick(b) + "=" + "'" + y + "'";
      (Backtick(a) + "=" + ("'" + x + "'")) + "," + (Backtick(b) + "=" + ("'" + y + "'"));
    }
  }

  /**
   * Text values are written between quotes without escaping, so an update
   * of one column to such a text writes the same statement as an update of
   * two columns: the statement does not determine the change it records.
   */
  lemma UnescapedTextIsAmbiguous(schema: string, table: string, before: Image, a: string, b: string, x: string, y: string)
    ensures var one := [(a, Text(x + "'" + "," + Backtick(b) + "=" + "'" + y))];
            var two := [(a, Text(x)), (b, Text(y))];
            one != two && UpdateSql(schema, table, before, one) == UpdateSql(schema, table, before, two)
  {
    var one: Image := [(a, Text(x + "'" + "," + Backtick(b) + "=" + "'" + y))];
    var two: Image := [(a, Text(x)), (b, Text(y))];
    assert |one| != |two|;
    var first := Assignment(a, Text(x));
    var second := Assignment(b, Text(y));
    InjectedAssignment(a, b, x, y);
    assert Assignments(one) == [first + "," + second];
    assert Assignments(two) == [first, second];
    assert [first, second][1..] == [second];
    assert Join(",", Assignments(one)) == first + "," + second;
    assert Join(",", Assignments(two)) == first + "," + second;
  }

}
