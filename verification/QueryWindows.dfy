/** NOT IN over a subquery with an offset or a limit: exactly when it is still the opposite of IN. */
module QueryWindows {
  import opened Outcomes
  import opened QueryModel
  import opened QueryLaws

  // ----- filters that do not read the queried table

  /** No subquery of the expression, at any depth, reads this table. */
  predicate IgnoresTable(e: Expr, table: string)
    decreases e
  {
    match e
    case Column(_) => true
    case Constant(_) => true
    case Function(_, args) => AllIgnoreTable(args, table)
    case Binary(left, _, right) => IgnoresTable(left, table) && IgnoresTable(right, table)
    case SubQuery(left, _, entity, query) =>
      && entity != table && IgnoresTable(left, table)
      && (query.filter.Some? ==> IgnoresTable(query.filter.value, table))
    case Between(x, lower, upper) => IgnoresTable(x, table) && IgnoresTable(lower, table) && IgnoresTable(upper, table)
    case IsNull(x) => IgnoresTable(x, table)
    case IsNotNull(x) => IgnoresTable(x, table)
    case And(es) => AllIgnoreTable(es, table)
    case Or(es) => AllIgnoreTable(es, table)
    case Not(x) => IgnoresTable(x, table)
  }

  predicate AllIgnoreTable(es: seq<Expr>, table: string)
    decreases es
  {
    es != [] ==> IgnoresTable(es[0], table) && AllIgnoreTable(es[1..], table)
  }

  predicate FilterIgnoresTable(filter: Option<Expr>, table: string) {
    filter.Some? ==> IgnoresTable(filter.value, table)
  }

  /** Such an expression has the same meaning whatever rows the table holds. */
  lemma {:induction false} MeaningIgnoresTable(eng: Engine, db: Database, table: string, rows: seq<Row>, row: Row,
      e: Expr)
    requires IgnoresTable(e, table)
    ensures Meaning(eng, db[table := rows], row, e) == Meaning(eng, db, row, e)
    ensures ValueOf(eng, db[table := rows], row, e) == ValueOf(eng, db, row, e)
    decreases e
  {
    match e
    case Column(_) =>
    case Constant(_) =>
    case Function(_, args) => ListIgnoresTable(eng, db, table, rows, row, args);
    case Binary(left, _, right) =>
      MeaningIgnoresTable(eng, db, table, rows, row, left);
      MeaningIgnoresTable(eng, db, table, rows, row, right);
    case SubQuery(left, _, entity, query) =>
      MeaningIgnoresTable(eng, db, table, rows, row, left);
      ColumnIgnoresTable(eng, db, table, rows, entity, query);
    case Between(x, lower, upper) =>
      MeaningIgnoresTable(eng, db, table, rows, row, x);
      MeaningIgnoresTable(eng, db, table, rows, row, lower);
      MeaningIgnoresTable(eng, db, table, rows, row, upper);
    case IsNull(x) => MeaningIgnoresTable(eng, db, table, rows, row, x);
    case IsNotNull(x) => MeaningIgnoresTable(eng, db, table, rows, row, x);
    case And(es) => ListIgnoresTable(eng, db, table, rows, row, es);
    case Or(es) => ListIgnoresTable(eng, db, table, rows, row, es);
    case Not(x) => MeaningIgnoresTable(eng, db, table, rows, row, x);
  }

  lemma {:induction false} ColumnIgnoresTable(
    eng: Engine, db: Database, table: string, rows: seq<Row>, entity: string, query: Query)
    requires entity != table && FilterIgnoresTable(query.filter, table)
    ensures ColumnOf(eng, db[table := rows], entity, query) == ColumnOf(eng, db, entity, query)
    decreases query
  {
    AcceptedIgnoresTable(eng, db, table, rows, if entity in db then db[entity] else [], query.filter);
  }

  lemma {:induction false} ListIgnoresTable(
    eng: Engine, db: Database, table: string, rows: seq<Row>, row: Row, es: seq<Expr>)
    requires AllIgnoreTable(es, table)
    ensures ValuesOf(eng, db[table := rows], row, es) == ValuesOf(eng, db, row, es)
    ensures AllOf(eng, db[table := rows], row, es) == AllOf(eng, db, row, es)
    ensures AnyOf(eng, db[table := rows], row, es) == AnyOf(eng, db, row, es)
    decreases es
  {
    if es != [] {
      MeaningIgnoresTable(eng, db, table, rows, row, es[0]);
      ListIgnoresTable(eng, db, table, rows, row, es[1..]);
    }
  }

  lemma {:induction false} AcceptedIgnoresTable(
    eng: Engine, db: Database, table: string, rows: seq<Row>, others: seq<Row>, filter: Option<Expr>)
    requires FilterIgnoresTable(filter, table)
    ensures Accepted(eng, db[table := rows], others, filter) == Accepted(eng, db, others, filter)
    decreases filter, 1, |others|
  {
    if others != [] {
      AcceptedIgnoresTable(eng, db, table, rows, others[..|others| - 1], filter);
      if filter.Some? {
        MeaningIgnoresTable(eng, db, table, rows, others[|others| - 1], filter.value);
      }
    }
  }

  // ----- the claim and its condition

  /** NOT IN is the opposite of IN for this subquery, on every database and for every value that is not null. */
  ghost predicate NotInHolds(eng: Engine, entity: string, q: Query) {
    forall db: Database, row: Row, left: Expr :: ValueOf(eng, db, row, left) != Null ==>
      Opposite(eng, db, row, left, entity, q)
  }

  predicate Opposite(eng: Engine, db: Database, row: Row, left: Expr, entity: string, q: Query) {
    Meaning(eng, db, row, NotInSubQuery(left, entity, q)) == True <==> Meaning(eng, db, row, InSubQuery(left, entity, q)) != True
  }

  predicate SelectsNull(eng: Engine, db: Database, q: Query, row: Row)
    requires |q.projection| == 1
  {
    FilterMeaning(eng, db, row, q.filter) == True && ColumnValue(row, q.projection[0]) == Null
  }

  predicate SelectsValue(eng: Engine, db: Database, q: Query, row: Row)
    requires |q.projection| == 1
  {
    FilterMeaning(eng, db, row, q.filter) == True && ColumnValue(row, q.projection[0]) != Null
  }

  predicate Mixes(eng: Engine, db: Database, q: Query, r: Row, s: Row)
    requires |q.projection| == 1
  {
    SelectsNull(eng, db, q, r) && SelectsValue(eng, db, q, s)
  }

  /** On some database the filter accepts a row with a null in the column and one without. */
  ghost predicate MixesNulls(eng: Engine, q: Query)
    requires |q.projection| == 1
  {
    exists db: Database, r: Row, s: Row :: Mixes(eng, db, q, r, s)
  }

  // ----- where it holds

  lemma {:induction false} ProjectAt(rows: seq<Row>, column: string)
    ensures |Project(rows, column)| == |rows|
    ensures forall i :: 0 <= i < |rows| ==> Project(rows, column)[i] == ColumnValue(rows[i], column)
  {
    if rows != [] {
      ProjectAt(rows[..|rows| - 1], column);
    }
  }

  lemma {:induction false} AcceptedAre(eng: Engine, db: Database, rows: seq<Row>, filter: Option<Expr>)
    ensures forall i :: 0 <= i < |Accepted(eng, db, rows, filter)| ==>
      FilterMeaning(eng, db, Accepted(eng, db, rows, filter)[i], filter) == True
  {
    if rows != [] {
      AcceptedAre(eng, db, rows[..|rows| - 1], filter);
    }
  }

  /** The rows in a window are rows. */
  lemma {:induction false} SlicedAre(rows: seq<Row>, slice: Option<Slice>)
    ensures forall r :: r in Sliced(rows, slice) ==> r in rows
  {
  }

  /** Every row behind the column of a query was accepted by its filter. */
  lemma {:induction false} WindowAccepted(eng: Engine, db: Database, entity: string, q: Query)
    ensures forall r :: r in RowsOf(eng, db, entity, q) ==> FilterMeaning(eng, db, r, q.filter) == True
  {
    var table := if entity in db then db[entity] else [];
    AcceptedAre(eng, db, table, q.filter);
    SlicedAre(Accepted(eng, db, table, q.filter), q.slice);
  }

  /** Without accepted nulls the copy selects what the query selects, and no comparison is unknown. */
  lemma {:induction false} HoldsWithoutNulls(eng: Engine, db: Database, entity: string, q: Query, x: SqlValue)
    requires eng.Standard() && |q.projection| == 1 && x != Null
    requires forall r :: !SelectsNull(eng, db, q, r)
    ensures Not3(InValues(eng, x, ColumnOf(eng, db, entity, SafeQuery(q)))) == True
       <==> InValues(eng, x, ColumnOf(eng, db, entity, q)) != True
  {
    var name, table := q.projection[0], if entity in db then db[entity] else [];
    forall i | 0 <= i < |table|
      ensures FilterMeaning(eng, db, table[i], SafeQuery(q).filter) == True <==> FilterMeaning(eng, db, table[i], q.filter) == True
    {
      AndFilterMeans(eng, db, table[i], q.filter, IsNotNull(Column(name)));
      IsNotNullMeans(eng, db, table[i], name);
      assert !SelectsNull(eng, db, q, table[i]);
    }
    AcceptedDependsOnMeaning(eng, db, table, SafeQuery(q).filter, q.filter);
    assert RowsOf(eng, db, entity, SafeQuery(q)) == RowsOf(eng, db, entity, q);
    NoNullsInWindow(eng, db, entity, q);
    InIsMembership(eng, x, ColumnOf(eng, db, entity, q));
  }

  lemma {:induction false} NoNullsInWindow(eng: Engine, db: Database, entity: string, q: Query)
    requires |q.projection| == 1 && forall r :: !SelectsNull(eng, db, q, r)
    ensures forall i :: 0 <= i < |ColumnOf(eng, db, entity, q)| ==> ColumnOf(eng, db, entity, q)[i] != Null
  {
    var rows := RowsOf(eng, db, entity, q);
    WindowAccepted(eng, db, entity, q);
    ProjectAt(rows, q.projection[0]);
    forall i | 0 <= i < |rows|
      ensures ColumnValue(rows[i], q.projection[0]) != Null
    {
      assert rows[i] in rows && !SelectsNull(eng, db, q, rows[i]);
    }
  }

  /** Without accepted values IN finds nothing and the copy selects nothing. */
  lemma {:induction false} HoldsWithoutValues(eng: Engine, db: Database, entity: string, q: Query, x: SqlValue)
    requires eng.Standard() && |q.projection| == 1 && x != Null
    requires forall r :: !SelectsValue(eng, db, q, r)
    ensures Not3(InValues(eng, x, ColumnOf(eng, db, entity, SafeQuery(q)))) == True
       <==> InValues(eng, x, ColumnOf(eng, db, entity, q)) != True
  {
    var name, rows, safe := q.projection[0], RowsOf(eng, db, entity, q), RowsOf(eng, db, entity, SafeQuery(q));
    WindowAccepted(eng, db, entity, SafeQuery(q));
    if safe != [] {
      var r := safe[0];
      assert r in safe;
      AndFilterMeans(eng, db, r, q.filter, IsNotNull(Column(name)));
      IsNotNullMeans(eng, db, r, name);
      assert SelectsValue(eng, db, q, r);
      assert false;
    }
    WindowAccepted(eng, db, entity, q);
    ProjectAt(rows, name);
    forall i | 0 <= i < |rows|
      ensures ColumnValue(rows[i], name) == Null
    {
      assert rows[i] in rows && !SelectsValue(eng, db, q, rows[i]);
    }
    InIsMembership(eng, x, ColumnOf(eng, db, entity, q));
  }

  // ----- where it fails

  function Copies(row: Row, n: nat): (rows: seq<Row>)
    ensures |rows| == n && forall i :: 0 <= i < n ==> rows[i] == row
  {
    seq(n, i => row)
  }

  lemma {:induction false} EverythingAccepted(eng: Engine, db: Database, rows: seq<Row>, filter: Option<Expr>)
    requires forall i :: 0 <= i < |rows| ==> FilterMeaning(eng, db, rows[i], filter) == True
    ensures Accepted(eng, db, rows, filter) == rows
  {
    if rows != [] {
      EverythingAccepted(eng, db, rows[..|rows| - 1], filter);
    }
  }

  lemma {:induction false} NothingAccepted(eng: Engine, db: Database, rows: seq<Row>, filter: Option<Expr>)
    requires forall i :: 0 <= i < |rows| ==> FilterMeaning(eng, db, rows[i], filter) != True
    ensures Accepted(eng, db, rows, filter) == []
  {
    if rows != [] {
      NothingAccepted(eng, db, rows[..|rows| - 1], filter);
    }
  }

  lemma {:induction false} AcceptedConcat(eng: Engine, db: Database, rows: seq<Row>, more: seq<Row>,
      filter: Option<Expr>)
    ensures Accepted(eng, db, rows + more, filter) == Accepted(eng, db, rows, filter) + Accepted(eng, db, more, filter)
  {
    if more == [] {
      assert rows + more == rows;
    } else {
      assert (rows + more)[..|rows + more| - 1] == rows + more[..|more| - 1];
      AcceptedConcat(eng, db, rows, more[..|more| - 1], filter);
    }
  }

  /** The table that breaks a window: `nulls` copies of a row with a null, then `values` copies of one without. */
  function Mixed(db: Database, entity: string, r: Row, nulls: nat, s: Row, values: nat): Database {
    db[entity := Copies(r, nulls) + Copies(s, values)]
  }

  /** For a limit: enough nulls to fill the window, and one value more than the offset skips. */
  function LimitTable(db: Database, entity: string, slice: Slice, r: Row, s: Row): Database
    requires slice.limit.Some?
  {
    Mixed(db, entity, r, slice.offset + slice.limit.value, s, slice.offset + 1)
  }

  /** On that table the query sees every row, its copy only those with a value. */
  lemma {:induction false} MixedColumns(eng: Engine, db: Database, entity: string, q: Query, r: Row, nulls: nat,
      s: Row, values: nat)
    requires |q.projection| == 1 && Mixes(eng, Mixed(db, entity, r, nulls, s, values), q, r, s)
    ensures ColumnOf(eng, Mixed(db, entity, r, nulls, s, values), entity, q)
         == Project(Sliced(Copies(r, nulls) + Copies(s, values), q.slice), q.projection[0])
    ensures ColumnOf(eng, Mixed(db, entity, r, nulls, s, values), entity, SafeQuery(q))
         == Project(Sliced(Copies(s, values), q.slice), q.projection[0])
  {
    var table := Copies(r, nulls) + Copies(s, values);
    var mixed := db[entity := table];
    SafeQuerySelects(eng, mixed, q, r);
    SafeQuerySelects(eng, mixed, q, s);
    EverythingAccepted(eng, mixed, table, q.filter);
    NothingAccepted(eng, mixed, Copies(r, nulls), SafeQuery(q).filter);
    EverythingAccepted(eng, mixed, Copies(s, values), SafeQuery(q).filter);
    AcceptedConcat(eng, mixed, Copies(r, nulls), Copies(s, values), SafeQuery(q).filter);
    assert [] + Copies(s, values) == Copies(s, values);
  }

  /** The copy accepts the rows of the query that have a value in the column. */
  lemma {:induction false} SafeQuerySelects(eng: Engine, db: Database, q: Query, row: Row)
    requires |q.projection| == 1
    ensures FilterMeaning(eng, db, row, SafeQuery(q).filter) == True <==> SelectsValue(eng, db, q, row)
  {
    SafeFilterMeans(eng, db, row, q.filter, q.projection[0]);
  }

  /** Rows are accepted as before the table changed. */
  lemma {:induction false} SameRows(eng: Engine, db: Database, entity: string, rows: seq<Row>, q: Query, r: Row, s: Row)
    requires |q.projection| == 1 && FilterIgnoresTable(q.filter, entity) && Mixes(eng, db, q, r, s)
    ensures Mixes(eng, db[entity := rows], q, r, s)
  {
    if q.filter.Some? {
      MeaningIgnoresTable(eng, db, entity, rows, r, q.filter.value);
      MeaningIgnoresTable(eng, db, entity, rows, s, q.filter.value);
    }
  }

  lemma {:induction false} NullsAreNotIn(eng: Engine, rows: seq<Row>, column: string, x: SqlValue)
    requires eng.Standard() && forall i :: 0 <= i < |rows| ==> ColumnValue(rows[i], column) == Null
    ensures InValues(eng, x, Project(rows, column)) != True
  {
    ProjectAt(rows, column);
    InIsMembership(eng, x, Project(rows, column));
  }

  lemma {:induction false} FirstIsIn(eng: Engine, rows: seq<Row>, column: string)
    requires eng.Standard() && rows != [] && ColumnValue(rows[0], column) != Null
    ensures InValues(eng, ColumnValue(rows[0], column), Project(rows, column)) == True
  {
    ProjectAt(rows, column);
    InIsMembership(eng, ColumnValue(rows[0], column), Project(rows, column));
    assert Project(rows, column)[0] == ColumnValue(rows[0], column);
  }

  /**
    IN and NOT IN of one value agree on a database on which the copy's column finds it and the query's does not,
    or vice versa.
   */
  lemma {:induction false} NotOpposite(eng: Engine, db: Database, entity: string, q: Query, x: SqlValue)
    requires InValues(eng, x, ColumnOf(eng, db, entity, q)) != True ==>
      InValues(eng, x, ColumnOf(eng, db, entity, SafeQuery(q))) == True
    requires InValues(eng, x, ColumnOf(eng, db, entity, q)) == True ==> ColumnOf(eng, db, entity, SafeQuery(q)) == []
    ensures !Opposite(eng, db, map[], Constant(x), entity, q)
  {
    assert ValueOf(eng, db, map[], Constant(x)) == x;
  }

  /** A limit: the nulls fill the window of IN and hide the value, but not from the copy. */
  lemma {:induction false} LimitBreaksNotIn(eng: Engine, db: Database, entity: string, q: Query, r: Row, s: Row)
    requires eng.Standard() && |q.projection| == 1
    requires q.slice.Some? && q.slice.value.limit.Some? && q.slice.value.limit.value > 0
    requires Mixes(eng, LimitTable(db, entity, q.slice.value, r, s), q, r, s)
    ensures var mixed := LimitTable(db, entity, q.slice.value, r, s);
      !Opposite(eng, mixed, map[], Constant(ColumnValue(s, q.projection[0])), entity, q)
  {
    var name, offset, limit := q.projection[0], q.slice.value.offset, q.slice.value.limit.value;
    LimitedColumns(eng, db, entity, q, r, s);
    NullsAreNotIn(eng, Copies(r, limit), name, ColumnValue(s, name));
    FirstIsIn(eng, [s], name);
    NotOpposite(eng, LimitTable(db, entity, q.slice.value, r, s), entity, q, ColumnValue(s, name));
  }

  lemma {:induction false} LimitedColumns(eng: Engine, db: Database, entity: string, q: Query, r: Row, s: Row)
    requires |q.projection| == 1
    requires q.slice.Some? && q.slice.value.limit.Some? && q.slice.value.limit.value > 0
    requires Mixes(eng, LimitTable(db, entity, q.slice.value, r, s), q, r, s)
    ensures var limit := q.slice.value.limit.value;
      var mixed := LimitTable(db, entity, q.slice.value, r, s);
      && ColumnOf(eng, mixed, entity, q) == Project(Copies(r, limit), q.projection[0])
      && ColumnOf(eng, mixed, entity, SafeQuery(q)) == Project([s], q.projection[0])
  {
    var offset, limit := q.slice.value.offset, q.slice.value.limit.value;
    MixedColumns(eng, db, entity, q, r, offset + limit, s, offset + 1);
    NullsThenValues(r, offset + limit, s, offset, limit);
  }

  lemma {:induction false} NullsThenValues(r: Row, nulls: nat, s: Row, offset: nat, limit: nat)
    requires limit > 0 && nulls == offset + limit
    ensures var slice := Some(Slice(offset, Some(limit)));
      && Sliced(Copies(r, nulls) + Copies(s, offset + 1), slice) == Copies(r, limit)
      && Sliced(Copies(s, offset + 1), slice) == [s]
  {
    var rest := (Copies(r, nulls) + Copies(s, offset + 1))[offset..];
    assert |rest| > limit && rest[..limit] == Copies(r, limit);
    assert Copies(s, offset + 1)[offset..] == [s];
  }

  /** An offset: IN skips the null and finds the value, but the copy skips the value. */
  lemma {:induction false} OffsetBreaksNotIn(eng: Engine, db: Database, entity: string, q: Query, r: Row, s: Row)
    requires eng.Standard() && |q.projection| == 1
    requires q.slice.Some? && q.slice.value.limit.None? && q.slice.value.offset > 0
    requires Mixes(eng, Mixed(db, entity, r, 1, s, q.slice.value.offset), q, r, s)
    ensures !Opposite(eng, Mixed(db, entity, r, 1, s, q.slice.value.offset), map[],
                      Constant(ColumnValue(s, q.projection[0])), entity, q)
  {
    var name, offset := q.projection[0], q.slice.value.offset;
    MixedColumns(eng, db, entity, q, r, 1, s, offset);
    OneNullThenValues(r, s, offset);
    FirstIsIn(eng, [s], name);
    NotOpposite(eng, Mixed(db, entity, r, 1, s, offset), entity, q, ColumnValue(s, name));
  }

  lemma {:induction false} OneNullThenValues(r: Row, s: Row, offset: nat)
    requires offset > 0
    ensures Sliced(Copies(r, 1) + Copies(s, offset), Some(Slice(offset, None))) == [s]
    ensures Sliced(Copies(s, offset), Some(Slice(offset, None))) == []
  {
    assert (Copies(r, 1) + Copies(s, offset))[offset..] == [s];
  }

  /**
    For a one-column subquery, whatever its filter and however nested: NOT IN is the opposite of IN on every
    database if the subquery has neither offset nor limit, or its filter never accepts both a row with a null in
    the column and a row without; and only if, as long as no subquery of the filter reads the queried table
    itself. A limit, when there is one, is at least one.
   */
  lemma {:induction false} NotInHoldsIff(eng: Engine, entity: string, q: Query)
    requires eng.Standard() && |q.projection| == 1
    requires q.slice.Some? && q.slice.value.limit.Some? ==> q.slice.value.limit.value > 0
    ensures NoWindow(q.slice) || !MixesNulls(eng, q) ==> NotInHolds(eng, entity, q)
    ensures FilterIgnoresTable(q.filter, entity) ==>
      (NotInHolds(eng, entity, q) <==> NoWindow(q.slice) || !MixesNulls(eng, q))
  {
    if NoWindow(q.slice) || !MixesNulls(eng, q) {
      forall db: Database, row: Row, left: Expr | ValueOf(eng, db, row, left) != Null
        ensures Opposite(eng, db, row, left, entity, q)
      {
        OppositeHolds(eng, db, row, left, entity, q);
      }
    } else if FilterIgnoresTable(q.filter, entity) {
      var db: Database, r: Row, s: Row :| Mixes(eng, db, q, r, s);
      WindowBreaksNotIn(eng, db, entity, q, r, s);
    }
  }

  lemma {:induction false} WindowBreaksNotIn(eng: Engine, db: Database, entity: string, q: Query, r: Row, s: Row)
    requires eng.Standard() && |q.projection| == 1 && FilterIgnoresTable(q.filter, entity) && !NoWindow(q.slice)
    requires q.slice.value.limit.Some? ==> q.slice.value.limit.value > 0
    requires Mixes(eng, db, q, r, s)
    ensures !NotInHolds(eng, entity, q)
  {
    var x, slice := Constant(ColumnValue(s, q.projection[0])), q.slice.value;
    if slice.limit.Some? {
      var mixed := LimitTable(db, entity, slice, r, s);
      SameRows(eng, db, entity, mixed[entity], q, r, s);
      LimitBreaksNotIn(eng, db, entity, q, r, s);
      assert ValueOf(eng, mixed, map[], x) != Null;
    } else {
      var mixed := Mixed(db, entity, r, 1, s, slice.offset);
      SameRows(eng, db, entity, mixed[entity], q, r, s);
      OffsetBreaksNotIn(eng, db, entity, q, r, s);
      assert ValueOf(eng, mixed, map[], x) != Null;
    }
  }

  lemma {:induction false} OneKindOnly(eng: Engine, db: Database, entity: string, q: Query, x: SqlValue)
    requires eng.Standard() && |q.projection| == 1 && x != Null && !MixesNulls(eng, q)
    ensures Not3(InValues(eng, x, ColumnOf(eng, db, entity, SafeQuery(q)))) == True
       <==> InValues(eng, x, ColumnOf(eng, db, entity, q)) != True
  {
    if r: Row :| SelectsNull(eng, db, q, r) {
      forall s: Row
        ensures !SelectsValue(eng, db, q, s)
      {
        assert !Mixes(eng, db, q, r, s);
      }
      HoldsWithoutValues(eng, db, entity, q, x);
    } else {
      HoldsWithoutNulls(eng, db, entity, q, x);
    }
  }

  lemma {:induction false} OppositeHolds(eng: Engine, db: Database, row: Row, left: Expr, entity: string, q: Query)
    requires eng.Standard() && |q.projection| == 1 && ValueOf(eng, db, row, left) != Null
    requires NoWindow(q.slice) || !MixesNulls(eng, q)
    ensures Opposite(eng, db, row, left, entity, q)
  {
    var x := ValueOf(eng, db, row, left);
    if NoWindow(q.slice) {
      NotInIsNotIn(eng, db, row, left, entity, q);
    } else {
      OneKindOnly(eng, db, entity, q, x);
    }
  }

  /** A filter that asks for values in the column makes any window harmless. */
  lemma {:induction false} NotNullFilterMakesWindowsHarmless(eng: Engine, entity: string, name: string,
      slice: Option<Slice>)
    requires eng.Standard() && (slice.Some? && slice.value.limit.Some? ==> slice.value.limit.value > 0)
    ensures NotInHolds(eng, entity, Query(entity, [name], Some(IsNotNull(Column(name))), slice))
  {
    var q := Query(entity, [name], Some(IsNotNull(Column(name))), slice);
    forall db: Database, r: Row
      ensures !SelectsNull(eng, db, q, r)
    {
      IsNotNullMeans(eng, db, r, name);
    }
    NotInHoldsIff(eng, entity, q);
  }
}
