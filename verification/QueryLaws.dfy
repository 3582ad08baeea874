/** The query rewrites mean what they claim, row by row and table by table. */
module QueryLaws {
  import opened Outcomes
  import opened QueryModel

  // ----- dropping the live-row filter

  const LIVE_FILTER := Binary(Column("version"), Gte, Constant(Num(1.0)))

  /** `version >= 1`; the program's test for 1 also holds of 1.0 and TRUE. */
  predicate IsLiveCondition(e: Expr) {
    || e == Binary(Column("version"), Gte, Constant(Num(1.0)))
    || e == Binary(Column("version"), Gte, Constant(Bool(true)))
  }

  /** Some live-row condition is dropped: the filter itself, or a conjunct inside nested conjunctions. */
  predicate DropsLiveFilter(e: Expr)
    decreases e
  {
    IsLiveCondition(e) || (e.And? && AnyDropsLiveFilter(e.exprs))
  }

  predicate AnyDropsLiveFilter(es: seq<Expr>)
    decreases es
  {
    es != [] && (DropsLiveFilter(es[0]) || AnyDropsLiveFilter(es[1..]))
  }

  /** The condition that a rewrite takes away: live rows only, or nothing. */
  function Dropped(eng: Engine, db: Database, row: Row, drops: bool): Truth {
    if drops then Meaning(eng, db, row, LIVE_FILTER) else True
  }

  /** What a filter asks of a row besides being live: its live-row conjuncts, however nested, count as true. */
  function RestMeaning(eng: Engine, db: Database, row: Row, e: Expr): Truth
    decreases e
  {
    if IsLiveCondition(e) then True
    else if e.And? then RestOfAll(eng, db, row, e.exprs)
    else Meaning(eng, db, row, e)
  }

  function RestOfAll(eng: Engine, db: Database, row: Row, es: seq<Expr>): Truth
    decreases es
  {
    if es == [] then True else And3(RestMeaning(eng, db, row, es[0]), RestOfAll(eng, db, row, es[1..]))
  }

  lemma {:induction false} AllOfConcat(eng: Engine, db: Database, row: Row, a: seq<Expr>, b: seq<Expr>)
    ensures AllOf(eng, db, row, a + b) == And3(AllOf(eng, db, row, a), AllOf(eng, db, row, b))
  {
    if a == [] {
      assert a + b == b;
    } else {
      assert (a + b)[1..] == a[1..] + b;
      AllOfConcat(eng, db, row, a[1..], b);
    }
  }

  lemma {:induction false} AllOfOne(eng: Engine, db: Database, row: Row, first: Option<Expr>)
    ensures AllOf(eng, db, row, if first.Some? then [first.value] else []) == FilterMeaning(eng, db, row, first)
  {
    if first.Some? {
      assert [first.value][1..] == [];
    }
  }

  /** Live rows asked for on one side of a conjunction or on both are asked for once. */
  lemma {:induction false} DroppedTogether(head: Truth, tail: Truth, live: Truth, here: bool, there: bool)
    ensures And3(And3(head, if here then live else True), And3(tail, if there then live else True))
         == And3(And3(head, tail), if here || there then live else True)
  {
  }

  /** The rewritten filter asks of a row what the original asks of it besides being live. */
  lemma {:induction false} RemovalIsRest(eng: Engine, db: Database, row: Row, e: Expr)
    ensures FilterMeaning(eng, db, row, RemoveDefaultLiveFilter(e)) == RestMeaning(eng, db, row, e)
    decreases e
  {
    if !IsLiveCondition(e) && e.And? {
      RetentionIsRest(eng, db, row, e.exprs);
      var retained := RetainAll(e.exprs);
      if |retained| == 1 {
        assert retained == [retained[0]];
        AllOfOne(eng, db, row, Some(retained[0]));
      }
    }
  }

  lemma {:induction false} RetentionIsRest(eng: Engine, db: Database, row: Row, es: seq<Expr>)
    ensures AllOf(eng, db, row, RetainAll(es)) == RestOfAll(eng, db, row, es)
    decreases es
  {
    if es != [] {
      RemovalIsRest(eng, db, row, es[0]);
      RetentionIsRest(eng, db, row, es[1..]);
      var first := RemoveDefaultLiveFilter(es[0]);
      AllOfConcat(eng, db, row, if first.Some? then [first.value] else [], RetainAll(es[1..]));
      AllOfOne(eng, db, row, first);
    }
  }

  /** Nothing but live-row conditions, in conjunctions of any depth; also an empty conjunction. */
  predicate AsksOnlyToBeLive(e: Expr)
    decreases e
  {
    IsLiveCondition(e) || (e.And? && AllAskOnlyToBeLive(e.exprs))
  }

  predicate AllAskOnlyToBeLive(es: seq<Expr>)
    decreases es
  {
    es == [] || (AsksOnlyToBeLive(es[0]) && AllAskOnlyToBeLive(es[1..]))
  }

  /** No filter is left exactly when the filter asked for nothing else. */
  lemma {:induction false} NothingIsLeftIff(e: Expr)
    ensures RemoveDefaultLiveFilter(e).None? <==> AsksOnlyToBeLive(e)
    decreases e
  {
    if !IsLiveCondition(e) && e.And? {
      NothingIsRetainedIff(e.exprs);
    }
  }

  lemma {:induction false} NothingIsRetainedIff(es: seq<Expr>)
    ensures RetainAll(es) == [] <==> AllAskOnlyToBeLive(es)
    decreases es
  {
    if es != [] {
      NothingIsLeftIff(es[0]);
      NothingIsRetainedIff(es[1..]);
    }
  }

  /** For every filter and every row, the original is the rewritten filter AND what was dropped. */
  lemma {:induction false} RemovalMeans(eng: Engine, db: Database, row: Row, e: Expr)
    requires eng.Standard()
    ensures Meaning(eng, db, row, e)
         == And3(FilterMeaning(eng, db, row, RemoveDefaultLiveFilter(e)), Dropped(eng, db, row, DropsLiveFilter(e)))
    decreases e
  {
    if IsDefaultLiveFilter(e) {
      assert ValueOf(eng, db, row, e.left) == ColumnValue(row, "version");
      assert Meaning(eng, db, row, e) == eng.compare(Gte, ColumnValue(row, "version"), e.right.value);
      assert Meaning(eng, db, row, LIVE_FILTER) == eng.compare(Gte, ColumnValue(row, "version"), Num(1.0));
    } else if e.And? {
      RetentionMeans(eng, db, row, e.exprs);
      var retained := RetainAll(e.exprs);
      if |retained| == 1 {
        assert retained == [retained[0]];
        AllOfOne(eng, db, row, Some(retained[0]));
      }
      assert FilterMeaning(eng, db, row, RemoveDefaultLiveFilter(e)) == AllOf(eng, db, row, retained);
    }
  }

  lemma {:induction false} RetentionMeans(eng: Engine, db: Database, row: Row, es: seq<Expr>)
    requires eng.Standard()
    ensures AllOf(eng, db, row, es)
         == And3(AllOf(eng, db, row, RetainAll(es)), Dropped(eng, db, row, AnyDropsLiveFilter(es)))
    decreases es
  {
    if es != [] {
      RemovalMeans(eng, db, row, es[0]);
      RetentionMeans(eng, db, row, es[1..]);
      var first := RemoveDefaultLiveFilter(es[0]);
      AllOfConcat(eng, db, row, if first.Some? then [first.value] else [], RetainAll(es[1..]));
      AllOfOne(eng, db, row, first);
      DroppedTogether(FilterMeaning(eng, db, row, first), AllOf(eng, db, row, RetainAll(es[1..])),
                      Meaning(eng, db, row, LIVE_FILTER), DropsLiveFilter(es[0]), AnyDropsLiveFilter(es[1..]));
    }
  }

  /** No live-row conjunct survives, so rewriting again changes nothing. */
  lemma {:induction false} RemovalIsIdempotent(e: Expr)
    ensures var once := RemoveDefaultLiveFilter(e);
      once.Some? ==> RemoveDefaultLiveFilter(once.value) == once && !DropsLiveFilter(once.value)
    decreases e
  {
    if !IsDefaultLiveFilter(e) && e.And? {
      var retained := RetainAll(e.exprs);
      RetentionIsIdempotent(e.exprs);
      if |retained| == 1 {
        RetainedOne(retained[0]);
      }
    }
  }

  lemma {:induction false} RetentionIsIdempotent(es: seq<Expr>)
    ensures var once := RetainAll(es);
      && RetainAll(once) == once && !AnyDropsLiveFilter(once)
      && forall i :: 0 <= i < |once| ==> RemoveDefaultLiveFilter(once[i]) == Some(once[i]) && !DropsLiveFilter(once[i])
    decreases es
  {
    if es != [] {
      RemovalIsIdempotent(es[0]);
      RetentionIsIdempotent(es[1..]);
      var first, rest := RemoveDefaultLiveFilter(es[0]), RetainAll(es[1..]);
      if first.Some? {
        var once := [first.value] + rest;
        assert once[0] == first.value && once[1..] == rest;
        forall i | 0 <= i < |once|
          ensures RemoveDefaultLiveFilter(once[i]) == Some(once[i]) && !DropsLiveFilter(once[i])
        {
          assert i > 0 ==> once[i] == rest[i - 1];
        }
      } else {
        assert [] + rest == rest;
      }
    }
  }

  lemma {:induction false} RetainedOne(e: Expr)
    requires RemoveDefaultLiveFilter(e) == Some(e) && !DropsLiveFilter(e)
    ensures RetainAll([e]) == [e]
  {
    assert [e][1..] == [];
  }

  /** A list of rows lists exactly the accepted ones, in table order. */
  lemma {:induction false} AcceptedDependsOnMeaning(eng: Engine, db: Database, rows: seq<Row>, a: Option<Expr>,
      b: Option<Expr>)
    requires forall i :: 0 <= i < |rows| ==> (FilterMeaning(eng, db, rows[i], a) == True <==> FilterMeaning(eng, db, rows[i], b) == True)
    ensures Accepted(eng, db, rows, a) == Accepted(eng, db, rows, b)
  {
    if rows != [] {
      AcceptedDependsOnMeaning(eng, db, rows[..|rows| - 1], a, b);
    }
  }

  /**
    Opting into tombstones and asking for live rows again gives the original rows, if a live-row conjunct was
    dropped.
   */
  lemma {:induction false} WithDeletedRowsOnlyDropsLiveness(eng: Engine, db: Database, rows: seq<Row>, e: Expr)
    requires eng.Standard()
    ensures Accepted(eng, db, rows, Some(e))
         == Accepted(eng, db, rows,
              if DropsLiveFilter(e) then AndFilter(RemoveDefaultLiveFilter(e), LIVE_FILTER) else RemoveDefaultLiveFilter(e))
  {
    var rewritten := if DropsLiveFilter(e) then AndFilter(RemoveDefaultLiveFilter(e), LIVE_FILTER) else RemoveDefaultLiveFilter(e);
    forall i | 0 <= i < |rows|
      ensures FilterMeaning(eng, db, rows[i], rewritten) == Meaning(eng, db, rows[i], e)
    {
      RemovalMeans(eng, db, rows[i], e);
      AndFilterMeans(eng, db, rows[i], RemoveDefaultLiveFilter(e), LIVE_FILTER);
    }
    AcceptedDependsOnMeaning(eng, db, rows, Some(e), rewritten);
  }

  lemma {:induction false} AndFilterMeans(eng: Engine, db: Database, row: Row, filter: Option<Expr>, e: Expr)
    ensures FilterMeaning(eng, db, row, AndFilter(filter, e)) == And3(FilterMeaning(eng, db, row, filter), Meaning(eng, db, row, e))
  {
    if filter.Some? {
      var es := [filter.value, e];
      assert es[1..] == [e] && [e][1..] == [];
      assert AllOf(eng, db, row, [e]) == And3(Meaning(eng, db, row, e), True);
      assert AllOf(eng, db, row, es) == And3(Meaning(eng, db, row, filter.value), AllOf(eng, db, row, [e]));
    }
  }

  /**
    `deleted_rows_only` accepts a row exactly when its version is at most -1 and all that the filter asked besides
    being live is true.
   */
  lemma {:induction false} DeletedRowsOnlyAccepts(eng: Engine, db: Database, row: Row, q: Query)
    ensures FilterMeaning(eng, db, row, DeletedRowsOnly(q).filter) == True
       <==> && eng.compare(Lte, ColumnValue(row, "version"), Num(-1.0)) == True
            && (q.filter.Some? ==> RestMeaning(eng, db, row, q.filter.value) == True)
  {
    AndFilterMeans(eng, db, row, WithoutLiveFilter(q.filter), TOMBSTONE);
    assert ValueOf(eng, db, row, TOMBSTONE.left) == ColumnValue(row, "version");
    assert Meaning(eng, db, row, TOMBSTONE) == eng.compare(Lte, ColumnValue(row, "version"), Num(-1.0));
    if q.filter.Some? {
      RemovalIsRest(eng, db, row, q.filter.value);
    }
  }

  // ----- generated requests

  /** No live-row condition and no conjunction of fewer than two, at any depth of nested conjunctions. */
  predicate IsApplicationFilter(e: Expr)
    decreases e
  {
    !IsLiveCondition(e) && (e.And? ==> |e.exprs| >= 2 && AllApplicationFilters(e.exprs))
  }

  predicate AllApplicationFilters(es: seq<Expr>)
    decreases es
  {
    es == [] || (IsApplicationFilter(es[0]) && AllApplicationFilters(es[1..]))
  }

  lemma {:induction false} ApplicationFilterStays(e: Expr)
    requires IsApplicationFilter(e)
    ensures RemoveDefaultLiveFilter(e) == Some(e)
    decreases e
  {
    if e.And? {
      ApplicationFiltersStay(e.exprs);
    }
  }

  lemma {:induction false} ApplicationFiltersStay(es: seq<Expr>)
    requires AllApplicationFilters(es)
    ensures RetainAll(es) == es
    decreases es
  {
    if es != [] {
      ApplicationFilterStays(es[0]);
      ApplicationFiltersStay(es[1..]);
      assert es == [es[0]] + es[1..];
    }
  }

  /** A filter built by and-ing these conditions on, one after the other. */
  function Built(filter: Option<Expr>, conditions: seq<Expr>): Option<Expr> {
    if conditions == [] then filter
    else AndFilter(Built(filter, conditions[..|conditions| - 1]), conditions[|conditions| - 1])
  }

  /**
    Every generated request starts from `version >= 1`. Whatever the application and-s on, including deleted rows
    leaves exactly what it would have built without the live-row condition, and asking for deleted rows only adds
    `version <= -1` to that.
   */
  lemma {:induction false} GeneratedRequestOptsOut(entity: string, projection: seq<string>, conditions: seq<Expr>,
      slice: Option<Slice>, live: Expr)
    requires live == Binary(Column("version"), Gte, Constant(Num(1.0)))
          || live == Binary(Column("version"), Gte, Constant(Bool(true)))
    requires AllApplicationFilters(conditions)
    ensures WithoutLiveFilter(Built(Some(live), conditions)) == Built(None, conditions)
    ensures DeletedRowsOnly(Query(entity, projection, Built(Some(live), conditions), slice))
         == Query(entity, projection,
                  Built(None, conditions + [Binary(Column("version"), Lte, Constant(Num(-1.0)))]), slice)
  {
    BuiltWithoutLive(live, conditions);
    var tombstone := Binary(Column("version"), Lte, Constant(Num(-1.0)));
    assert (conditions + [tombstone])[..|conditions|] == conditions;
  }

  lemma {:induction false} AllButLast(es: seq<Expr>)
    requires es != [] && AllApplicationFilters(es)
    ensures AllApplicationFilters(es[..|es| - 1]) && IsApplicationFilter(es[|es| - 1])
  {
    if |es| > 1 {
      AllButLast(es[1..]);
      assert es[..|es| - 1][1..] == es[1..][..|es| - 2];
    }
  }

  lemma {:induction false} BuiltWithoutLive(live: Expr, conditions: seq<Expr>)
    requires IsLiveCondition(live) && AllApplicationFilters(conditions)
    ensures WithoutLiveFilter(Built(Some(live), conditions)) == Built(None, conditions)
    ensures conditions != [] ==> Built(Some(live), conditions).Some? && Built(Some(live), conditions).value.And?
  {
    if conditions != [] {
      var front, last := conditions[..|conditions| - 1], conditions[|conditions| - 1];
      AllButLast(conditions);
      BuiltWithoutLive(live, front);
      ApplicationFilterStays(last);
      RetainTwo(Built(Some(live), front).value, last);
    }
  }

  lemma {:induction false} RetainTwo(first: Expr, last: Expr)
    requires RemoveDefaultLiveFilter(last) == Some(last)
    ensures var kept := RemoveDefaultLiveFilter(first);
      RemoveDefaultLiveFilter(And([first, last])) == Some(if kept.Some? then And([kept.value, last]) else last)
  {
    assert [first, last][1..] == [last] && [last][1..] == [];
    assert RetainAll([last]) == [last];
    var kept := RemoveDefaultLiveFilter(first);
    assert RetainAll([first, last]) == if kept.Some? then [kept.value, last] else [last];
  }

  // ----- NOT IN

  /** The values that are not null. */
  function NonNull(values: seq<SqlValue>): seq<SqlValue> {
    if values == [] then []
    else
      var front := NonNull(values[..|values| - 1]);
      if values[|values| - 1] == Null then front else front + [values[|values| - 1]]
  }

  lemma {:induction false} IsNotNullMeans(eng: Engine, db: Database, row: Row, name: string)
    ensures Meaning(eng, db, row, IsNotNull(Column(name))) == if ColumnValue(row, name) == Null then False else True
  {
    assert ValueOf(eng, db, row, Column(name)) == ColumnValue(row, name);
  }

  lemma {:induction false} ProjectAppend(rows: seq<Row>, last: Row, name: string)
    ensures Project(rows + [last], name) == Project(rows, name) + [ColumnValue(last, name)]
  {
    assert (rows + [last])[..|rows|] == rows;
  }

  lemma {:induction false} NonNullAppend(values: seq<SqlValue>, last: SqlValue)
    ensures NonNull(values + [last]) == NonNull(values) + if last == Null then [] else [last]
  {
    assert (values + [last])[..|values|] == values;
  }

  lemma {:induction false} InAppend(eng: Engine, x: SqlValue, values: seq<SqlValue>, last: SqlValue)
    ensures InValues(eng, x, values + [last]) == Or3(InValues(eng, x, values), eng.compare(Eq, x, last))
  {
    assert (values + [last])[..|values|] == values;
  }

  lemma {:induction false} AcceptedAppend(eng: Engine, db: Database, rows: seq<Row>, last: Row, filter: Option<Expr>)
    ensures Accepted(eng, db, rows + [last], filter)
         == Accepted(eng, db, rows, filter) + if FilterMeaning(eng, db, last, filter) == True then [last] else []
  {
    assert (rows + [last])[..|rows|] == rows;
  }

  /** The copy's filter takes the rows of the original filter whose value is not null. */
  lemma {:induction false} SafeFilterMeans(eng: Engine, db: Database, row: Row, filter: Option<Expr>, name: string)
    ensures FilterMeaning(eng, db, row, AndFilter(filter, IsNotNull(Column(name)))) == True
       <==> FilterMeaning(eng, db, row, filter) == True && ColumnValue(row, name) != Null
  {
    AndFilterMeans(eng, db, row, filter, IsNotNull(Column(name)));
    IsNotNullMeans(eng, db, row, name);
  }

  lemma {:induction false} ColumnsStayAlike(safe: seq<Row>, all: seq<Row>, last: Row, taken: bool, name: string)
    requires Project(safe, name) == NonNull(Project(all, name))
    ensures Project(safe + if taken && ColumnValue(last, name) != Null then [last] else [], name)
         == NonNull(Project(all + if taken then [last] else [], name))
  {
    if taken {
      ProjectAppend(all, last, name);
      NonNullAppend(Project(all, name), ColumnValue(last, name));
      ProjectAppend(safe, last, name);
    }
    assert safe + [] == safe && all + [] == all;
  }

  /** The copy's column holds the values of the original column that are not null. */
  lemma {:induction false} SafeColumn(eng: Engine, db: Database, rows: seq<Row>, filter: Option<Expr>, name: string)
    ensures Project(Accepted(eng, db, rows, AndFilter(filter, IsNotNull(Column(name)))), name)
         == NonNull(Project(Accepted(eng, db, rows, filter), name))
  {
    if rows != [] {
      var front, last := rows[..|rows| - 1], rows[|rows| - 1];
      assert front + [last] == rows;
      SafeColumn(eng, db, front, filter, name);
      OneMoreRow(eng, db, front, last, filter, AndFilter(filter, IsNotNull(Column(name))), name);
    }
  }

  lemma {:induction false} OneMoreRow(eng: Engine, db: Database, front: seq<Row>, last: Row, filter: Option<Expr>,
      safe: Option<Expr>, name: string)
    requires safe == AndFilter(filter, IsNotNull(Column(name)))
    requires Project(Accepted(eng, db, front, safe), name) == NonNull(Project(Accepted(eng, db, front, filter), name))
    ensures Project(Accepted(eng, db, front + [last], safe), name)
         == NonNull(Project(Accepted(eng, db, front + [last], filter), name))
  {
    SafeFilterMeans(eng, db, last, filter, name);
    ColumnsStayAlike(Accepted(eng, db, front, safe), Accepted(eng, db, front, filter), last,
                     FilterMeaning(eng, db, last, filter) == True, name);
    AcceptedAppend(eng, db, front, last, filter);
    AcceptedAppend(eng, db, front, last, safe);
  }

  lemma {:induction false} InIsMembership(eng: Engine, x: SqlValue, values: seq<SqlValue>)
    requires eng.Standard()
    ensures InValues(eng, x, values) == True <==> exists i :: 0 <= i < |values| && eng.compare(Eq, x, values[i]) == True
    ensures InValues(eng, x, values) == Unknown ==> exists i :: 0 <= i < |values| && (x == Null || values[i] == Null)
    ensures values != [] && x == Null ==> InValues(eng, x, values) == Unknown
  {
    if values != [] {
      var front := values[..|values| - 1];
      InIsMembership(eng, x, front);
      if i :| 0 <= i < |values| && eng.compare(Eq, x, values[i]) == True {
        assert i < |front| ==> front[i] == values[i];
      }
    }
  }

  /** An equal value that is not null is found again; one that is not equal, or null, adds nothing. */
  lemma {:induction false} OneMoreMatch(eng: Engine, x: SqlValue, y: SqlValue, all: Truth)
    requires eng.Standard() && x != Null
    ensures (if Or3(all, eng.compare(Eq, x, y)) == True then True else False)
         == if y == Null then (if all == True then True else False)
            else Or3(if all == True then True else False, eng.compare(Eq, x, y))
  {
    assert y == Null ==> eng.compare(Eq, x, y) == Unknown;
  }

  lemma {:induction false} NonNullKeepsMatches(eng: Engine, x: SqlValue, values: seq<SqlValue>)
    requires eng.Standard() && x != Null
    ensures InValues(eng, x, NonNull(values)) == if InValues(eng, x, values) == True then True else False
  {
    if values != [] {
      var front, last := values[..|values| - 1], values[|values| - 1];
      NonNullKeepsMatches(eng, x, front);
      OneMoreMatch(eng, x, last, InValues(eng, x, front));
      NonNullAppend(front, last);
      InAppend(eng, x, NonNull(front), last);
      assert values == front + [last];
    }
  }

  /** The queries for which NOT IN is defined as its documentation has it: one column, and no window on the rows. */
  predicate Plain(q: Query) {
    |q.projection| == 1 && NoWindow(q.slice)
  }

  predicate NoWindow(slice: Option<Slice>) {
    slice.None? || (slice.value.offset == 0 && slice.value.limit.None?)
  }

  lemma {:induction false} SafeQueryColumn(eng: Engine, db: Database, entity: string, q: Query)
    requires Plain(q)
    ensures ColumnOf(eng, db, entity, SafeQuery(q)) == NonNull(ColumnOf(eng, db, entity, q))
  {
    var table := if entity in db then db[entity] else [];
    SafeColumn(eng, db, table, q.filter, q.projection[0]);
    assert forall rows: seq<Row> :: rows[0..] == rows;
  }

  /**
    For every table and every plain subquery, however nested: on a value that is not null, NOT IN is never
    unknown, and is true exactly when IN on the caller's own query is not, even if the column holds nulls.
   */
  lemma {:induction false} NotInIsNotIn(eng: Engine, db: Database, row: Row, left: Expr, entity: string, q: Query)
    requires eng.Standard() && Plain(q) && ValueOf(eng, db, row, left) != Null
    ensures Meaning(eng, db, row, NotInSubQuery(left, entity, q)) != Unknown
    ensures Meaning(eng, db, row, NotInSubQuery(left, entity, q)) == True
       <==> Meaning(eng, db, row, InSubQuery(left, entity, q)) != True
  {
    var x, values := ValueOf(eng, db, row, left), ColumnOf(eng, db, entity, q);
    SafeQueryColumn(eng, db, entity, q);
    NonNullKeepsMatches(eng, x, values);
    assert Meaning(eng, db, row, NotInSubQuery(left, entity, q)) == Not3(InValues(eng, x, NonNull(values)));
    assert Meaning(eng, db, row, InSubQuery(left, entity, q)) == InValues(eng, x, values);
  }

  /**
    On a null value NOT IN is unknown exactly when the column holds some value that is not null; on no values it
    is true.
   */
  lemma {:induction false} NotInOfNull(eng: Engine, db: Database, row: Row, left: Expr, entity: string, q: Query)
    requires eng.Standard() && Plain(q) && ValueOf(eng, db, row, left) == Null
    ensures Meaning(eng, db, row, NotInSubQuery(left, entity, q))
         == if NonNull(ColumnOf(eng, db, entity, q)) == [] then True else Unknown
  {
    SafeQueryColumn(eng, db, entity, q);
    InIsMembership(eng, Null, NonNull(ColumnOf(eng, db, entity, q)));
  }
}
