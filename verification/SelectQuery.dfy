/** The query builder object: its fluent methods assign its fields in place. */
module SelectQuery {
  import opened Outcomes
  import opened QueryModel

  datatype QueryError = InvalidLimit | InvalidOffset

  class SelectQuery {
    var entity: string
    var projection: seq<string>
    var filterExpr: Option<Expr>
    var slice: Option<Slice>

    constructor (entity: string)
      ensures State() == Query(entity, [], None, None)
    {
      this.entity := entity;
      projection, filterExpr, slice := [], None, None;
    }

    /** A deep copy. */
    constructor CopyOf(other: SelectQuery)
      ensures State() == other.State()
    {
      entity, projection, filterExpr, slice := other.entity, other.projection, other.filterExpr, other.slice;
    }

    /** The query as it is now. */
    function State(): Query
      reads this
    {
      Query(entity, projection, filterExpr, slice)
    }

    method Project(fields: seq<string>)
      modifies this
      ensures State() == old(State()).(projection := old(projection) + fields)
    {
      projection := projection + fields;
    }

    method AndFilter(e: Expr)
      modifies this
      ensures State() == old(State()).(filter := QueryModel.AndFilter(old(filterExpr), e))
    {
      if filterExpr.Some? {
        filterExpr := Some(And([filterExpr.value, e]));
      } else {
        filterExpr := Some(e);
      }
    }

    method WithDeletedRows()
      modifies this
      ensures State() == old(State()).(filter := WithoutLiveFilter(old(filterExpr)))
    {
      if filterExpr.Some? {
        filterExpr := RemoveLiveFilter(filterExpr.value);
      }
    }

    method DeletedRowsOnly()
      modifies this
      ensures State() == QueryModel.DeletedRowsOnly(old(State()))
    {
      WithDeletedRows();
      AndFilter(Binary(Column("version"), Lte, Constant(Num(-1.0))));
    }

    method Limit(l: int) returns (raised: Option<QueryError>)
      modifies this
      ensures if l < 1 then raised == Some(InvalidLimit) && State() == old(State())
              else raised.None? && State() == old(State()).(slice :=
                Some(Slice(if old(slice).Some? then old(slice).value.offset else 0, Some(l))))
    {
      if l < 1 {
        return Some(InvalidLimit);
      }
      if slice.None? {
        slice := Some(Slice(0, Some(l)));
      } else {
        slice := Some(slice.value.(limit := Some(l)));
      }
      raised := None;
    }

    method Offset(o: int) returns (raised: Option<QueryError>)
      modifies this
      ensures if o < 0 then raised == Some(InvalidOffset) && State() == old(State())
              else raised.None? && State() == old(State()).(slice :=
                Some(Slice(o, if old(slice).Some? then old(slice).value.limit else None)))
    {
      if o < 0 {
        return Some(InvalidOffset);
      }
      if slice.None? {
        slice := Some(Slice(o, None));
      } else {
        slice := Some(slice.value.(offset := o));
      }
      raised := None;
    }
  }

  /** The recursive rewrite, collecting the retained conjuncts one by one. */
  method RemoveLiveFilter(e: Expr) returns (rewritten: Option<Expr>)
    ensures rewritten == RemoveDefaultLiveFilter(e)
    decreases e
  {
    if IsDefaultLiveFilter(e) {
      return None;
    }
    if !e.And? {
      return Some(e);
    }
    var retained: seq<Expr> := [];
    assert e.exprs[0..] == e.exprs;
    for i := 0 to |e.exprs|
      invariant retained + RetainAll(e.exprs[i..]) == RetainAll(e.exprs)
    {
      assert e.exprs[i..][1..] == e.exprs[i + 1..] && e.exprs[i..][0] == e.exprs[i];
      var child := RemoveLiveFilter(e.exprs[i]);
      if child.Some? {
        retained := retained + [child.value];
      }
    }
    assert e.exprs[|e.exprs|..] == [];
    assert retained == RetainAll(e.exprs);
    if retained == [] {
      return None;
    }
    if |retained| == 1 {
      return Some(retained[0]);
    }
    rewritten := Some(And(retained));
  }

  /** Only the copy is changed; the caller's query stays as it is. */
  method NotInSubQuery(left: Expr, entity: string, query: SelectQuery) returns (e: Expr)
    ensures e == QueryModel.NotInSubQuery(left, entity, query.State())
    ensures unchanged(query)
  {
    var safe := new SelectQuery.CopyOf(query);
    if |safe.projection| == 1 {
      safe.AndFilter(IsNotNull(Column(safe.projection[0])));
    }
    e := SubQuery(left, NotIn, entity, safe.State());
  }
}
