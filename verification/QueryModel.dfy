/**
  Expressions and queries with their meaning in three-valued logic, after ISO/IEC 9075:1992, section 8.2
  <comparison predicate>, section 8.4 <in predicate>, section 8.6 <null predicate> and section 8.12 <search condition>.
 */
module QueryModel {
  import opened Outcomes

  datatype SqlValue = Null | Bool(b: bool) | Num(n: real) | Text(s: string) | List(items: seq<SqlValue>)

  datatype BinaryOp = Eq | Ne | Gt | Gte | Lt | Lte | Like | NotLike | In | NotIn | InLarge | NotInLarge

  datatype Expr =
    | Column(name: string)
    | Constant(value: SqlValue)
    | Function(routine: string, args: seq<Expr>)
    | Binary(left: Expr, op: BinaryOp, right: Expr)
    | SubQuery(left: Expr, op: BinaryOp, entity: string, query: Query)
    | Between(expr: Expr, lower: Expr, upper: Expr)
    | IsNull(expr: Expr)
    | IsNotNull(expr: Expr)
    | And(exprs: seq<Expr>)
    | Or(exprs: seq<Expr>)
    | Not(expr: Expr)

  /** A limit is at least one when there is one. */
  datatype Slice = Slice(offset: nat, limit: Option<nat>)

  datatype Query = Query(entity: string, projection: seq<string>, filter: Option<Expr>, slice: Option<Slice>)

  type Row = map<string, SqlValue>
  type Database = map<string, seq<Row>>

  datatype Truth = True | False | Unknown

  function And3(a: Truth, b: Truth): Truth {
    if a == False || b == False then False else if a == Unknown || b == Unknown then Unknown else True
  }

  function Or3(a: Truth, b: Truth): Truth {
    if a == True || b == True then True else if a == Unknown || b == Unknown then Unknown else False
  }

  function Not3(a: Truth): Truth {
    match a case True => False case False => True case Unknown => Unknown
  }

  /** What databases may differ in: comparisons of values, functions, and which plain values count as true. */
  datatype Engine = Engine(
    compare: (BinaryOp, SqlValue, SqlValue) -> Truth,
    call: (string, seq<SqlValue>) -> SqlValue,
    truthOf: SqlValue -> Truth)
  {
    /** A comparison is unknown exactly when an operand is null; the constants 1, 1.0 and TRUE bound versions alike. */
    ghost predicate Standard() {
      && (forall op, a, b :: compare(op, a, b) == Unknown <==> a == Null || b == Null)
      && (forall a, one :: IsOne(one) ==> compare(Gte, a, one) == compare(Gte, a, Num(1.0)))
      && (forall a :: a != Null ==> compare(Eq, a, a) == True)
    }
  }

  /** `value == 1`, which also holds of TRUE. */
  predicate IsOne(v: SqlValue) {
    v == Num(1.0) || v == Bool(true)
  }

  function FromTruth(t: Truth): SqlValue {
    match t case True => Bool(true) case False => Bool(false) case Unknown => Null
  }

  function ToTruth(eng: Engine, v: SqlValue): Truth {
    match v case Bool(b) => (if b then True else False) case Null => Unknown case _ => eng.truthOf(v)
  }

  /** `x IN (values)`: true if an item is equal, else unknown if some comparison is. */
  function InValues(eng: Engine, x: SqlValue, values: seq<SqlValue>): Truth {
    if values == [] then False
    else Or3(InValues(eng, x, values[..|values| - 1]), eng.compare(Eq, x, values[|values| - 1]))
  }

  function ColumnValue(row: Row, name: string): SqlValue {
    if name in row then row[name] else Null
  }

  function ValueOf(eng: Engine, db: Database, row: Row, e: Expr): SqlValue
    decreases e, 1
  {
    match e
    case Column(name) => ColumnValue(row, name)
    case Constant(v) => v
    case Function(f, args) => eng.call(f, ValuesOf(eng, db, row, args))
    case _ => FromTruth(Meaning(eng, db, row, e))
  }

  function ValuesOf(eng: Engine, db: Database, row: Row, es: seq<Expr>): seq<SqlValue>
    decreases es
  {
    if es == [] then [] else [ValueOf(eng, db, row, es[0])] + ValuesOf(eng, db, row, es[1..])
  }

  /** The truth value of an expression as a search condition on a row. */
  function Meaning(eng: Engine, db: Database, row: Row, e: Expr): Truth
    decreases e, 0
  {
    match e
    case Column(name) => ToTruth(eng, ColumnValue(row, name))
    case Constant(v) => ToTruth(eng, v)
    case Function(f, args) => ToTruth(eng, eng.call(f, ValuesOf(eng, db, row, args)))
    case Binary(left, op, right) =>
      var x, y := ValueOf(eng, db, row, left), ValueOf(eng, db, row, right);
      var items := if y.List? then y.items else [y];
      if op == In || op == InLarge then InValues(eng, x, items)
      else if op == NotIn || op == NotInLarge then Not3(InValues(eng, x, items))
      else eng.compare(op, x, y)
    case SubQuery(left, op, entity, query) =>
      var x, values := ValueOf(eng, db, row, left), ColumnOf(eng, db, entity, query);
      if op == In || op == InLarge then InValues(eng, x, values)
      else if op == NotIn || op == NotInLarge then Not3(InValues(eng, x, values))
      else Unknown
    case Between(x, lower, upper) =>
      And3(eng.compare(Gte, ValueOf(eng, db, row, x), ValueOf(eng, db, row, lower)),
           eng.compare(Lte, ValueOf(eng, db, row, x), ValueOf(eng, db, row, upper)))
    case IsNull(x) => if ValueOf(eng, db, row, x) == Null then True else False
    case IsNotNull(x) => if ValueOf(eng, db, row, x) == Null then False else True
    case And(es) => AllOf(eng, db, row, es)
    case Or(es) => AnyOf(eng, db, row, es)
    case Not(x) => Not3(Meaning(eng, db, row, x))
  }

  function AllOf(eng: Engine, db: Database, row: Row, es: seq<Expr>): Truth
    decreases es
  {
    if es == [] then True else And3(Meaning(eng, db, row, es[0]), AllOf(eng, db, row, es[1..]))
  }

  function AnyOf(eng: Engine, db: Database, row: Row, es: seq<Expr>): Truth
    decreases es
  {
    if es == [] then False else Or3(Meaning(eng, db, row, es[0]), AnyOf(eng, db, row, es[1..]))
  }

  /** A filter accepts a row only when it is true; no filter accepts every row. */
  function FilterMeaning(eng: Engine, db: Database, row: Row, filter: Option<Expr>): Truth
    decreases filter, 0
  {
    match filter case None => True case Some(e) => Meaning(eng, db, row, e)
  }

  function Accepted(eng: Engine, db: Database, rows: seq<Row>, filter: Option<Expr>): seq<Row>
    decreases filter, 1, |rows|
  {
    if rows == [] then []
    else
      var front := Accepted(eng, db, rows[..|rows| - 1], filter);
      if FilterMeaning(eng, db, rows[|rows| - 1], filter) == True then front + [rows[|rows| - 1]] else front
  }

  function Sliced(rows: seq<Row>, slice: Option<Slice>): seq<Row> {
    if slice.None? then rows
    else
      var from := if slice.value.offset < |rows| then slice.value.offset else |rows|;
      var rest := rows[from..];
      if slice.value.limit.None? || |rest| <= slice.value.limit.value then rest else rest[..slice.value.limit.value]
  }

  /** The rows a query selects from the table of an entity. */
  function RowsOf(eng: Engine, db: Database, entity: string, q: Query): seq<Row>
    decreases q, 0
  {
    var table := if entity in db then db[entity] else [];
    Sliced(Accepted(eng, db, table, q.filter), q.slice)
  }

  /** The values of a subquery's column; a query without exactly one column has none. */
  function ColumnOf(eng: Engine, db: Database, entity: string, q: Query): seq<SqlValue>
    decreases q, 1
  {
    if |q.projection| != 1 then [] else Project(RowsOf(eng, db, entity, q), q.projection[0])
  }

  function Project(rows: seq<Row>, column: string): seq<SqlValue> {
    if rows == [] then [] else Project(rows[..|rows| - 1], column) + [ColumnValue(rows[|rows| - 1], column)]
  }

  // ----- what the builders build

  function AndFilter(filter: Option<Expr>, e: Expr): Option<Expr> {
    if filter.Some? then Some(And([filter.value, e])) else Some(e)
  }

  predicate IsDefaultLiveFilter(e: Expr) {
    e.Binary? && e.left == Column("version") && e.op == Gte && e.right.Constant? && IsOne(e.right.value)
  }

  function RemoveDefaultLiveFilter(e: Expr): Option<Expr>
    decreases e
  {
    if IsDefaultLiveFilter(e) then None
    else if e.And? then
      var retained := RetainAll(e.exprs);
      if retained == [] then None else if |retained| == 1 then Some(retained[0]) else Some(And(retained))
    else Some(e)
  }

  function RetainAll(es: seq<Expr>): seq<Expr>
    decreases es
  {
    if es == [] then []
    else
      var first := RemoveDefaultLiveFilter(es[0]);
      (if first.Some? then [first.value] else []) + RetainAll(es[1..])
  }

  function WithoutLiveFilter(filter: Option<Expr>): Option<Expr> {
    if filter.None? then None else RemoveDefaultLiveFilter(filter.value)
  }

  const TOMBSTONE := Binary(Column("version"), Lte, Constant(Num(-1.0)))

  function DeletedRowsOnly(q: Query): Query {
    q.(filter := AndFilter(WithoutLiveFilter(q.filter), TOMBSTONE))
  }

  function InSubQuery(left: Expr, entity: string, q: Query): Expr {
    SubQuery(left, In, entity, q)
  }

  /** The copy of the caller's query that NOT IN is asked about. */
  function SafeQuery(q: Query): Query {
    if |q.projection| == 1 then q.(filter := AndFilter(q.filter, IsNotNull(Column(q.projection[0])))) else q
  }

  function NotInSubQuery(left: Expr, entity: string, q: Query): Expr {
    SubQuery(left, NotIn, entity, SafeQuery(q))
  }
}
