/**
 The SQLite table: translation of keyword criteria into a clause with positional values, and
 insert, select, update and delete by primary key
 (engine/src/juliabox/plugins/db_sqlite3/impl_sqlite3.py). SQLite's side is modelled by
 functions that evaluate a clause on a row with SQL's three-valued logic. Columns are created
 without types, so that values are compared without conversion.
 */
module SqlTable {
  import opened Basics

  datatype Value = Null | Num(n: real) | Text(s: string)
  type Row = seq<Value>
  type Item = map<string, Value>
  type Key = seq<Value>

  datatype Op = Eq | Ne | Lte | Lt | Gte | Gt | Like | Between

  // The keys of the operator table
  function OpOf(name: string): Option<Op> {
    match name
    case "eq" => Some(Eq)
    case "ne" => Some(Ne)
    case "lte" => Some(Lte)
    case "lt" => Some(Lt)
    case "gte" => Some(Gte)
    case "gt" => Some(Gt)
    case "beginswith" => Some(Like)
    case "between" => Some(Between)
    case _ => None
  }

  datatype Operand = One(value: Value) | Many(values: seq<Value>)
  datatype Criterion = Criterion(name: string, operand: Operand)
  datatype Clause = Clause(col: string, op: Op)
  datatype Error = BadOperator | BadOperand | BindingCount | BadSyntax | DuplicateKey | NotFound
  datatype Result<+T> = Ok(value: T) | Err(error: Error)

  // The parts of n.split('__')
  function Parts(name: string): (parts: seq<string>)
    ensures |parts| >= 1
  {
    if |name| < 2 then [name]
    else if name[..2] == "__" then [""] + Parts(name[2..])
    else
      var rest := Parts(name[1..]);
      [[name[0]] + rest[0]] + rest[1..]
  }

  function ColumnOf(c: Criterion): string {
    Parts(c.name)[0]
  }

  function OperatorOf(c: Criterion): Option<Op> {
    OpOf(if |Parts(c.name)| > 1 then Parts(c.name)[1] else "eq")
  }

  // The values that a criterion adds; a prefix must be a string, to which % is appended.
  function Bound(op: Op, operand: Operand): Result<seq<Value>> {
    match operand
    case One(v) =>
      if !op.Like? then Ok([v]) else if v.Text? then Ok([Text(v.s + "%")]) else Err(BadOperand)
    case Many(vs) => if op.Like? then Err(BadOperand) else Ok(vs)
  }

  // ---------- What SQLite does ----------

  datatype Truth = Yes | No | Unknown

  function And(a: Truth, b: Truth): Truth {
    if a == No || b == No then No else if a == Unknown || b == Unknown then Unknown else Yes
  }

  function OfBool(b: bool): Truth {
    if b then Yes else No
  }

  predicate TextBefore(a: string, b: string) {
    b != "" && (a == "" || a[0] < b[0] || (a[0] == b[0] && TextBefore(a[1..], b[1..])))
  }

  // Numbers come before texts.
  predicate Before(a: Value, b: Value) {
    match (a, b)
    case (Num(x), Num(y)) => x < y
    case (Num(_), Text(_)) => true
    case (Text(x), Text(y)) => TextBefore(x, y)
    case _ => false
  }

  // The placeholders of one clause
  function Slots(op: Op): nat {
    if op.Between? then 2 else 1
  }

  function Compare(op: Op, x: Value, y: Value, like: (Value, Value) -> bool): Truth {
    if x.Null? || y.Null? then Unknown
    else
      match op
      case Eq => OfBool(x == y)
      case Ne => OfBool(x != y)
      case Lt => OfBool(Before(x, y))
      case Lte => OfBool(!Before(y, x))
      case Gt => OfBool(Before(y, x))
      case Gte => OfBool(!Before(x, y))
      case Like => OfBool(like(x, y))
      case Between => Unknown
  }

  function Test(op: Op, x: Value, args: seq<Value>, like: (Value, Value) -> bool): Truth
    requires |args| == Slots(op)
  {
    if op.Between? then And(Compare(Gte, x, args[0], like), Compare(Lte, x, args[1], like))
    else Compare(op, x, args[0], like)
  }

  function AllSlots(clauses: seq<Clause>): nat {
    if clauses == [] then 0 else Slots(clauses[0].op) + AllSlots(clauses[1..])
  }

  function Cell(columns: seq<string>, row: Row, col: string): Value {
    if columns == [] || row == [] then Null
    else if columns[0] == col then row[0] else Cell(columns[1..], row[1..], col)
  }

  // The value of a where clause: placeholders take the values from left to right.
  function Where(columns: seq<string>, row: Row, clauses: seq<Clause>, values: seq<Value>,
                 like: (Value, Value) -> bool): Truth
    requires |values| == AllSlots(clauses)
  {
    if clauses == [] then Yes
    else
      var k := Slots(clauses[0].op);
      And(Test(clauses[0].op, Cell(columns, row, clauses[0].col), values[..k], like),
          Where(columns, row, clauses[1..], values[k..], like))
  }

  function Matching(columns: seq<string>, rows: seq<Row>, clauses: seq<Clause>, values: seq<Value>,
                    like: (Value, Value) -> bool): seq<Row>
    requires |values| == AllSlots(clauses)
  {
    if rows == [] then []
    else
      (if Where(columns, rows[0], clauses, values, like) == Yes then [rows[0]] else [])
      + Matching(columns, rows[1..], clauses, values, like)
  }

  function NotMatching(columns: seq<string>, rows: seq<Row>, clauses: seq<Clause>, values: seq<Value>,
                       like: (Value, Value) -> bool): seq<Row>
    requires |values| == AllSlots(clauses)
  {
    if rows == [] then []
    else
      (if Where(columns, rows[0], clauses, values, like) == Yes then [] else [rows[0]])
      + NotMatching(columns, rows[1..], clauses, values, like)
  }

  function Query(columns: seq<string>, rows: seq<Row>, clauses: seq<Clause>, values: seq<Value>,
                 like: (Value, Value) -> bool): Result<seq<Row>>
  {
    if |values| != AllSlots(clauses) then Err(BindingCount)
    else Ok(Matching(columns, rows, clauses, values, like))
  }

  // `sets` are the assigned columns; their placeholders come before those of the clause.
  function Assigned(columns: seq<string>, row: Row, sets: seq<string>, values: seq<Value>): Row
    requires |row| == |columns|
  {
    seq(|columns|, i requires 0 <= i < |columns| =>
      if columns[i] in sets then Cell(sets, values, columns[i]) else row[i])
  }

  function Updated(columns: seq<string>, rows: seq<Row>, sets: seq<string>, values: seq<Value>,
                   clauses: seq<Clause>, args: seq<Value>, like: (Value, Value) -> bool): seq<Row>
    requires |args| == AllSlots(clauses) && forall row <- rows :: |row| == |columns|
  {
    if rows == [] then []
    else
      [if Where(columns, rows[0], clauses, args, like) == Yes then Assigned(columns, rows[0], sets, values) else rows[0]]
      + Updated(columns, rows[1..], sets, values, clauses, args, like)
  }

  // ---------- What a query means ----------

  predicate NotAfter(x: Value, y: Value) {
    x == y || Before(x, y)
  }

  // A cell meets a criterion.
  predicate Meets(op: Op, x: Value, args: seq<Value>, like: (Value, Value) -> bool) {
    && x != Null && Null !in args
    && match op
       case Eq => args == [x]
       case Ne => |args| == 1 && args[0] != x
       case Lt => |args| == 1 && Before(x, args[0])
       case Lte => |args| == 1 && NotAfter(x, args[0])
       case Gt => |args| == 1 && Before(args[0], x)
       case Gte => |args| == 1 && NotAfter(args[0], x)
       case Like => |args| == 1 && like(x, args[0])
       case Between => |args| == 2 && NotAfter(args[0], x) && NotAfter(x, args[1])
  }

  // An operator of the table with an operand of its shape: a pair for between, a string for
  // beginswith, a single value otherwise
  predicate IsWellShaped(c: Criterion) {
    && OperatorOf(c).Some?
    && Bound(OperatorOf(c).value, c.operand).Ok?
    && |Bound(OperatorOf(c).value, c.operand).value| == Slots(OperatorOf(c).value)
  }

  // The operator is in the table and the operand can be converted for it.
  predicate IsTranslatable(c: Criterion) {
    OperatorOf(c).Some? && Bound(OperatorOf(c).value, c.operand).Ok?
  }

  // The clauses and the values that the criteria on known columns give rise to
  function ClausesOf(columns: seq<string>, criteria: seq<Criterion>): seq<Clause> {
    if criteria == [] then []
    else
      var clauses, c := ClausesOf(columns, criteria[..|criteria| - 1]), criteria[|criteria| - 1];
      if ColumnOf(c) in columns && IsTranslatable(c) then clauses + [Clause(ColumnOf(c), OperatorOf(c).value)] else clauses
  }

  function ValuesOf(columns: seq<string>, criteria: seq<Criterion>): seq<Value> {
    if criteria == [] then []
    else
      var values, c := ValuesOf(columns, criteria[..|criteria| - 1]), criteria[|criteria| - 1];
      if ColumnOf(c) in columns && IsTranslatable(c) then values + Bound(OperatorOf(c).value, c.operand).value else values
  }

  // Criteria on columns that the table does not have are ignored.
  predicate Satisfies(columns: seq<string>, row: Row, c: Criterion, like: (Value, Value) -> bool) {
    ColumnOf(c) in columns ==>
      && IsWellShaped(c)
      && Meets(OperatorOf(c).value, Cell(columns, row, ColumnOf(c)), Bound(OperatorOf(c).value, c.operand).value, like)
  }

  // The rows that satisfy all criteria, in the table's order
  function Chosen(columns: seq<string>, rows: seq<Row>, criteria: seq<Criterion>,
                  like: (Value, Value) -> bool): seq<Row>
  {
    if rows == [] then []
    else
      (if forall c <- criteria :: Satisfies(columns, rows[0], c, like) then [rows[0]] else [])
      + Chosen(columns, rows[1..], criteria, like)
  }

  // ---------- Translation ----------

  lemma {:induction false} BeforeIsTotal(a: string, b: string)
    ensures TextBefore(a, b) || a == b || TextBefore(b, a)
    ensures !(TextBefore(a, b) && TextBefore(b, a)) && !TextBefore(a, a)
  {
    if a != "" && b != "" {
      BeforeIsTotal(a[1..], b[1..]);
      assert a == [a[0]] + a[1..] && b == [b[0]] + b[1..];
    }
    if a != "" {
      BeforeIsTotal(a[1..], a[1..]);
    }
  }

  lemma NotAfterMeans(x: Value, y: Value)
    requires x != Null && y != Null
    ensures NotAfter(x, y) <==> !Before(y, x)
  {
    if x.Text? && y.Text? {
      BeforeIsTotal(x.s, y.s);
    }
  }

  // A clause is true in SQL exactly when the cell meets the criterion.
  lemma TestMeets(op: Op, x: Value, args: seq<Value>, like: (Value, Value) -> bool)
    requires |args| == Slots(op)
    ensures Test(op, x, args, like) == Yes <==> Meets(op, x, args, like)
  {
    forall y | y in args && x != Null && y != Null
      ensures (NotAfter(x, y) <==> !Before(y, x)) && (NotAfter(y, x) <==> !Before(x, y))
    {
      NotAfterMeans(x, y);
      NotAfterMeans(y, x);
    }
    assert args == if op.Between? then [args[0], args[1]] else [args[0]];
  }

  lemma {:induction false} SlotsAppend(clauses: seq<Clause>, c: Clause)
    ensures AllSlots(clauses + [c]) == AllSlots(clauses) + Slots(c.op)
  {
    if clauses != [] {
      SlotsAppend(clauses[1..], c);
      assert (clauses + [c])[1..] == clauses[1..] + [c];
    } else {
      assert [c][1..] == [];
    }
  }

  // A clause appended together with its values is one more condition.
  lemma {:induction false} WhereAppend(columns: seq<string>, row: Row, clauses: seq<Clause>, values: seq<Value>,
                                       c: Clause, args: seq<Value>, like: (Value, Value) -> bool)
    requires |values| == AllSlots(clauses) && |args| == Slots(c.op)
    ensures AllSlots(clauses + [c]) == |values + args|
    ensures Where(columns, row, clauses + [c], values + args, like)
            == And(Where(columns, row, clauses, values, like), Test(c.op, Cell(columns, row, c.col), args, like))
  {
    SlotsAppend(clauses, c);
    var all := clauses + [c];
    if clauses == [] {
      assert all == [c] && all[1..] == [] && values + args == args && args[..Slots(c.op)] == args;
    } else {
      var k := Slots(clauses[0].op);
      assert all[1..] == clauses[1..] + [c];
      assert (values + args)[..k] == values[..k] && (values + args)[k..] == values[k..] + args;
      WhereAppend(columns, row, clauses[1..], values[k..], c, args, like);
    }
  }

  lemma {:induction false} MatchingIsChosen(columns: seq<string>, rows: seq<Row>, clauses: seq<Clause>,
                                            values: seq<Value>, criteria: seq<Criterion>, like: (Value, Value) -> bool)
    requires |values| == AllSlots(clauses)
    requires forall row ::
      Where(columns, row, clauses, values, like) == Yes <==> forall c <- criteria :: Satisfies(columns, row, c, like)
    ensures Matching(columns, rows, clauses, values, like) == Chosen(columns, rows, criteria, like)
  {
    if rows != [] {
      MatchingIsChosen(columns, rows[1..], clauses, values, criteria, like);
    }
  }

  // The rows chosen do not depend on the order in which the keyword arguments come.
  lemma {:induction false} OrderDoesNotMatter(columns: seq<string>, rows: seq<Row>,
                                              a: seq<Criterion>, b: seq<Criterion>, like: (Value, Value) -> bool)
    requires forall c :: c in a <==> c in b
    ensures Chosen(columns, rows, a, like) == Chosen(columns, rows, b, like)
  {
    if rows != [] {
      OrderDoesNotMatter(columns, rows[1..], a, b, like);
      assert (forall c <- a :: Satisfies(columns, rows[0], c, like)) <==>
             (forall c <- b :: Satisfies(columns, rows[0], c, like));
    }
  }

  // ---------- Records, rows and the map they stand for ----------

  // record.get(name, None)
  function Get(record: Item, name: string): Value {
    if name in record then record[name] else Null
  }

  function RowOf(columns: seq<string>, record: Item): (row: Row)
    ensures |row| == |columns|
  {
    seq(|columns|, i requires 0 <= i < |columns| => Get(record, columns[i]))
  }

  function ItemOf(columns: seq<string>, row: Row): Item {
    map c | c in columns :: Cell(columns, row, c)
  }

  // What a table keeps of a record
  function Project(columns: seq<string>, record: Item): Item {
    map c | c in columns :: Get(record, c)
  }

  function KeyOf(pk: seq<string>, record: Item): Key {
    RowOf(pk, record)
  }

  function RowKey(columns: seq<string>, pk: seq<string>, row: Row): Key {
    KeyOf(pk, ItemOf(columns, row))
  }

  // A primary key with a null in it is not checked by SQLite for being unique.
  predicate IsFull(key: Key) {
    Null !in key
  }

  ghost predicate IsTable(columns: seq<string>, pk: seq<string>, rows: seq<Row>) {
    && NoDup(columns) && NoDup(pk) && pk != [] && (forall c <- pk :: c in columns)
    && (forall row <- rows :: |row| == |columns|)
    && forall i, j :: 0 <= i < j < |rows| && IsFull(RowKey(columns, pk, rows[i])) ==>
                        RowKey(columns, pk, rows[i]) != RowKey(columns, pk, rows[j])
  }

  predicate HasKey(columns: seq<string>, pk: seq<string>, rows: seq<Row>, key: Key) {
    exists row <- rows :: RowKey(columns, pk, row) == key
  }

  // The table as a map from full primary keys to records
  function AsMap(columns: seq<string>, pk: seq<string>, rows: seq<Row>): map<Key, Item> {
    if rows == [] then map[]
    else
      var last := |rows| - 1;
      var m := AsMap(columns, pk, rows[..last]);
      var key := RowKey(columns, pk, rows[last]);
      if IsFull(key) then m[key := ItemOf(columns, rows[last])] else m
  }

  lemma {:induction false} CellOf(columns: seq<string>, record: Item, col: string)
    ensures Cell(columns, RowOf(columns, record), col) == if col in columns then Get(record, col) else Null
  {
    if columns != [] {
      assert RowOf(columns, record)[1..] == RowOf(columns[1..], record);
      CellOf(columns[1..], record, col);
      assert col in columns <==> col == columns[0] || col in columns[1..];
    }
  }

  // Storing a record and reading the row back gives what the table keeps of it.
  lemma ItemOfRow(columns: seq<string>, pk: seq<string>, record: Item)
    requires forall c <- pk :: c in columns
    ensures ItemOf(columns, RowOf(columns, record)) == Project(columns, record)
    ensures RowKey(columns, pk, RowOf(columns, record)) == KeyOf(pk, record)
  {
    forall c | c in columns ensures Cell(columns, RowOf(columns, record), c) == Get(record, c) {
      CellOf(columns, record, c);
    }
    var item := ItemOf(columns, RowOf(columns, record));
    assert forall i :: 0 <= i < |pk| ==> pk[i] in columns && Get(item, pk[i]) == Get(record, pk[i]);
  }

  lemma HasKeyAppend(columns: seq<string>, pk: seq<string>, rows: seq<Row>, row: Row, key: Key)
    ensures HasKey(columns, pk, rows + [row], key) <==> HasKey(columns, pk, rows, key) || RowKey(columns, pk, row) == key
  {
    hide RowKey;
    assert forall r :: r in rows + [row] <==> r in rows || r == row;
  }

  lemma FrontIsTable(columns: seq<string>, pk: seq<string>, rows: seq<Row>)
    requires rows != [] && IsTable(columns, pk, rows)
    ensures IsTable(columns, pk, rows[..|rows| - 1])
    ensures IsFull(RowKey(columns, pk, rows[|rows| - 1])) ==>
              !HasKey(columns, pk, rows[..|rows| - 1], RowKey(columns, pk, rows[|rows| - 1]))
  {
    hide RowKey, IsFull;
    var front := rows[..|rows| - 1];
    assert forall row <- front :: row in rows;
    forall row | row in front && IsFull(RowKey(columns, pk, rows[|rows| - 1]))
      ensures RowKey(columns, pk, row) != RowKey(columns, pk, rows[|rows| - 1])
    {
      var i :| 0 <= i < |front| && front[i] == row;
      assert rows[i] == row;
    }
  }

  lemma {:induction false} AsMapMeans(columns: seq<string>, pk: seq<string>, rows: seq<Row>)
    requires IsTable(columns, pk, rows)
    ensures forall row <- rows :: IsFull(RowKey(columns, pk, row)) ==>
              var key := RowKey(columns, pk, row);
              key in AsMap(columns, pk, rows) && AsMap(columns, pk, rows)[key] == ItemOf(columns, row)
    ensures forall key :: key in AsMap(columns, pk, rows) <==> IsFull(key) && HasKey(columns, pk, rows, key)
  {
    hide RowKey, ItemOf, IsFull, IsTable;
    if rows != [] {
      var front, last := rows[..|rows| - 1], rows[|rows| - 1];
      assert rows == front + [last];
      FrontIsTable(columns, pk, rows);
      AsMapMeans(columns, pk, front);
      forall key ensures HasKey(columns, pk, rows, key) <==> HasKey(columns, pk, front, key) || RowKey(columns, pk, last) == key {
        HasKeyAppend(columns, pk, front, last, key);
      }
      assert forall row :: row in rows <==> row in front || row == last;
    }
  }

  // ---------- The class ----------

  class SQLiteTable {
    const columns: seq<string>
    const pk: seq<string>
    const like: (Value, Value) -> bool
    var rows: seq<Row>

    ghost predicate Valid()
      reads this
    {
      IsTable(columns, pk, rows)
    }

    ghost function Contents(): map<Key, Item>
      reads this
    {
      AsMap(columns, pk, rows)
    }

    constructor (columns: seq<string>, pk: seq<string>, like: (Value, Value) -> bool)
      requires NoDup(columns) && NoDup(pk) && pk != [] && forall c <- pk :: c in columns
      ensures Valid() && Contents() == map[]
      ensures this.columns == columns && this.pk == pk && this.like == like
    {
      this.columns, this.pk, this.like, rows := columns, pk, like, [];
    }

    // _op and the loop of _select over the keyword arguments, in the order in which they come.
    method Translate(criteria: seq<Criterion>) returns (r: Result<(seq<Clause>, seq<Value>)>)
      ensures r.Ok? <==> forall c <- criteria :: ColumnOf(c) in columns ==> IsTranslatable(c)
      ensures r.Ok? ==> r.value == (ClausesOf(columns, criteria), ValuesOf(columns, criteria))
      ensures (forall c <- criteria :: ColumnOf(c) in columns ==> IsWellShaped(c)) ==>
                && r.Ok? && |r.value.1| == AllSlots(r.value.0)
                && forall row :: Where(columns, row, r.value.0, r.value.1, like) == Yes
                                 <==> forall c <- criteria :: Satisfies(columns, row, c, like)
    {
      hide Parts, Satisfies, Where;
      var names: seq<Clause> := [];
      var values: seq<Value> := [];
      for i := 0 to |criteria|
        invariant forall c <- criteria[..i] :: ColumnOf(c) in columns ==> IsTranslatable(c)
        invariant names == ClausesOf(columns, criteria[..i]) && values == ValuesOf(columns, criteria[..i])
      {
        var c := criteria[i];
        assert criteria[..i + 1] == criteria[..i] + [c] && criteria[..i + 1][..i] == criteria[..i];
        if ColumnOf(c) !in columns {
          continue;
        }
        var op := OperatorOf(c);
        if op.None? {
          return Err(BadOperator);
        }
        var bound := Bound(op.value, c.operand);
        if bound.Err? {
          return Err(bound.error);
        }
        names := names + [Clause(ColumnOf(c), op.value)];
        values := values + bound.value;
      }
      assert criteria[..|criteria|] == criteria;
      r := Ok((names, values));
      if forall c <- criteria :: ColumnOf(c) in columns ==> IsWellShaped(c) {
        ShapedIsAligned(columns, criteria);
        forall row
          ensures Where(columns, row, names, values, like) == Yes <==> SatisfiesAll(columns, row, criteria, like)
        {
          TranslationMeans(columns, criteria, row, like);
        }
      }
    }

    // A query is answered rather than refused exactly when its operators and prefixes are
    // right and the values add up to the number of placeholders. It is answered rightly when
    // they do so for each criterion.
    method Scan(criteria: seq<Criterion>) returns (r: Result<seq<Item>>)
      ensures (forall c <- criteria :: ColumnOf(c) in columns ==> IsWellShaped(c)) ==>
                r == Ok(Items(columns, Chosen(columns, rows, criteria, like)))
      ensures r.Ok? <==>
                && (forall c <- criteria :: ColumnOf(c) in columns ==> IsTranslatable(c))
                && IsAligned(columns, criteria)
    {
      hide Parts, Satisfies, Where, IsWellShaped, IsTranslatable, ClausesOf, ValuesOf, AllSlots;
      var t := Translate(criteria);
      if t.Err? {
        return Err(t.error);
      }
      var found := Query(columns, rows, t.value.0, t.value.1, like);
      if found.Err? {
        return Err(found.error);
      }
      if forall c <- criteria :: ColumnOf(c) in columns ==> IsWellShaped(c) {
        MatchingIsChosen(columns, rows, t.value.0, t.value.1, criteria, like);
      }
      r := Ok(Items(columns, found.value));
    }

    method Count(criteria: seq<Criterion>) returns (r: Result<nat>)
      ensures (forall c <- criteria :: ColumnOf(c) in columns ==> IsWellShaped(c)) ==>
                r == Ok(|Chosen(columns, rows, criteria, like)|)
    {
      var t := Translate(criteria);
      if t.Err? {
        return Err(t.error);
      }
      var found := Query(columns, rows, t.value.0, t.value.1, like);
      if found.Err? {
        return Err(found.error);
      }
      if forall c <- criteria :: ColumnOf(c) in columns ==> IsWellShaped(c) {
        MatchingIsChosen(columns, rows, t.value.0, t.value.1, criteria, like);
      }
      r := Ok(|found.value|);
    }

    // select: the first row found. Given the full primary key, in any order, it is a lookup.
    method Select(criteria: seq<Criterion>) returns (r: Result<Item>)
      requires Valid()
      ensures (forall c <- criteria :: ColumnOf(c) in columns ==> IsWellShaped(c)) ==>
                var chosen := Chosen(columns, rows, criteria, like);
                r == if chosen == [] then Err(NotFound) else Ok(ItemOf(columns, chosen[0]))
      ensures forall key :: NamesKey(pk, key, criteria) ==>
                r == if key in Contents() then Ok(Contents()[key]) else Err(NotFound)
    {
      var items := Scan(criteria);
      forall key | NamesKey(pk, key, criteria)
        ensures forall c <- criteria :: ColumnOf(c) in columns ==> IsWellShaped(c)
        ensures var chosen := Chosen(columns, rows, criteria, like);
                if key in Contents() then chosen != [] && ItemOf(columns, chosen[0]) == Contents()[key] else chosen == []
      {
        KeyIsLookup(columns, pk, rows, key, criteria, like);
      }
      if items.Err? {
        return Err(items.error);
      }
      r := if items.value == [] then Err(NotFound) else Ok(items.value[0]);
    }

    method Insert(record: Item) returns (r: Result<()>)
      requires Valid()
      modifies `rows
      ensures Valid()
      ensures var key := KeyOf(pk, record);
              && (r.Err? <==> key in old(Contents()))
              && Contents() == if IsFull(key) && r.Ok? then old(Contents())[key := Project(columns, record)]
                               else old(Contents())
    {
      hide IsFull, RowKey, ItemOf, Project;
      var values: seq<Value> := [];
      for i := 0 to |columns|
        invariant values == RowOf(columns, record)[..i]
      {
        values := values + [if columns[i] in record then record[columns[i]] else Null];
      }
      assert values == RowOf(columns, record);
      ItemOfRow(columns, pk, record);
      AsMapMeans(columns, pk, rows);
      var key := RowKey(columns, pk, values);
      if IsFull(key) && HasKey(columns, pk, rows, key) {
        return Err(DuplicateKey);
      }
      ghost var rows0 := rows;
      rows := rows + [values];
      assert rows[..|rows| - 1] == rows0;
      r := Ok(());
    }

    // Deleting a record that is not there goes unnoticed; one without its key does not.
    method Delete(record: Item) returns (r: Result<()>)
      requires Valid()
      modifies `rows
      ensures Valid()
      ensures var key := KeyOf(pk, record);
              && r == (if IsFull(key) then Ok(()) else Err(NotFound))
              && Contents() == if IsFull(key) then old(Contents()) - {key} else old(Contents())
    {
      var names, values := KeyClause(record);
      if |names| != |pk| {
        return Err(NotFound);
      }
      ghost var rows0 := rows;
      rows := NotMatching(columns, rows, names, values, like);
      KeyRemoved(columns, pk, rows0, values, like);
      r := Ok(());
    }

    // The clause that delete and update build from a record's key values
    method KeyClause(record: Item) returns (names: seq<Clause>, values: seq<Value>)
      ensures |names| == |pk| <==> IsFull(KeyOf(pk, record))
      ensures |names| == |pk| ==> names == KeyClauses(pk) && values == KeyOf(pk, record)
    {
      names, values := [], [];
      for i := 0 to |pk|
        invariant |names| <= i && (|names| == i <==> Null !in KeyOf(pk, record)[..i])
        invariant |names| == i ==> names == KeyClauses(pk[..i]) && values == KeyOf(pk, record)[..i]
      {
        var value := Get(record, pk[i]);
        assert KeyOf(pk, record)[..i + 1] == KeyOf(pk, record)[..i] + [value];
        if value.Null? {
          continue;
        }
        assert pk[..i + 1][..i] == pk[..i];
        names := names + [Clause(pk[i], Eq)];
        values := values + [value];
      }
      assert pk[..|pk|] == pk && KeyOf(pk, record)[..|pk|] == KeyOf(pk, record);
    }

    // Columns that the record does not have become null. A record that is not in the table
    // is not stored, and this goes unnoticed.
    method Update(record: Item) returns (r: Result<()>)
      requires Valid()
      modifies `rows
      ensures Valid()
      ensures var key := KeyOf(pk, record);
              && (r.Ok? <==> IsFull(key) && exists c <- columns :: c !in pk)
              && Contents() == if r.Ok? && key in old(Contents()) then old(Contents())[key := Project(columns, record)]
                               else old(Contents())
    {
      hide IsTable, AsMap, Project, NotMatching, Updated, IsFull;
      var updates, values := Assignments(record);
      var names, args := KeyClause(record);
      if |names| != |pk| {
        return Err(NotFound);
      }
      if updates == [] {
        assert forall c <- columns :: c in pk;
        return Err(BadSyntax);
      }
      assert updates[0] in updates;
      ghost var rows0 := rows;
      assert forall row <- rows :: |row| == |columns| by { RowsAreWide(columns, pk, rows); }
      rows := Updated(columns, rows, updates, values, names, args, like);
      KeyUpdated(columns, pk, rows0, updates, record, like);
      r := Ok(());
    }

    // The columns that update sets, with their values: all but the key's
    method Assignments(record: Item) returns (updates: seq<string>, values: seq<Value>)
      ensures forall c :: c in updates <==> c in columns && c !in pk
      ensures values == RowOf(updates, record)
    {
      updates, values := [], [];
      for i := 0 to |columns|
        invariant forall c :: c in updates <==> c in columns[..i] && c !in pk
        invariant values == RowOf(updates, record)
      {
        if columns[i] in pk {
          continue;
        }
        ghost var updates0 := updates;
        updates := updates + [columns[i]];
        values := values + [Get(record, columns[i])];
        assert RowOf(updates, record) == RowOf(updates0, record) + [Get(record, columns[i])];
      }
    }
  }

  lemma RowsAreWide(columns: seq<string>, pk: seq<string>, rows: seq<Row>)
    requires IsTable(columns, pk, rows)
    ensures forall row <- rows :: |row| == |columns|
  {
  }

  // There are as many values as placeholders.
  predicate IsAligned(columns: seq<string>, criteria: seq<Criterion>) {
    |ValuesOf(columns, criteria)| == AllSlots(ClausesOf(columns, criteria))
  }

  lemma LengthsGrow(columns: seq<string>, criteria: seq<Criterion>, c: Criterion)
    ensures ColumnOf(c) !in columns ==> (IsAligned(columns, criteria + [c]) <==> IsAligned(columns, criteria))
    ensures ColumnOf(c) in columns && IsTranslatable(c) && IsAligned(columns, criteria) ==>
              (IsAligned(columns, criteria + [c]) <==> IsWellShaped(c))
  {
    hide Parts, Bound, AllSlots;
    assert (criteria + [c])[..|criteria|] == criteria;
    if ColumnOf(c) in columns && IsTranslatable(c) {
      SlotsAppend(ClausesOf(columns, criteria), Clause(ColumnOf(c), OperatorOf(c).value));
    }
  }

  lemma {:induction false} ShapedIsAligned(columns: seq<string>, criteria: seq<Criterion>)
    requires forall c <- criteria :: ColumnOf(c) in columns ==> IsWellShaped(c)
    ensures IsAligned(columns, criteria)
  {
    if criteria != [] {
      var front, c := criteria[..|criteria| - 1], criteria[|criteria| - 1];
      assert criteria == front + [c];
      ShapedIsAligned(columns, front);
      hide IsAligned;
      LengthsGrow(columns, front, c);
    }
  }

  // ---------- What the operators select ----------

  predicate IsPlainName(name: string) {
    forall i :: 0 <= i < |name| - 1 ==> !(name[i] == '_' && name[i + 1] == '_')
  }

  lemma {:induction false} PartsOfPlain(name: string)
    requires IsPlainName(name)
    ensures Parts(name) == [name]
  {
    if |name| >= 2 {
      PartsOfPlain(name[1..]);
      assert !(name[0] == '_' && name[1] == '_');
      assert [name[0]] + name[1..] == name;
    }
  }

  lemma {:induction false} PartsOfNamed(col: string, op: string)
    requires IsPlainName(col + "_") && IsPlainName(op)
    ensures Parts(col + "__" + op) == [col, op]
  {
    var name := col + "__" + op;
    if col == "" {
      assert name[..2] == "__" && name[2..] == op;
      PartsOfPlain(op);
    } else {
      assert (col + "_")[1..] == col[1..] + "_";
      assert IsPlainName(col[1..] + "_") by { PlainSuffix(col + "_"); }
      PartsOfNamed(col[1..], op);
      assert name[1..] == col[1..] + "__" + op;
      assert !(name[0] == '_' && name[1] == '_') by { assert (col + "_")[0] == name[0] && (col + "_")[1] == name[1]; }
      assert [name[0]] + col[1..] == col;
    }
  }

  lemma PlainSuffix(name: string)
    requires IsPlainName(name) && name != ""
    ensures IsPlainName(name[1..])
  {
  }

  // A criterion named by a column and an operator
  predicate Selects(columns: seq<string>, row: Row, col: string, op: string, operand: Operand,
                    like: (Value, Value) -> bool)
  {
    Satisfies(columns, row, Criterion(col + "__" + op, operand), like)
  }

  lemma NamedCriterion(columns: seq<string>, row: Row, col: string, op: string, operand: Operand,
                       like: (Value, Value) -> bool)
    requires col in columns && IsPlainName(col + "_") && op in OPERATORS
    ensures var o := OpOf(op);
            o.Some? && (Selects(columns, row, col, op, operand, like) <==>
              && Bound(o.value, operand).Ok? && |Bound(o.value, operand).value| == Slots(o.value)
              && Meets(o.value, Cell(columns, row, col), Bound(o.value, operand).value, like))
  {
    NamedParts(col);
    hide Parts, Cell, Meets, Bound;
  }

  // A keyword argument with the name of a column, two underscores and the name of an operator,
  // and one value, or a pair of them for between, selects the rows whose cell is not null and
  // compares with the value as the name says; the column's name alone asks for equality.
  lemma OperatorsSelect(columns: seq<string>, row: Row, col: string, v: Value, w: Value, prefix: string,
                        like: (Value, Value) -> bool)
    requires col in columns && IsPlainName(col + "_") && v != Null && w != Null
    requires Cell(columns, row, col) != Null
    ensures var x := Cell(columns, row, col);
            && (Satisfies(columns, row, Criterion(col, One(v)), like) <==> x == v)
            && (Selects(columns, row, col, "eq", One(v), like) <==> x == v)
            && (Selects(columns, row, col, "ne", One(v), like) <==> x != v)
            && (Selects(columns, row, col, "lt", One(v), like) <==> Before(x, v))
            && (Selects(columns, row, col, "lte", One(v), like) <==> Before(x, v) || x == v)
            && (Selects(columns, row, col, "gt", One(v), like) <==> Before(v, x))
            && (Selects(columns, row, col, "gte", One(v), like) <==> Before(v, x) || x == v)
            && (Selects(columns, row, col, "beginswith", One(Text(prefix)), like) <==> like(x, Text(prefix + "%")))
            && (Selects(columns, row, col, "between", Many([v, w]), like) <==>
                  (Before(v, x) || x == v) && (Before(x, w) || x == w))
  {
    hide Parts, Cell, Before, Selects;
    NamedParts(col);
    NamedCriterion(columns, row, col, "eq", One(v), like);
    NamedCriterion(columns, row, col, "ne", One(v), like);
    NamedCriterion(columns, row, col, "lt", One(v), like);
    NamedCriterion(columns, row, col, "lte", One(v), like);
    NamedCriterion(columns, row, col, "gt", One(v), like);
    NamedCriterion(columns, row, col, "gte", One(v), like);
    NamedCriterion(columns, row, col, "beginswith", One(Text(prefix)), like);
    NamedCriterion(columns, row, col, "between", Many([v, w]), like);
  }

  // A criterion can be translated if and only if it names one of the eight operators, or none,
  // and gives a single text where it asks for a prefix.
  lemma WhatIsTranslatable(c: Criterion)
    ensures var name := if |Parts(c.name)| > 1 then Parts(c.name)[1] else "eq";
            IsTranslatable(c) <==>
              name in OPERATORS && (name == "beginswith" ==> c.operand.One? && c.operand.value.Text?)
  {
    hide Parts;
  }

  // Nulls are never selected.
  lemma NullsAreNotSelected(columns: seq<string>, row: Row, col: string, op: string, operand: Operand,
                            like: (Value, Value) -> bool)
    requires col in columns && IsPlainName(col + "_") && op in OPERATORS
    requires Cell(columns, row, col) == Null || operand == One(Null)
    ensures !Selects(columns, row, col, op, operand, like)
  {
    hide Parts, Cell, Selects;
    NamedCriterion(columns, row, col, op, operand, like);
  }

  const OPERATORS: set<string> := {"eq", "ne", "lt", "lte", "gt", "gte", "beginswith", "between"}

  lemma NamedParts(col: string)
    requires IsPlainName(col + "_")
    ensures Parts(col) == [col]
    ensures forall op :: op in OPERATORS ==> Parts(col + "__" + op) == [col, op]
  {
    assert forall i :: 0 <= i < |col| ==> (col + "_")[i] == col[i];
    PartsOfPlain(col);
    forall op | op in OPERATORS ensures Parts(col + "__" + op) == [col, op] {
      PartsOfNamed(col, op);
    }
  }

  // Each clause's placeholders start where its own values start, and end where they end,
  // exactly when every criterion has the right shape.
  lemma OwnValuesIff(columns: seq<string>, criteria: seq<Criterion>)
    requires forall c <- criteria :: ColumnOf(c) in columns ==> IsTranslatable(c)
    ensures (forall i :: 0 <= i <= |criteria| ==> IsAligned(columns, criteria[..i]))
            <==> forall c <- criteria :: ColumnOf(c) in columns ==> IsWellShaped(c)
  {
    hide Parts, IsAligned, IsWellShaped, IsTranslatable;
    if forall c <- criteria :: ColumnOf(c) in columns ==> IsWellShaped(c) {
      forall i | 0 <= i <= |criteria| ensures IsAligned(columns, criteria[..i]) {
        ShapedIsAligned(columns, criteria[..i]);
      }
    }
    if forall i :: 0 <= i <= |criteria| ==> IsAligned(columns, criteria[..i]) {
      forall k | 0 <= k < |criteria| && ColumnOf(criteria[k]) in columns ensures IsWellShaped(criteria[k]) {
        LengthsGrow(columns, criteria[..k], criteria[k]);
        assert criteria[..k] + [criteria[k]] == criteria[..k + 1];
      }
    }
  }

  predicate SatisfiesAll(columns: seq<string>, row: Row, criteria: seq<Criterion>, like: (Value, Value) -> bool) {
    forall c <- criteria :: Satisfies(columns, row, c, like)
  }

  // For criteria of the right shape the clause, given the values, is true of exactly the rows
  // that satisfy them.
  lemma {:induction false} TranslationMeans(columns: seq<string>, criteria: seq<Criterion>, row: Row,
                                            like: (Value, Value) -> bool)
    requires forall c <- criteria :: ColumnOf(c) in columns ==> IsWellShaped(c)
    ensures IsAligned(columns, criteria)
    ensures Where(columns, row, ClausesOf(columns, criteria), ValuesOf(columns, criteria), like) == Yes
            <==> SatisfiesAll(columns, row, criteria, like)
  {
    hide Parts, Meets, Satisfies, Bound;
    ShapedIsAligned(columns, criteria);
    if criteria != [] {
      var front, c := criteria[..|criteria| - 1], criteria[|criteria| - 1];
      assert criteria == front + [c];
      TranslationMeans(columns, front, row, like);
      hide Where;
      assert forall d :: d in criteria <==> d in front || d == c;
      if ColumnOf(c) in columns {
        OneMore(columns, row, c, ClausesOf(columns, front), ValuesOf(columns, front), like);
      } else {
        UnknownColumn(columns, row, c, like);
      }
    }
  }

  lemma UnknownColumn(columns: seq<string>, row: Row, c: Criterion, like: (Value, Value) -> bool)
    requires ColumnOf(c) !in columns
    ensures Satisfies(columns, row, c, like)
  {
  }

  // One more criterion on a known column is one more condition.
  lemma OneMore(columns: seq<string>, row: Row, c: Criterion, clauses: seq<Clause>, values: seq<Value>,
                like: (Value, Value) -> bool)
    requires |values| == AllSlots(clauses) && ColumnOf(c) in columns && IsWellShaped(c)
    ensures var clauses', values' := clauses + [Clause(ColumnOf(c), OperatorOf(c).value)],
                                     values + Bound(OperatorOf(c).value, c.operand).value;
            && |values'| == AllSlots(clauses')
            && (Where(columns, row, clauses', values', like) == Yes
                <==> Where(columns, row, clauses, values, like) == Yes && Satisfies(columns, row, c, like))
  {
    hide Parts, Where;
    var op, args := OperatorOf(c).value, Bound(OperatorOf(c).value, c.operand).value;
    WhereAppend(columns, row, clauses, values, Clause(ColumnOf(c), op), args, like);
    TestMeets(op, Cell(columns, row, ColumnOf(c)), args, like);
  }

  function Items(columns: seq<string>, rows: seq<Row>): seq<Item> {
    seq(|rows|, i requires 0 <= i < |rows| => ItemOf(columns, rows[i]))
  }

  function KeyClauses(pk: seq<string>): (r: seq<Clause>)
    ensures |r| == |pk| && AllSlots(r) == |pk|
  {
    if pk == [] then []
    else
      SlotsAppend(KeyClauses(pk[..|pk| - 1]), Clause(pk[|pk| - 1], Eq));
      KeyClauses(pk[..|pk| - 1]) + [Clause(pk[|pk| - 1], Eq)]
  }

  // The criteria give one value for each column of the primary key and say nothing else.
  ghost predicate NamesKey(pk: seq<string>, key: Key, criteria: seq<Criterion>) {
    && |key| == |pk|
    && (forall c <- pk :: Parts(c) == [c])
    && (forall c :: c in criteria <==> exists i :: 0 <= i < |pk| && c == Criterion(pk[i], One(key[i])))
  }

  lemma {:induction false} ChosenMeans(columns: seq<string>, rows: seq<Row>, criteria: seq<Criterion>,
                                       like: (Value, Value) -> bool)
    ensures forall row :: row in Chosen(columns, rows, criteria, like) <==>
              row in rows && forall c <- criteria :: Satisfies(columns, row, c, like)
  {
    if rows != [] {
      ChosenMeans(columns, rows[1..], criteria, like);
      assert forall row :: row in rows <==> row == rows[0] || row in rows[1..];
    }
  }

  // Selecting by the full primary key is looking the key up.
  lemma KeyIsLookup(columns: seq<string>, pk: seq<string>, rows: seq<Row>, key: Key, criteria: seq<Criterion>,
                    like: (Value, Value) -> bool)
    requires IsTable(columns, pk, rows) && NamesKey(pk, key, criteria)
    ensures forall c <- criteria :: ColumnOf(c) in columns ==> IsWellShaped(c)
    ensures var chosen := Chosen(columns, rows, criteria, like);
            var m := AsMap(columns, pk, rows);
            if key in m then chosen != [] && ItemOf(columns, chosen[0]) == m[key] else chosen == []
  {
    forall row
      ensures (forall c <- criteria :: Satisfies(columns, row, c, like)) <==>
              IsFull(key) && RowKey(columns, pk, row) == key
    {
      KeySatisfied(columns, pk, row, key, criteria, like);
    }
    ChosenMeans(columns, rows, criteria, like);
    AsMapMeans(columns, pk, rows);
    var chosen := Chosen(columns, rows, criteria, like);
    if chosen != [] {
      assert chosen[0] in chosen;
    }
  }

  lemma KeySatisfied(columns: seq<string>, pk: seq<string>, row: Row, key: Key, criteria: seq<Criterion>,
                     like: (Value, Value) -> bool)
    requires NamesKey(pk, key, criteria) && forall c <- pk :: c in columns
    ensures forall c <- criteria :: IsWellShaped(c)
    ensures (forall c <- criteria :: Satisfies(columns, row, c, like)) <==>
            IsFull(key) && RowKey(columns, pk, row) == key
  {
    var k := RowKey(columns, pk, row);
    forall i | 0 <= i < |pk|
      ensures var c := Criterion(pk[i], One(key[i]));
              && c in criteria && IsWellShaped(c)
              && (Satisfies(columns, row, c, like) <==> key[i] != Null && k[i] == key[i])
    {
      var c := Criterion(pk[i], One(key[i]));
      assert Parts(pk[i]) == [pk[i]] && OperatorOf(c) == Some(Eq);
      assert Bound(Eq, One(key[i])) == Ok([key[i]]);
      assert k[i] == Cell(columns, row, pk[i]);
    }
    if forall c <- criteria :: Satisfies(columns, row, c, like) {
      assert forall i :: 0 <= i < |pk| ==> Satisfies(columns, row, Criterion(pk[i], One(key[i])), like);
      assert k == key;
    }
  }

  lemma KeyClausesStep(pk: seq<string>)
    ensures pk == [] ==> KeyClauses(pk) == []
    ensures pk != [] ==> KeyClauses(pk) == KeyClauses(pk[..|pk| - 1]) + [Clause(pk[|pk| - 1], Eq)]
  {
  }

  lemma RowKeyStep(columns: seq<string>, pk: seq<string>, row: Row)
    requires forall c <- pk :: c in columns
    ensures pk == [] ==> RowKey(columns, pk, row) == []
    ensures |RowKey(columns, pk, row)| == |pk|
    ensures pk != [] ==>
              RowKey(columns, pk, row)
              == RowKey(columns, pk[..|pk| - 1], row) + [Cell(columns, row, pk[|pk| - 1])]
    ensures pk != [] ==> |RowKey(columns, pk[..|pk| - 1], row)| == |pk| - 1
  {
  }

  lemma NoClauses(columns: seq<string>, row: Row, like: (Value, Value) -> bool)
    ensures Where(columns, row, [], [], like) == Yes
  {
  }

  // The clause over the key columns is true of the rows with that key.
  lemma {:induction false} WhereKey(columns: seq<string>, pk: seq<string>, row: Row, key: Key,
                                    like: (Value, Value) -> bool)
    requires |key| == |pk| && IsFull(key) && forall c <- pk :: c in columns
    ensures Where(columns, row, KeyClauses(pk), key, like) == Yes <==> RowKey(columns, pk, row) == key
  {
    hide Where, Cell, Test, RowKey, KeyClauses;
    KeyClausesStep(pk);
    if pk == [] {
      assert RowKey(columns, pk, row) == [] by { RowKeyStep(columns, pk, row); }
      assert Where(columns, row, [], [], like) == Yes by { NoClauses(columns, row, like); }
    } else {
      var n := |pk| - 1;
      WhereKey(columns, pk[..n], row, key[..n], like);
      WhereAppend(columns, row, KeyClauses(pk[..n]), key[..n], Clause(pk[n], Eq), [key[n]], like);
      assert key == key[..n] + [key[n]];
      RowKeyStep(columns, pk, row);
      TestMeets(Eq, Cell(columns, row, pk[n]), [key[n]], like);
    }
  }

  lemma AsMapIs(columns: seq<string>, pk: seq<string>, rows: seq<Row>, m: map<Key, Item>)
    requires IsTable(columns, pk, rows)
    requires forall row <- rows :: IsFull(RowKey(columns, pk, row)) ==>
               RowKey(columns, pk, row) in m && m[RowKey(columns, pk, row)] == ItemOf(columns, row)
    requires forall key :: key in m <==> IsFull(key) && HasKey(columns, pk, rows, key)
    ensures AsMap(columns, pk, rows) == m
  {
    hide RowKey, ItemOf, IsFull, AsMap, IsTable;
    AsMapMeans(columns, pk, rows);
    forall key | key in m ensures AsMap(columns, pk, rows)[key] == m[key] {
      var row :| row in rows && RowKey(columns, pk, row) == key;
    }
  }

  lemma {:induction false} NotMatchingMeans(columns: seq<string>, pk: seq<string>, rows: seq<Row>,
                                            clauses: seq<Clause>, values: seq<Value>, like: (Value, Value) -> bool)
    requires IsTable(columns, pk, rows) && |values| == AllSlots(clauses)
    ensures var kept := NotMatching(columns, rows, clauses, values, like);
            && IsTable(columns, pk, kept)
            && forall row :: row in kept <==> row in rows && Where(columns, row, clauses, values, like) != Yes
  {
    hide RowKey, IsFull, Where;
    if rows != [] {
      assert IsTable(columns, pk, rows[1..]);
      hide IsTable;
      NotMatchingMeans(columns, pk, rows[1..], clauses, values, like);
      assert forall row :: row in rows <==> row == rows[0] || row in rows[1..];
      SmallerTable(columns, pk, rows, NotMatching(columns, rows[1..], clauses, values, like));
    }
  }

  lemma SmallerTable(columns: seq<string>, pk: seq<string>, rows: seq<Row>, kept: seq<Row>)
    requires rows != [] && IsTable(columns, pk, rows) && IsTable(columns, pk, kept)
    requires forall row <- kept :: row in rows[1..]
    ensures IsTable(columns, pk, [rows[0]] + kept)
  {
    hide RowKey, IsFull;
    forall i | 0 <= i < |kept| && IsFull(RowKey(columns, pk, rows[0]))
      ensures RowKey(columns, pk, rows[0]) != RowKey(columns, pk, kept[i])
    {
      assert kept[i] in rows[1..];
      var j :| 0 <= j < |rows| - 1 && rows[1..][j] == kept[i];
      assert rows[j + 1] == kept[i];
    }
  }

  lemma KeyRemoved(columns: seq<string>, pk: seq<string>, rows: seq<Row>, key: Key, like: (Value, Value) -> bool)
    requires IsTable(columns, pk, rows) && |key| == |pk| && IsFull(key)
    ensures var kept := NotMatching(columns, rows, KeyClauses(pk), key, like);
            IsTable(columns, pk, kept) && AsMap(columns, pk, kept) == AsMap(columns, pk, rows) - {key}
  {
    NotMatchingMeans(columns, pk, rows, KeyClauses(pk), key, like);
    forall row ensures Where(columns, row, KeyClauses(pk), key, like) == Yes <==> RowKey(columns, pk, row) == key {
      WhereKey(columns, pk, row, key, like);
    }
    AsMapMeans(columns, pk, rows);
    hide RowKey, IsFull, ItemOf, Where, NotMatching, AsMap;
    AsMapIs(columns, pk, NotMatching(columns, rows, KeyClauses(pk), key, like), AsMap(columns, pk, rows) - {key});
  }

  lemma {:induction false} CellAt(columns: seq<string>, row: Row, i: nat)
    requires NoDup(columns) && |row| == |columns| && i < |columns|
    ensures Cell(columns, row, columns[i]) == row[i]
  {
    if i > 0 {
      CellAt(columns[1..], row[1..], i - 1);
    }
  }

  // A row that is updated becomes the row of the record.
  lemma AssignedIsRow(columns: seq<string>, pk: seq<string>, row: Row, sets: seq<string>, record: Item)
    requires NoDup(columns) && |row| == |columns| && (forall c <- pk :: c in columns)
    requires forall c :: c in sets <==> c in columns && c !in pk
    requires RowKey(columns, pk, row) == KeyOf(pk, record)
    ensures Assigned(columns, row, sets, RowOf(sets, record)) == RowOf(columns, record)
  {
    forall i | 0 <= i < |columns|
      ensures Assigned(columns, row, sets, RowOf(sets, record))[i] == Get(record, columns[i])
    {
      if columns[i] in sets {
        CellOf(sets, record, columns[i]);
      } else {
        CellAt(columns, row, i);
        var j :| 0 <= j < |pk| && pk[j] == columns[i];
        assert RowKey(columns, pk, row)[j] == KeyOf(pk, record)[j];
      }
    }
  }

  lemma {:induction false} UpdatedMeans(columns: seq<string>, rows: seq<Row>, sets: seq<string>, values: seq<Value>,
                                        clauses: seq<Clause>, args: seq<Value>, like: (Value, Value) -> bool)
    requires |args| == AllSlots(clauses) && forall row <- rows :: |row| == |columns|
    ensures var rows' := Updated(columns, rows, sets, values, clauses, args, like);
            && |rows'| == |rows|
            && forall i :: 0 <= i < |rows| ==>
                 rows'[i] == if Where(columns, rows[i], clauses, args, like) == Yes
                             then Assigned(columns, rows[i], sets, values) else rows[i]
  {
    hide Where, Assigned;
    if rows != [] {
      UpdatedMeans(columns, rows[1..], sets, values, clauses, args, like);
    }
  }

  // An update by key replaces the row with that key and keeps the keys of all rows.
  lemma RowsUpdated(columns: seq<string>, pk: seq<string>, rows: seq<Row>, sets: seq<string>, record: Item,
                    like: (Value, Value) -> bool)
    requires IsTable(columns, pk, rows) && IsFull(KeyOf(pk, record))
    requires forall c :: c in sets <==> c in columns && c !in pk
    ensures var key := KeyOf(pk, record);
            var rows' := Updated(columns, rows, sets, RowOf(sets, record), KeyClauses(pk), key, like);
            && |rows'| == |rows|
            && forall i :: 0 <= i < |rows| ==>
                 && rows'[i] == (if RowKey(columns, pk, rows[i]) == key then RowOf(columns, record) else rows[i])
                 && RowKey(columns, pk, rows'[i]) == RowKey(columns, pk, rows[i])
  {
    hide Assigned, Where, IsFull, RowKey, RowOf, Updated;
    var key := KeyOf(pk, record);
    UpdatedMeans(columns, rows, sets, RowOf(sets, record), KeyClauses(pk), key, like);
    forall i | 0 <= i < |rows|
      ensures Where(columns, rows[i], KeyClauses(pk), key, like) == Yes <==> RowKey(columns, pk, rows[i]) == key
      ensures RowKey(columns, pk, rows[i]) == key ==>
                Assigned(columns, rows[i], sets, RowOf(sets, record)) == RowOf(columns, record)
    {
      WhereKey(columns, pk, rows[i], key, like);
      if RowKey(columns, pk, rows[i]) == key {
        AssignedIsRow(columns, pk, rows[i], sets, record);
      }
    }
    ItemOfRow(columns, pk, record);
  }

  lemma SameKeys(columns: seq<string>, pk: seq<string>, rows: seq<Row>, rows': seq<Row>)
    requires IsTable(columns, pk, rows) && |rows'| == |rows|
    requires forall i :: 0 <= i < |rows| ==>
               |rows'[i]| == |rows[i]| && RowKey(columns, pk, rows'[i]) == RowKey(columns, pk, rows[i])
    ensures IsTable(columns, pk, rows')
    ensures forall k :: HasKey(columns, pk, rows', k) <==> HasKey(columns, pk, rows, k)
  {
    hide RowKey, IsFull;
    forall row | row in rows' ensures |row| == |columns| && HasKey(columns, pk, rows, RowKey(columns, pk, row)) {
      var i :| 0 <= i < |rows'| && rows'[i] == row;
      assert rows[i] in rows;
    }
    forall row | row in rows ensures HasKey(columns, pk, rows', RowKey(columns, pk, row)) {
      var i :| 0 <= i < |rows| && rows[i] == row;
      assert rows'[i] in rows';
    }
  }

  lemma KeyUpdated(columns: seq<string>, pk: seq<string>, rows: seq<Row>, sets: seq<string>, record: Item,
                   like: (Value, Value) -> bool)
    requires IsTable(columns, pk, rows) && IsFull(KeyOf(pk, record))
    requires forall c :: c in sets <==> c in columns && c !in pk
    ensures var key := KeyOf(pk, record);
            var rows' := Updated(columns, rows, sets, RowOf(sets, record), KeyClauses(pk), key, like);
            var m := AsMap(columns, pk, rows);
            && IsTable(columns, pk, rows')
            && AsMap(columns, pk, rows') == if key in m then m[key := Project(columns, record)] else m
  {
    hide RowKey, IsFull, ItemOf, Where, Updated, AsMap, RowOf, Project;
    var key := KeyOf(pk, record);
    var rows' := Updated(columns, rows, sets, RowOf(sets, record), KeyClauses(pk), key, like);
    RowsUpdated(columns, pk, rows, sets, record, like);
    ItemOfRow(columns, pk, record);
    AsMapMeans(columns, pk, rows);
    var m := AsMap(columns, pk, rows);
    var m' := if key in m then m[key := Project(columns, record)] else m;
    SameKeys(columns, pk, rows, rows');
    forall row | row in rows' && IsFull(RowKey(columns, pk, row))
      ensures RowKey(columns, pk, row) in m' && m'[RowKey(columns, pk, row)] == ItemOf(columns, row)
    {
      var i :| 0 <= i < |rows'| && rows'[i] == row;
      assert rows[i] in rows;
    }
    AsMapIs(columns, pk, rows', m');
  }

  // A between without its second bound is not always refused: a criterion with a value too
  // many makes up the number, and the values are bound to the wrong placeholders.
  lemma MisshapenOperandsCanMisbind(like: (Value, Value) -> bool)
    ensures var lone, pair := Bound(Between, One(Num(1.0))).value, Bound(Eq, Many([Num(3.0), Num(7.0)])).value;
            && |lone| != Slots(Between) && |pair| != Slots(Eq)
            && Query(["a", "b"], [[Num(2.0), Num(7.0)]], [Clause("a", Between), Clause("b", Eq)], lone + pair, like)
               == Ok([[Num(2.0), Num(7.0)]])
  {
    var columns, row := ["a", "b"], [Num(2.0), Num(7.0)];
    var clauses, values := [Clause("a", Between), Clause("b", Eq)], [Num(1.0), Num(3.0), Num(7.0)];
    MisboundRow(columns, row, clauses, values, like);
    assert [Num(1.0)] + [Num(3.0), Num(7.0)] == values;
    assert [row][1..] == [];
    assert AllSlots(clauses) == 3;
    assert Matching(columns, [row], clauses, values, like) == [row];
    assert Query(columns, [row], clauses, values, like) == Ok([row]);
    assert Bound(Between, One(Num(1.0))).value == [Num(1.0)];
    assert Bound(Eq, Many([Num(3.0), Num(7.0)])).value == [Num(3.0), Num(7.0)];
  }

  lemma MisboundRow(columns: seq<string>, row: Row, clauses: seq<Clause>, values: seq<Value>, like: (Value, Value) -> bool)
    requires columns == ["a", "b"] && row == [Num(2.0), Num(7.0)]
    requires clauses == [Clause("a", Between), Clause("b", Eq)] && values == [Num(1.0), Num(3.0), Num(7.0)]
    ensures |values| == AllSlots(clauses) && Where(columns, row, clauses, values, like) == Yes
  {
    var second := clauses[1];
    assert columns[1..] == ["b"] && row[1..] == [Num(7.0)];
    assert Cell(columns, row, "a") == Num(2.0) && Cell(["b"], [Num(7.0)], "b") == Num(7.0);
    assert [second][1..] == [] && clauses[1..] == [second];
    assert values[2..] == [Num(7.0)] && values[..2] == [Num(1.0), Num(3.0)] && [Num(7.0)][..1] == [Num(7.0)];
    assert Where(columns, row, [second], [Num(7.0)], like) == Yes;
  }
}
