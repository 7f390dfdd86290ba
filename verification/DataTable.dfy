/**
 Sorted, paged list queries: the order src/utils/datatable.ts asks for, and what the database
 may return for it, one page per query.
 */
module DataTable {
  import opened Options

  datatype Dir = Asc | Desc

  /** One `orderBy` entry; `nullsLast` asks for nulls after everything else. */
  datatype Term = Term(field: string, dir: Dir, nullsLast: bool)

  /** A sortable column: the field it sorts by, and whether it goes through `nullsLast`. */
  datatype Column = Column(field: string, nullsLast: bool)

  const ID: string := "id"

  function BuildOrderBy(sortBy: Option<string>, sortDir: Option<Dir>, columns: map<string, Column>, fallback: seq<Term>)
    : seq<Term>
  {
    if sortBy.Some? && sortBy.value != "" && sortBy.value in columns then
      var column := columns[sortBy.value];
      var dir := if sortDir.Some? then sortDir.value else Asc;
      [Term(column.field, dir, column.nullsLast), Term(ID, dir, false)]
    else
      fallback + [Term(ID, Desc, false)]
  }

  // ---- What the database compares ----

  datatype Value = Null | Number(n: int) | Text(s: string)

  datatype Row = Row(id: string, fields: map<string, Value>)

  function Get(row: Row, field: string): Value {
    if field == ID then Text(row.id)
    else if field in row.fields then row.fields[field] else Null
  }

  function CompareInts(a: int, b: int): int {
    if a < b then -1 else if a == b then 0 else 1
  }

  function CompareStrings(a: string, b: string): int {
    if a == [] then (if b == [] then 0 else -1)
    else if b == [] then 1
    else if a[0] != b[0] then CompareInts(a[0] as int, b[0] as int)
    else CompareStrings(a[1..], b[1..])
  }

  /** Numbers before texts; a column holds only one kind. */
  function CompareValues(a: Value, b: Value): int
    requires !a.Null? && !b.Null?
  {
    match (a, b)
    case (Number(m), Number(n)) => CompareInts(m, n)
    case (Text(s), Text(t)) => CompareStrings(s, t)
    case (Number(_), Text(_)) => -1
    case (Text(_), Number(_)) => 1
  }

  /** Unless asked otherwise, nulls count as larger than every value. */
  function CompareBy(term: Term, x: Row, y: Row): int {
    var a, b := Get(x, term.field), Get(y, term.field);
    var nullSign := if term.nullsLast || term.dir == Asc then 1 else -1;
    if a.Null? && b.Null? then 0
    else if a.Null? then nullSign
    else if b.Null? then -nullSign
    else if term.dir == Asc then CompareValues(a, b) else CompareValues(b, a)
  }

  /** Numbers ascend, and texts do by the first character in which they differ, a text before its extensions. */
  lemma {:induction false} ValuesInOrder(m: int, n: int, common: string, s: string, t: string)
    ensures CompareValues(Number(m), Number(n)) < 0 <==> m < n
    ensures (s == "" || t == "" || s[0] != t[0]) ==>
              (CompareValues(Text(common + s), Text(common + t)) < 0 <==> t != "" && (s == "" || s[0] < t[0]))
    decreases |common|
  {
    if common != "" {
      assert (common + s)[1..] == common[1..] + s && (common + t)[1..] == common[1..] + t;
      ValuesInOrder(m, n, common[1..], s, t);
    } else {
      assert common + s == s && common + t == t;
    }
  }

  /** Term by term; later terms decide ties. */
  function Compare(terms: seq<Term>, x: Row, y: Row): int {
    if terms == [] then 0
    else
      var first := CompareBy(terms[0], x, y);
      if first != 0 then first else Compare(terms[1..], x, y)
  }

  ghost predicate Sorted(terms: seq<Term>, rows: seq<Row>) {
    forall i, j :: 0 <= i < j < |rows| ==> Compare(terms, rows[i], rows[j]) <= 0
  }

  ghost predicate UniqueIds(rows: seq<Row>) {
    forall i, j :: 0 <= i < j < |rows| ==> rows[i].id != rows[j].id
  }

  predicate EndsInId(terms: seq<Term>) {
    terms != [] && terms[|terms| - 1].field == ID
  }

  /** The tiebreaker is always there. */
  lemma AlwaysTiebroken(sortBy: Option<string>, sortDir: Option<Dir>, columns: map<string, Column>, fallback: seq<Term>)
    ensures EndsInId(BuildOrderBy(sortBy, sortDir, columns, fallback))
  {
  }

  // ---- It is a total order ----

  lemma {:induction false} StringsMirror(a: string, b: string)
    ensures CompareStrings(b, a) == -CompareStrings(a, b)
    ensures CompareStrings(a, b) == 0 <==> a == b
  {
    if a != [] && b != [] && a[0] == b[0] {
      StringsMirror(a[1..], b[1..]);
      assert a == [a[0]] + a[1..] && b == [b[0]] + b[1..];
    }
  }

  lemma {:induction false} StringsTransitive(a: string, b: string, c: string)
    requires CompareStrings(a, b) <= 0 && CompareStrings(b, c) <= 0
    ensures CompareStrings(a, c) <= 0
  {
    if a != [] && b != [] && c != [] && a[0] == b[0] == c[0] {
      StringsTransitive(a[1..], b[1..], c[1..]);
    }
  }

  lemma ValuesMirror(a: Value, b: Value)
    requires !a.Null? && !b.Null?
    ensures CompareValues(b, a) == -CompareValues(a, b)
    ensures CompareValues(a, b) == 0 <==> a == b
  {
    if a.Text? && b.Text? {
      StringsMirror(a.s, b.s);
    }
  }

  lemma ValuesTransitive(a: Value, b: Value, c: Value)
    requires !a.Null? && !b.Null? && !c.Null?
    requires CompareValues(a, b) <= 0 && CompareValues(b, c) <= 0
    ensures CompareValues(a, c) <= 0
  {
    if a.Text? && b.Text? && c.Text? {
      StringsTransitive(a.s, b.s, c.s);
    }
  }

  lemma TermMirror(term: Term, x: Row, y: Row)
    ensures CompareBy(term, y, x) == -CompareBy(term, x, y)
    ensures CompareBy(term, x, y) == 0 <==> Get(x, term.field) == Get(y, term.field)
  {
    var a, b := Get(x, term.field), Get(y, term.field);
    if !a.Null? && !b.Null? {
      ValuesMirror(a, b);
    }
  }

  lemma TermTransitive(term: Term, x: Row, y: Row, z: Row)
    requires CompareBy(term, x, y) <= 0 && CompareBy(term, y, z) <= 0
    ensures CompareBy(term, x, z) <= 0
    ensures CompareBy(term, x, z) == 0 ==> CompareBy(term, x, y) == 0 && CompareBy(term, y, z) == 0
  {
    var a, b, c := Get(x, term.field), Get(y, term.field), Get(z, term.field);
    if !a.Null? && !b.Null? && !c.Null? {
      if term.dir == Asc {
        ValuesTransitive(a, b, c);
      } else {
        ValuesTransitive(c, b, a);
      }
    }
    TermMirror(term, x, y);
    TermMirror(term, y, z);
    TermMirror(term, x, z);
    if a == c && !a.Null? && !b.Null? {
      ValuesMirror(a, b);
    }
  }

  lemma {:induction false} CompareMirrors(terms: seq<Term>, x: Row, y: Row)
    ensures Compare(terms, y, x) == -Compare(terms, x, y)
  {
    if terms != [] {
      TermMirror(terms[0], x, y);
      CompareMirrors(terms[1..], x, y);
    }
  }

  lemma {:induction false} CompareTransitive(terms: seq<Term>, x: Row, y: Row, z: Row)
    requires Compare(terms, x, y) <= 0 && Compare(terms, y, z) <= 0
    ensures Compare(terms, x, z) <= 0
  {
    if terms != [] {
      TermTransitive(terms[0], x, y, z);
      if CompareBy(terms[0], x, z) == 0 {
        CompareTransitive(terms[1..], x, y, z);
      }
    }
  }

  lemma {:induction false} OnlyTheSameIdTies(terms: seq<Term>, x: Row, y: Row)
    requires EndsInId(terms) && Compare(terms, x, y) == 0
    ensures x.id == y.id
  {
    TermMirror(terms[0], x, y);
    if |terms| > 1 {
      OnlyTheSameIdTies(terms[1..], x, y);
    }
  }

  // ---- The result is unique ----

  lemma LeastFirst(terms: seq<Term>, rows: seq<Row>, x: Row)
    requires Sorted(terms, rows) && x in rows
    ensures Compare(terms, rows[0], x) <= 0
  {
    CompareMirrors(terms, x, x);
  }

  lemma SameId(rows: seq<Row>, x: Row, y: Row)
    requires UniqueIds(rows) && x in rows && y in rows && x.id == y.id
    ensures x == y
  {
  }

  lemma SameFirst(terms: seq<Term>, a: seq<Row>, b: seq<Row>)
    requires EndsInId(terms) && UniqueIds(a) && a != [] && b != []
    requires a[0] in b && b[0] in a
    requires Sorted(terms, a) && Sorted(terms, b)
    ensures a[0] == b[0]
  {
    LeastFirst(terms, b, a[0]);
    LeastFirst(terms, a, b[0]);
    CompareMirrors(terms, a[0], b[0]);
    OnlyTheSameIdTies(terms, a[0], b[0]);
    SameId(a, a[0], b[0]);
  }

  lemma SortedTail(terms: seq<Term>, rows: seq<Row>)
    requires rows != [] && Sorted(terms, rows)
    ensures Sorted(terms, rows[1..])
  {
  }

  lemma MultisetTail(rows: seq<Row>)
    requires rows != []
    ensures multiset(rows[1..]) == multiset(rows) - multiset{rows[0]}
  {
    assert rows == [rows[0]] + rows[1..];
  }

  /** Two sorted arrangements of the same rows are equal. */
  lemma {:induction false} SortedIsUnique(terms: seq<Term>, a: seq<Row>, b: seq<Row>)
    requires EndsInId(terms) && UniqueIds(a) && multiset(a) == multiset(b)
    requires Sorted(terms, a) && Sorted(terms, b)
    ensures a == b
    decreases |a|
  {
    assert |a| == |multiset(a)| == |b|;
    if a != [] {
      assert a[0] in multiset(b) && b[0] in multiset(a);
      SameFirst(terms, a, b);
      MultisetTail(a);
      MultisetTail(b);
      SortedTail(terms, a);
      SortedTail(terms, b);
      SortedIsUnique(terms, a[1..], b[1..]);
    }
  }

  // ---- A sorted arrangement exists ----

  function InsertRow(terms: seq<Term>, row: Row, rows: seq<Row>): seq<Row> {
    if rows == [] || Compare(terms, row, rows[0]) <= 0 then [row] + rows
    else [rows[0]] + InsertRow(terms, row, rows[1..])
  }

  function Sort(terms: seq<Term>, rows: seq<Row>): seq<Row> {
    if rows == [] then [] else InsertRow(terms, rows[0], Sort(terms, rows[1..]))
  }

  lemma {:induction false} InsertRowKeeps(terms: seq<Term>, row: Row, rows: seq<Row>)
    ensures multiset(InsertRow(terms, row, rows)) == multiset(rows) + multiset{row}
  {
    if rows != [] {
      assert rows == [rows[0]] + rows[1..];
      InsertRowKeeps(terms, row, rows[1..]);
    }
  }

  lemma InFront(terms: seq<Term>, row: Row, rows: seq<Row>)
    requires Sorted(terms, rows) && (rows != [] ==> Compare(terms, row, rows[0]) <= 0)
    ensures Sorted(terms, [row] + rows)
  {
    forall j | 0 <= j < |rows| ensures Compare(terms, row, rows[j]) <= 0 {
      LeastFirst(terms, rows, rows[j]);
      CompareTransitive(terms, row, rows[0], rows[j]);
    }
  }

  lemma {:induction false} InsertRowSorts(terms: seq<Term>, row: Row, rows: seq<Row>)
    requires Sorted(terms, rows)
    ensures Sorted(terms, InsertRow(terms, row, rows))
    ensures InsertRow(terms, row, rows) != []
    ensures InsertRow(terms, row, rows)[0] == row || (rows != [] && InsertRow(terms, row, rows)[0] == rows[0])
  {
    if rows == [] || Compare(terms, row, rows[0]) <= 0 {
      InFront(terms, row, rows);
    } else {
      var rest := InsertRow(terms, row, rows[1..]);
      SortedTail(terms, rows);
      InsertRowSorts(terms, row, rows[1..]);
      CompareMirrors(terms, row, rows[0]);
      InFront(terms, rows[0], rest);
    }
  }

  lemma {:induction false} SortSorts(terms: seq<Term>, rows: seq<Row>)
    ensures Sorted(terms, Sort(terms, rows))
    ensures multiset(Sort(terms, rows)) == multiset(rows)
  {
    if rows != [] {
      assert rows == [rows[0]] + rows[1..];
      SortSorts(terms, rows[1..]);
      InsertRowSorts(terms, rows[0], Sort(terms, rows[1..]));
      InsertRowKeeps(terms, rows[0], Sort(terms, rows[1..]));
    }
  }

  // ---- Paging ----

  /** What the database may return for an `orderBy`: ties in any arrangement. */
  ghost predicate Returns(terms: seq<Term>, table: seq<Row>, result: seq<Row>) {
    multiset(result) == multiset(table) && Sorted(terms, result)
  }

  /** `skip: (page - 1) * pageSize, take: pageSize`. */
  function Page(result: seq<Row>, page: nat, pageSize: nat): seq<Row>
    requires page >= 1
  {
    var skip := (page - 1) * pageSize;
    if skip >= |result| then []
    else if skip + pageSize >= |result| then result[skip..]
    else result[skip..skip + pageSize]
  }

  /** Pages 1, 2, ... put together; each is cut from the result of its own query. */
  function PagesOf(results: seq<seq<Row>>, pageSize: nat): seq<Row> {
    if results == [] then []
    else PagesOf(results[..|results| - 1], pageSize) + Page(results[|results| - 1], |results|, pageSize)
  }

  function Front(rows: seq<Row>, n: nat): seq<Row> {
    if n >= |rows| then rows else rows[..n]
  }

  lemma PageExtends(result: seq<Row>, page: nat, pageSize: nat, skip: nat)
    requires page >= 1 && skip == (page - 1) * pageSize
    ensures Front(result, skip) + Page(result, page, pageSize) == Front(result, skip + pageSize)
  {
  }

  lemma {:induction false} PagesOfOneResult(results: seq<seq<Row>>, result: seq<Row>, pageSize: nat, shown: nat)
    requires shown == |results| * pageSize && forall p :: 0 <= p < |results| ==> results[p] == result
    ensures PagesOf(results, pageSize) == Front(result, shown)
    decreases |results|
  {
    if results != [] {
      var n := |results| - 1;
      var before := n * pageSize;
      assert shown == before + pageSize;
      PagesOfOneResult(results[..n], result, pageSize, before);
      PageExtends(result, n + 1, pageSize, before);
    }
  }

  /** Every query of the pages may break ties as it likes: there are none, so the pages are the whole result. */
  lemma PagesConcatenate(terms: seq<Term>, table: seq<Row>, results: seq<seq<Row>>, pageSize: nat)
    requires EndsInId(terms) && UniqueIds(table) && pageSize >= 1
    requires forall p :: 0 <= p < |results| ==> Returns(terms, table, results[p])
    requires |results| * pageSize >= |table|
    ensures PagesOf(results, pageSize) == Sort(terms, table)
    ensures multiset(PagesOf(results, pageSize)) == multiset(table)
  {
    var sorted := Sort(terms, table);
    SortSorts(terms, table);
    PermutedUniqueIds(table, sorted);
    forall p | 0 <= p < |results| ensures results[p] == sorted {
      SortedIsUnique(terms, sorted, results[p]);
    }
    PagesOfOneResult(results, sorted, pageSize, |results| * pageSize);
    assert |multiset(sorted)| == |multiset(table)|;
  }

  lemma {:induction false} OnceEach(rows: seq<Row>, x: Row)
    requires UniqueIds(rows)
    ensures multiset(rows)[x] <= 1
  {
    if rows != [] {
      assert rows == [rows[0]] + rows[1..];
      OnceEach(rows[1..], x);
      if x == rows[0] {
        assert x !in rows[1..];
        assert x !in multiset(rows[1..]);
      }
    }
  }

  lemma TwiceCountsTwo(rows: seq<Row>, i: nat, j: nat)
    requires i < j < |rows| && rows[i] == rows[j]
    ensures multiset(rows)[rows[j]] >= 2
  {
    assert rows == rows[..j] + rows[j..] && rows[j..] == [rows[j]] + rows[j + 1..];
    assert rows[..j][i] == rows[j];
    assert rows[j] in multiset(rows[..j]);
  }

  lemma PermutedUniqueIds(a: seq<Row>, b: seq<Row>)
    requires UniqueIds(a) && multiset(a) == multiset(b)
    ensures UniqueIds(b)
  {
    forall i, j | 0 <= i < j < |b| ensures b[i].id != b[j].id {
      assert b[i] in multiset(a) && b[j] in multiset(a);
      if b[i].id == b[j].id {
        SameId(a, b[i], b[j]);
        TwiceCountsTwo(b, i, j);
        OnceEach(a, b[j]);
        assert false;
      }
    }
  }

  /** Without the tiebreaker a row may appear on two pages while another is on none. */
  lemma TiesRepeatRows(term: Term, x: Row, y: Row)
    requires Get(x, term.field) == Get(y, term.field) && x != y
    ensures Returns([term], [x, y], [x, y]) && Returns([term], [x, y], [y, x])
    ensures PagesOf([[x, y], [y, x]], 1) == [x, x]
  {
    TermMirror(term, x, y);
    assert [term][1..] == [];
    var results := [[x, y], [y, x]];
    assert results[..1] == [[x, y]] && [[x, y]][..0] == [];
    assert PagesOf([[x, y]], 1) == [x];
  }

  /** A numeric column, read from the rows themselves: ascending unless descending is asked for. */
  lemma NumbersRunAlong(sortBy: string, sortDir: Option<Dir>, columns: map<string, Column>, fallback: seq<Term>,
                        result: seq<Row>, i: nat, j: nat, field: string)
    requires sortBy != "" && sortBy in columns && columns[sortBy].field == field && field != "id"
    requires Sorted(BuildOrderBy(Some(sortBy), sortDir, columns, fallback), result) && i < j < |result|
    requires field in result[i].fields && result[i].fields[field].Number?
    requires field in result[j].fields && result[j].fields[field].Number?
    ensures if sortDir == Some(Desc) then result[i].fields[field].n >= result[j].fields[field].n
            else result[i].fields[field].n <= result[j].fields[field].n
  {
    SortsByTheColumn(sortBy, sortDir, columns, fallback, result, i, j);
  }

  /** The result runs along the column in the direction asked for, and along the ids where it ties. */
  lemma SortsByTheColumn(sortBy: string, sortDir: Option<Dir>, columns: map<string, Column>, fallback: seq<Term>,
                         result: seq<Row>, i: nat, j: nat)
    requires sortBy != "" && sortBy in columns && i < j < |result|
    requires Sorted(BuildOrderBy(Some(sortBy), sortDir, columns, fallback), result)
    requires var field := columns[sortBy].field;
             !Get(result[i], field).Null? && !Get(result[j], field).Null?
    ensures var field := columns[sortBy].field;
            var a, b := Get(result[i], field), Get(result[j], field);
            var along := CompareValues(a, b);
            && (sortDir != Some(Desc) ==> along <= 0 && (a == b ==> CompareStrings(result[i].id, result[j].id) <= 0))
            && (sortDir == Some(Desc) ==> along >= 0 && (a == b ==> CompareStrings(result[i].id, result[j].id) >= 0))
  {
    var terms := BuildOrderBy(Some(sortBy), sortDir, columns, fallback);
    var a, b := Get(result[i], columns[sortBy].field), Get(result[j], columns[sortBy].field);
    assert Compare(terms, result[i], result[j]) <= 0;
    assert terms[1..] == [terms[1]] && terms[1..][1..] == [];
    ValuesMirror(a, b);
    StringsMirror(result[i].id, result[j].id);
  }

  lemma {:induction false} CompareConcat(a: seq<Term>, b: seq<Term>, x: Row, y: Row)
    ensures Compare(a + b, x, y) == if Compare(a, x, y) != 0 then Compare(a, x, y) else Compare(b, x, y)
  {
    if a == [] {
      assert a + b == b;
    } else {
      assert (a + b)[1..] == a[1..] + b;
      CompareConcat(a[1..], b, x, y);
    }
  }

  /** Without a sortable column the result runs in the route's own order, and down the ids where that ties. */
  lemma OtherwiseTheFallbackSorts(sortBy: Option<string>, sortDir: Option<Dir>, columns: map<string, Column>,
                                  fallback: seq<Term>, result: seq<Row>, i: nat, j: nat)
    requires sortBy.None? || sortBy.value == "" || sortBy.value !in columns
    requires Sorted(BuildOrderBy(sortBy, sortDir, columns, fallback), result) && i < j < |result|
    ensures Compare(fallback, result[i], result[j]) <= 0
    ensures Compare(fallback, result[i], result[j]) == 0 ==> CompareStrings(result[i].id, result[j].id) >= 0
  {
    var last := Term(ID, Desc, false);
    assert Compare(BuildOrderBy(sortBy, sortDir, columns, fallback), result[i], result[j]) <= 0;
    CompareConcat(fallback, [last], result[i], result[j]);
    assert [last][1..] == [];
    StringsMirror(result[i].id, result[j].id);
  }

  /** A column that asks for it has its nulls last in either direction. */
  lemma NullsComeLast(sortBy: string, sortDir: Option<Dir>, columns: map<string, Column>, fallback: seq<Term>,
                      result: seq<Row>, i: nat, j: nat)
    requires sortBy != "" && sortBy in columns && columns[sortBy].nullsLast
    requires Sorted(BuildOrderBy(Some(sortBy), sortDir, columns, fallback), result)
    requires i < j < |result| && Get(result[i], columns[sortBy].field).Null?
    ensures Get(result[j], columns[sortBy].field).Null?
  {
    assert Compare(BuildOrderBy(Some(sortBy), sortDir, columns, fallback), result[i], result[j]) <= 0;
  }

  /** Any other column has its nulls where Postgres puts them: last when ascending, first when descending. */
  lemma NullsAreLargest(sortBy: string, sortDir: Option<Dir>, columns: map<string, Column>, fallback: seq<Term>,
                        result: seq<Row>, i: nat, j: nat)
    requires sortBy != "" && sortBy in columns && !columns[sortBy].nullsLast
    requires Sorted(BuildOrderBy(Some(sortBy), sortDir, columns, fallback), result) && i < j < |result|
    ensures sortDir != Some(Desc) && Get(result[i], columns[sortBy].field).Null? ==>
              Get(result[j], columns[sortBy].field).Null?
    ensures sortDir == Some(Desc) && Get(result[j], columns[sortBy].field).Null? ==>
              Get(result[i], columns[sortBy].field).Null?
  {
    assert Compare(BuildOrderBy(Some(sortBy), sortDir, columns, fallback), result[i], result[j]) <= 0;
  }
}
