/**
 * The chunked bulk-write statement builder of the database connection.
 *
 * Statement execution is the boundary of the model: `Execute` appends the
 * `(query, parameters)` pair it would hand to the driver to a ghost trace,
 * and every bulk operation is specified by the exact list of statements it
 * appends. The functions that compute those lists are what the lemmas below
 * are about.
 */
module DbConnection {
  import opened Strings

  /** The maximum number of rows (or keys) one statement carries. */
  const CHUNK_SIZE: nat := 1000

  /** The spot in an insert template that receives the value groups. */
  const MARKS: string := "{{marks}}"

  /** What the driver receives: the SQL text and its positional parameters. */
  datatype Statement = Statement(query: string, params: seq<string>)

  // ---------------------------------------------------------------------
  // Division facts the solver does not find on its own
  // ---------------------------------------------------------------------

  lemma MulAtLeast(d: int, c: int)
    requires d >= 1 && c >= 1
    ensures d * c >= c
  {
    var e := d - 1;
    assert d * c == e * c + c;
    assert e * c >= 0;
  }

  /** Quotient and remainder are determined by `x == q * c + r` with `0 <= r < c`. */
  lemma DivModUnique(x: int, c: int, q: int, r: int)
    requires c >= 1 && 0 <= r < c && x == q * c + r
    ensures x / c == q && x % c == r
  {
    var q', r' := x / c, x % c;
    assert x == q' * c + r';
    assert (q' - q) * c == r - r' by { assert (q' - q) * c == q' * c - q * c; }
    if q' > q { MulAtLeast(q' - q, c); }
    if q' < q { MulAtLeast(q - q', c); }
  }

  lemma MultipleOf(k: nat, c: nat)
    requires c >= 1
    ensures (k * c) % c == 0 && (k * c) / c == k
  {
    DivModUnique(k * c, c, k, 0);
  }

  lemma MultipleDiff(a: nat, b: nat, c: nat)
    requires c >= 1 && a % c == 0 && b % c == 0 && b <= a
    ensures (a - b) % c == 0
  {
    var qa, qb := a / c, b / c;
    assert a == qa * c && b == qb * c;
    assert a - b == (qa - qb) * c;
    DivModUnique(a - b, c, qa - qb, 0);
  }

  // ---------------------------------------------------------------------
  // array_chunk
  // ---------------------------------------------------------------------

  /** Concatenation of a list of lists. */
  function Flatten<T>(xss: seq<seq<T>>): seq<T>
  {
    if xss == [] then [] else xss[0] + Flatten(xss[1..])
  }

  /**
   * `array_chunk($xs, $size)`: consecutive pieces of `size` elements, the
   * last one possibly shorter; no piece is empty, and together, in order,
   * they are exactly `xs`.
   */
  function Chunks<T>(xs: seq<T>, size: nat): (chunks: seq<seq<T>>)
    requires size >= 1
    ensures forall i :: 0 <= i < |chunks| ==> 1 <= |chunks[i]| <= size
    ensures forall i :: 0 <= i < |chunks| - 1 ==> |chunks[i]| == size
    ensures Flatten(chunks) == xs
    decreases |xs|
  {
    if xs == [] then []
    else if |xs| <= size then [xs]
    else
      var rest := Chunks(xs[size..], size);
      assert ([xs[..size]] + rest)[1..] == rest;
      assert xs == xs[..size] + xs[size..];
      [xs[..size]] + rest
  }

  /** The number of chunks is `ceil(|xs| / size)`: none for no input, never a trailing empty one. */
  lemma {:induction false} ChunkCount<T>(xs: seq<T>, size: nat)
    requires size >= 1
    ensures |Chunks(xs, size)| == 0 <==> |xs| == 0
    ensures |xs| > 0 ==> (|Chunks(xs, size)| - 1) * size < |xs| <= |Chunks(xs, size)| * size
    ensures |Chunks(xs, size)| == (|xs| + size - 1) / size
    decreases |xs|
  {
    var n := |Chunks(xs, size)|;
    if xs == [] {
      DivModUnique(size - 1, size, 0, size - 1);
    } else if |xs| <= size {
      DivModUnique(|xs| + size - 1, size, 1, |xs| - 1);
    } else {
      ChunkCount(xs[size..], size);
      var m := |Chunks(xs[size..], size)|;
      assert n == m + 1;
      assert (m - 1) * size < |xs| - size <= m * size;
      assert n * size == m * size + size;
      assert (n - 1) * size == m * size;
      DivModUnique(|xs| + size - 1, size, n, |xs| + size - 1 - n * size);
    }
  }

  /** When the input and the chunk size are whole numbers of rows, so is every chunk. */
  lemma {:induction false} ChunksAligned<T>(xs: seq<T>, size: nat, c: nat)
    requires size >= 1 && c >= 1 && size % c == 0 && |xs| % c == 0
    ensures forall i :: 0 <= i < |Chunks(xs, size)| ==> |Chunks(xs, size)[i]| % c == 0
    decreases |xs|
  {
    if |xs| > size {
      MultipleDiff(|xs|, size, c);
      ChunksAligned(xs[size..], size, c);
      assert Chunks(xs, size) == [xs[..size]] + Chunks(xs[size..], size);
    }
  }

  // ---------------------------------------------------------------------
  // Placeholders
  // ---------------------------------------------------------------------

  /** `n` copies of `s`: the list that `implode` joins in the reference forms below. */
  function Copies(s: string, n: nat): (r: seq<string>)
    ensures |r| == n && forall i :: 0 <= i < n ==> r[i] == s
  {
    seq(n, _ => s)
  }

  lemma {:induction false} RepeatCommaMarkAt(k: nat, j: nat)
    requires j < 2 * k
    ensures Repeat(",?", k)[j] == if j % 2 == 0 then ',' else '?'
  {
    if j >= 2 {
      RepeatCommaMarkAt(k - 1, j - 2);
    }
  }

  /** `?` followed by `k` copies of `,?`: `k + 1` marks, alternating with commas. */
  lemma CommaMarksShape(k: nat)
    ensures Count("?" + Repeat(",?", k), '?') == k + 1
    ensures forall i :: 0 <= i < |"?" + Repeat(",?", k)| ==>
              ("?" + Repeat(",?", k))[i] == if i % 2 == 0 then '?' else ','
  {
    var m := "?" + Repeat(",?", k);
    CountRepeat(",?", k, '?');
    CountAppend("?", Repeat(",?", k), '?');
    forall i | 1 <= i < |m| ensures m[i] == if i % 2 == 0 then '?' else ',' {
      RepeatCommaMarkAt(k, i - 1);
    }
  }

  /** `getMarks`: one `?` per value, comma separated (`?,?,?`). */
  function GetMarks<T>(values: seq<T>): (marks: string)
    requires |values| >= 1
    ensures Count(marks, '?') == |values|
    ensures |marks| == 2 * |values| - 1
    ensures forall i :: 0 <= i < |marks| ==> marks[i] == if i % 2 == 0 then '?' else ','
  {
    CommaMarksShape(|values| - 1);
    "?" + Repeat(",?", |values| - 1)
  }

  /** The row template `(?,?,...)` with one mark per column. */
  function RowTemplate(columnCount: nat): (t: string)
    requires columnCount >= 1
    ensures Count(t, '?') == columnCount
  {
    var inner := "?" + Repeat(",?", columnCount - 1);
    CountRepeat(",?", columnCount - 1, '?');
    CountAppend("?", Repeat(",?", columnCount - 1), '?');
    CountAppend("(", inner, '?');
    CountAppend("(" + inner, ")", '?');
    "(" + inner + ")"
  }

  /**
   * `getMarkGroups`: one row template per row of `values`, separated by
   * `", "`; in all one `?` per value.
   */
  function GetMarkGroups<T>(columns: seq<string>, values: seq<T>): (groups: string)
    requires |columns| >= 1 && |values| >= 1 && |values| % |columns| == 0
    ensures Count(groups, '?') == |values|
  {
    var c := |columns|;
    RowCount(|values|, c);
    var template := RowTemplate(c);
    var following := ", " + template;
    GroupsCount(template, c, |values| / c - 1);
    template + Repeat(following, |values| / c - 1)
  }

  /** A whole, non-zero number of rows: `n / c` rows of `c` values each. */
  lemma RowCount(n: nat, c: nat)
    requires c >= 1 && n >= 1 && n % c == 0
    ensures n / c >= 1 && (n / c) * c == n
  {
  }

  lemma GroupsCount(template: string, c: nat, k: nat)
    requires Count(template, '?') == c
    ensures Count(template + Repeat(", " + template, k), '?') == (k + 1) * c
  {
    CountAppend(", ", template, '?');
    CountRepeat(", " + template, k, '?');
    CountAppend(template, Repeat(", " + template, k), '?');
  }

  /** `implode($sep, n copies of t)` is `t` followed by `n - 1` copies of `sep + t`. */
  lemma {:induction false} JoinCopies(t: string, sep: string, n: nat)
    requires n >= 1
    ensures Join(Copies(t, n), sep) == t + Repeat(sep + t, n - 1)
  {
    if n >= 2 {
      assert Copies(t, n)[1..] == Copies(t, n - 1);
      JoinCopies(t, sep, n - 1);
      assert Repeat(sep + t, n - 1) == (sep + t) + Repeat(sep + t, n - 2);
    }
  }

  /** The marks are the values' `?`s joined by commas. */
  lemma MarksAreJoined<T>(values: seq<T>)
    requires |values| >= 1
    ensures GetMarks(values) == Join(Copies("?", |values|), ",")
  {
    JoinCopies("?", ",", |values|);
    assert "," + "?" == ",?";
  }

  /**
   * The value groups are `|values| / c` row groups joined by `", "`, each
   * group `c` comma-separated `?` in parentheses.
   */
  lemma MarkGroupsAreJoined<T>(columns: seq<string>, values: seq<T>)
    requires |columns| >= 1 && |values| >= 1 && |values| % |columns| == 0
    ensures GetMarkGroups(columns, values)
         == Join(Copies("(" + Join(Copies("?", |columns|), ",") + ")", |values| / |columns|), ", ")
  {
    var c := |columns|;
    JoinCopies("?", ",", c);
    assert "," + "?" == ",?";
    assert RowTemplate(c) == "(" + Join(Copies("?", c), ",") + ")";
    JoinCopies(RowTemplate(c), ", ", |values| / c);
  }

  // ---------------------------------------------------------------------
  // SQL text
  // ---------------------------------------------------------------------

  /** The part of an insert template before the marks. */
  function InsertHead(verb: string, table: string, columns: seq<string>): string
  {
    "\n            " + verb + " INTO `" + table + "` (`" + Join(columns, "`, `") + "`) \n            VALUES "
  }

  /** An insert template: `verb` is `INSERT` or `INSERT IGNORE`, `tail` is empty or an update clause. */
  function InsertTemplate(verb: string, table: string, columns: seq<string>, tail: string): string
  {
    InsertHead(verb, table, columns) + MARKS + tail
  }

  const UPDATE_PREFIX: string := "\n            ON DUPLICATE KEY UPDATE "

  /** The statement text of one `deleteMultiple` chunk. */
  function DeleteQuery(table: string, keyColumn: string, keys: seq<string>): string
    requires |keys| >= 1
  {
    "\n                DELETE FROM`" + table + "`  \n                WHERE `" + keyColumn + "` IN (" + GetMarks(keys) + ")"
  }

  /** The statement text of one `deleteMultipleWithWhere` chunk, with its marks spelled out inline. */
  function DeleteWhereQuery(table: string, keyColumn: string, keys: seq<string>, whereClause: string): string
    requires |keys| >= 1
  {
    "\n                DELETE FROM`" + table + "`  \n                WHERE `" + keyColumn + "` IN (?"
      + Repeat(",?", |keys| - 1) + ") AND " + whereClause
  }

  /** The inline marks are `getMarks`, and the caller's clause is ANDed on unchanged. */
  lemma DeleteWhereExtendsDelete(table: string, keyColumn: string, keys: seq<string>, whereClause: string)
    requires |keys| >= 1
    ensures DeleteWhereQuery(table, keyColumn, keys, whereClause)
         == DeleteQuery(table, keyColumn, keys) + " AND " + whereClause
  {
  }

  // ---------------------------------------------------------------------
  // The statement lists the bulk operations append
  // ---------------------------------------------------------------------

  /** Every chunk is a non-empty whole number of rows. */
  ghost predicate Aligned(chunks: seq<seq<string>>, c: nat)
    requires c >= 1
  {
    forall i :: 0 <= i < |chunks| ==> |chunks[i]| >= 1 && |chunks[i]| % c == 0
  }

  /** One statement per chunk: the template with its marks filled in, and the chunk as parameters. */
  function GroupStatements(query: string, columns: seq<string>, chunks: seq<seq<string>>): seq<Statement>
    requires |columns| >= 1 && Aligned(chunks, |columns|)
  {
    seq(|chunks|, i requires 0 <= i < |chunks| =>
      Statement(ReplaceAll(query, MARKS, GetMarkGroups(columns, chunks[i])), chunks[i]))
  }

  lemma ChunksOfRowsAligned(values: seq<string>, c: nat)
    requires c >= 1 && |values| % c == 0
    ensures Aligned(Chunks(values, CHUNK_SIZE * c), c)
  {
    MultipleOf(CHUNK_SIZE, c);
    ChunksAligned(values, CHUNK_SIZE * c, c);
  }

  /** What `chunkedGroupExecute` appends for a template, its columns and the flat values. */
  function ChunkedGroupStatements(query: string, columns: seq<string>, values: seq<string>): seq<Statement>
    requires |columns| >= 1 && |values| % |columns| == 0
  {
    ChunksOfRowsAligned(values, |columns|);
    GroupStatements(query, columns, Chunks(values, CHUNK_SIZE * |columns|))
  }

  /** One delete statement per key chunk, with the chunk as parameters. */
  function DeleteStatements(table: string, keyColumn: string, chunks: seq<seq<string>>): seq<Statement>
    requires forall i :: 0 <= i < |chunks| ==> |chunks[i]| >= 1
  {
    seq(|chunks|, i requires 0 <= i < |chunks| => Statement(DeleteQuery(table, keyColumn, chunks[i]), chunks[i]))
  }

  function DeleteWhereStatements(table: string, keyColumn: string, whereClause: string,
                                 chunks: seq<seq<string>>): seq<Statement>
    requires forall i :: 0 <= i < |chunks| ==> |chunks[i]| >= 1
  {
    seq(|chunks|, i requires 0 <= i < |chunks| =>
      Statement(DeleteWhereQuery(table, keyColumn, chunks[i], whereClause), chunks[i]))
  }

  /** The parameter lists of a statement list, in order. */
  function Params(stmts: seq<Statement>): (ps: seq<seq<string>>)
    ensures |ps| == |stmts| && forall i :: 0 <= i < |stmts| ==> ps[i] == stmts[i].params
  {
    seq(|stmts|, i requires 0 <= i < |stmts| => stmts[i].params)
  }

  // ---------------------------------------------------------------------
  // What the statement lists promise
  // ---------------------------------------------------------------------

  /**
   * `chunkedGroupExecute` sends `ceil(|values| / (CHUNK_SIZE * c))`
   * statements; each carries a non-empty whole number of rows, at most
   * `CHUNK_SIZE` of them, every statement but the last exactly
   * `CHUNK_SIZE`; each is the template with its own chunk's value groups;
   * and the parameters, in execution order, are exactly `values`.
   */
  lemma ChunkedGroupShape(query: string, columns: seq<string>, values: seq<string>)
    requires |columns| >= 1 && |values| % |columns| == 0
    ensures var stmts := ChunkedGroupStatements(query, columns, values);
            var size := CHUNK_SIZE * |columns|;
            && |stmts| == (|values| + size - 1) / size
            && (forall i :: 0 <= i < |stmts| ==>
                  && 1 <= |stmts[i].params| <= size
                  && |stmts[i].params| % |columns| == 0
                  && stmts[i].query == ReplaceAll(query, MARKS, GetMarkGroups(columns, stmts[i].params)))
            && (forall i :: 0 <= i < |stmts| - 1 ==> |stmts[i].params| == size)
            && Flatten(Params(stmts)) == values
  {
    var size := CHUNK_SIZE * |columns|;
    var chunks := Chunks(values, size);
    ChunksOfRowsAligned(values, |columns|);
    ChunkCount(values, size);
    assert Params(ChunkedGroupStatements(query, columns, values)) == chunks;
  }

  /**
   * The three insert variants send the same chunks as parameters; they
   * differ only in the statement text they fill the value groups into.
   */
  lemma InsertVariantsShareChunks(table: string, columns: seq<string>, values: seq<string>, updateClause: string)
    requires |columns| >= 1 && |values| % |columns| == 0
    ensures var plain := ChunkedGroupStatements(InsertTemplate("INSERT", table, columns, ""), columns, values);
            var update := ChunkedGroupStatements(InsertTemplate("INSERT", table, columns, UPDATE_PREFIX + updateClause),
                                                 columns, values);
            var ignore := ChunkedGroupStatements(InsertTemplate("INSERT IGNORE", table, columns, ""), columns, values);
            && Params(plain) == Params(update) == Params(ignore)
            && Params(plain) == Chunks(values, CHUNK_SIZE * |columns|)
  {
    ChunkedGroupParams(InsertTemplate("INSERT", table, columns, ""), columns, values);
    ChunkedGroupParams(InsertTemplate("INSERT", table, columns, UPDATE_PREFIX + updateClause), columns, values);
    ChunkedGroupParams(InsertTemplate("INSERT IGNORE", table, columns, ""), columns, values);
  }

  /** Whatever the template, the parameters of the chunked statements are the row chunks. */
  lemma ChunkedGroupParams(query: string, columns: seq<string>, values: seq<string>)
    requires |columns| >= 1 && |values| % |columns| == 0
    ensures Params(ChunkedGroupStatements(query, columns, values)) == Chunks(values, CHUNK_SIZE * |columns|)
  {
    ChunksOfRowsAligned(values, |columns|);
  }

  /** No `{` in the caller's names: the one `{{marks}}` of the template is the only one replaced. */
  ghost predicate FreeOf(c: char, table: string, columns: seq<string>, tail: string)
  {
    c !in table && c !in tail && forall j :: 0 <= j < |columns| ==> c !in columns[j]
  }

  lemma InsertHeadFreeOf(c: char, verb: string, table: string, columns: seq<string>)
    requires c in {'{', '?'} && c !in verb && FreeOf(c, table, columns, "")
    ensures c !in InsertHead(verb, table, columns)
  {
    JoinAbsent(columns, "`, `", c);
  }

  /** One insert statement's text, given the chunk it carries. */
  lemma InsertQueryText(verb: string, table: string, columns: seq<string>, tail: string, chunk: seq<string>)
    requires |columns| >= 1 && |chunk| >= 1 && |chunk| % |columns| == 0
    requires verb in {"INSERT", "INSERT IGNORE"} && FreeOf('{', table, columns, tail)
    ensures var query := ReplaceAll(InsertTemplate(verb, table, columns, tail), MARKS, GetMarkGroups(columns, chunk));
            && query == InsertHead(verb, table, columns) + GetMarkGroups(columns, chunk) + tail
            && (FreeOf('?', table, columns, tail) ==> Count(query, '?') == |chunk|)
  {
    var head := InsertHead(verb, table, columns);
    var marks := GetMarkGroups(columns, chunk);
    InsertHeadFreeOf('{', verb, table, columns);
    assert MARKS[0] == '{';
    ReplaceSingle(head, MARKS, tail, marks);
    if FreeOf('?', table, columns, tail) {
      InsertHeadFreeOf('?', verb, table, columns);
      CountAbsent(head, '?');
      CountAbsent(tail, '?');
      CountAppend(head, marks, '?');
      CountAppend(head + marks, tail, '?');
    }
  }

  /**
   * With names free of `{`, every insert statement reads head, value groups
   * of its own chunk, tail; with names also free of `?`, its placeholders
   * are exactly one per parameter.
   */
  lemma InsertStatementText(verb: string, table: string, columns: seq<string>, tail: string, values: seq<string>)
    requires |columns| >= 1 && |values| % |columns| == 0
    requires verb in {"INSERT", "INSERT IGNORE"} && FreeOf('{', table, columns, tail)
    ensures var stmts := ChunkedGroupStatements(InsertTemplate(verb, table, columns, tail), columns, values);
            forall i :: 0 <= i < |stmts| ==>
              && |stmts[i].params| >= 1 && |stmts[i].params| % |columns| == 0
              && stmts[i].query == InsertHead(verb, table, columns) + GetMarkGroups(columns, stmts[i].params) + tail
              && (FreeOf('?', table, columns, tail) ==> Count(stmts[i].query, '?') == |stmts[i].params|)
  {
    var template := InsertTemplate(verb, table, columns, tail);
    var stmts := ChunkedGroupStatements(template, columns, values);
    var chunks := Chunks(values, CHUNK_SIZE * |columns|);
    ChunksOfRowsAligned(values, |columns|);
    assert stmts == GroupStatements(template, columns, chunks);
    forall i | 0 <= i < |stmts|
      ensures |stmts[i].params| >= 1 && |stmts[i].params| % |columns| == 0
      ensures stmts[i].query == InsertHead(verb, table, columns) + GetMarkGroups(columns, stmts[i].params) + tail
      ensures FreeOf('?', table, columns, tail) ==> Count(stmts[i].query, '?') == |stmts[i].params|
    {
      assert stmts[i] == Statement(ReplaceAll(template, MARKS, GetMarkGroups(columns, chunks[i])), chunks[i]);
      InsertQueryText(verb, table, columns, tail, chunks[i]);
    }
  }

  /** 2500 rows go out as three statements of 1000, 1000 and 500 rows. */
  lemma InsertOf2500Rows(query: string, columns: seq<string>, values: seq<string>)
    requires |columns| >= 1 && |values| == 2500 * |columns|
    ensures |values| % |columns| == 0
    ensures var stmts := ChunkedGroupStatements(query, columns, values);
            && |stmts| == 3
            && |stmts[0].params| == 1000 * |columns| && stmts[0].params == values[..1000 * |columns|]
            && |stmts[1].params| == 1000 * |columns|
            && |stmts[2].params| == 500 * |columns|
  {
    var c := |columns|;
    MultipleOf(2500, c);
    var size := CHUNK_SIZE * c;
    var rest := values[size..];
    assert |rest| == 1500 * c;
    var last := rest[size..];
    assert |last| == 500 * c;
    assert Chunks(last, size) == [last];
    assert Chunks(rest, size) == [rest[..size]] + Chunks(last, size);
    assert Chunks(values, size) == [values[..size], rest[..size], last];
  }

  /** Exactly 1000 rows go out as one statement, not a full one and an empty one. */
  lemma InsertOf1000Rows(query: string, columns: seq<string>, values: seq<string>)
    requires |columns| >= 1 && |values| == 1000 * |columns|
    ensures |values| % |columns| == 0
    ensures var stmts := ChunkedGroupStatements(query, columns, values);
            |stmts| == 1 && stmts[0].params == values
  {
    MultipleOf(1000, |columns|);
    assert Chunks(values, CHUNK_SIZE * |columns|) == [values];
  }

  /** No values, no statement. */
  lemma InsertOfNoRows(query: string, columns: seq<string>)
    requires |columns| >= 1
    ensures ChunkedGroupStatements(query, columns, []) == []
  {
  }

  /** The `?` in a delete statement are exactly one per key, given names free of `?`. */
  lemma DeleteQueryMarks(table: string, keyColumn: string, keys: seq<string>)
    requires |keys| >= 1 && '?' !in table && '?' !in keyColumn
    ensures Count(DeleteQuery(table, keyColumn, keys), '?') == |keys|
  {
    var a := "\n                DELETE FROM`";
    var b := "`  \n                WHERE `";
    var d := "` IN (";
    var e := ")";
    var marks := GetMarks(keys);
    assert DeleteQuery(table, keyColumn, keys) == a + table + b + keyColumn + d + marks + e;
    CountAbsent(a + table + b + keyColumn + d, '?');
    CountAbsent(e, '?');
    CountAppend(a + table + b + keyColumn + d, marks, '?');
    CountAppend(a + table + b + keyColumn + d + marks, e, '?');
  }

  /**
   * `deleteMultiple` sends `ceil(|keys| / CHUNK_SIZE)` statements whose
   * parameters are the key chunks in order, each with one `?` per key.
   */
  lemma DeleteShape(table: string, keyColumn: string, keys: seq<string>)
    ensures var stmts := DeleteStatements(table, keyColumn, Chunks(keys, CHUNK_SIZE));
            && |stmts| == (|keys| + CHUNK_SIZE - 1) / CHUNK_SIZE
            && (forall i :: 0 <= i < |stmts| ==> 1 <= |stmts[i].params| <= CHUNK_SIZE)
            && (forall i :: 0 <= i < |stmts| - 1 ==> |stmts[i].params| == CHUNK_SIZE)
            && (forall i :: 0 <= i < |stmts| ==>
                  ('?' !in table && '?' !in keyColumn ==> Count(stmts[i].query, '?') == |stmts[i].params|))
            && Flatten(Params(stmts)) == keys
  {
    var chunks := Chunks(keys, CHUNK_SIZE);
    var stmts := DeleteStatements(table, keyColumn, chunks);
    ChunkCount(keys, CHUNK_SIZE);
    assert Params(stmts) == chunks;
    forall i | 0 <= i < |stmts| && '?' !in table && '?' !in keyColumn
      ensures Count(stmts[i].query, '?') == |stmts[i].params|
    {
      DeleteQueryMarks(table, keyColumn, chunks[i]);
    }
  }

  /**
   * `deleteMultipleWithWhere` sends the same parameter chunks as
   * `deleteMultiple`, each statement being the plain delete with the
   * caller's clause ANDed on.
   */
  lemma DeleteWhereMatchesDelete(table: string, keyColumn: string, keys: seq<string>, whereClause: string)
    ensures var plain := DeleteStatements(table, keyColumn, Chunks(keys, CHUNK_SIZE));
            var filtered := DeleteWhereStatements(table, keyColumn, whereClause, Chunks(keys, CHUNK_SIZE));
            && |filtered| == |plain|
            && forall i :: 0 <= i < |plain| ==>
                 filtered[i] == Statement(plain[i].query + " AND " + whereClause, plain[i].params)
  {
    var chunks := Chunks(keys, CHUNK_SIZE);
    forall i | 0 <= i < |chunks|
      ensures DeleteWhereQuery(table, keyColumn, chunks[i], whereClause)
           == DeleteQuery(table, keyColumn, chunks[i]) + " AND " + whereClause
    {
      DeleteWhereExtendsDelete(table, keyColumn, chunks[i], whereClause);
    }
  }

  /** 3500 keys go out as four deletes of 1000, 1000, 1000 and 500 keys. */
  lemma DeleteOf3500Keys(table: string, keyColumn: string, keys: seq<string>)
    requires |keys| == 3500
    ensures var stmts := DeleteStatements(table, keyColumn, Chunks(keys, CHUNK_SIZE));
            && |stmts| == 4
            && |stmts[0].params| == 1000 && |stmts[1].params| == 1000
            && |stmts[2].params| == 1000 && |stmts[3].params| == 500
            && stmts[3].params == keys[3000..]
  {
    var r1 := keys[1000..];
    var r2 := r1[1000..];
    var r3 := r2[1000..];
    assert r3 == keys[3000..];
    assert Chunks(r3, CHUNK_SIZE) == [r3];
    assert Chunks(r2, CHUNK_SIZE) == [r2[..1000]] + Chunks(r3, CHUNK_SIZE);
    assert Chunks(r1, CHUNK_SIZE) == [r1[..1000]] + Chunks(r2, CHUNK_SIZE);
    assert Chunks(keys, CHUNK_SIZE) == [keys[..1000], r1[..1000], r2[..1000], r3];
  }

  // ---------------------------------------------------------------------
  // The connection
  // ---------------------------------------------------------------------

  class Magento2DbConnection {
    /** Every statement sent to the driver so far, oldest first. */
    ghost var trace: seq<Statement>

    constructor ()
      ensures trace == []
    {
      trace := [];
    }

    /** Hands one statement to the driver; the model records it. */
    method Execute(query: string, values: seq<string>)
      modifies this`trace
      ensures trace == old(trace) + [Statement(query, values)]
    {
      trace := trace + [Statement(query, values)];
    }

    /**
     * `chunkedGroupExecute`: one statement per chunk of at most
     * `CHUNK_SIZE` rows, each with its own value groups.
     */
    method ChunkedGroupExecute(query: string, columns: seq<string>, values: seq<string>)
      requires |columns| >= 1 && |values| % |columns| == 0
      modifies this`trace
      ensures trace == old(trace) + ChunkedGroupStatements(query, columns, values)
    {
      var chunks := Chunks(values, CHUNK_SIZE * |columns|);
      ChunksOfRowsAligned(values, |columns|);
      var k := 0;
      while k < |chunks|
        invariant 0 <= k <= |chunks|
        invariant trace == old(trace) + GroupStatements(query, columns, chunks[..k])
      {
        var chunk := chunks[k];
        var marks := GetMarkGroups(columns, chunk);
        var plainQuery := ReplaceAll(query, MARKS, marks);
        Execute(plainQuery, chunk);
        assert GroupStatements(query, columns, chunks[..k + 1])
            == GroupStatements(query, columns, chunks[..k]) + [Statement(plainQuery, chunk)];
        k := k + 1;
      }
      assert chunks[..k] == chunks;
    }

    method InsertMultiple(table: string, columns: seq<string>, values: seq<string>)
      requires |columns| >= 1 && |values| % |columns| == 0
      modifies this`trace
      ensures trace == old(trace) + ChunkedGroupStatements(InsertTemplate("INSERT", table, columns, ""), columns, values)
    {
      ChunkedGroupExecute(InsertTemplate("INSERT", table, columns, ""), columns, values);
    }

    method InsertMultipleWithUpdate(table: string, columns: seq<string>, values: seq<string>, updateClause: string)
      requires |columns| >= 1 && |values| % |columns| == 0
      modifies this`trace
      ensures trace == old(trace)
                     + ChunkedGroupStatements(InsertTemplate("INSERT", table, columns, UPDATE_PREFIX + updateClause),
                                              columns, values)
    {
      ChunkedGroupExecute(InsertTemplate("INSERT", table, columns, UPDATE_PREFIX + updateClause), columns, values);
    }

    method InsertMultipleWithIgnore(table: string, columns: seq<string>, values: seq<string>)
      requires |columns| >= 1 && |values| % |columns| == 0
      modifies this`trace
      ensures trace == old(trace)
                     + ChunkedGroupStatements(InsertTemplate("INSERT IGNORE", table, columns, ""), columns, values)
    {
      ChunkedGroupExecute(InsertTemplate("INSERT IGNORE", table, columns, ""), columns, values);
    }

    /** `deleteMultiple`: one `IN (...)` delete per chunk of at most `CHUNK_SIZE` keys. */
    method DeleteMultiple(table: string, keyColumn: string, keys: seq<string>)
      modifies this`trace
      ensures trace == old(trace) + DeleteStatements(table, keyColumn, Chunks(keys, CHUNK_SIZE))
    {
      var chunks := Chunks(keys, CHUNK_SIZE);
      var k := 0;
      while k < |chunks|
        invariant 0 <= k <= |chunks|
        invariant trace == old(trace) + DeleteStatements(table, keyColumn, chunks[..k])
      {
        var chunk := chunks[k];
        var query := "\n                DELETE FROM`" + table + "`  \n                WHERE `" + keyColumn + "` IN ("
                     + GetMarks(chunk) + ")";
        Execute(query, chunk);
        assert DeleteStatements(table, keyColumn, chunks[..k + 1])
            == DeleteStatements(table, keyColumn, chunks[..k]) + [Statement(query, chunk)];
        k := k + 1;
      }
      assert chunks[..k] == chunks;
    }

    /** `deleteMultipleWithWhere`: chunked like `DeleteMultiple`, each delete also ANDed with `whereClause`. */
    method DeleteMultipleWithWhere(table: string, keyColumn: string, keys: seq<string>, whereClause: string)
      modifies this`trace
      ensures trace == old(trace) + DeleteWhereStatements(table, keyColumn, whereClause, Chunks(keys, CHUNK_SIZE))
    {
      var chunks := Chunks(keys, CHUNK_SIZE);
      var k := 0;
      while k < |chunks|
        invariant 0 <= k <= |chunks|
        invariant trace == old(trace) + DeleteWhereStatements(table, keyColumn, whereClause, chunks[..k])
      {
        var chunk := chunks[k];
        var query := "\n                DELETE FROM`" + table + "`  \n                WHERE `" + keyColumn + "` IN (?"
                     + Repeat(",?", |chunk| - 1) + ") AND " + whereClause;
        Execute(query, chunk);
        assert DeleteWhereStatements(table, keyColumn, whereClause, chunks[..k + 1])
            == DeleteWhereStatements(table, keyColumn, whereClause, chunks[..k]) + [Statement(query, chunk)];
        k := k + 1;
      }
      assert chunks[..k] == chunks;
    }
  }
}
