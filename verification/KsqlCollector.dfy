/** The collector of KSQL result tables (`ksqlResultCollector` of internal/mcpserver/tools_ksql.go). */
module KsqlCollector {
  import opened Wrappers
  import opened JsonText
  import opened KsqlValue
  import opened KsqlBudget
  import opened KsqlJson

  datatype Table = Table(isError: bool, header: GoString, columns: seq<GoString>, values: seq<seq<Value>>)

  const MAX_FRAMES: nat := MAX_ROWS

  /** The result of these frames has a JSON text of at most `limit` bytes. (Said so that the text is only
      spelled out where it is mentioned.) */
  ghost predicate FitsIn(frames: seq<Frame>, limit: nat) {
    forall f {:trigger RenderResult(f)} :: f == frames ==>
      RenderResult(f).Some? && ByteSize(RenderResult(f).value) <= limit
  }

  /** The result of these frames is refused for its text: the operation fails when it has none, and its text is over
      the limit otherwise. */
  ghost predicate TextRefused(frames: seq<Frame>, limit: nat, error: CollectError) {
    forall f {:trigger RenderResult(f)} :: f == frames ==>
      if RenderResult(f).None? then error.OperationFailed?
      else ByteSize(RenderResult(f).value) > limit && error.CollectionLimit?
  }

  /** Renders the result to see how long it is. */
  method Measure(frames: seq<Frame>, limit: nat) returns (size: Option<nat>)
    ensures size.Some? && size.value <= limit <==> FitsIn(frames, limit)
    ensures size.None? ==> TextRefused(frames, limit, OperationFailed)
    ensures size.Some? && size.value > limit ==> TextRefused(frames, limit, CollectionLimit)
  {
    var raw := RenderResult(frames);
    size := if raw.None? then None else Some(ByteSize(raw.value));
  }

  // ---------- What the tables of a result mean ----------

  predicate Copied(texts: seq<GoString>, copies: seq<string>) {
    |copies| == |texts| && forall i :: 0 <= i < |texts| ==> texts[i] == GoString.Valid(copies[i])
  }

  function Texts(texts: seq<GoString>): seq<string> {
    seq(|texts|, i requires 0 <= i < |texts| => if texts[i].Valid? then texts[i].text else "")
  }

  /** The columns of the last table that names any. */
  function LastSchema(tables: seq<Table>): seq<string> {
    if tables == [] then []
    else
      var columns := Texts(tables[|tables| - 1].columns);
      if columns == [] then LastSchema(tables[..|tables| - 1]) else columns
  }

  function RowCount(tables: seq<Table>): nat {
    if tables == [] then 0 else RowCount(tables[..|tables| - 1]) + |tables[|tables| - 1].values|
  }

  /** Each cell of the row is the tree of its value, redacted when its column names a credential. */
  ghost predicate RowMeans(heap: Heap, policy: Policy, values: seq<Value>, sensitivity: seq<string>, row: seq<Tree>) {
    && |row| == |values| && (|row| > 0 ==> |row| == |sensitivity|)
    && forall j :: 0 <= j < |row| ==>
         Means(heap, policy, values[j], policy.credential(sensitivity[j]), MAX_DEPTH, {}, Some(row[j]))
  }

  ghost predicate FrameMeans(heap: Heap, policy: Policy, table: Table, schema: seq<string>, f: Frame) {
    && !table.isError
    && table.header == GoString.Valid(f.header)
    && Copied(table.columns, f.columns)
    && RowsMean(heap, policy, table.values, if f.columns == [] then schema else f.columns, f.rows)
  }

  /** The frames of a run: one for each accepted table, redacted by its own columns or, when it names none, by
      those of the last accepted table before it that does. */
  ghost predicate FramesMean(heap: Heap, policy: Policy, tables: seq<Table>, frames: seq<Frame>) {
    && |frames| == |tables|
    && forall k :: 0 <= k < |frames| ==> FrameMeans(heap, policy, tables[k], LastSchema(tables[..k]), frames[k])
  }

  // ---------- What a frame costs ----------

  function ColumnBytes(columns: seq<string>): nat {
    if columns == [] then 0 else ColumnBytes(columns[..|columns| - 1]) + QuotedSize(columns[|columns| - 1])
  }

  function RowsNodes(rows: seq<seq<Tree>>): nat {
    if rows == [] then 0 else RowsNodes(rows[..|rows| - 1]) + ItemNodes(rows[|rows| - 1])
  }

  function RowsBytes(rows: seq<seq<Tree>>): nat {
    if rows == [] then 0 else RowsBytes(rows[..|rows| - 1]) + ItemBytes(rows[|rows| - 1])
  }

  function FrameNodes(f: Frame): nat {
    RowsNodes(f.rows)
  }

  function FrameBytes(f: Frame): nat {
    ColumnBytes(f.columns) + RowsBytes(f.rows) + QuotedSize(f.header)
  }

  function TotalNodes(frames: seq<Frame>): nat {
    if frames == [] then 0 else TotalNodes(frames[..|frames| - 1]) + FrameNodes(frames[|frames| - 1])
  }

  function TotalBytes(frames: seq<Frame>): nat {
    if frames == [] then ENVELOPE_RESERVE else TotalBytes(frames[..|frames| - 1]) + FrameBytes(frames[|frames| - 1])
  }

  /** There is no room for the table's rows or columns, or for another frame. */
  predicate Crowded(frames: seq<Frame>, rows: nat, table: Table, maxRows: nat) {
    |frames| >= MAX_FRAMES || |table.columns| > MAX_COLUMNS || rows + |table.values| > maxRows
  }

  /** Why a table with the frame `f` is refused: a count, its nodes or its bytes are over their limit, or else the
      result with it is refused for its text. */
  ghost predicate FrameRefused(table: Table, f: Frame, frames: seq<Frame>, rows: nat, nodes: nat, bytes: nat,
      maxRows: nat, maxBytes: nat, error: CollectError) {
    if Crowded(frames, rows, table, maxRows) || nodes + FrameNodes(f) > MAX_NODES ||
      bytes + FrameBytes(f) > MAX_RESULT_BYTES
    then
      error.CollectionLimit?
    else
      TextRefused(frames + [f], maxBytes, error)
  }

  /** A row does not have one cell for each column, or one of its cells has no tree. */
  ghost predicate BrokenRow(heap: Heap, policy: Policy, values: seq<Value>, sensitivity: seq<string>) {
    && values != []
    && (|values| != |sensitivity| || exists j ::
          0 <= j < |values| && Hopeless(heap, policy, values[j], policy.credential(sensitivity[j]), {}))
  }

  ghost predicate BrokenRows(heap: Heap, policy: Policy, values: seq<seq<Value>>, sensitivity: seq<string>) {
    exists i :: 0 <= i < |values| && BrokenRow(heap, policy, values[i], sensitivity)
  }

  ghost predicate BrokenTable(heap: Heap, policy: Policy, table: Table, schema: seq<string>) {
    && Copied(table.columns, Texts(table.columns))
    && BrokenRows(heap, policy, table.values, Sensitivity(table, schema))
  }

  /** The operation fails only on an error table, on a broken row, or on a result without a JSON text. */
  ghost predicate Faulty(heap: Heap, policy: Policy, table: Table, schema: seq<string>, frames: seq<Frame>,
      limit: nat) {
    || table.isError
    || BrokenTable(heap, policy, table, schema)
    || exists f :: FrameMeans(heap, policy, table, schema, f) && TextRefused(frames + [f], limit, OperationFailed)
  }

  /** The columns the rows are redacted by. */
  function Sensitivity(table: Table, schema: seq<string>): seq<string> {
    if table.columns == [] then schema else Texts(table.columns)
  }

  predicate OutOfBudget(nodes: nat, bytes: nat) {
    nodes > MAX_NODES || bytes > MAX_RESULT_BYTES
  }

  /** The row has cells, but not one for each column. */
  predicate Misshapen(row: seq<Value>, sensitivity: seq<string>) {
    |row| > 0 && |row| != |sensitivity|
  }

  /** The error of the first misshapen row, where the rows before it can be paid for. */
  ghost predicate RowMisfits(heap: Heap, policy: Policy, values: seq<seq<Value>>, sensitivity: seq<string>, nodes: nat,
      bytes: nat, error: CollectError) {
    forall i: nat, rows ::
      i < |values| && Misshapen(values[i], sensitivity) && RowsMean(heap, policy, values[..i], sensitivity, rows) &&
      !OutOfBudget(nodes + RowsNodes(rows), bytes + RowsBytes(rows))
      ==>
        error == if |values[i]| > MAX_COLUMNS then CollectionLimit else OperationFailed
  }

  ghost predicate Misfits(heap: Heap, policy: Policy, table: Table, schema: seq<string>, nodes: nat, bytes: nat,
      error: CollectError) {
    var columns := Texts(table.columns);
    Copied(table.columns, columns) && !OutOfBudget(nodes, bytes + ColumnBytes(columns)) ==>
      RowMisfits(heap, policy, table.values, Sensitivity(table, schema), nodes, bytes + ColumnBytes(columns), error)
  }

  /** Why a table is refused. */
  ghost predicate NoPlace(heap: Heap, policy: Policy, table: Table, schema: seq<string>, frames: seq<Frame>, rows: nat,
                          nodes: nat, bytes: nat, maxRows: nat, maxBytes: nat, error: CollectError) {
    && (table.isError ==> error.OperationFailed?)
    && (!table.isError && Crowded(frames, rows, table, maxRows) ==> error.CollectionLimit?)
    && (!table.isError && !Crowded(frames, rows, table, maxRows) ==>
          Misfits(heap, policy, table, schema, nodes, bytes, error))
    && (error.OperationFailed? ==> Faulty(heap, policy, table, schema, frames, maxBytes))
    && forall f :: FrameMeans(heap, policy, table, schema, f) ==>
         FrameRefused(table, f, frames, rows, nodes, bytes, maxRows, maxBytes, error)
  }

  lemma {:induction false} ColumnPart(columns: seq<string>, i: nat)
    requires i <= |columns|
    ensures ColumnBytes(columns[..i]) <= ColumnBytes(columns)
  {
    if i == |columns| {
      assert columns[..i] == columns;
    } else {
      ColumnPart(columns[..|columns| - 1], i);
      assert columns[..|columns| - 1][..i] == columns[..i];
    }
  }

  lemma {:induction false} ItemPart(items: seq<Tree>, i: nat)
    requires i <= |items|
    ensures ItemNodes(items[..i]) <= ItemNodes(items) && ItemBytes(items[..i]) <= ItemBytes(items)
  {
    if i == |items| {
      assert items[..i] == items;
    } else {
      ItemPart(items[..|items| - 1], i);
      assert items[..|items| - 1][..i] == items[..i];
    }
  }

  lemma {:induction false} RowPart(rows: seq<seq<Tree>>, i: nat)
    requires i <= |rows|
    ensures RowsNodes(rows[..i]) <= RowsNodes(rows) && RowsBytes(rows[..i]) <= RowsBytes(rows)
  {
    if i == |rows| {
      assert rows[..i] == rows;
    } else {
      RowPart(rows[..|rows| - 1], i);
      assert rows[..|rows| - 1][..i] == rows[..i];
    }
  }

  lemma ColumnsBegin(columns: seq<GoString>, done: seq<string>, i: nat, texts: seq<string>)
    requires i < |columns| && Copied(columns[..i], done) && Copied(columns, texts)
    ensures columns[i] == GoString.Valid(texts[i]) && ColumnBytes(done) + QuotedSize(texts[i]) <= ColumnBytes(texts)
  {
    ColumnPart(texts, i + 1);
    assert forall k :: 0 <= k < i ==> columns[..i][k] == columns[k];
    assert texts[..i + 1][..i] == done;
  }

  lemma SameTree(heap: Heap, policy: Policy, v: Value, sensitive: bool, a: Option<Tree>, b: Option<Tree>)
    requires Means(heap, policy, v, sensitive, MAX_DEPTH, {}, a) && Means(heap, policy, v, sensitive, MAX_DEPTH, {}, b)
    ensures a == b
  {
    assert Expand(heap, policy, v, sensitive, MAX_DEPTH, {}) == a;
  }

  /** A row that means the values begins with what was already copied of it. */
  lemma RowBegins(heap: Heap, policy: Policy, values: seq<Value>, sensitivity: seq<string>, done: seq<Tree>, j: nat,
                  t: Option<Tree>, row: seq<Tree>)
    requires j < |values| == |sensitivity| && |done| == j && CellsDone(heap, policy, values, sensitivity, done)
    requires Means(heap, policy, values[j], policy.credential(sensitivity[j]), MAX_DEPTH, {}, t)
    requires RowMeans(heap, policy, values, sensitivity, row)
    ensures t.Some? && row[..j + 1] == done + [t.value]
    ensures ItemNodes(done) + Nodes(t.value) <= ItemNodes(row) && ItemBytes(done) + TextBytes(t.value) <= ItemBytes(row)
  {
    forall k | 0 <= k < j
      ensures row[k] == done[k]
    {
      SameTree(heap, policy, values[k], policy.credential(sensitivity[k]), Some(done[k]), Some(row[k]));
    }
    SameTree(heap, policy, values[j], policy.credential(sensitivity[j]), t, Some(row[j]));
    ItemPart(row, j + 1);
    assert (done + [t.value])[..j] == done;
  }

  lemma {:induction false} SameRow(heap: Heap, policy: Policy, values: seq<Value>, sensitivity: seq<string>,
      a: seq<Tree>, b: seq<Tree>)
    requires RowMeans(heap, policy, values, sensitivity, a) && RowMeans(heap, policy, values, sensitivity, b)
    ensures a == b
  {
    forall j | 0 <= j < |a|
      ensures a[j] == b[j]
    {
      SameTree(heap, policy, values[j], policy.credential(sensitivity[j]), Some(a[j]), Some(b[j]));
    }
  }

  ghost predicate RowsMean(heap: Heap, policy: Policy, values: seq<seq<Value>>, sensitivity: seq<string>,
      rows: seq<seq<Tree>>) {
    |rows| == |values| && forall i :: 0 <= i < |rows| ==> RowMeans(heap, policy, values[i], sensitivity, rows[i])
  }

  lemma SameRows(heap: Heap, policy: Policy, values: seq<seq<Value>>, sensitivity: seq<string>, a: seq<seq<Tree>>,
      b: seq<seq<Tree>>)
    requires RowsMean(heap, policy, values, sensitivity, a) && RowsMean(heap, policy, values, sensitivity, b)
    ensures a == b
  {
    forall i | 0 <= i < |a|
      ensures a[i] == b[i]
    {
      SameRow(heap, policy, values[i], sensitivity, a[i], b[i]);
    }
  }

  /** Rows that mean the values begin with the rows already copied. */
  lemma RowsBegin(heap: Heap, policy: Policy, values: seq<seq<Value>>, sensitivity: seq<string>, done: seq<seq<Tree>>,
                  i: nat, rows: seq<seq<Tree>>)
    requires i < |values| && RowsMean(heap, policy, values[..i], sensitivity, done)
    requires RowsMean(heap, policy, values, sensitivity, rows)
    ensures RowsNodes(done) + ItemNodes(rows[i]) <= RowsNodes(rows)
    ensures RowsBytes(done) + ItemBytes(rows[i]) <= RowsBytes(rows)
  {
    forall k | 0 <= k < i
      ensures rows[k] == done[k]
    {
      assert values[..i][k] == values[k];
      SameRow(heap, policy, values[k], sensitivity, done[k], rows[k]);
    }
    assert rows[..i + 1][..i] == done;
    RowPart(rows, i + 1);
  }

  lemma ProperRow(heap: Heap, policy: Policy, values: seq<seq<Value>>, sensitivity: seq<string>, i: nat,
      rows: seq<seq<Tree>>)
    requires i < |values| && RowsMean(heap, policy, values, sensitivity, rows)
    ensures !Misshapen(values[i], sensitivity)
  {
    assert RowMeans(heap, policy, values[i], sensitivity, rows[i]);
  }

  // ---------- Why a copy fails ----------
  //
  // Each failure is said twice: once openly, and once folded so that it is only opened by the lemmas below.

  ghost predicate NoRow(heap: Heap, policy: Policy, values: seq<Value>, sensitivity: seq<string>, nodes: nat,
      bytes: nat, error: CollectError) {
    && (error.OperationFailed? ==> BrokenRow(heap, policy, values, sensitivity))
    && forall row :: RowMeans(heap, policy, values, sensitivity, row) ==>
         error.CollectionLimit? && OutOfBudget(nodes + ItemNodes(row), bytes + ItemBytes(row))
  }

  ghost predicate RowFails(heap: Heap, policy: Policy, values: seq<Value>, sensitivity: seq<string>, nodes: nat,
      bytes: nat, error: CollectError) {
    forall e {:trigger NoRow(heap, policy, values, sensitivity, nodes, bytes, e)} ::
      e == error ==> NoRow(heap, policy, values, sensitivity, nodes, bytes, e)
  }

  ghost predicate NoRows(heap: Heap, policy: Policy, values: seq<seq<Value>>, sensitivity: seq<string>, nodes: nat,
      bytes: nat, error: CollectError) {
    && (error.OperationFailed? ==> BrokenRows(heap, policy, values, sensitivity))
    && RowMisfits(heap, policy, values, sensitivity, nodes, bytes, error)
    && forall rows :: RowsMean(heap, policy, values, sensitivity, rows) ==>
         error.CollectionLimit? && OutOfBudget(nodes + RowsNodes(rows), bytes + RowsBytes(rows))
  }

  ghost predicate RowsFail(heap: Heap, policy: Policy, values: seq<seq<Value>>, sensitivity: seq<string>, nodes: nat,
      bytes: nat, error: CollectError) {
    forall e {:trigger NoRows(heap, policy, values, sensitivity, nodes, bytes, e)} ::
      e == error ==> NoRows(heap, policy, values, sensitivity, nodes, bytes, e)
  }

  ghost predicate NoFrame(heap: Heap, policy: Policy, table: Table, schema: seq<string>, nodes: nat, bytes: nat,
      error: CollectError) {
    && (error.OperationFailed? ==> BrokenTable(heap, policy, table, schema))
    && Misfits(heap, policy, table, schema, nodes, bytes, error)
    && forall f :: FrameMeans(heap, policy, table, schema, f) ==>
         error.CollectionLimit? && OutOfBudget(nodes + FrameNodes(f), bytes + FrameBytes(f))
  }

  ghost predicate TableFails(heap: Heap, policy: Policy, table: Table, schema: seq<string>, nodes: nat, bytes: nat,
      error: CollectError) {
    forall e {:trigger NoFrame(heap, policy, table, schema, nodes, bytes, e)} ::
      e == error ==> NoFrame(heap, policy, table, schema, nodes, bytes, e)
  }

  ghost predicate HasNoPlace(heap: Heap, policy: Policy, table: Table, schema: seq<string>, frames: seq<Frame>,
      rows: nat, nodes: nat, bytes: nat, maxRows: nat, maxBytes: nat, error: CollectError) {
    forall e {:trigger NoPlace(heap, policy, table, schema, frames, rows, nodes, bytes, maxRows, maxBytes, e)} ::
      e == error ==> NoPlace(heap, policy, table, schema, frames, rows, nodes, bytes, maxRows, maxBytes, e)
  }

  /** The first cells are copied. */
  ghost predicate CellsDone(heap: Heap, policy: Policy, values: seq<Value>, sensitivity: seq<string>, done: seq<Tree>) {
    && |done| <= |values| && |values| == |sensitivity|
    && forall k :: 0 <= k < |done| ==>
         Means(heap, policy, values[k], policy.credential(sensitivity[k]), MAX_DEPTH, {}, Some(done[k]))
  }

  lemma CellDone(heap: Heap, policy: Policy, values: seq<Value>, sensitivity: seq<string>, done: seq<Tree>, t: Tree)
    requires |done| < |values| && CellsDone(heap, policy, values, sensitivity, done)
    requires Means(heap, policy, values[|done|], policy.credential(sensitivity[|done|]), MAX_DEPTH, {}, Some(t))
    ensures CellsDone(heap, policy, values, sensitivity, done + [t])
    ensures ItemNodes(done + [t]) == ItemNodes(done) + Nodes(t)
    ensures ItemBytes(done + [t]) == ItemBytes(done) + TextBytes(t)
  {
    assert (done + [t])[..|done|] == done;
  }

  lemma RowDone(heap: Heap, policy: Policy, values: seq<seq<Value>>, sensitivity: seq<string>, done: seq<seq<Tree>>,
      row: seq<Tree>)
    requires |done| < |values| && RowsMean(heap, policy, values[..|done|], sensitivity, done)
    requires RowMeans(heap, policy, values[|done|], sensitivity, row)
    ensures RowsMean(heap, policy, values[..|done| + 1], sensitivity, done + [row])
    ensures RowsNodes(done + [row]) == RowsNodes(done) + ItemNodes(row)
    ensures RowsBytes(done + [row]) == RowsBytes(done) + ItemBytes(row)
  {
    assert (done + [row])[..|done|] == done;
    assert forall k :: 0 <= k < |done| ==> values[..|done|][k] == values[k];
  }

  lemma CellStuck(heap: Heap, policy: Policy, values: seq<Value>, sensitivity: seq<string>, done: seq<Tree>, j: nat,
      t: Option<Tree>, nodes: nat, bytes: nat, error: CollectError)
    requires j < |values| == |sensitivity| && |done| == j && CellsDone(heap, policy, values, sensitivity, done)
    requires Means(heap, policy, values[j], policy.credential(sensitivity[j]), MAX_DEPTH, {}, t)
    requires t.Some? ==>
               && error.CollectionLimit?
               && OutOfBudget(nodes + ItemNodes(done) + Nodes(t.value), bytes + ItemBytes(done) + TextBytes(t.value))
    requires error.OperationFailed? ==> Hopeless(heap, policy, values[j], policy.credential(sensitivity[j]), {})
    ensures RowFails(heap, policy, values, sensitivity, nodes, bytes, error)
  {
    forall row | RowMeans(heap, policy, values, sensitivity, row)
      ensures error.CollectionLimit? && OutOfBudget(nodes + ItemNodes(row), bytes + ItemBytes(row))
    {
      RowBegins(heap, policy, values, sensitivity, done, j, t, row);
    }
  }

  /** The first misshapen row is found. */
  lemma MisfitHere(heap: Heap, policy: Policy, values: seq<seq<Value>>, sensitivity: seq<string>, done: seq<seq<Tree>>,
      i: nat, nodes: nat, bytes: nat)
    requires i < |values| && RowsMean(heap, policy, values[..i], sensitivity, done) && Misshapen(values[i], sensitivity)
    ensures RowsFail(heap, policy, values, sensitivity, nodes, bytes,
                     if |values[i]| > MAX_COLUMNS then CollectionLimit else OperationFailed)
  {
    forall k: nat, rows |
      k < |values| && Misshapen(values[k], sensitivity) && RowsMean(heap, policy, values[..k], sensitivity, rows)
      ensures k == i
    {
      if k < i {
        ProperRow(heap, policy, values[..i], sensitivity, k, done);
      } else if i < k {
        ProperRow(heap, policy, values[..k], sensitivity, i, rows);
      }
    }
    assert BrokenRow(heap, policy, values[i], sensitivity);
    forall rows
      ensures !RowsMean(heap, policy, values, sensitivity, rows)
    {
      if RowsMean(heap, policy, values, sensitivity, rows) {
        ProperRow(heap, policy, values, sensitivity, i, rows);
      }
    }
  }

  /** A row that cannot be paid for or has no tree keeps the rows from being copied. */
  lemma RowStuck(heap: Heap, policy: Policy, values: seq<seq<Value>>, sensitivity: seq<string>, done: seq<seq<Tree>>,
      i: nat, nodes: nat, bytes: nat, error: CollectError)
    requires i < |values| && RowsMean(heap, policy, values[..i], sensitivity, done)
    requires !Misshapen(values[i], sensitivity)
    requires RowFails(heap, policy, values[i], sensitivity, nodes + RowsNodes(done), bytes + RowsBytes(done), error)
    ensures RowsFail(heap, policy, values, sensitivity, nodes, bytes, error)
  {
    assert NoRow(heap, policy, values[i], sensitivity, nodes + RowsNodes(done), bytes + RowsBytes(done), error);
    forall rows | RowsMean(heap, policy, values, sensitivity, rows)
      ensures error.CollectionLimit? && OutOfBudget(nodes + RowsNodes(rows), bytes + RowsBytes(rows))
    {
      RowsBegin(heap, policy, values, sensitivity, done, i, rows);
    }
    RowStuckMisfits(heap, policy, values, sensitivity, done, i, nodes, bytes, error);
  }

  lemma RowStuckMisfits(heap: Heap, policy: Policy, values: seq<seq<Value>>, sensitivity: seq<string>,
      done: seq<seq<Tree>>, i: nat, nodes: nat, bytes: nat, error: CollectError)
    requires i < |values| && RowsMean(heap, policy, values[..i], sensitivity, done)
    requires !Misshapen(values[i], sensitivity)
    requires NoRow(heap, policy, values[i], sensitivity, nodes + RowsNodes(done), bytes + RowsBytes(done), error)
    ensures RowMisfits(heap, policy, values, sensitivity, nodes, bytes, error)
  {
    forall k: nat, rows |
      k < |values| && Misshapen(values[k], sensitivity) && RowsMean(heap, policy, values[..k], sensitivity, rows)
      ensures OutOfBudget(nodes + RowsNodes(rows), bytes + RowsBytes(rows))
    {
      if k < i {
        ProperRow(heap, policy, values[..i], sensitivity, k, done);
      } else {
        assert values[..k][..i] == values[..i] && values[..k][i] == values[i];
        RowsBegin(heap, policy, values[..k], sensitivity, done, i, rows);
        assert RowMeans(heap, policy, values[i], sensitivity, rows[i]);
      }
    }
  }

  lemma ColumnsStuck(heap: Heap, policy: Policy, table: Table, schema: seq<string>, nodes: nat, bytes: nat)
    requires forall texts :: Copied(table.columns, texts) ==> bytes + ColumnBytes(texts) > MAX_RESULT_BYTES
    ensures TableFails(heap, policy, table, schema, nodes, bytes, CollectionLimit)
  {
    forall f | FrameMeans(heap, policy, table, schema, f)
      ensures OutOfBudget(nodes + FrameNodes(f), bytes + FrameBytes(f))
    {
      assert bytes + ColumnBytes(f.columns) > MAX_RESULT_BYTES;
    }
    assert NoFrame(heap, policy, table, schema, nodes, bytes, CollectionLimit);
  }

  lemma RowsStuck(heap: Heap, policy: Policy, table: Table, schema: seq<string>, columns: seq<string>, nodes: nat,
      bytes: nat, error: CollectError)
    requires Copied(table.columns, columns)
    requires RowsFail(heap, policy, table.values, if columns == [] then schema else columns, nodes,
                      bytes + ColumnBytes(columns), error)
    ensures TableFails(heap, policy, table, schema, nodes, bytes, error)
  {
    assert Texts(table.columns) == columns;
    assert NoRows(heap, policy, table.values, Sensitivity(table, schema), nodes, bytes + ColumnBytes(columns), error);
    forall f | FrameMeans(heap, policy, table, schema, f)
      ensures error.CollectionLimit? && OutOfBudget(nodes + FrameNodes(f), bytes + FrameBytes(f))
    {
      assert f.columns == columns;
      assert RowsMean(heap, policy, table.values, Sensitivity(table, schema), f.rows);
    }
    assert NoFrame(heap, policy, table, schema, nodes, bytes, error);
  }

  lemma HeaderStuck(heap: Heap, policy: Policy, table: Table, schema: seq<string>, columns: seq<string>,
      rows: seq<seq<Tree>>, nodes: nat, bytes: nat)
    requires Copied(table.columns, columns)
    requires RowsMean(heap, policy, table.values, if columns == [] then schema else columns, rows)
    requires table.header.Valid? ==>
               bytes + ColumnBytes(columns) + RowsBytes(rows) + QuotedSize(table.header.text) > MAX_RESULT_BYTES
    ensures TableFails(heap, policy, table, schema, nodes, bytes, CollectionLimit)
  {
    assert Texts(table.columns) == columns;
    forall f | FrameMeans(heap, policy, table, schema, f)
      ensures OutOfBudget(nodes + FrameNodes(f), bytes + FrameBytes(f))
    {
      assert f.columns == columns;
      SameRows(heap, policy, table.values, Sensitivity(table, schema), f.rows, rows);
    }
    ProperRows(heap, policy, table, schema, rows, nodes, bytes, CollectionLimit);
    assert NoFrame(heap, policy, table, schema, nodes, bytes, CollectionLimit);
  }

  lemma ProperRows(heap: Heap, policy: Policy, table: Table, schema: seq<string>, rows: seq<seq<Tree>>, nodes: nat,
      bytes: nat, error: CollectError)
    requires RowsMean(heap, policy, table.values, Sensitivity(table, schema), rows)
    ensures Misfits(heap, policy, table, schema, nodes, bytes, error)
  {
    forall i: nat | i < |table.values|
      ensures !Misshapen(table.values[i], Sensitivity(table, schema))
    {
      ProperRow(heap, policy, table.values, Sensitivity(table, schema), i, rows);
    }
  }

  lemma NotToBeCopied(heap: Heap, policy: Policy, table: Table, schema: seq<string>, frames: seq<Frame>, rows: nat,
      nodes: nat, bytes: nat, maxRows: nat, maxBytes: nat, error: CollectError)
    requires if table.isError then error.OperationFailed?
             else if Crowded(frames, rows, table, maxRows) then error.CollectionLimit?
             else TableFails(heap, policy, table, schema, nodes, bytes, error)
    ensures HasNoPlace(heap, policy, table, schema, frames, rows, nodes, bytes, maxRows, maxBytes, error)
  {
    if !table.isError && !Crowded(frames, rows, table, maxRows) {
      assert NoFrame(heap, policy, table, schema, nodes, bytes, error);
    }
    assert NoPlace(heap, policy, table, schema, frames, rows, nodes, bytes, maxRows, maxBytes, error);
  }

  lemma NotToBeWritten(heap: Heap, policy: Policy, table: Table, schema: seq<string>, frame: Frame, frames: seq<Frame>,
      rows: nat, nodes: nat, bytes: nat, maxRows: nat, maxBytes: nat, error: CollectError)
    requires FrameMeans(heap, policy, table, schema, frame) && !Crowded(frames, rows, table, maxRows)
    requires !OutOfBudget(nodes + FrameNodes(frame), bytes + FrameBytes(frame))
    requires TextRefused(frames + [frame], maxBytes, error)
    ensures HasNoPlace(heap, policy, table, schema, frames, rows, nodes, bytes, maxRows, maxBytes, error)
  {
    OneFrame(heap, policy, table, schema, frame);
    assert Texts(table.columns) == frame.columns;
    ProperRows(heap, policy, table, schema, frame.rows, nodes, bytes, error);
    assert NoPlace(heap, policy, table, schema, frames, rows, nodes, bytes, maxRows, maxBytes, error);
  }

  /** The state after the tables `tables`: their frames, the schema in force and the number of rows. (Said so
      that the tables are only gone through where the meaning of the frames is mentioned.) */
  ghost predicate Summary(heap: Heap, policy: Policy, tables: seq<Table>, frames: seq<Frame>, schema: seq<string>,
      rows: nat) {
    forall t {:trigger FramesMean(heap, policy, t, frames)} :: t == tables ==>
      FramesMean(heap, policy, t, frames) && schema == LastSchema(t) && rows == RowCount(t)
  }

  class ResultCollector {
    const budget: ValueBudget
    const maxRows: nat
    const maxBytes: nat
    var frames: seq<Frame>
    var schemaColumns: seq<string>
    var rows: nat
    ghost var accepted: seq<Table>

    constructor (heap: Heap, policy: Policy, maxRows: nat, maxBytes: nat)
      ensures Valid() && fresh(budget) && budget.heap == heap && budget.policy == policy
      ensures budget.nodes == 0 && budget.bytes == ENVELOPE_RESERVE
      ensures accepted == [] && frames == [] && this.maxRows == maxRows && this.maxBytes == maxBytes
    {
      budget := new ValueBudget(heap, policy);
      this.maxRows, this.maxBytes := maxRows, maxBytes;
      frames, schemaColumns, rows, accepted := [], [], 0, [];
      NothingCollected(heap, policy);
    }

    ghost predicate Valid()
      reads this, budget
    {
      && budget.Valid() && budget.visiting == {}
      && Summary(budget.heap, budget.policy, accepted, frames, schemaColumns, rows)
      && rows <= maxRows && |frames| <= MAX_FRAMES && |schemaColumns| <= MAX_COLUMNS
      && (frames != [] ==> FitsIn(frames, maxBytes))
    }

    /** The budget after paying. */
    twostate predicate Paid(n: nat, b: nat)
      reads budget
    {
      budget.Valid() && budget.visiting == {} && budget.nodes == old(budget.nodes) + n &&
        budget.bytes == old(budget.bytes) + b
    }

    /** The budget after a refusal. */
    twostate predicate Spent()
      reads budget
    {
      budget.Valid() && budget.visiting == {} && budget.nodes >= old(budget.nodes) && budget.bytes >= old(budget.bytes)
    }

    twostate predicate Unaffordable(n: nat, b: nat)
      reads budget
    {
      old(budget.nodes) + n > MAX_NODES || old(budget.bytes) + b > MAX_RESULT_BYTES
    }

    method CloneColumns(columns: seq<GoString>) returns (copies: Option<seq<string>>)
      requires budget.Valid() && budget.visiting == {}
      modifies budget
      ensures Spent()
      ensures copies.Some? ==> Copied(columns, copies.value) && Paid(0, ColumnBytes(copies.value))
      ensures copies.None? ==> forall texts :: Copied(columns, texts) ==> Unaffordable(0, ColumnBytes(texts))
    {
      var done := [];
      for i := 0 to |columns|
        invariant Paid(0, ColumnBytes(done)) && Copied(columns[..i], done)
      {
        var copy := budget.CloneString(columns[i]);
        if copy.Err? {
          forall texts | Copied(columns, texts)
            ensures Unaffordable(0, ColumnBytes(texts))
          {
            ColumnsBegin(columns, done, i, texts);
          }
          return None;
        }
        done := done + [copy.value];
      }
      assert columns[..|columns|] == columns;
      return Some(done);
    }

    method CloneRow(values: seq<Value>, sensitivity: seq<string>) returns (r: Result<seq<Tree>, CollectError>)
      requires budget.Valid() && budget.visiting == {} && |values| == |sensitivity|
      modifies budget
      ensures Spent()
      ensures r.Ok? ==> RowMeans(budget.heap, budget.policy, values, sensitivity, r.value)
      ensures r.Ok? ==> Paid(ItemNodes(r.value), ItemBytes(r.value))
      ensures r.Err? ==>
                RowFails(budget.heap, budget.policy, values, sensitivity, old(budget.nodes), old(budget.bytes), r.error)
    {
      var row := [];
      for j := 0 to |values|
        invariant Paid(ItemNodes(row), ItemBytes(row)) && |row| == j
        invariant CellsDone(budget.heap, budget.policy, values, sensitivity, row)
      {
        ghost var t;
        var cell;
        cell, t := budget.Clone(values[j], 0, budget.policy.credential(sensitivity[j]));
        if cell.Err? {
          CellStuck(budget.heap, budget.policy, values, sensitivity, row, j, t, old(budget.nodes), old(budget.bytes),
                    cell.error);
          return Err(cell.error);
        }
        CellDone(budget.heap, budget.policy, values, sensitivity, row, cell.value);
        row := row + [cell.value];
      }
      return Ok(row);
    }

    method CloneRows(values: seq<seq<Value>>, sensitivity: seq<string>)
      returns (r: Result<seq<seq<Tree>>, CollectError>)
      requires budget.Valid() && budget.visiting == {} && |sensitivity| <= MAX_COLUMNS
      modifies budget
      ensures Spent()
      ensures r.Ok? ==> RowsMean(budget.heap, budget.policy, values, sensitivity, r.value)
      ensures r.Ok? ==> Paid(RowsNodes(r.value), RowsBytes(r.value))
      ensures r.Err? ==>
                RowsFail(budget.heap, budget.policy, values, sensitivity, old(budget.nodes), old(budget.bytes), r.error)
    {
      var copies := [];
      for i := 0 to |values|
        invariant Paid(RowsNodes(copies), RowsBytes(copies)) && |copies| == i
        invariant RowsMean(budget.heap, budget.policy, values[..i], sensitivity, copies)
      {
        if Misshapen(values[i], sensitivity) {
          MisfitHere(budget.heap, budget.policy, values, sensitivity, copies, i, old(budget.nodes), old(budget.bytes));
        }
        if |values[i]| > MAX_COLUMNS {
          return Err(CollectionLimit);
        }
        if |values[i]| > 0 && (|sensitivity| == 0 || |values[i]| != |sensitivity|) {
          return Err(OperationFailed);
        }
        var row := Ok([]);
        if |values[i]| > 0 {
          row := CloneRow(values[i], sensitivity);
        }
        if row.Err? {
          RowStuck(budget.heap, budget.policy, values, sensitivity, copies, i, old(budget.nodes), old(budget.bytes),
                    row.error);
          return Err(row.error);
        }
        RowDone(budget.heap, budget.policy, values, sensitivity, copies, row.value);
        copies := copies + [row.value];
      }
      assert values[..|values|] == values;
      return Ok(copies);
    }

    method CopyTable(table: Table) returns (r: Result<Frame, CollectError>)
      requires budget.Valid() && budget.visiting == {} && !table.isError
      requires |table.columns| <= MAX_COLUMNS && |schemaColumns| <= MAX_COLUMNS
      modifies budget
      ensures Spent()
      ensures r.Ok? ==> FrameMeans(budget.heap, budget.policy, table, schemaColumns, r.value)
      ensures r.Ok? ==> Paid(FrameNodes(r.value), FrameBytes(r.value))
      ensures r.Err? ==> TableFails(budget.heap, budget.policy, table, schemaColumns, old(budget.nodes),
                                    old(budget.bytes), r.error)
    {
      var columns := CloneColumns(table.columns);
      if columns.None? {
        ColumnsStuck(budget.heap, budget.policy, table, schemaColumns, old(budget.nodes), old(budget.bytes));
        return Err(CollectionLimit);
      }
      var values := CloneRows(table.values, if columns.value == [] then schemaColumns else columns.value);
      if values.Err? {
        RowsStuck(budget.heap, budget.policy, table, schemaColumns, columns.value, old(budget.nodes),
                  old(budget.bytes), values.error);
        return Err(values.error);
      }
      var header := budget.CloneString(table.header);
      if header.Err? {
        HeaderStuck(budget.heap, budget.policy, table, schemaColumns, columns.value, values.value, old(budget.nodes),
                    old(budget.bytes));
        return Err(CollectionLimit);
      }
      return Ok(Frame(header.value, columns.value, values.value));
    }

    /** A table is accepted as a whole or not at all; only the budget remembers a rejected one. It is rejected
        only if it has no frame, if one of the counts is over its limit, if its frame cannot be paid for, or if
        the result with its frame has no JSON text within the limit; the error tells which. */
    method Collect(table: Table) returns (r: Result<Frame, CollectError>)
      requires Valid()
      modifies this, budget
      ensures Valid() && Spent()
      ensures r.Err? ==> unchanged(this)
      ensures r.Ok? ==> frames == old(frames) + [r.value] && accepted == old(accepted) + [table]
      ensures r.Ok? ==> Paid(FrameNodes(r.value), FrameBytes(r.value))
      ensures r.Err? ==> HasNoPlace(budget.heap, budget.policy, table, old(schemaColumns), old(frames), old(rows),
                                    old(budget.nodes), old(budget.bytes), maxRows, maxBytes, r.error)
      ensures table.isError || Crowded(old(frames), old(rows), table, maxRows) ==> r.Err?
    {
      ghost var nodes, bytes := budget.nodes, budget.bytes;
      if table.isError {
        r := Err(OperationFailed);
      } else if |frames| >= MAX_FRAMES || |table.columns| > MAX_COLUMNS || |table.values| > maxRows - rows {
        r := Err(CollectionLimit);
      } else {
        r := CopyTable(table);
      }
      if r.Err? {
        NotToBeCopied(budget.heap, budget.policy, table, schemaColumns, frames, rows, nodes, bytes, maxRows, maxBytes,
                      r.error);
        return;
      }
      var error := Admit(table, r.value);
      if error.Some? {
        NotToBeWritten(budget.heap, budget.policy, table, schemaColumns, r.value, frames, rows, nodes, bytes, maxRows,
                       maxBytes, error.value);
        r := Err(error.value);
      }
    }

    /** Adds a frame if the result with it still has a JSON text within the limit. */
    method Admit(table: Table, frame: Frame) returns (error: Option<CollectError>)
      requires Valid() && !Crowded(frames, rows, table, maxRows)
      requires FrameMeans(budget.heap, budget.policy, table, schemaColumns, frame)
      modifies this
      ensures Valid() && (error.None? <==> FitsIn(old(frames) + [frame], maxBytes))
      ensures error.None? ==> frames == old(frames) + [frame] && accepted == old(accepted) + [table]
      ensures error.Some? ==> unchanged(this) && TextRefused(old(frames) + [frame], maxBytes, error.value)
    {
      var candidate := frames + [frame];
      var size := Measure(candidate, maxBytes);
      if size.None? {
        return Some(OperationFailed);
      }
      if size.value > maxBytes {
        return Some(CollectionLimit);
      }
      FrameJoins(budget.heap, budget.policy, accepted, frames, schemaColumns, rows, table, frame);
      frames := candidate;
      rows := rows + |frame.rows|;
      if frame.columns != [] {
        schemaColumns := frame.columns;
      }
      accepted := accepted + [table];
      return None;
    }

    /** Everything in the budget was spent on the frames. */
    ghost predicate Accounted()
      reads this, budget
    {
      Valid() && budget.nodes == TotalNodes(frames) && budget.bytes == TotalBytes(frames)
    }

    method CollectNext(table: Table) returns (error: Option<CollectError>)
      requires Accounted()
      modifies this, budget
      ensures error.None? ==> Accounted() && accepted == old(accepted) + [table]
      ensures error.Some? ==> Valid() && unchanged(this)
      ensures error.Some? ==>
                Refused(budget.heap, budget.policy, maxRows, maxBytes, accepted, frames, table, error.value)
    {
      ghost var before := frames;
      Summarized(budget.heap, budget.policy, accepted, frames, schemaColumns, rows);
      var r := Collect(table);
      if r.Err? {
        return Some(r.error);
      }
      TotalsGrow(before, r.value);
      return None;
    }
  }

  /** The table has no place after the tables before it, and the error tells why. */
  ghost predicate Refused(heap: Heap, policy: Policy, maxRows: nat, maxBytes: nat, before: seq<Table>,
      frames: seq<Frame>, table: Table, error: CollectError) {
    NoPlace(heap, policy, table, LastSchema(before), frames, RowCount(before), TotalNodes(frames), TotalBytes(frames),
      maxRows, maxBytes, error)
  }

  lemma Summarized(heap: Heap, policy: Policy, tables: seq<Table>, frames: seq<Frame>, schema: seq<string>, rows: nat)
    requires Summary(heap, policy, tables, frames, schema, rows)
    ensures FramesMean(heap, policy, tables, frames) && schema == LastSchema(tables) && rows == RowCount(tables)
  {
  }

  lemma TotalsGrow(frames: seq<Frame>, f: Frame)
    ensures TotalNodes(frames + [f]) == TotalNodes(frames) + FrameNodes(f)
    ensures TotalBytes(frames + [f]) == TotalBytes(frames) + FrameBytes(f)
  {
    assert (frames + [f])[..|frames|] == frames;
  }

  /** A whole run: tables are collected until one is refused. What is returned is made of the tables before it,
      all of them if none is refused, and no table is refused that had its place. */
  method CollectTables(heap: Heap, policy: Policy, maxRows: nat, maxBytes: nat, tables: seq<Table>)
    returns (frames: seq<Frame>, error: Option<CollectError>, taken: nat)
    ensures taken <= |tables| && (error.None? <==> taken == |tables|)
    ensures FramesMean(heap, policy, tables[..taken], frames)
    ensures RowCount(tables[..taken]) <= maxRows && |frames| <= MAX_FRAMES
    ensures TotalNodes(frames) <= MAX_NODES && TotalBytes(frames) <= MAX_RESULT_BYTES
    ensures frames != [] ==> FitsIn(frames, maxBytes)
    ensures error.Some? ==>
              Refused(heap, policy, maxRows, maxBytes, tables[..taken], frames, tables[taken], error.value)
  {
    var collector := new ResultCollector(heap, policy, maxRows, maxBytes);
    for i := 0 to |tables|
      invariant fresh(collector) && fresh(collector.budget)
      invariant collector.budget.heap == heap && collector.budget.policy == policy
      invariant collector.maxRows == maxRows && collector.maxBytes == maxBytes
      invariant collector.accepted == tables[..i] && collector.Accounted()
    {
      var error := collector.CollectNext(tables[i]);
      if error.Some? {
        Summarized(heap, policy, tables[..i], collector.frames, collector.schemaColumns, collector.rows);
        return collector.frames, error, i;
      }
      assert tables[..i + 1] == tables[..i] + [tables[i]];
    }
    assert tables[..|tables|] == tables;
    Summarized(heap, policy, tables, collector.frames, collector.schemaColumns, collector.rows);
    return collector.frames, None, |tables|;
  }

  /** A table has at most one frame. */
  lemma OneFrame(heap: Heap, policy: Policy, table: Table, schema: seq<string>, frame: Frame)
    requires FrameMeans(heap, policy, table, schema, frame)
    ensures forall f :: FrameMeans(heap, policy, table, schema, f) ==> f == frame
  {
    forall f | FrameMeans(heap, policy, table, schema, f)
      ensures f == frame
    {
      assert f.columns == frame.columns;
      SameRows(heap, policy, table.values, if f.columns == [] then schema else f.columns, f.rows, frame.rows);
    }
  }

  lemma FrameJoins(heap: Heap, policy: Policy, tables: seq<Table>, frames: seq<Frame>, schema: seq<string>, rows: nat,
      table: Table, f: Frame)
    requires Summary(heap, policy, tables, frames, schema, rows) && FrameMeans(heap, policy, table, schema, f)
    ensures Summary(heap, policy, tables + [table], frames + [f], if f.columns == [] then schema else f.columns,
      rows + |f.rows|)
  {
    var all := tables + [table];
    assert FramesMean(heap, policy, tables, frames);
    assert all[..|tables|] == tables;
    assert forall k :: 0 <= k < |tables| ==> all[..k] == tables[..k];
    assert Texts(table.columns) == f.columns;
    var both := frames + [f];
    forall k | 0 <= k < |both|
      ensures FrameMeans(heap, policy, all[k], LastSchema(all[..k]), both[k])
    {
      if k < |frames| {
        assert both[k] == frames[k] && all[k] == tables[k];
        assert FrameMeans(heap, policy, tables[k], LastSchema(tables[..k]), frames[k]);
      } else {
        assert both[k] == f && all[k] == table && all[..k] == tables;
      }
    }
    assert all[|all| - 1] == table;
    assert FramesMean(heap, policy, all, both);
    assert LastSchema(all) == if f.columns == [] then schema else f.columns;
    assert RowCount(all) == RowCount(tables) + |table.values|;
  }

  lemma NothingCollected(heap: Heap, policy: Policy)
    ensures Summary(heap, policy, [], [], [], 0)
  {
    assert FramesMean(heap, policy, [], []) && LastSchema([]) == [] && RowCount([]) == 0;
  }
}
