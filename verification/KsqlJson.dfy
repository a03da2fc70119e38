/** The JSON text of a KSQL result, and its size counted without building it. */
module KsqlJson {
  import opened Wrappers
  import opened JsonText
  import opened KsqlValue

  /** What one accepted table becomes. */
  datatype Frame = Frame(header: string, columns: seq<string>, rows: seq<seq<Tree>>)

  // ---------- The text ----------

  /** The texts, unless one is missing. */
  function All(texts: seq<Option<string>>): Option<seq<string>> {
    if texts == [] then Some([])
    else
      var front, last := All(texts[..|texts| - 1]), texts[|texts| - 1];
      if front.None? || last.None? then None else Some(front.value + [last.value])
  }

  function Enclosed(open: char, texts: seq<Option<string>>, close: char): Option<string> {
    match All(texts)
    case None => None
    case Some(pieces) => Some([open] + Joined(pieces) + [close])
  }

  function Labelled(key: string, text: Option<string>): Option<string> {
    if text.None? then None else Some(Quote(key) + ":" + text.value)
  }

  /** None for a tree JSON cannot express. */
  function RenderTree(t: Tree): Option<string> {
    match t
    case Leaf(json) => json
    case Str(text) => Some(Quote(text))
    case List(items) => Enclosed('[', seq(|items|, i requires 0 <= i < |items| => RenderTree(items[i])), ']')
    case Object(members) =>
      Enclosed('{',
        seq(|members|, i requires 0 <= i < |members| => Labelled(members[i].key, RenderTree(members[i].value))), '}')
  }

  function RenderRow(row: seq<Tree>): Option<string> {
    Enclosed('[', seq(|row|, j requires 0 <= j < |row| => RenderTree(row[j])), ']')
  }

  function RenderColumns(columns: seq<string>): Option<string> {
    Enclosed('[', seq(|columns|, i requires 0 <= i < |columns| => Some(Quote(columns[i]))), ']')
  }

  function RenderRows(rows: seq<seq<Tree>>): Option<string> {
    Enclosed('[', seq(|rows|, i requires 0 <= i < |rows| => RenderRow(rows[i])), ']')
  }

  const RESULT := "result"
  const TABLE := "table"
  const COLUMN_NAMES := "columnNames"
  const HEADER := "header"
  const VALUES := "values"

  function ObjectOf(key: string, text: Option<string>): Option<string> {
    Enclosed('{', [Labelled(key, text)], '}')
  }

  function ObjectOfThree(a: string, x: Option<string>, b: string, y: Option<string>, c: string,
      z: Option<string>): Option<string> {
    Enclosed('{', [Labelled(a, x), Labelled(b, y), Labelled(c, z)], '}')
  }

  function FrameWith(table: string, columns: string, header: string, values: string, f: Frame): Option<string> {
    ObjectOf(table,
      ObjectOfThree(columns, RenderColumns(f.columns), header, Some(Quote(f.header)), values, RenderRows(f.rows)))
  }

  function RenderFrame(f: Frame): Option<string> {
    FrameWith(TABLE, COLUMN_NAMES, HEADER, VALUES, f)
  }

  function RenderFrames(frames: seq<Frame>): Option<string> {
    Enclosed('[', seq(|frames|, i requires 0 <= i < |frames| => RenderFrame(frames[i])), ']')
  }

  function RenderResult(frames: seq<Frame>): Option<string> {
    ObjectOf(RESULT, RenderFrames(frames))
  }

  lemma OneMoreText(texts: seq<Option<string>>, pieces: seq<string>, x: string)
    requires All(texts) == Some(pieces)
    ensures All(texts + [Some(x)]) == Some(pieces + [x])
    ensures Joined(pieces + [x]) == if pieces == [] then x else Joined(pieces) + "," + x
  {
    assert (texts + [Some(x)])[..|texts|] == texts && (pieces + [x])[..|pieces|] == pieces;
  }

  lemma OneText(x: string)
    ensures Enclosed('{', [Some(x)], '}') == Some("{" + x + "}")
  {
    OneMoreText([], [], x);
    var none: seq<Option<string>>, nothing: seq<string> := [], [];
    assert none + [Some(x)] == [Some(x)] && nothing + [x] == [x];
  }

  lemma AllThree(x: string, y: string, z: string)
    ensures All([Some(x), Some(y), Some(z)]) == Some([x, y, z])
    ensures Joined([x, y, z]) == x + "," + y + "," + z
  {
    var none: seq<Option<string>>, nothing: seq<string> := [], [];
    assert none + [Some(x)] == [Some(x)] && nothing + [x] == [x];
    OneMoreText([], [], x);
    OneMoreText([Some(x)], [x], y);
    assert [Some(x)] + [Some(y)] == [Some(x), Some(y)] && [x] + [y] == [x, y];
    OneMoreText([Some(x), Some(y)], [x, y], z);
    assert [Some(x), Some(y)] + [Some(z)] == [Some(x), Some(y), Some(z)] && [x, y] + [z] == [x, y, z];
  }

  lemma ThreeTexts(x: string, y: string, z: string)
    ensures Enclosed('{', [Some(x), Some(y), Some(z)], '}') == Some("{" + (x + "," + y + "," + z) + "}")
  {
    AllThree(x, y, z);
  }

  /** The text of a frame, spelled out. */
  lemma FrameText(f: Frame, columns: string, rows: string)
    requires RenderColumns(f.columns) == Some(columns) && RenderRows(f.rows) == Some(rows)
    ensures
      var names, header, values := Quote("columnNames") + ":" + columns, Quote("header") + ":" + Quote(f.header),
        Quote("values") + ":" + rows;
      RenderFrame(f) == Some("{" + (Quote("table") + ":" + ("{" + (names + "," + header + "," + values) + "}")) + "}")
  {
    FrameTextWith(TABLE, COLUMN_NAMES, HEADER, VALUES, f, columns, rows);
  }

  lemma FrameTextWith(table: string, names: string, header: string, values: string, f: Frame, columns: string,
      rows: string)
    requires RenderColumns(f.columns) == Some(columns) && RenderRows(f.rows) == Some(rows)
    ensures
      var a, b, c := Quote(names) + ":" + columns, Quote(header) + ":" + Quote(f.header), Quote(values) + ":" + rows;
      FrameWith(table, names, header, values, f) ==
        Some("{" + (Quote(table) + ":" + ("{" + (a + "," + b + "," + c) + "}")) + "}")
  {
    var a, b, c := Quote(names) + ":" + columns, Quote(header) + ":" + Quote(f.header), Quote(values) + ":" + rows;
    ThreeTexts(a, b, c);
    OneText(Quote(table) + ":" + ("{" + (a + "," + b + "," + c) + "}"));
  }

  // ---------- The size ----------

  function Sum(sizes: seq<Option<nat>>): Option<nat> {
    if sizes == [] then Some(0)
    else
      var front, last := Sum(sizes[..|sizes| - 1]), sizes[|sizes| - 1];
      if front.None? || last.None? then None else Some(front.value + last.value)
  }

  /** The pieces, the brackets and the commas. */
  function Bracketed(sizes: seq<Option<nat>>): Option<nat> {
    Plus(Sum(sizes), 2 + if sizes == [] then 0 else |sizes| - 1)
  }

  function Plus(size: Option<nat>, extra: nat): Option<nat> {
    if size.None? then None else Some(size.value + extra)
  }

  function TreeSize(t: Tree): Option<nat> {
    match t
    case Leaf(json) => if json.None? then None else Some(ByteSize(json.value))
    case Str(text) => Some(QuotedSize(text))
    case List(items) => Bracketed(seq(|items|, i requires 0 <= i < |items| => TreeSize(items[i])))
    case Object(members) =>
      Bracketed(seq(|members|, i requires 0 <= i < |members| =>
        Plus(TreeSize(members[i].value), QuotedSize(members[i].key) + 1)))
  }

  function RowSize(row: seq<Tree>): Option<nat> {
    Bracketed(seq(|row|, j requires 0 <= j < |row| => TreeSize(row[j])))
  }

  function ColumnsSize(columns: seq<string>): Option<nat> {
    Bracketed(seq(|columns|, i requires 0 <= i < |columns| => Some(QuotedSize(columns[i]))))
  }

  function RowsSize(rows: seq<seq<Tree>>): Option<nat> {
    Bracketed(seq(|rows|, i requires 0 <= i < |rows| => RowSize(rows[i])))
  }

  /** The parts of a frame, with the keys, braces, colons and commas around them. */
  function FrameSizeWith(table: string, columns: string, header: string, values: string, f: Frame): Option<nat> {
    var names, rows := ColumnsSize(f.columns), RowsSize(f.rows);
    if names.None? || rows.None? then None
    else Some(names.value + QuotedSize(f.header) + rows.value +
              (QuotedSize(table) + QuotedSize(columns) + QuotedSize(header) + QuotedSize(values) + 10))
  }

  function FrameSize(f: Frame): Option<nat> {
    FrameSizeWith(TABLE, COLUMN_NAMES, HEADER, VALUES, f)
  }

  /** The size of the result holding these frames. */
  function ResultSize(frames: seq<Frame>): Option<nat> {
    Plus(Bracketed(seq(|frames|, i requires 0 <= i < |frames| => FrameSize(frames[i]))), QuotedSize(RESULT) + 3)
  }

  // ---------- The size is that of the text ----------

  function SizeOf(text: Option<string>): Option<nat> {
    if text.None? then None else Some(ByteSize(text.value))
  }

  predicate SizesOf(sizes: seq<Option<nat>>, texts: seq<Option<string>>) {
    |sizes| == |texts| && forall i :: 0 <= i < |texts| ==> sizes[i] == SizeOf(texts[i])
  }

  lemma {:induction false} JoinedSize(sizes: seq<Option<nat>>, texts: seq<Option<string>>)
    requires SizesOf(sizes, texts)
    ensures All(texts).Some? <==> Sum(sizes).Some?
    ensures All(texts).Some? ==> |All(texts).value| == |texts|
    ensures All(texts).Some? ==>
      ByteSize(Joined(All(texts).value)) == Sum(sizes).value + if texts == [] then 0 else |texts| - 1
  {
    if texts != [] {
      var front, text, counts, count := texts[..|texts| - 1], texts[|texts| - 1], sizes[..|texts| - 1],
        sizes[|texts| - 1];
      JoinedSize(counts, front);
      assert texts == front + [text] && sizes == counts + [count];
      AllLast(front, text);
      SumLast(counts, count);
      if All(texts).Some? {
        JoinedLast(All(front).value, text.value);
      }
    }
  }

  lemma AllLast(texts: seq<Option<string>>, text: Option<string>)
    ensures All(texts + [text]) == if All(texts).None? ||
      text.None? then None else Some(All(texts).value + [text.value])
  {
    assert (texts + [text])[..|texts|] == texts;
  }

  lemma EnclosedSize(open: char, sizes: seq<Option<nat>>, texts: seq<Option<string>>, close: char)
    requires SizesOf(sizes, texts) && open as int < 0x80 && close as int < 0x80
    ensures Bracketed(sizes) == SizeOf(Enclosed(open, texts, close))
  {
    JoinedSize(sizes, texts);
    if All(texts).Some? {
      var text := Joined(All(texts).value);
      Utf8Ascii([open]);
      Utf8Ascii([close]);
      ByteSizeJoin([open], text);
      ByteSizeJoin([open] + text, [close]);
    }
  }

  lemma LabelSize(key: string, text: string)
    ensures ByteSize(key + ":" + text) == ByteSize(key) + 1 + ByteSize(text)
  {
    Utf8Ascii(":");
    ByteSizeJoin(key, ":");
    ByteSizeJoin(key + ":", text);
  }

  lemma LabelledSize(key: string, text: Option<string>)
    ensures SizeOf(Labelled(key, text)) == Plus(SizeOf(text), QuotedSize(key) + 1)
  {
    if text.Some? {
      LabelSize(Quote(key), text.value);
    }
  }

  lemma {:induction false} TreeSizeIsText(t: Tree)
    ensures TreeSize(t) == SizeOf(RenderTree(t))
  {
    match t
    case Leaf(json) =>
    case Str(text) =>
    case List(items) =>
      forall i | 0 <= i < |items|
        ensures TreeSize(items[i]) == SizeOf(RenderTree(items[i]))
      {
        TreeSizeIsText(items[i]);
      }
      EnclosedSize('[', seq(|items|, i requires 0 <= i < |items| => TreeSize(items[i])),
                   seq(|items|, i requires 0 <= i < |items| => RenderTree(items[i])), ']');
    case Object(members) =>
      forall i | 0 <= i < |members|
        ensures Plus(TreeSize(members[i].value), QuotedSize(members[i].key) + 1) ==
          SizeOf(Labelled(members[i].key, RenderTree(members[i].value)))
      {
        TreeSizeIsText(members[i].value);
        LabelledSize(members[i].key, RenderTree(members[i].value));
      }
      EnclosedSize('{',
        seq(|members|, i requires 0 <= i < |members| =>
          Plus(TreeSize(members[i].value), QuotedSize(members[i].key) + 1)),
                   seq(|members|, i requires 0 <= i < |members| =>
                     Labelled(members[i].key, RenderTree(members[i].value))), '}');
  }

  lemma RowSizeIsText(row: seq<Tree>)
    ensures RowSize(row) == SizeOf(RenderRow(row))
  {
    forall j | 0 <= j < |row|
      ensures TreeSize(row[j]) == SizeOf(RenderTree(row[j]))
    {
      TreeSizeIsText(row[j]);
    }
    EnclosedSize('[', seq(|row|, j requires 0 <= j < |row| => TreeSize(row[j])),
                 seq(|row|, j requires 0 <= j < |row| => RenderTree(row[j])), ']');
  }

  lemma ColumnsSizeIsText(columns: seq<string>)
    ensures ColumnsSize(columns) == SizeOf(RenderColumns(columns))
  {
    EnclosedSize('[', seq(|columns|, i requires 0 <= i < |columns| => Some(QuotedSize(columns[i]))),
                 seq(|columns|, i requires 0 <= i < |columns| => Some(Quote(columns[i]))), ']');
  }

  lemma RowsSizeIsText(rows: seq<seq<Tree>>)
    ensures RowsSize(rows) == SizeOf(RenderRows(rows))
  {
    forall i | 0 <= i < |rows|
      ensures RowSize(rows[i]) == SizeOf(RenderRow(rows[i]))
    {
      RowSizeIsText(rows[i]);
    }
    EnclosedSize('[', seq(|rows|, i requires 0 <= i < |rows| => RowSize(rows[i])),
                 seq(|rows|, i requires 0 <= i < |rows| => RenderRow(rows[i])), ']');
  }

  lemma FrameSizeIsText(f: Frame)
    ensures FrameSize(f) == SizeOf(RenderFrame(f))
  {
    FrameSizeWithKeys(TABLE, COLUMN_NAMES, HEADER, VALUES, f);
  }

  lemma FrameSizeWithKeys(table: string, columns: string, header: string, values: string, f: Frame)
    ensures FrameSizeWith(table, columns, header, values, f) == SizeOf(FrameWith(table, columns, header, values, f))
  {
    RowsSizeIsText(f.rows);
    ColumnsSizeIsText(f.columns);
    PartsSize(table, columns, RenderColumns(f.columns), header, Some(Quote(f.header)), values, RenderRows(f.rows));
  }

  lemma PartsSize(outer: string, a: string, x: Option<string>, b: string, y: Option<string>, c: string,
      z: Option<string>)
    ensures SizeOf(ObjectOf(outer, ObjectOfThree(a, x, b, y, c, z))) ==
      if x.None? || y.None? || z.None? then None
      else Some(ByteSize(x.value) + ByteSize(y.value) + ByteSize(z.value) +
                (QuotedSize(outer) + QuotedSize(a) + QuotedSize(b) + QuotedSize(c) + 10))
  {
    LabelledSize(a, x);
    LabelledSize(b, y);
    LabelledSize(c, z);
    EnclosedThree(Labelled(a, x), Labelled(b, y), Labelled(c, z));
    ObjectOfSize(outer, ObjectOfThree(a, x, b, y, c, z));
  }

  lemma EnclosedThree(x: Option<string>, y: Option<string>, z: Option<string>)
    ensures SizeOf(Enclosed('{', [x, y, z], '}')) ==
      if x.None? || y.None? ||
        z.None? then None else Some(ByteSize(x.value) + ByteSize(y.value) + ByteSize(z.value) + 4)
  {
    var sizes := [SizeOf(x), SizeOf(y), SizeOf(z)];
    EnclosedSize('{', sizes, [x, y, z], '}');
    SumOfThree(sizes[0], sizes[1], sizes[2]);
  }

  lemma SumLast(sizes: seq<Option<nat>>, size: Option<nat>)
    ensures Sum(sizes + [size]) ==
      if Sum(sizes).None? || size.None? then None else Some(Sum(sizes).value + size.value)
  {
    assert (sizes + [size])[..|sizes|] == sizes;
  }

  lemma SumOfThree(a: Option<nat>, b: Option<nat>, c: Option<nat>)
    ensures Sum([a, b, c]) == if a.None? || b.None? || c.None? then None else Some(a.value + b.value + c.value)
  {
    SumLast([], a);
    SumLast([a], b);
    SumLast([a, b], c);
    assert [a] + [b] == [a, b] && [a, b] + [c] == [a, b, c];
    var none: seq<Option<nat>> := [];
    assert none + [a] == [a];
  }

  lemma EnclosedOne(x: Option<string>)
    ensures SizeOf(Enclosed('{', [x], '}')) == Plus(SizeOf(x), 2)
  {
    EnclosedSize('{', [SizeOf(x)], [x], '}');
    SumLast([], SizeOf(x));
    var none: seq<Option<nat>> := [];
    assert none + [SizeOf(x)] == [SizeOf(x)];
  }

  lemma ObjectOfSize(key: string, text: Option<string>)
    ensures SizeOf(ObjectOf(key, text)) == Plus(SizeOf(text), QuotedSize(key) + 3)
  {
    LabelledSize(key, text);
    EnclosedOne(Labelled(key, text));
  }

  /** The count is the size of the text, and there is a count exactly when there is a text. */
  lemma ResultSizeIsText(frames: seq<Frame>)
    ensures ResultSize(frames) == SizeOf(RenderResult(frames))
  {
    forall i | 0 <= i < |frames|
      ensures FrameSize(frames[i]) == SizeOf(RenderFrame(frames[i]))
    {
      FrameSizeIsText(frames[i]);
    }
    EnclosedSize('[', seq(|frames|, i requires 0 <= i < |frames| => FrameSize(frames[i])),
                 seq(|frames|, i requires 0 <= i < |frames| => RenderFrame(frames[i])), ']');
    ObjectOfSize(RESULT, RenderFrames(frames));
  }
}
