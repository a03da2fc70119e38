/** The log of the sidecar's standard error on a disk that may fail: what each byte does to the scanner and to the
    text written, and which failures let a marker through (desktop/src-tauri/src/logging.rs). The logger stays in use
    after a failure, in the state the failed call left. */
module LogFaults {
  import opened JsonText
  import opened SidecarLog

  /** How the disk behaves if a byte makes the logger touch its files: a rotation may fail while the current file is
      still in place, or once it was moved away, and a line may be written in part. */
  datatype Plan = Works | NoRotation | NoOpen | WriteFails(written: nat)

  datatype Input = Input(byte: Byte, plan: Plan)

  /** `out` is all that was ever written, `line` all that was read since the last line that was done with; `size` is the
      size remembered,
        `length` that of the current file; `inside`: some file was moved away while the text written ended
      inside a line. */
  datatype Scan = Scan(out: Bytes, line: Bytes, pending: Bytes, size: nat, length: nat, isOpen: bool, inside: bool)

  function Start(size: nat): Scan {
    Scan([], [], [], size, size, true, false)
  }

  function Extend(s: Scan, b: Byte): Scan {
    s.(line := s.line + [b], pending := if |s.pending| < MAX_LINE_BYTES then s.pending + [b] else s.pending)
  }

  predicate Rotates(s: Scan) {
    s.size > 0 && s.size + |WithoutReturn(s.pending)| + 1 > MAX_LOG_BYTES
  }

  function Min(a: nat, b: nat): nat {
    if a < b then a else b
  }

  /** The file that a line goes to: a fresh one after a rotation. */
  function Target(s: Scan): Scan {
    if Rotates(s) then s.(size := 0, length := 0, isOpen := true, inside := s.inside || !EndsLine(s.out)) else s
  }

  /** The final CR is cut before the first operation that may fail. */
  function WriteLine(s: Scan, plan: Plan): Scan {
    var p := WithoutReturn(s.pending);
    if Rotates(s) && plan.NoRotation? then s.(pending := p, isOpen := false)
    else if Rotates(s) && plan.NoOpen? then
      s.(pending := p, isOpen := false, length := 0, inside := s.inside || !EndsLine(s.out))
    else Put(Target(s), p, plan)
  }

  /** What is pending goes to the file, whole or in part. */
  function Put(t: Scan, p: Bytes, plan: Plan): Scan {
    if !t.isOpen then t.(pending := p)
    else if plan.WriteFails? then
      var n := Min(plan.written, |p|);
      t.(pending := p, out := t.out + p[..n], length := t.length + n)
    else Scan(t.out + p + [LF], [], [], t.size + |p| + 1, t.length + |p| + 1, true, t.inside)
  }

  ghost function Step(markers: seq<Bytes>, s: Scan, i: Input): Scan {
    if i.byte != LF then Extend(s, i.byte)
    else if Sensitive(markers, s.line) then s.(line := [], pending := [])
    else WriteLine(s, i.plan)
  }

  ghost function After(markers: seq<Bytes>, s: Scan, inputs: seq<Input>): Scan {
    if inputs == [] then s
    else Step(markers, After(markers, s, inputs[..|inputs| - 1]), inputs[|inputs| - 1])
  }

  lemma AfterLast(markers: seq<Bytes>, s: Scan, inputs: seq<Input>, i: Input)
    ensures After(markers, s, inputs + [i]) == Step(markers, After(markers, s, inputs), i)
  {
    assert (inputs + [i])[..|inputs|] == inputs;
  }

  lemma {:induction false} AfterMore(markers: seq<Bytes>, s: Scan, a: seq<Input>, b: seq<Input>)
    ensures After(markers, s, a + b) == After(markers, After(markers, s, a), b)
  {
    if b == [] {
      assert a + b == a;
    } else {
      AfterMore(markers, s, a, b[..|b| - 1]);
      assert (a + b)[..|a + b| - 1] == a + b[..|b| - 1];
    }
  }

  function Stream(inputs: seq<Input>): Bytes {
    seq(|inputs|, k requires 0 <= k < |inputs| => inputs[k].byte)
  }

  function Working(bytes: Bytes): seq<Input> {
    seq(|bytes|, k requires 0 <= k < |bytes| => Input(bytes[k], Works))
  }

  predicate FaultFree(inputs: seq<Input>) {
    forall k :: 0 <= k < |inputs| ==> inputs[k].plan.Works?
  }

  // ---------- Reachable states ----------

  /** Holds in every run: a closed log is one that any longest line would rotate. */
  predicate Sound(s: Scan) {
    && |s.pending| <= MAX_LINE_BYTES && s.size <= MAX_LOG_BYTES
    && (!s.isOpen ==> s.size > 0 && s.size + MAX_LINE_BYTES + 1 > MAX_LOG_BYTES)
  }

  lemma SoundStep(markers: seq<Bytes>, s: Scan, i: Input)
    requires Sound(s)
    ensures Sound(Step(markers, s, i))
  {
  }

  lemma {:induction false} SoundAfter(markers: seq<Bytes>, s: Scan, inputs: seq<Input>)
    requires Sound(s)
    ensures Sound(After(markers, s, inputs))
  {
    if inputs != [] {
      SoundAfter(markers, s, inputs[..|inputs| - 1]);
      SoundStep(markers, After(markers, s, inputs[..|inputs| - 1]), inputs[|inputs| - 1]);
    }
  }

  /** Without failures the text written is the log of the stream. */
  lemma {:induction false} FaultFreeIsLog(markers: seq<Bytes>, size: nat, inputs: seq<Input>)
    requires FaultFree(inputs) && size <= MAX_LOG_BYTES
    ensures var s, stream := After(markers, Start(size), inputs), Stream(inputs);
      IsLog(s.out, markers, stream) && s.line == Rest(stream) && s.pending == Truncated(Rest(stream)) &&
      s.isOpen && s.size == s.length <= MAX_LOG_BYTES
  {
    if inputs == [] {
      assert Stream(inputs) == [];
    } else {
      var front, i := inputs[..|inputs| - 1], inputs[|inputs| - 1];
      FaultFreeIsLog(markers, size, front);
      assert Stream(inputs) == Stream(front) + [i.byte];
      FaultFreeStep(markers, After(markers, Start(size), front), Stream(front), i);
    }
  }

  lemma FaultFreeStep(markers: seq<Bytes>, s: Scan, stream: Bytes, i: Input)
    requires IsLog(s.out, markers, stream) && s.line == Rest(stream) && s.pending == Truncated(Rest(stream))
    requires s.isOpen && s.size == s.length <= MAX_LOG_BYTES && i.plan.Works?
    ensures var t, more := Step(markers, s, i), stream + [i.byte];
      IsLog(t.out, markers, more) && t.line == Rest(more) && t.pending == Truncated(Rest(more)) &&
      t.isOpen && t.size == t.length <= MAX_LOG_BYTES
  {
    if i.byte == LF {
      FaultFreeLine(markers, s, stream);
    } else {
      OtherByte(s.out, markers, stream, i.byte);
    }
  }

  lemma FaultFreeLine(markers: seq<Bytes>, s: Scan, stream: Bytes)
    requires IsLog(s.out, markers, stream) && s.line == Rest(stream) && s.pending == Truncated(Rest(stream))
    requires s.isOpen && s.size == s.length <= MAX_LOG_BYTES
    ensures var t, more := Step(markers, s, Input(LF, Works)), stream + [LF];
      IsLog(t.out, markers, more) && t.line == [] == Rest(more) && t.pending == [] &&
      t.isOpen && t.size == t.length <= MAX_LOG_BYTES
  {
    LineFeed(s.out, markers, stream);
    RestOfLine(stream);
    WrittenLine(markers, s.out, s.line);
    if !Sensitive(markers, s.line) {
      WorkingWrite(s);
    }
  }

  lemma WorkingWrite(s: Scan)
    requires s.isOpen && s.size == s.length <= MAX_LOG_BYTES && |s.pending| <= MAX_LINE_BYTES
    ensures var t := WriteLine(s, Works);
      t.out == s.out + WithoutReturn(s.pending) + [LF] && t.line == [] && t.pending == [] && t.isOpen &&
      t.size == t.length <= MAX_LOG_BYTES
  {
  }

  lemma WrittenLine(markers: seq<Bytes>, out: Bytes, line: Bytes)
    ensures out + Written(markers, line) ==
      if Sensitive(markers, line) then out else out + WithoutReturn(Truncated(line)) + [LF]
  {
  }

  // ---------- Sizes ----------

  /** The bytes that failed writes may have left behind. */
  function TornBytes(inputs: seq<Input>): nat {
    if inputs == [] then 0
    else
      var plan := inputs[|inputs| - 1].plan;
      TornBytes(inputs[..|inputs| - 1]) + if plan.WriteFails? then plan.written else 0
  }

  /** The current file is longer than 2 MiB by no more than failed writes have left there. Other failures do no harm. */
  lemma {:induction false} LengthKept(markers: seq<Bytes>, size: nat, inputs: seq<Input>)
    requires size <= MAX_LOG_BYTES
    ensures var s := After(markers, Start(size), inputs);
      Sound(s) && s.length <= s.size + TornBytes(inputs) <= MAX_LOG_BYTES + TornBytes(inputs)
  {
    if inputs != [] {
      LengthKept(markers, size, inputs[..|inputs| - 1]);
      SoundStep(markers, After(markers, Start(size), inputs[..|inputs| - 1]), inputs[|inputs| - 1]);
    }
  }

  /** A line is written in part. */
  predicate Tears(s: Scan, plan: Plan) {
    plan.WriteFails? && Min(plan.written, |WithoutReturn(s.pending)|) > 0 && Target(s).isOpen
  }

  /** A line is written in part, or the file was moved away and no other could be opened. */
  ghost predicate Spoils(markers: seq<Bytes>, s: Scan, i: Input) {
    i.byte == LF && !Sensitive(markers, s.line) && (Tears(s, i.plan) || (Rotates(s) && i.plan.NoOpen?))
  }

  /** A rotation opens a new file. */
  ghost predicate Renews(markers: seq<Bytes>, s: Scan, i: Input) {
    i.byte == LF && !Sensitive(markers, s.line) && Rotates(s) && (i.plan.Works? || i.plan.WriteFails?)
  }

  /** The ways the size can be wrong: too small for its file, or that of a file that is gone. */
  predicate Stale(s: Scan) {
    s.length > s.size || (s.length == 0 < s.size && !s.isOpen)
  }

  lemma StaleStep(markers: seq<Bytes>, s: Scan, i: Input)
    requires s.size == s.length || Stale(s)
    ensures var t := Step(markers, s, i);
      (t.size == t.length || Stale(t)) &&
      (Stale(t) <==> Spoils(markers, s, i) || (Stale(s) && !Renews(markers, s, i)))
  {
  }

  ghost predicate SpoiledAt(markers: seq<Bytes>, s: Scan, inputs: seq<Input>, k: nat)
    requires k < |inputs|
  {
    Spoils(markers, After(markers, s, inputs[..k]), inputs[k])
  }

  ghost predicate RenewedAt(markers: seq<Bytes>, s: Scan, inputs: seq<Input>, k: nat)
    requires k < |inputs|
  {
    Renews(markers, After(markers, s, inputs[..k]), inputs[k])
  }

  /** Some line spoiled the size, and no later rotation opened a new file. */
  ghost predicate SpoiledSince(markers: seq<Bytes>, s: Scan, inputs: seq<Input>, k: nat) {
    k < |inputs| && SpoiledAt(markers, s, inputs, k) && forall m :: k < m < |inputs| ==>
      !RenewedAt(markers, s, inputs, m)
  }

  lemma SpoiledLast(markers: seq<Bytes>, s: Scan, front: seq<Input>, i: Input)
    ensures (exists k :: SpoiledSince(markers, s, front + [i], k)) <==>
      Spoils(markers, After(markers, s, front), i) ||
      ((exists k :: SpoiledSince(markers, s, front, k)) && !Renews(markers, After(markers, s, front), i))
  {
    var inputs, n := front + [i], |front|;
    assert inputs[..n] == front;
    forall k: nat | k < n
      ensures SpoiledAt(markers, s, inputs, k) <==> SpoiledAt(markers, s, front, k)
      ensures RenewedAt(markers, s, inputs, k) <==> RenewedAt(markers, s, front, k)
    {
      assert inputs[..k] == front[..k];
    }
    if k: nat :| SpoiledSince(markers, s, front, k) {
      assert Renews(markers, After(markers, s, front), i) || SpoiledSince(markers, s, inputs, k);
    }
    if Spoils(markers, After(markers, s, front), i) {
      assert SpoiledSince(markers, s, inputs, n);
    }
    if k: nat :| SpoiledSince(markers, s, inputs, k) {
      assert k == n || (SpoiledSince(markers, s, front, k) && !RenewedAt(markers, s, inputs, n));
    }
  }

  /** In every run: the size the logger remembers is that of its file, unless some line was written in part, or lost
      the file to a rotation that could not open another, and no rotation has opened a new file since. */
  lemma {:induction false} SizeIsExact(markers: seq<Bytes>, size: nat, inputs: seq<Input>)
    ensures var s := After(markers, Start(size), inputs);
      (s.size == s.length || Stale(s)) &&
      (s.size == s.length <==> !exists k :: SpoiledSince(markers, Start(size), inputs, k))
  {
    if inputs != [] {
      var front, i := inputs[..|inputs| - 1], inputs[|inputs| - 1];
      assert inputs == front + [i];
      SizeIsExact(markers, size, front);
      AfterLast(markers, Start(size), front, i);
      StaleStep(markers, After(markers, Start(size), front), i);
      SpoiledLast(markers, Start(size), front, i);
    }
  }

  // ---------- Markers ----------

  /** The text ends with the first n bytes of the marker, and not with all of it. */
  predicate EndsIn(text: Bytes, marker: Bytes, n: int) {
    0 < n < |marker| && EndsWith(text, marker[..n])
  }

  /** The text ends inside a marker. */
  ghost predicate Opens(markers: seq<Bytes>, text: Bytes) {
    exists k, n :: 0 <= k < |markers| && EndsIn(text, markers[k], n)
  }

  /** What is pending ends inside a marker that would still fit, and the scanner would not see it completed. */
  ghost predicate Resumes(markers: seq<Bytes>, line: Bytes, pending: Bytes, k: int, n: int)
    requires 0 <= k < |markers|
  {
    && EndsIn(pending, markers[k], n) && |pending| + |markers[k]| - n <= MAX_LINE_BYTES
    && !Sensitive(markers, line + markers[k][n..])
  }

  /** What is pending holds a marker that the scanner has not seen, or could come to hold one. */
  ghost predicate Hides(markers: seq<Bytes>, line: Bytes, pending: Bytes) {
    Sensitive(markers, pending) || exists k, n :: 0 <= k < |markers| && Resumes(markers, line, pending, k, n)
  }

  /** Neither the text written ends inside a marker nor does the scanner miss one that is pending. */
  ghost predicate Harmless(markers: seq<Bytes>, s: Scan) {
    !Opens(markers, s.out) && (Sensitive(markers, s.line) || !Hides(markers, s.line, s.pending))
  }

  ghost predicate Safe(markers: seq<Bytes>, s: Scan) {
    !Sensitive(markers, s.out) && Harmless(markers, s)
  }

  lemma WritesToTarget(s: Scan, plan: Plan)
    requires plan.Works? || plan.WriteFails?
    ensures WriteLine(s, plan) == Put(Target(s), WithoutReturn(s.pending), plan)
    ensures Completes(s, plan) <==> Target(s).isOpen && plan.Works?
  {
  }

  /** A line is done with or stays as it was, but for its CR. */
  lemma LineEnds(markers: seq<Bytes>, s: Scan, plan: Plan)
    requires !Sensitive(markers, s.line)
    ensures var t := Step(markers, s, Input(LF, plan));
      t == WriteLine(s, plan) &&
      if Completes(s, plan) then t.line == [] && t.pending == []
      else t.line == s.line && t.pending == WithoutReturn(s.pending)
  {
  }

  /** A line should have been written and was not. */
  ghost predicate Fails(markers: seq<Bytes>, s: Scan, i: Input) {
    i.byte == LF && !Sensitive(markers, s.line) && !Completes(s, i.plan)
  }

  predicate Completes(s: Scan, plan: Plan) {
    if Rotates(s) then plan.Works? else s.isOpen && !plan.WriteFails?
  }

  /** Where a marker stands in two texts put together. */
  lemma Across(a: Bytes, b: Bytes, marker: Bytes)
    requires Contains(a + b, marker)
    ensures Contains(a, marker) || Contains(b, marker) || exists n :: EndsIn(a, marker, n) && marker[n..] <= b
  {
    var i :| At(a + b, marker, i);
    if i + |marker| <= |a| {
      AtPrefix(a, b, marker, i);
    } else if i >= |a| {
      assert b[i - |a|..i - |a| + |marker|] == (a + b)[i..i + |marker|];
      assert At(b, marker, i - |a|);
    } else {
      var n := |a| - i;
      assert (a + b)[i..i + |marker|] == a[i..] + b[..|marker| - n];
      assert marker[..n] == a[i..] && marker[n..] == b[..|marker| - n];
      assert EndsIn(a, marker, n);
    }
  }

  lemma Within(a: Bytes, b: Bytes, c: Bytes, marker: Bytes)
    requires Contains(b, marker)
    ensures Contains(a + b + c, marker)
  {
    var i :| At(b, marker, i);
    assert (a + b + c)[|a| + i..|a| + i + |marker|] == b[i..i + |marker|];
    assert At(a + b + c, marker, |a| + i);
  }

  lemma MoreStaysSensitive(markers: seq<Bytes>, a: Bytes, b: Bytes, c: Bytes)
    requires Sensitive(markers, b)
    ensures Sensitive(markers, a + b + c)
  {
    var k :| 0 <= k < |markers| && Contains(b, markers[k]);
    Within(a, b, c, markers[k]);
  }

  lemma PrefixStaysQuiet(markers: seq<Bytes>, text: Bytes, more: Bytes)
    requires !Sensitive(markers, text + more)
    ensures !Sensitive(markers, text)
  {
    assert [] + text + more == text + more;
    if Sensitive(markers, text) {
      MoreStaysSensitive(markers, [], text, more);
    }
  }

  /** Text that does not end inside a marker can be followed by any quiet text. */
  lemma QuietJoin(markers: seq<Bytes>, a: Bytes, b: Bytes)
    requires !Sensitive(markers, a) && !Sensitive(markers, b) && !Opens(markers, a)
    ensures !Sensitive(markers, a + b)
  {
    forall k | 0 <= k < |markers|
      ensures !Contains(a + b, markers[k])
    {
      if Contains(a + b, markers[k]) {
        Across(a, b, markers[k]);
      }
    }
  }

  lemma ControlCloses(markers: seq<Bytes>, text: Bytes, b: Byte)
    requires MarkerSet(markers) && b <= CR
    ensures !Opens(markers, text + [b])
  {
    forall k, n | 0 <= k < |markers| && 0 < n < |markers[k]|
      ensures !EndsWith(text + [b], markers[k][..n])
    {
      assert markers[k][..n][n - 1] > CR;
    }
  }

  lemma QuietEnd(markers: seq<Bytes>, text: Bytes, b: Byte)
    requires MarkerSet(markers) && b <= CR && !Sensitive(markers, text)
    ensures !Sensitive(markers, text + [b])
  {
    forall k | 0 <= k < |markers|
      ensures !Contains(text + [b], markers[k])
    {
      ContainsLast(text, b, markers[k]);
      assert markers[k][|markers[k]| - 1] > CR;
    }
  }

  lemma CutStaysQuiet(markers: seq<Bytes>, pending: Bytes, n: nat)
    requires !Sensitive(markers, pending) && n <= |WithoutReturn(pending)|
    ensures !Sensitive(markers, WithoutReturn(pending)[..n])
  {
    assert pending == WithoutReturn(pending)[..n] + pending[n..];
    PrefixStaysQuiet(markers, WithoutReturn(pending)[..n], pending[n..]);
  }

  // ---------- What keeps the log clean ----------

  /** A byte of a line leads nowhere that was not open before. */
  lemma ExtendKeepsHidden(markers: seq<Bytes>, s: Scan, b: Byte)
    requires MarkerSet(markers) && Hides(markers, Extend(s, b).line, Extend(s, b).pending)
    requires !Sensitive(markers, s.line + [b])
    ensures Hides(markers, s.line, s.pending)
  {
    var t := Extend(s, b);
    if Sensitive(markers, t.pending) {
      var k :| 0 <= k < |markers| && Contains(t.pending, markers[k]);
      if t.pending != s.pending {
        ContainsLast(s.pending, b, markers[k]);
        if !Contains(s.pending, markers[k]) {
          assert t.line + markers[k][|markers[k]|..] == t.line;
          ResumesBefore(markers, s.line, s.pending, b, k, |markers[k]|);
        }
      }
    } else {
      var k, n :| 0 <= k < |markers| && Resumes(markers, t.line, t.pending, k, n);
      assert t.pending != s.pending;
      ResumesBefore(markers, s.line, s.pending, b, k, n);
    }
  }

  lemma HoldsItself(a: Bytes, marker: Bytes)
    ensures Contains(a + marker, marker)
  {
    assert (a + marker)[|a|..|a| + |marker|] == marker;
    assert At(a + marker, marker, |a|);
  }

  lemma ResumesBefore(markers: seq<Bytes>, line: Bytes, pending: Bytes, b: Byte, k: nat, n: nat)
    requires MarkerSet(markers) && k < |markers| && 0 < n <= |markers[k]|
    requires EndsWith(pending + [b], markers[k][..n]) && |pending| + 1 + |markers[k]| - n <= MAX_LINE_BYTES
    requires !Sensitive(markers, line + [b] + markers[k][n..])
    ensures n > 1 && Resumes(markers, line, pending, k, n - 1)
  {
    var m := markers[k];
    var text := pending + [b];
    assert m[..n][n - 1] == b == m[n - 1];
    assert line + [b] + m[n..] == line + m[n - 1..];
    HoldsItself(line, m);
    assert m[0..] == m;
    assert pending[|pending| - (n - 1)..] == text[|text| - n..][..n - 1] == m[..n - 1];
  }

  lemma ExtendStaysHarmless(markers: seq<Bytes>, s: Scan, b: Byte)
    requires MarkerSet(markers) && Harmless(markers, s)
    ensures Harmless(markers, Extend(s, b))
  {
    var t := Extend(s, b);
    if !Sensitive(markers, t.line) {
      PrefixStaysQuiet(markers, s.line, [b]);
      if Hides(markers, t.line, t.pending) {
        ExtendKeepsHidden(markers, s, b);
      }
    }
  }

  lemma NothingHidden(markers: seq<Bytes>)
    requires MarkerSet(markers)
    ensures !Hides(markers, [], [])
  {
    NothingIsInsensitive(markers);
  }

  /** However it ends, writing a line writes no marker when nothing was hidden. */
  lemma WritingStaysClean(markers: seq<Bytes>, s: Scan, plan: Plan)
    requires MarkerSet(markers) && Safe(markers, s) && !Sensitive(markers, s.line)
    ensures !Sensitive(markers, WriteLine(s, plan).out)
  {
    var p := WithoutReturn(s.pending);
    var t := WriteLine(s, plan);
    CutStaysQuiet(markers, s.pending, |p|);
    assert p[..|p|] == p;
    if t.line == [] && t.out == s.out + p + [LF] {
      QuietEnd(markers, p, LF);
      QuietJoin(markers, s.out, p + [LF]);
      assert s.out + p + [LF] == s.out + (p + [LF]);
    } else if t.out != s.out {
      var n := Min(plan.written, |p|);
      CutStaysQuiet(markers, s.pending, n);
      QuietJoin(markers, s.out, p[..n]);
    }
  }

  /** Only a failed line can do harm. */
  lemma StepStaysSafe(markers: seq<Bytes>, s: Scan, i: Input)
    requires MarkerSet(markers) && Safe(markers, s)
    ensures !Sensitive(markers, Step(markers, s, i).out)
    ensures !Fails(markers, s, i) ==> Safe(markers, Step(markers, s, i))
  {
    if i.byte != LF {
      ExtendStaysHarmless(markers, s, i.byte);
    } else {
      NothingHidden(markers);
      if !Sensitive(markers, s.line) {
        WritingStaysClean(markers, s, i.plan);
        if Completes(s, i.plan) {
          ControlCloses(markers, s.out + WithoutReturn(s.pending), LF);
        }
      }
    }
  }

  ghost predicate HarmlessAt(markers: seq<Bytes>, s: Scan, inputs: seq<Input>, k: nat)
    requires k < |inputs|
  {
    var t := After(markers, s, inputs[..k]);
    Fails(markers, t, inputs[k]) ==> Harmless(markers, Step(markers, t, inputs[k]))
  }

  /** Every line that failed was left in a harmless state. */
  ghost predicate HarmlessFailures(markers: seq<Bytes>, s: Scan, inputs: seq<Input>) {
    forall k :: 0 <= k < |inputs| ==> HarmlessAt(markers, s, inputs, k)
  }

  lemma HarmlessLast(markers: seq<Bytes>, s: Scan, front: seq<Input>, i: Input)
    ensures HarmlessFailures(markers, s, front + [i]) <==>
      HarmlessFailures(markers, s, front) && HarmlessAt(markers, s, front + [i], |front|)
  {
    var inputs := front + [i];
    forall k | 0 <= k < |front|
      ensures HarmlessAt(markers, s, inputs, k) <==> HarmlessAt(markers, s, front, k)
    {
      assert inputs[..k] == front[..k];
    }
  }

  /** If no failure was harmful, nothing that was ever written holds a marker. */
  lemma {:induction false} HarmlessFailuresKeepClean(markers: seq<Bytes>, s: Scan, inputs: seq<Input>)
    requires MarkerSet(markers) && Safe(markers, s) && HarmlessFailures(markers, s, inputs)
    ensures Safe(markers, After(markers, s, inputs))
  {
    if inputs != [] {
      var front, i := inputs[..|inputs| - 1], inputs[|inputs| - 1];
      assert inputs == front + [i];
      HarmlessLast(markers, s, front, i);
      HarmlessFailuresKeepClean(markers, s, front);
      StepStaysSafe(markers, After(markers, s, front), i);
    }
  }

  /** A failure is harmless unless it cut a CR or left part of a line behind. */
  lemma OtherFailuresAreHarmless(markers: seq<Bytes>, s: Scan, i: Input)
    requires MarkerSet(markers) && Safe(markers, s) && Fails(markers, s, i)
    requires WithoutReturn(s.pending) == s.pending && !Tears(s, i.plan)
    ensures Harmless(markers, Step(markers, s, i))
  {
    assert s.out + WithoutReturn(s.pending)[..0] == s.out;
  }

  /** The exact condition on a failure: the part left behind does not end inside a marker, and what is pending
      without its CR does not end inside one that the scanner would miss. */
  lemma FailureIsHarmless(markers: seq<Bytes>, s: Scan, i: Input)
    requires MarkerSet(markers) && Safe(markers, s) && Fails(markers, s, i)
    ensures Harmless(markers, Step(markers, s, i)) <==>
      !Opens(markers, Step(markers, s, i).out) &&
      forall k, n :: 0 <= k < |markers| ==> !Resumes(markers, s.line, WithoutReturn(s.pending), k, n)
  {
    CutStaysQuiet(markers, s.pending, |WithoutReturn(s.pending)|);
    assert WithoutReturn(s.pending)[..|WithoutReturn(s.pending)|] == WithoutReturn(s.pending);
  }

  // ---------- What a harmful failure leads to ----------

  function Zeros(n: nat): Bytes {
    seq(n, k => 0)
  }

  lemma TruncatedMore(text: Bytes, b: Byte)
    ensures Truncated(text + [b]) ==
      if |Truncated(text)| < MAX_LINE_BYTES then Truncated(text) + [b] else Truncated(text)
  {
  }

  function Fed(s: Scan, bytes: Bytes): Scan {
    s.(line := s.line + bytes, pending := Truncated(s.pending + bytes))
  }

  lemma FedLast(s: Scan, front: Bytes, b: Byte)
    ensures Extend(Fed(s, front), b) == Fed(s, front + [b])
  {
    assert s.line + (front + [b]) == s.line + front + [b] && s.pending + (front + [b]) == (s.pending + front) + [b];
    TruncatedMore(s.pending + front, b);
  }

  /** Bytes without a line feed only extend the line. */
  lemma {:induction false} Feed(markers: seq<Bytes>, s: Scan, bytes: Bytes)
    requires LF !in bytes && |s.pending| <= MAX_LINE_BYTES
    ensures After(markers, s, Working(bytes)) == Fed(s, bytes)
  {
    if bytes == [] {
      assert s.line + bytes == s.line && s.pending + bytes == s.pending;
    } else {
      var front, b := bytes[..|bytes| - 1], bytes[|bytes| - 1];
      Feed(markers, s, front);
      assert bytes == front + [b] && Working(bytes) == Working(front) + [Input(b, Works)];
      AfterLast(markers, s, Working(front), Input(b, Works));
      FedLast(s, front, b);
    }
  }

  /** Zeros stand in no marker, so they change nothing about what a text holds. */
  lemma ZerosAreQuiet(markers: seq<Bytes>, text: Bytes, n: nat)
    requires MarkerSet(markers)
    ensures Sensitive(markers, text + Zeros(n)) <==> Sensitive(markers, text)
  {
    if Sensitive(markers, text) {
      MoreStaysSensitive(markers, [], text, Zeros(n));
      assert [] + text + Zeros(n) == text + Zeros(n);
    }
    forall k | 0 <= k < |markers| && Contains(text + Zeros(n), markers[k])
      ensures Contains(text, markers[k])
    {
      var i :| At(text + Zeros(n), markers[k], i);
      var last := |markers[k]| - 1;
      assert (text + Zeros(n))[i + last] == markers[k][last];
      AtPrefix(text, Zeros(n), markers[k], i);
    }
  }

  /** What is pending once a text and then zeros were read. */
  function Filled(pending: Bytes, text: Bytes): Bytes {
    Truncated(pending + text + Zeros(MAX_LINE_BYTES))
  }

  function FullLine(text: Bytes): Bytes {
    text + Zeros(MAX_LINE_BYTES)
  }

  lemma FeedFullLine(markers: seq<Bytes>, s: Scan, text: Bytes) returns (t: Scan)
    requires MarkerSet(markers) && |s.pending| <= MAX_LINE_BYTES && LF !in text && !Sensitive(markers, s.line + text)
    ensures t == After(markers, s, Working(FullLine(text))) && !Sensitive(markers, t.line)
    ensures t == s.(line := t.line, pending := Filled(s.pending, text))
  {
    Feed(markers, s, FullLine(text));
    t := After(markers, s, Working(FullLine(text)));
    assert s.line + FullLine(text) == (s.line + text) + Zeros(MAX_LINE_BYTES);
    assert s.pending + FullLine(text) == s.pending + text + Zeros(MAX_LINE_BYTES);
    ZerosAreQuiet(markers, s.line + text, MAX_LINE_BYTES);
  }

  /** A failed line leaves no CR at the end of a full buffer. */
  predicate Plain(pending: Bytes) {
    |pending| <= MAX_LINE_BYTES && (|pending| == MAX_LINE_BYTES ==> WithoutReturn(pending) == pending)
  }

  predicate Printable(text: Bytes) {
    forall i :: 0 <= i < |text| ==> text[i] > CR
  }

  lemma FilledIsPlain(pending: Bytes, text: Bytes)
    requires Plain(pending) && Printable(text)
    ensures |Filled(pending, text)| == MAX_LINE_BYTES && WithoutReturn(Filled(pending, text)) == Filled(pending, text)
  {
    var f, last := Filled(pending, text), MAX_LINE_BYTES - 1;
    assert |pending + text + Zeros(MAX_LINE_BYTES)| >= MAX_LINE_BYTES;
    assert f[last] ==
      if last < |pending| then pending[last] else if last < |pending| + |text| then text[last - |pending|] else 0;
  }

  /** A line filled up with zeros is written, even if a rotation has to open the log again for it. */
  lemma FullLineIsWritten(markers: seq<Bytes>, s: Scan, text: Bytes)
    requires MarkerSet(markers) && Sound(s) && Plain(s.pending) && Printable(text) && !Sensitive(markers, s.line + text)
    ensures var t := After(markers, s, Working(FullLine(text)));
      !Fails(markers, t, Input(LF, Works)) &&
      After(markers, s, Working(FullLine(text) + [LF])).out == s.out + Filled(s.pending, text) + [LF]
  {
    var t := FeedFullLine(markers, s, text);
    assert Working(FullLine(text) + [LF]) == Working(FullLine(text)) + [Input(LF, Works)];
    AfterLast(markers, s, Working(FullLine(text)), Input(LF, Works));
    FilledIsPlain(s.pending, text);
  }

  /** No line fails. */
  ghost predicate Smooth(markers: seq<Bytes>, s: Scan, inputs: seq<Input>) {
    inputs != [] ==>
      Smooth(markers, s, inputs[..|inputs| - 1]) &&
      !Fails(markers, After(markers, s, inputs[..|inputs| - 1]), inputs[|inputs| - 1])
  }

  lemma SmoothLast(markers: seq<Bytes>, s: Scan, inputs: seq<Input>, i: Input)
    ensures Smooth(markers, s, inputs + [i]) <==>
      Smooth(markers, s, inputs) && !Fails(markers, After(markers, s, inputs), i)
  {
    assert (inputs + [i])[..|inputs|] == inputs;
  }

  lemma {:induction false} SmoothMore(markers: seq<Bytes>, s: Scan, a: seq<Input>, b: seq<Input>)
    requires Smooth(markers, s, a) && Smooth(markers, After(markers, s, a), b)
    ensures Smooth(markers, s, a + b)
  {
    if b == [] {
      assert a + b == a;
    } else {
      var front, i := b[..|b| - 1], b[|b| - 1];
      assert b == front + [i];
      SmoothLast(markers, After(markers, s, a), front, i);
      SmoothMore(markers, s, a, front);
      AfterMore(markers, s, a, front);
      assert a + b == (a + front) + [i];
      SmoothLast(markers, s, a + front, i);
    }
  }

  lemma {:induction false} LinePartIsSmooth(markers: seq<Bytes>, s: Scan, bytes: Bytes)
    requires LF !in bytes
    ensures Smooth(markers, s, Working(bytes))
  {
    if bytes != [] {
      var front, b := bytes[..|bytes| - 1], bytes[|bytes| - 1];
      LinePartIsSmooth(markers, s, front);
      assert bytes == front + [b] && Working(bytes) == Working(front) + [Input(b, Works)];
      SmoothLast(markers, s, Working(front), Input(b, Works));
    }
  }

  lemma {:induction false} SmoothIsHarmless(markers: seq<Bytes>, s: Scan, inputs: seq<Input>)
    requires Smooth(markers, s, inputs)
    ensures HarmlessFailures(markers, s, inputs)
  {
    if inputs != [] {
      var front, i := inputs[..|inputs| - 1], inputs[|inputs| - 1];
      assert inputs == front + [i];
      SmoothIsHarmless(markers, s, front);
      HarmlessLast(markers, s, front, i);
    }
  }

  /** A full line that begins with a text, as inputs. */
  function LineOf(text: Bytes): seq<Input> {
    Working(FullLine(text) + [LF])
  }

  lemma LineIsSmooth(markers: seq<Bytes>, s: Scan, text: Bytes)
    requires MarkerSet(markers) && Sound(s) && Plain(s.pending) && Printable(text) && !Sensitive(markers, s.line + text)
    ensures Smooth(markers, s, LineOf(text))
    ensures After(markers, s, LineOf(text)).out == s.out + Filled(s.pending, text) + [LF]
  {
    FullLineIsWritten(markers, s, text);
    LinePartIsSmooth(markers, s, FullLine(text));
    assert LineOf(text) == Working(FullLine(text)) + [Input(LF, Works)];
    SmoothLast(markers, s, Working(FullLine(text)), Input(LF, Works));
  }

  lemma FilledBegins(pending: Bytes, text: Bytes) returns (rest: Bytes)
    requires |pending| + |text| <= MAX_LINE_BYTES
    ensures Filled(pending, text) == pending + text + rest
  {
    rest := Zeros(MAX_LINE_BYTES - |pending| - |text|);
  }

  /** Drops the unfinished line, by a marker if it has none. */
  lemma DropLine(markers: seq<Bytes>, s: Scan) returns (more: seq<Input>)
    requires MarkerSet(markers) && Sound(s)
    ensures Smooth(markers, s, more) && After(markers, s, more) == s.(line := [], pending := [])
  {
    var marker := if Sensitive(markers, s.line) then [] else markers[0];
    assert LF !in marker;
    Feed(markers, s, marker);
    LinePartIsSmooth(markers, s, marker);
    var t := After(markers, s, Working(marker));
    if marker == [] {
      assert s.line + marker == s.line;
    } else {
      HoldsItself(s.line, marker);
    }
    more := Working(marker) + [Input(LF, Works)];
    AfterLast(markers, s, Working(marker), Input(LF, Works));
    SmoothLast(markers, s, Working(marker), Input(LF, Works));
  }

  lemma Completed(a: Bytes, b: Bytes, rest: Bytes, marker: Bytes, n: nat)
    requires n <= |marker| && EndsWith(a, marker[..n]) && marker[n..] == b
    ensures Contains(a + (b + rest), marker)
  {
    var text := a + (b + rest);
    assert text[|a| - n..|a| - n + |marker|] == marker[..n] + marker[n..] == marker;
    assert At(text, marker, |a| - n);
  }

  /** From a harmful state some bytes, with no further failure, get a marker written. */
  lemma HarmShows(markers: seq<Bytes>, s: Scan) returns (more: seq<Input>)
    requires MarkerSet(markers) && Independent(markers) && Sound(s) && Plain(s.pending) && !Harmless(markers, s)
    ensures Smooth(markers, s, more) && Sensitive(markers, After(markers, s, more).out)
  {
    if Opens(markers, s.out) {
      more := OpenTextShows(markers, s);
    } else if Sensitive(markers, s.pending) {
      more := PendingShows(markers, s);
    } else {
      var k, n :| 0 <= k < |markers| && Resumes(markers, s.line, s.pending, k, n);
      more := ResumedShows(markers, s, k, n);
    }
  }

  lemma PendingShows(markers: seq<Bytes>, s: Scan) returns (more: seq<Input>)
    requires MarkerSet(markers) && Sound(s) && Plain(s.pending) && !Sensitive(markers, s.line)
    requires Sensitive(markers, s.pending)
    ensures Smooth(markers, s, more) && Sensitive(markers, After(markers, s, more).out)
  {
    assert s.line + [] == s.line;
    LineIsSmooth(markers, s, []);
    more := LineOf([]);
    FilledShows(markers, s.out, s.pending);
  }

  lemma FilledShows(markers: seq<Bytes>, out: Bytes, pending: Bytes)
    requires Sensitive(markers, pending) && |pending| <= MAX_LINE_BYTES
    ensures Sensitive(markers, out + Filled(pending, []) + [LF])
  {
    var rest := FilledBegins(pending, []);
    MoreStaysSensitive(markers, out, pending, rest + [LF]);
    assert out + (pending + [] + rest) + [LF] == out + pending + (rest + [LF]);
  }

  lemma ResumedShows(markers: seq<Bytes>, s: Scan, k: nat, n: nat) returns (more: seq<Input>)
    requires MarkerSet(markers) && Sound(s) && Plain(s.pending) && k < |markers|
    requires Resumes(markers, s.line, s.pending, k, n)
    ensures Smooth(markers, s, more) && Sensitive(markers, After(markers, s, more).out)
  {
    var text := markers[k][n..];
    LineIsSmooth(markers, s, text);
    more := LineOf(text);
    var rest := FilledBegins(s.pending, text);
    Completed(s.pending, text, rest, markers[k], n);
    assert s.pending + text + rest == s.pending + (text + rest);
    MoreStaysSensitive(markers, s.out, Filled(s.pending, text), [LF]);
  }

  lemma OpenTextShows(markers: seq<Bytes>, s: Scan) returns (more: seq<Input>)
    requires MarkerSet(markers) && Independent(markers) && Sound(s) && Opens(markers, s.out)
    ensures Smooth(markers, s, more) && Sensitive(markers, After(markers, s, more).out)
  {
    var k, n :| 0 <= k < |markers| && EndsIn(s.out, markers[k], n);
    var text := markers[k][n..];
    var drop := DropLine(markers, s);
    var t := After(markers, s, drop);
    FragmentIsQuiet(markers, k, n, |markers[k]|);
    assert markers[k][n..|markers[k]|] == text && [] + text == text;
    LineIsSmooth(markers, t, text);
    SmoothMore(markers, s, drop, LineOf(text));
    AfterMore(markers, s, drop, LineOf(text));
    more := drop + LineOf(text);
    OpenTextCompletes(s.out, text, markers[k], n);
  }

  lemma OpenTextCompletes(out: Bytes, text: Bytes, marker: Bytes, n: nat)
    requires n <= |marker| && EndsWith(out, marker[..n]) && marker[n..] == text && |text| <= MAX_LINE_BYTES
    ensures Contains(out + Filled([], text) + [LF], marker)
  {
    var rest := FilledBegins([], text);
    Completed(out, text, rest + [LF], marker, n);
    assert out + ([] + text + rest) + [LF] == out + (text + (rest + [LF]));
  }

  /** Nothing that can follow without another failure ever gets a marker written. */
  ghost predicate NeverShows(markers: seq<Bytes>, s: Scan) {
    forall more :: Smooth(markers, s, more) ==> !Sensitive(markers, After(markers, s, more).out)
  }

  lemma SafeNeverShows(markers: seq<Bytes>, s: Scan)
    requires MarkerSet(markers) && Safe(markers, s)
    ensures NeverShows(markers, s)
  {
    forall more | Smooth(markers, s, more)
      ensures !Sensitive(markers, After(markers, s, more).out)
    {
      SmoothIsHarmless(markers, s, more);
      HarmlessFailuresKeepClean(markers, s, more);
    }
  }

  lemma FailsPlain(markers: seq<Bytes>, s: Scan, i: Input)
    requires Sound(s) && Fails(markers, s, i)
    ensures Plain(Step(markers, s, i).pending)
  {
  }

  /** A failure was harmless exactly when nothing that can follow without another failure ever gets a marker written.
      The text meant is that of all files read in order: a marker may begin at the end of one file and go on in the
      next. */
  lemma HarmlessExactly(markers: seq<Bytes>, s: Scan, i: Input)
    requires MarkerSet(markers) && Independent(markers) && Sound(s) && Safe(markers, s) && Fails(markers, s, i)
    ensures Harmless(markers, Step(markers, s, i)) <==> NeverShows(markers, Step(markers, s, i))
  {
    var t := Step(markers, s, i);
    StepStaysSafe(markers, s, i);
    if Harmless(markers, t) {
      SafeNeverShows(markers, t);
    } else {
      SoundStep(markers, s, i);
      FailsPlain(markers, s, i);
      var more := HarmShows(markers, t);
      assert Smooth(markers, t, more) && Sensitive(markers, After(markers, t, more).out);
    }
  }

  // ---------- Failing inputs ----------

  lemma StartIsSafe(markers: seq<Bytes>, size: nat)
    requires MarkerSet(markers) && size <= MAX_LOG_BYTES
    ensures Safe(markers, Start(size)) && Sound(Start(size))
  {
    NothingHidden(markers);
    NothingIsInsensitive(markers);
  }

  lemma WriteFailsAt(s: Scan, written: nat)
    requires s.size == 0 && s.isOpen && written <= |WithoutReturn(s.pending)|
    ensures var p := WithoutReturn(s.pending);
      WriteLine(s, WriteFails(written)) == Scan(s.out + p[..written], s.line, p, 0, s.length + written, true, s.inside)
  {
  }

  /** A quiet line whose write fails. */
  lemma FailedLine(markers: seq<Bytes>, text: Bytes, written: nat) returns (t: Scan)
    requires LF !in text && |text| <= MAX_LINE_BYTES && !Sensitive(markers, text) && written <= |WithoutReturn(text)|
    ensures t == After(markers, Start(0), Working(text) + [Input(LF, WriteFails(written))])
    ensures t == Scan(WithoutReturn(text)[..written], text, WithoutReturn(text), 0, written, true, false)
  {
    var s := Start(0).(line := text, pending := text);
    assert [] + text == text;
    Feed(markers, Start(0), text);
    AfterLast(markers, Start(0), Working(text), Input(LF, WriteFails(written)));
    WriteFailsAt(s, written);
    t := WriteLine(s, WriteFails(written));
    assert [] + WithoutReturn(text)[..written] == WithoutReturn(text)[..written];
  }

  /** The two parts of a marker are quiet, also with a CR between them. */
  lemma PartsAreQuiet(markers: seq<Bytes>, k: nat, n: nat)
    requires MarkerSet(markers) && Independent(markers) && k < |markers| && 0 < n < |markers[k]|
    ensures Printable(markers[k][..n]) && Printable(markers[k][n..])
    ensures !Sensitive(markers, markers[k][..n]) && !Sensitive(markers, markers[k][..n] + [CR])
    ensures !Sensitive(markers, markers[k][..n] + [CR] + markers[k][n..])
  {
    var q, r := markers[k][..n], markers[k][n..];
    FragmentIsQuiet(markers, k, 0, n);
    FragmentIsQuiet(markers, k, n, |markers[k]|);
    assert markers[k][0..n] == q && markers[k][n..|markers[k]|] == r;
    QuietEnd(markers, q, CR);
    ControlCloses(markers, q, CR);
    QuietJoin(markers, q + [CR], r);
  }

  /** A quiet line is written as it stands. */
  lemma QuietLineIsWritten(markers: seq<Bytes>, s: Scan, text: Bytes)
    requires MarkerSet(markers) && Printable(text) && !Sensitive(markers, s.line + text)
    requires s.isOpen && s.size == 0 && 0 < |text| && |s.pending + text| <= MAX_LINE_BYTES
    ensures After(markers, s, Working(text) + [Input(LF, Works)]).out == s.out + (s.pending + text) + [LF]
  {
    assert LF !in text;
    Feed(markers, s, text);
    AfterLast(markers, s, Working(text), Input(LF, Works));
    assert WithoutReturn(s.pending + text) == s.pending + text;
  }

  /** A marker cut by a CR and a line feed. */
  function CutMarker(marker: Bytes, n: nat): seq<Input>
    requires n <= |marker|
  {
    Working(marker[..n] + [CR]) + [Input(LF, WriteFails(0))] + (Working(marker[n..]) + [Input(LF, Works)])
  }

  /** When the write of that line feed fails, the next one writes the marker whole. */
  lemma ReturnHidesMarker(markers: seq<Bytes>, k: nat, n: nat)
    requires MarkerSet(markers) && Independent(markers) && k < |markers| && 0 < n < |markers[k]|
    ensures Stream(CutMarker(markers[k], n)) == markers[k][..n] + [CR, LF] + markers[k][n..] + [LF]
    ensures After(markers, Start(0), CutMarker(markers[k], n)).out == markers[k] + [LF]
  {
    var q, r := markers[k][..n], markers[k][n..];
    CutMarkerStream(markers[k], n);
    PartsAreQuiet(markers, k, n);
    CutIsRejoined(markers, q, r);
    assert q + r == markers[k];
  }

  lemma CutMarkerStream(marker: Bytes, n: nat)
    requires n <= |marker|
    ensures Stream(CutMarker(marker, n)) == marker[..n] + [CR, LF] + marker[n..] + [LF]
  {
  }

  lemma CutIsRejoined(markers: seq<Bytes>, q: Bytes, r: Bytes)
    requires MarkerSet(markers) && Printable(q) && Printable(r) && 0 < |r| && |q + r| < MAX_LINE_BYTES
    requires !Sensitive(markers, q + [CR]) && !Sensitive(markers, q + [CR] + r)
    ensures After(markers, Start(0),
      Working(q + [CR]) + [Input(LF, WriteFails(0))] + (Working(r) + [Input(LF, Works)])).out == q + r + [LF]
  {
    var first, second := Working(q + [CR]) + [Input(LF, WriteFails(0))], Working(r) + [Input(LF, Works)];
    assert WithoutReturn(q + [CR]) == q && q[..0] == [];
    var t := FailedLine(markers, q + [CR], 0);
    QuietLineIsWritten(markers, t, r);
    AfterMore(markers, Start(0), first, second);
    assert [] + (q + r) == q + r;
  }

  /** So `CY_KAF_IN`, CR, a line feed that fails, `IT` and a line feed write `CY_KAF_INIT`. */
  lemma InitMarkerSlipsThrough()
    ensures MarkerText(INIT_MARKER) && |INIT_MARKER| == 11
    ensures var init := AsBytes(INIT_MARKER);
      After(SensitiveMarkers(), Start(0), CutMarker(init, 9)).out == init + [LF] && init in SensitiveMarkers()
  {
    MarkerTexts();
    MarkersAreIndependent();
    ReturnHidesMarker(SensitiveMarkers(), 0, 9);
    assert SensitiveMarkers()[0] == AsBytes(INIT_MARKER);
  }

  /** Part of a marker left behind by a failed write, a dropped line, and the rest of the marker. */
  lemma TornLineHidesMarker(markers: seq<Bytes>, k: nat, n: nat) returns (inputs: seq<Input>)
    requires MarkerSet(markers) && Independent(markers) && k < |markers| && 0 < n < |markers[k]|
    ensures Sensitive(markers, After(markers, Start(0), inputs).out)
    ensures Working(markers[k][..n]) + [Input(LF, WriteFails(n))] <= inputs
  {
    var q := markers[k][..n];
    PartsAreQuiet(markers, k, n);
    assert WithoutReturn(q) == q && q[..n] == q;
    var t := FailedLine(markers, q, n);
    assert EndsIn(t.out, markers[k], n);
    var more := OpenTextShows(markers, t);
    AfterMore(markers, Start(0), Working(q) + [Input(LF, WriteFails(n))], more);
    inputs := Working(q) + [Input(LF, WriteFails(n))] + more;
  }

  /** The same line written twice, the first time without its end, takes a full file over 2 MiB. */
  lemma TornLineOverfills(markers: seq<Bytes>) returns (inputs: seq<Input>)
    requires MarkerSet(markers)
    ensures |inputs| == 6
    ensures After(markers, Start(MAX_LOG_BYTES - 5), inputs).length == MAX_LOG_BYTES + 4
  {
    var s := FourZeros(markers);
    var fault := Input(LF, WriteFails(4));
    inputs := Working(Zeros(4)) + [fault] + [Input(LF, Works)];
    AfterLast(markers, Start(MAX_LOG_BYTES - 5), Working(Zeros(4)), fault);
    AfterLast(markers, Start(MAX_LOG_BYTES - 5), Working(Zeros(4)) + [fault], Input(LF, Works));
  }

  lemma FourZeros(markers: seq<Bytes>) returns (s: Scan)
    requires MarkerSet(markers)
    ensures s == After(markers, Start(MAX_LOG_BYTES - 5), Working(Zeros(4)))
    ensures s == Start(MAX_LOG_BYTES - 5).(line := Zeros(4), pending := Zeros(4)) && !Sensitive(markers, s.line)
  {
    s := After(markers, Start(MAX_LOG_BYTES - 5), Working(Zeros(4)));
    Feed(markers, Start(MAX_LOG_BYTES - 5), Zeros(4));
    assert [] + Zeros(4) == Zeros(4);
    NothingIsInsensitive(markers);
    ZerosAreQuiet(markers, [], 4);
  }

  /** A rotation that moved the file away and could not open another leaves the size of a file that is gone. */
  lemma LostFileKeepsItsSize(markers: seq<Bytes>) returns (inputs: seq<Input>)
    requires MarkerSet(markers)
    ensures |inputs| == 6
    ensures var s := After(markers, Start(MAX_LOG_BYTES - 5), inputs); s.size == MAX_LOG_BYTES - 5 && s.length == 0
  {
    var s := FourZeros(markers);
    var t := Step(markers, s, Input(1, Works));
    inputs := Working(Zeros(4)) + [Input(1, Works)] + [Input(LF, NoOpen)];
    AfterLast(markers, Start(MAX_LOG_BYTES - 5), Working(Zeros(4)), Input(1, Works));
    AfterLast(markers, Start(MAX_LOG_BYTES - 5), Working(Zeros(4)) + [Input(1, Works)], Input(LF, NoOpen));
    QuietEnd(markers, Zeros(4), 1);
  }
}
