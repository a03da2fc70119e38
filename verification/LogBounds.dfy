/** How long the current log file can get, and where the text written ends, on a disk that may fail. */
module LogBounds {
  import opened SidecarLog
  import opened LogFaults

  // ---------- Where the text ends ----------

  /** The line is written whole. */
  ghost predicate CompletesLine(markers: seq<Bytes>, s: Scan, i: Input) {
    i.byte == LF && !Sensitive(markers, s.line) && Completes(s, i.plan)
  }

  /** The line is written in part. */
  ghost predicate TearsLine(markers: seq<Bytes>, s: Scan, i: Input) {
    i.byte == LF && !Sensitive(markers, s.line) && Tears(s, i.plan)
  }

  /** The current file is moved away. */
  ghost predicate MovesFile(markers: seq<Bytes>, s: Scan, i: Input) {
    i.byte == LF && !Sensitive(markers, s.line) && Rotates(s) && !i.plan.NoRotation?
  }

  lemma EndsStep(markers: seq<Bytes>, s: Scan, i: Input)
    requires LF !in s.pending
    ensures LF !in Step(markers, s, i).pending
    ensures EndsLine(Step(markers, s, i).out) <==>
      CompletesLine(markers, s, i) || (EndsLine(s.out) && !TearsLine(markers, s, i))
    ensures Step(markers, s, i).inside <==> s.inside || (MovesFile(markers, s, i) && !EndsLine(s.out))
  {
    var p := WithoutReturn(s.pending);
    if i.byte == LF && !Sensitive(markers, s.line) && i.plan.WriteFails? && Target(s).isOpen {
      var part := p[..Min(i.plan.written, |p|)];
      EndsLineMore(s.out, part);
      assert part != [] ==> part[|part| - 1] in s.pending;
    }
  }

  ghost predicate TornAt(markers: seq<Bytes>, s: Scan, inputs: seq<Input>, k: nat)
    requires k < |inputs|
  {
    TearsLine(markers, After(markers, s, inputs[..k]), inputs[k])
  }

  ghost predicate CompletedAt(markers: seq<Bytes>, s: Scan, inputs: seq<Input>, k: nat)
    requires k < |inputs|
  {
    CompletesLine(markers, After(markers, s, inputs[..k]), inputs[k])
  }

  /** Some line was torn at k and no line was completed since. */
  ghost predicate UnfinishedSince(markers: seq<Bytes>, s: Scan, inputs: seq<Input>, k: nat) {
    k < |inputs| && TornAt(markers, s, inputs, k) && forall m :: k < m < |inputs| ==>
      !CompletedAt(markers, s, inputs, m)
  }

  lemma UnfinishedLast(markers: seq<Bytes>, s: Scan, front: seq<Input>, i: Input)
    ensures (exists k :: UnfinishedSince(markers, s, front + [i], k)) <==>
      TearsLine(markers, After(markers, s, front), i) ||
      ((exists k :: UnfinishedSince(markers, s, front, k)) && !CompletesLine(markers, After(markers, s, front), i))
  {
    var inputs, n := front + [i], |front|;
    assert inputs[..n] == front;
    forall k: nat | k < n
      ensures TornAt(markers, s, inputs, k) <==> TornAt(markers, s, front, k)
      ensures CompletedAt(markers, s, inputs, k) <==> CompletedAt(markers, s, front, k)
    {
      assert inputs[..k] == front[..k];
    }
    if k: nat :| UnfinishedSince(markers, s, front, k) {
      assert CompletesLine(markers, After(markers, s, front), i) || UnfinishedSince(markers, s, inputs, k);
    }
    if TearsLine(markers, After(markers, s, front), i) {
      assert UnfinishedSince(markers, s, inputs, n);
    }
    if k: nat :| UnfinishedSince(markers, s, inputs, k) {
      assert k == n || (UnfinishedSince(markers, s, front, k) && !CompletedAt(markers, s, inputs, n));
    }
  }

  lemma {:induction false} PendingHasNoLineFeed(markers: seq<Bytes>, size: nat, inputs: seq<Input>)
    ensures LF !in After(markers, Start(size), inputs).pending
  {
    if inputs != [] {
      var front := inputs[..|inputs| - 1];
      PendingHasNoLineFeed(markers, size, front);
      EndsStep(markers, After(markers, Start(size), front), inputs[|inputs| - 1]);
    }
  }

  /** In every run the text written ends inside a line if and only if some line was torn and no line was completed
      since. */
  lemma {:induction false} EndsInsideExactly(markers: seq<Bytes>, size: nat, inputs: seq<Input>)
    ensures !EndsLine(After(markers, Start(size), inputs).out) <==>
      exists k :: UnfinishedSince(markers, Start(size), inputs, k)
  {
    if inputs != [] {
      var front, i := inputs[..|inputs| - 1], inputs[|inputs| - 1];
      assert inputs == front + [i];
      EndsInsideExactly(markers, size, front);
      PendingHasNoLineFeed(markers, size, front);
      AfterLast(markers, Start(size), front, i);
      EndsStep(markers, After(markers, Start(size), front), i);
      UnfinishedLast(markers, Start(size), front, i);
      CannotTearAndComplete(markers, After(markers, Start(size), front), i);
    }
  }

  lemma CannotTearAndComplete(markers: seq<Bytes>, s: Scan, i: Input)
    ensures !(TearsLine(markers, s, i) && CompletesLine(markers, s, i))
  {
  }

  /** A file was moved away at k while some line was torn and none completed since. */
  ghost predicate MovedInsideAt(markers: seq<Bytes>, s: Scan, inputs: seq<Input>, k: nat) {
    && k < |inputs| && MovesFile(markers, After(markers, s, inputs[..k]), inputs[k])
    && exists j :: UnfinishedSince(markers, s, inputs[..k], j)
  }

  lemma MovedInsideLast(markers: seq<Bytes>, s: Scan, front: seq<Input>, i: Input)
    ensures (exists k :: MovedInsideAt(markers, s, front + [i], k)) <==>
      (exists k :: MovedInsideAt(markers, s, front, k)) ||
      (MovesFile(markers, After(markers, s, front), i) && exists j :: UnfinishedSince(markers, s, front, j))
  {
    var inputs, n := front + [i], |front|;
    assert inputs[..n] == front;
    forall k: nat | k < n
      ensures MovedInsideAt(markers, s, inputs, k) <==> MovedInsideAt(markers, s, front, k)
    {
      assert inputs[..k] == front[..k];
    }
    if k: nat :| MovedInsideAt(markers, s, front, k) {
      assert MovedInsideAt(markers, s, inputs, k);
    }
    if k: nat :| MovedInsideAt(markers, s, inputs, k) {
      assert k == n || MovedInsideAt(markers, s, front, k);
    }
    if MovesFile(markers, After(markers, s, front), i) && exists j :: UnfinishedSince(markers, s, front, j) {
      assert MovedInsideAt(markers, s, inputs, n);
    }
  }

  /** In every run a file was moved away inside a line if and only if that happened between a torn line and the next
      line that was completed. */
  lemma {:induction false} MovedInsideExactly(markers: seq<Bytes>, size: nat, inputs: seq<Input>)
    ensures After(markers, Start(size), inputs).inside <==> exists k :: MovedInsideAt(markers, Start(size), inputs, k)
  {
    if inputs != [] {
      var front, i := inputs[..|inputs| - 1], inputs[|inputs| - 1];
      assert inputs == front + [i];
      MovedInsideExactly(markers, size, front);
      EndsInsideExactly(markers, size, front);
      PendingHasNoLineFeed(markers, size, front);
      AfterLast(markers, Start(size), front, i);
      EndsStep(markers, After(markers, Start(size), front), i);
      MovedInsideLast(markers, Start(size), front, i);
    }
  }

  /** Without torn lines every cut is at the end of a line. */
  lemma {:induction false} UntornIsWhole(markers: seq<Bytes>, size: nat, inputs: seq<Input>)
    requires TornBytes(inputs) == 0
    ensures var s := After(markers, Start(size), inputs); EndsLine(s.out) && !s.inside
  {
    if inputs != [] {
      var front, i := inputs[..|inputs| - 1], inputs[|inputs| - 1];
      UntornIsWhole(markers, size, front);
      PendingHasNoLineFeed(markers, size, front);
      EndsStep(markers, After(markers, Start(size), front), i);
    }
  }

  /** Four bytes of a line and then nothing: the text written does not end with a line. */
  lemma TornLineStaysOpen(markers: seq<Bytes>) returns (inputs: seq<Input>)
    requires MarkerSet(markers)
    ensures |inputs| == 5 && After(markers, Start(0), inputs).out == Zeros(4) && !EndsLine(Zeros(4))
  {
    NothingIsInsensitive(markers);
    ZerosAreQuiet(markers, [], 4);
    assert [] + Zeros(4) == Zeros(4);
    var t := FailedLine(markers, Zeros(4), 4);
    inputs := Working(Zeros(4)) + [Input(LF, WriteFails(4))];
    assert Zeros(4)[..4] == Zeros(4) && Zeros(4)[3] == 0;
  }

  // ---------- How long the file can get ----------

  /** The file is within 2 MiB, and while it is open no shorter size is remembered for it. */
  predicate Tight(s: Scan) {
    s.length <= MAX_LOG_BYTES && (s.isOpen ==> s.length <= s.size)
  }

  /** Nothing that can follow without another failure takes the file over 2 MiB. */
  ghost predicate NeverOverfills(markers: seq<Bytes>, s: Scan) {
    forall more :: Smooth(markers, s, more) ==> After(markers, s, more).length <= MAX_LOG_BYTES
  }

  lemma TightStep(markers: seq<Bytes>, s: Scan, i: Input)
    requires Sound(s) && Tight(s) && !TearsLine(markers, s, i)
    ensures Tight(Step(markers, s, i))
  {
  }

  lemma SmoothDoesNotTear(markers: seq<Bytes>, s: Scan, i: Input)
    requires !Fails(markers, s, i)
    ensures !TearsLine(markers, s, i)
  {
  }

  lemma {:induction false} TightStays(markers: seq<Bytes>, s: Scan, more: seq<Input>)
    requires Sound(s) && Tight(s) && Smooth(markers, s, more)
    ensures Tight(After(markers, s, more))
  {
    if more != [] {
      var front, i := more[..|more| - 1], more[|more| - 1];
      TightStays(markers, s, front);
      SoundAfter(markers, s, front);
      SmoothDoesNotTear(markers, After(markers, s, front), i);
      TightStep(markers, After(markers, s, front), i);
    }
  }

  /** A line of n zeros, as inputs. */
  function ZeroLine(n: nat): seq<Input> {
    Working(Zeros(n)) + [Input(LF, Works)]
  }

  lemma ZeroLineIsWritten(markers: seq<Bytes>, s: Scan, n: nat)
    requires MarkerSet(markers) && Sound(s) && s.isOpen && s.line == [] && s.pending == []
    requires n <= MAX_LINE_BYTES && s.size + n + 1 <= MAX_LOG_BYTES
    ensures var t := After(markers, s, ZeroLine(n));
      Smooth(markers, s, ZeroLine(n)) && t.isOpen && t.line == [] && t.pending == [] &&
      t.size == s.size + n + 1 && t.length == s.length + n + 1
  {
    assert [] + Zeros(n) == Zeros(n);
    Feed(markers, s, Zeros(n));
    LinePartIsSmooth(markers, s, Zeros(n));
    NothingIsInsensitive(markers);
    ZerosAreQuiet(markers, [], n);
    ZerosHaveNoReturn(n);
    AfterLast(markers, s, Working(Zeros(n)), Input(LF, Works));
    SmoothLast(markers, s, Working(Zeros(n)), Input(LF, Works));
  }

  lemma ZerosHaveNoReturn(n: nat)
    ensures WithoutReturn(Zeros(n)) == Zeros(n)
  {
  }

  /** Lines of zeros fill the file until the size remembered is exactly the limit. */
  lemma {:induction false} FillUp(markers: seq<Bytes>, s: Scan) returns (more: seq<Input>)
    requires MarkerSet(markers) && Sound(s) && s.isOpen && s.line == [] && s.pending == []
    ensures Smooth(markers, s, more)
    ensures After(markers, s, more).length - s.length == MAX_LOG_BYTES - s.size
    decreases MAX_LOG_BYTES - s.size
  {
    if s.size == MAX_LOG_BYTES {
      more := [];
    } else {
      var n := Min(MAX_LINE_BYTES, MAX_LOG_BYTES - s.size - 1);
      ZeroLineIsWritten(markers, s, n);
      var t := After(markers, s, ZeroLine(n));
      SoundAfter(markers, s, ZeroLine(n));
      var rest := FillUp(markers, t);
      SmoothMore(markers, s, ZeroLine(n), rest);
      AfterMore(markers, s, ZeroLine(n), rest);
      more := ZeroLine(n) + rest;
    }
  }

  lemma LooseOverfills(markers: seq<Bytes>, s: Scan) returns (more: seq<Input>)
    requires MarkerSet(markers) && Sound(s) && !Tight(s)
    ensures Smooth(markers, s, more) && After(markers, s, more).length > MAX_LOG_BYTES
  {
    if s.length > MAX_LOG_BYTES {
      more := [];
    } else {
      var drop := DropLine(markers, s);
      var t := After(markers, s, drop);
      SoundAfter(markers, s, drop);
      var fill := FillUp(markers, t);
      SmoothMore(markers, s, drop, fill);
      AfterMore(markers, s, drop, fill);
      more := drop + fill;
    }
  }

  /** The file stays within 2 MiB, as long as nothing fails, exactly from the tight states. */
  lemma TightExactly(markers: seq<Bytes>, s: Scan)
    requires MarkerSet(markers) && Sound(s)
    ensures NeverOverfills(markers, s) <==> Tight(s)
  {
    if Tight(s) {
      forall more | Smooth(markers, s, more)
        ensures After(markers, s, more).length <= MAX_LOG_BYTES
      {
        TightStays(markers, s, more);
      }
    } else {
      var more := LooseOverfills(markers, s);
      assert Smooth(markers, s, more) && After(markers, s, more).length > MAX_LOG_BYTES;
    }
  }

  lemma TearLoosens(markers: seq<Bytes>, s: Scan, i: Input)
    requires Sound(s) && (s.size == s.length || Stale(s)) && TearsLine(markers, s, i)
    ensures !Tight(Step(markers, s, i))
  {
  }

  /** A line that fails can take the file over 2 MiB, at once or later without another failure, if and only if it was
      written in part. */
  lemma FailureOverfillsExactly(markers: seq<Bytes>, s: Scan, i: Input)
    requires MarkerSet(markers) && Sound(s) && (s.size == s.length || Stale(s))
    requires NeverOverfills(markers, s) && Fails(markers, s, i)
    ensures NeverOverfills(markers, Step(markers, s, i)) <==> !Tears(s, i.plan)
  {
    TightExactly(markers, s);
    SoundStep(markers, s, i);
    TightExactly(markers, Step(markers, s, i));
    if Tears(s, i.plan) {
      TearLoosens(markers, s, i);
    } else {
      TightStep(markers, s, i);
    }
  }

  /** No line is written in part. */
  ghost predicate Untorn(markers: seq<Bytes>, size: nat, inputs: seq<Input>) {
    forall k :: 0 <= k < |inputs| ==> !TornAt(markers, Start(size), inputs, k)
  }

  /** In every run: no state is ever come to from which the file can pass 2 MiB without another failure, if and only if
      no line is written in part. */
  lemma {:induction false} BoundedExactly(markers: seq<Bytes>, size: nat, inputs: seq<Input>)
    requires MarkerSet(markers) && size <= MAX_LOG_BYTES
    ensures (forall k :: 0 <= k <= |inputs| ==> NeverOverfills(markers, After(markers, Start(size), inputs[..k]))) <==>
            Untorn(markers, size, inputs)
  {
    if Untorn(markers, size, inputs) {
      forall k: nat | k <= |inputs|
        ensures NeverOverfills(markers, After(markers, Start(size), inputs[..k]))
      {
        UntornIsTight(markers, size, inputs, k);
        TightExactly(markers, After(markers, Start(size), inputs[..k]));
      }
    } else {
      var k: nat :| k < |inputs| && TornAt(markers, Start(size), inputs, k);
      TornIsLoose(markers, size, inputs, k);
      assert !NeverOverfills(markers, After(markers, Start(size), inputs[..k + 1]));
    }
  }

  lemma TornIsLoose(markers: seq<Bytes>, size: nat, inputs: seq<Input>, k: nat)
    requires MarkerSet(markers) && size <= MAX_LOG_BYTES && k < |inputs| && TornAt(markers, Start(size), inputs, k)
    ensures !NeverOverfills(markers, After(markers, Start(size), inputs[..k + 1]))
  {
    var s := After(markers, Start(size), inputs[..k]);
    LengthKept(markers, size, inputs[..k]);
    SizeIsExact(markers, size, inputs[..k]);
    TearLoosens(markers, s, inputs[k]);
    SoundStep(markers, s, inputs[k]);
    assert inputs[..k + 1] == inputs[..k] + [inputs[k]];
    AfterLast(markers, Start(size), inputs[..k], inputs[k]);
    TightExactly(markers, Step(markers, s, inputs[k]));
  }

  lemma {:induction false} UntornIsTight(markers: seq<Bytes>, size: nat, inputs: seq<Input>, k: nat)
    requires size <= MAX_LOG_BYTES && k <= |inputs| && Untorn(markers, size, inputs)
    ensures Sound(After(markers, Start(size), inputs[..k])) && Tight(After(markers, Start(size), inputs[..k]))
  {
    if k > 0 {
      UntornIsTight(markers, size, inputs, k - 1);
      assert inputs[..k] == inputs[..k - 1] + [inputs[k - 1]] && !TornAt(markers, Start(size), inputs, k - 1);
      AfterLast(markers, Start(size), inputs[..k - 1], inputs[k - 1]);
      TightStep(markers, After(markers, Start(size), inputs[..k - 1]), inputs[k - 1]);
      SoundStep(markers, After(markers, Start(size), inputs[..k - 1]), inputs[k - 1]);
    }
  }

  // ---------- A log that stays shut ----------

  /** Once no file is open, a line fails exactly unless it is long enough to rotate and the rotation and write work. A
      line that is too short is joined to the next one, and the log stays shut. */
  lemma ShutUntilRotation(markers: seq<Bytes>, s: Scan, plan: Plan)
    requires !s.isOpen && !Sensitive(markers, s.line)
    ensures Fails(markers, s, Input(LF, plan)) <==> !Rotates(s) || !plan.Works?
    ensures !Rotates(s) ==> Step(markers, s, Input(LF, plan)) == s.(pending := WithoutReturn(s.pending))
  {
  }

  /** A short line read by a shut log. */
  lemma ShutLogJoinsLines(markers: seq<Bytes>, s: Scan, text: Bytes, plan: Plan)
    requires Sound(s) && !s.isOpen && LF !in text && !Sensitive(markers, s.line + text)
    requires s.size + |s.pending| + |text| + 1 <= MAX_LOG_BYTES && |s.pending| + |text| <= MAX_LINE_BYTES
    ensures var t := After(markers, s, Working(text) + [Input(LF, plan)]);
      !t.isOpen && t.out == s.out && t.line == s.line + text && t.pending == WithoutReturn(s.pending + text)
  {
    Feed(markers, s, text);
    AfterLast(markers, s, Working(text), Input(LF, plan));
    var u := After(markers, s, Working(text));
    ShutUntilRotation(markers, u, plan);
  }
}
