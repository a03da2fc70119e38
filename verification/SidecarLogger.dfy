/** The filtering, truncating, rotating log of the sidecar's standard error (desktop/src-tauri/src/logging.rs), over
    a whole life in which any file operation may fail and the logger stays in use. */
module SidecarLogger {
  import opened Wrappers
  import opened JsonText
  import opened Sequences
  import opened SidecarLog
  import opened LogFaults
  import opened LogBounds

  // ---------- The files ----------

  function Content(file: Option<Bytes>): Bytes {
    file.GetOr([])
  }

  function Older(backups: seq<Option<Bytes>>): Bytes
    requires |backups| == MAX_BACKUPS
  {
    Content(backups[2]) + Content(backups[1]) + Content(backups[0])
  }

  /** What was removed, followed by the log directory read from the oldest backup to the current file. */
  function Kept(dropped: Bytes, current: Option<Bytes>, backups: seq<Option<Bytes>>): Bytes
    requires |backups| == MAX_BACKUPS
  {
    dropped + Older(backups) + Content(current)
  }

  /** No backup is over the limit by more than `extra` bytes. */
  predicate Limited(backups: seq<Option<Bytes>>, extra: nat) {
    forall i :: 0 <= i < |backups| ==> |Content(backups[i])| <= MAX_LOG_BYTES + extra
  }

  predicate WholeLines(backups: seq<Option<Bytes>>) {
    forall i :: 0 <= i < |backups| ==> EndsLine(Content(backups[i]))
  }

  /** No more than one line short of the limit. */
  predicate AlmostFull(file: Bytes) {
    |file| > MAX_LOG_BYTES - (MAX_LINE_BYTES + 1)
  }

  /** Every backup made since the logger was opened is almost full. */
  predicate Retained(backups: seq<Option<Bytes>>, rotations: nat) {
    forall i :: 0 <= i < |backups| && i < rotations ==> backups[i].Some? && AlmostFull(backups[i].value)
  }

  /** Backups are only moved, removed or made of the current file. */
  predicate FromRing(backups: seq<Option<Bytes>>, before: seq<Option<Bytes>>, current: Option<Bytes>) {
    forall i :: 0 <= i < |backups| ==> backups[i] == None || backups[i] in before || backups[i] == current
  }

  lemma RingStaysLimited(backups: seq<Option<Bytes>>, before: seq<Option<Bytes>>, current: Option<Bytes>, extra: nat)
    requires FromRing(backups, before, current)
    ensures Limited(before, extra) && |Content(current)| <= MAX_LOG_BYTES + extra ==> Limited(backups, extra)
    ensures WholeLines(before) && EndsLine(Content(current)) ==> WholeLines(backups)
  {
  }

  lemma MovedAway(dropped: Bytes, b0: Option<Bytes>, b1: Option<Bytes>, current: Option<Bytes>)
    ensures Kept(dropped, None, [current, b0, b1]) == Kept(dropped, current, [None, b0, b1])
  {
    var text := Content(b1) + Content(b0);
    assert text + [] == text && dropped + (text + Content(current)) + [] == dropped + text + Content(current);
  }

  /** What is added to the current file is added to what is kept. */
  lemma AppendsTo(dropped: Bytes, current: Option<Bytes>, backups: seq<Option<Bytes>>, start: Bytes, out: Bytes,
      text: Bytes)
    requires |backups| == MAX_BACKUPS && Kept(dropped, current, backups) == start + out
    ensures Kept(dropped, Some(Content(current) + text), backups) == start + (out + text)
  {
    assert dropped + Older(backups) + (Content(current) + text) == Kept(dropped, current, backups) + text;
  }

  lemma DropEndsLine(dropped: Bytes, oldest: Bytes)
    ensures EndsLine(dropped) && EndsLine(oldest) ==> EndsLine(dropped + oldest)
  {
    assert oldest == [] ==> dropped + oldest == dropped;
  }

  /** `scan` is what the inputs lead to, said so that they are only gone through where that is mentioned. */
  ghost predicate IsScan(scan: Scan, markers: seq<Bytes>, base: nat, inputs: seq<Input>) {
    forall x {:trigger After(markers, Start(base), x)} :: x == inputs ==> scan == After(markers, Start(base), x)
  }

  lemma FirstScan(markers: seq<Bytes>, base: nat)
    ensures IsScan(Start(base), markers, base, []) && TornBytes([]) == 0
  {
  }

  lemma ScanStep(scan: Scan, markers: seq<Bytes>, base: nat, inputs: seq<Input>, i: Input)
    requires IsScan(scan, markers, base, inputs)
    ensures IsScan(Step(markers, scan, i), markers, base, inputs + [i])
  {
    AfterLast(markers, Start(base), inputs, i);
  }

  lemma TornLast(inputs: seq<Input>, i: Input)
    ensures TornBytes(inputs + [i]) == TornBytes(inputs) + if i.plan.WriteFails? then i.plan.written else 0
    ensures FaultFree(inputs + [i]) <==> FaultFree(inputs) && i.plan.Works?
  {
    var all := inputs + [i];
    assert all[..|inputs|] == inputs && all[|inputs|] == i;
    assert forall k :: 0 <= k < |inputs| ==> all[k] == inputs[k];
  }

  lemma OneMoreRead(read: seq<Input>, bytes: Bytes, i: nat, plan: Plan)
    requires i < |bytes| && Stream(read) == bytes[..i]
    ensures Stream(read + [Input(bytes[i], plan)]) == bytes[..i + 1]
    ensures (read + [Input(bytes[i], plan)])[..|read|] == read
    ensures FaultFree(read + [Input(bytes[i], plan)]) <==> FaultFree(read) && plan.Works?
  {
    assert Stream(read + [Input(bytes[i], plan)]) == Stream(read) + [bytes[i]];
    TornLast(read, Input(bytes[i], plan));
  }

  class Logger {
    const markers: seq<Bytes>
    const reliable: bool                // no file operation ever fails
    var current: Option<Bytes>          // desktop.log
    var backups: seq<Option<Bytes>>     // desktop.log.1, .2 and .3
    var isOpen: bool
    var currentSize: nat
    var pending: Bytes
    var markerTail: Bytes
    var lineSensitive: bool
    ghost var inputs: seq<Input>        // all that was read, and how the disk behaved
    ghost var scan: Scan                // what that leads to
    ghost var base: nat                 // the size of the file that was opened
    ghost var start: Bytes              // the directory when it was opened
    ghost var dropped: Bytes            // what rotation has removed
    ghost var rotations: nat
    ghost var fits: bool                // the files were within the limit when the log was opened
    ghost var whole: bool               // and ended with a line

    ghost predicate Valid()
      reads this
    {
      Core() && pending == scan.pending && LineValid()
    }

    /** What does not concern the unfinished line. */
    ghost predicate Core()
      reads this`inputs, this`scan, this`base, this`rotations
      reads this`current, this`backups, this`currentSize, this`isOpen, this`start, this`dropped, this`fits, this`whole
    {
      && MarkerSet(markers) && |backups| == MAX_BACKUPS && base <= MAX_LOG_BYTES
      && IsScan(scan, markers, base, inputs) && Sound(scan)
      && FilesValid(scan, TornBytes(inputs))
      && (FaultFree(inputs) ==> Retained(backups, rotations) && isOpen && scan.size == scan.length)
    }

    ghost predicate LineValid()
      reads this`markerTail, this`lineSensitive, this`scan
    {
      lineSensitive == Sensitive(markers, scan.line) && (!lineSensitive ==> markerTail == Window(scan.line))
    }

    /** The files hold a final part of the first directory and all that was written. */
    ghost predicate FilesValid(s: Scan, torn: nat)
      requires |backups| == MAX_BACKUPS
      reads this`current, this`backups, this`currentSize, this`isOpen, this`start, this`dropped, this`fits, this`whole
    {
      && currentSize == s.size && isOpen == s.isOpen && |Content(current)| == s.length && (isOpen ==> current.Some?)
      && Kept(dropped, current, backups) == start + s.out
      && s.length <= s.size + torn
      && (fits ==> Limited(backups, torn))
      && (whole ==> LinesValid(s))
    }

    /** The files end where the text written does, and were moved away as it then ended. */
    ghost predicate LinesValid(s: Scan)
      reads this`current, this`backups, this`dropped
    {
      && (!s.inside ==> WholeLines(backups) && EndsLine(dropped))
      && (EndsLine(Content(current)) <==> Content(current) == [] || EndsLine(s.out))
    }

    constructor (markers: seq<Bytes>, current: Bytes, backups: seq<Option<Bytes>>, reliable: bool)
      requires |backups| == MAX_BACKUPS && MarkerSet(markers)
      ensures this.markers == markers && this.reliable == reliable && Unread()
      ensures this.current == Some(current) && this.backups == backups && currentSize == |current| && rotations == 0
      ensures dropped == [] && start == Kept([], Some(current), backups)
      ensures fits == (|current| <= MAX_LOG_BYTES && Limited(backups, 0))
      ensures whole == (EndsLine(current) && WholeLines(backups))
    {
      this.markers, this.reliable := markers, reliable;
      this.current, this.backups, currentSize, isOpen := Some(current), backups, |current|, true;
      pending, markerTail, lineSensitive := [], [], false;
      inputs, scan, base, start, dropped, rotations := [], Start(0), 0, Kept([], Some(current), backups), [], 0;
      fits := |current| <= MAX_LOG_BYTES && Limited(backups, 0);
      whole := EndsLine(current) && WholeLines(backups);
    }

    /** Nothing was read yet. */
    ghost predicate Unread()
      reads this
    {
      isOpen && pending == [] && markerTail == [] && !lineSensitive && inputs == []
    }

    method Open() returns (ok: bool)
      requires |backups| == MAX_BACKUPS && MarkerSet(markers) && Unread()
      requires current.Some? && currentSize == |current.value| && rotations == 0
      requires dropped == [] && start == Kept([], current, backups)
      requires fits == (|current.value| <= MAX_LOG_BYTES && Limited(backups, 0))
      requires whole == (EndsLine(current.value) && WholeLines(backups))
      modifies this`current, this`backups, this`currentSize, this`isOpen, this`dropped, this`rotations, this`base,
        this`scan
      ensures (reliable ==> ok) && (ok ==> Valid() && inputs == [])
      ensures |backups| == MAX_BACKUPS && Kept(dropped, current, backups) == start
    {
      ok := true;
      if currentSize >= MAX_LOG_BYTES {
        ok := RotateFirst();
      }
      if ok {
        base := currentSize;
        scan := Start(base);
        FirstScan(markers, base);
        NothingIsInsensitive(markers);
        assert start + [] == start;
      }
    }

    /** A file that is full from the start is rotated away. */
    method RotateFirst() returns (ok: bool)
      requires |backups| == MAX_BACKUPS && current.Some? && |current.value| >= MAX_LOG_BYTES && rotations == 0
      requires dropped == []
      modifies this`current, this`backups, this`currentSize, this`isOpen, this`dropped, this`rotations
      ensures |backups| == MAX_BACKUPS && (reliable ==> ok)
      ensures Kept(dropped, current, backups) == old(Kept(dropped, current, backups))
      ensures ok ==> isOpen && current == Some([]) && currentSize == 0 && Retained(backups, rotations)
      ensures old(Limited(backups, 0) && |current.value| <= MAX_LOG_BYTES) ==> Limited(backups, 0)
      ensures old(WholeLines(backups) && EndsLine(current.value)) ==> WholeLines(backups) && EndsLine(dropped)
    {
      ghost var plan;
      ok, plan := Rotate();
      RingStaysLimited(backups, old(backups), old(current), 0);
      DropEndsLine([], Content(old(backups[2])));
    }

    /** A file operation, which may fail unless the disk is reliable. */
    method TryFile() returns (ok: bool)
      ensures reliable ==> ok
    {
      ok := *;
      ok := ok || reliable;
    }

    /** Frees the slot of the first backup; the last backup is removed. A failure on the way leaves a gap, but the
        backups still hold the same text in the same order. */
    method ShiftBackups() returns (ok: bool)
      requires |backups| == MAX_BACKUPS
      modifies this`backups, this`dropped
      ensures reliable ==> ok
      ensures |backups| == MAX_BACKUPS && dropped + Older(backups) == old(dropped + Older(backups))
      ensures FromRing(backups, old(backups), None)
      ensures dropped == old(dropped) || dropped == old(dropped + Content(backups[2]))
      ensures ok ==> backups == [None, old(backups[0]), old(backups[1])]
    {
      ok := TryFile();
      if !ok {
        return;
      }
      dropped := dropped + Content(backups[2]);
      backups := backups[2 := None];
      var index := MAX_BACKUPS;
      while index >= 2
        invariant 1 <= index <= MAX_BACKUPS && |backups| == MAX_BACKUPS
        invariant backups[index - 1].None? && (reliable ==> ok)
        invariant forall i :: 0 <= i < index - 1 ==> backups[i] == old(backups[i])
        invariant forall i :: index - 1 < i < MAX_BACKUPS ==> backups[i] == old(backups[i - 1])
        invariant dropped == old(dropped + Content(backups[2]))
      {
        ok := TryFile();
        if !ok {
          return;
        }
        if backups[index - 2].Some? {
          backups := backups[index - 1 := backups[index - 2]];
          backups := backups[index - 2 := None];
        }
        index := index - 1;
      }
    }

    /** Shifts the ring by one file: whatever fails, what leaves the directory is its oldest part. */
    method Rotate() returns (ok: bool, ghost plan: Plan)
      requires |backups| == MAX_BACKUPS
      modifies this`current, this`backups, this`currentSize, this`isOpen, this`dropped, this`rotations
      ensures |backups| == MAX_BACKUPS && ok == plan.Works? && !plan.WriteFails? && (reliable ==> ok)
      ensures Kept(dropped, current, backups) == old(Kept(dropped, current, backups))
      ensures ok ==> isOpen && current == Some([]) && currentSize == 0
      ensures !ok ==> !isOpen && currentSize == old(currentSize)
      ensures plan.NoRotation? ==> current == old(current) && FromRing(backups, old(backups), None)
      ensures plan.NoOpen? ==> Content(current) == []
      ensures FromRing(backups, old(backups), old(current))
      ensures dropped == old(dropped) || dropped == old(dropped + Content(backups[2]))
      ensures ok && old(current.Some? && AlmostFull(current.value) && Retained(backups, rotations)) ==>
        Retained(backups, rotations)
    {
      ok := MoveAway();
      if !ok {
        return ok, NoRotation;
      }
      ok := OpenLog();
      if !ok {
        return ok, NoOpen;
      }
      isOpen, currentSize := true, 0;
      return ok, Works;
    }

    /** Closes the current file and makes it the first backup. */
    method MoveAway() returns (ok: bool)
      requires |backups| == MAX_BACKUPS
      modifies this`current, this`backups, this`isOpen, this`dropped, this`rotations
      ensures |backups| == MAX_BACKUPS && !isOpen && (reliable ==> ok)
      ensures Kept(dropped, current, backups) == old(Kept(dropped, current, backups))
      ensures current == if ok then None else old(current)
      ensures !ok ==> FromRing(backups, old(backups), None)
      ensures FromRing(backups, old(backups), old(current))
      ensures dropped == old(dropped) || dropped == old(dropped + Content(backups[2]))
      ensures ok && old(current.Some? && AlmostFull(current.value) && Retained(backups, rotations)) ==>
        Retained(backups, rotations)
    {
      if isOpen {
        isOpen := false;
        ok := TryFile();
        if !ok {
          return;
        }
      }
      ok := ShiftBackups();
      if !ok {
        return;
      }
      ok := TryFile();
      if !ok {
        return;
      }
      MovedAway(dropped, old(backups[0]), old(backups[1]), current);
      backups, current, rotations := [current, backups[1], backups[2]], None, rotations + 1;
    }

    /** A file that was created may still be refused. */
    method OpenLog() returns (ok: bool)
      requires current.None?
      modifies this`current
      ensures reliable ==> ok
      ensures ok ==> current == Some([])
      ensures Content(current) == []
    {
      ok := TryFile();
      if ok {
        current := Some([]);
        ok := TryFile();
      }
    }

    /** Writes all of the bytes, or fails after some of them. */
    method WriteAll(bytes: Bytes) returns (written: nat)
      requires current.Some?
      modifies this`current
      ensures written <= |bytes| && (reliable ==> written == |bytes|)
      ensures current == Some(old(Content(current)) + bytes[..written])
    {
      var ok := TryFile();
      written :| written <= |bytes|;
      if ok {
        written := |bytes|;
      }
      current := Some(current.value + bytes[..written]);
    }

    method ScanSensitiveMarker(b: Byte)
      requires MarkerSet(markers) && LineValid()
      modifies this`markerTail, this`lineSensitive
      ensures lineSensitive == Sensitive(markers, scan.line + [b])
      ensures !lineSensitive ==> markerTail == Window(scan.line + [b])
    {
      WindowIsEnough(markers, scan.line, b);
      if lineSensitive {
        return;
      }
      markerTail := markerTail + [b];
      if |markerTail| > MAX_MARKER_BYTES {
        markerTail := markerTail[1..];
      }
      assert markerTail == Window(scan.line + [b]);
      lineSensitive := EndsWithAny(markerTail, markers);
    }

    /** Makes room for the pending line. */
    method MakeRoom() returns (ok: bool, ghost plan: Plan)
      requires |backups| == MAX_BACKUPS && Sound(scan) && pending == WithoutReturn(scan.pending)
      requires FilesValid(scan, TornBytes(inputs))
      modifies this`current, this`backups, this`currentSize, this`isOpen, this`dropped, this`rotations
      ensures |backups| == MAX_BACKUPS && (reliable ==> ok) && ok == plan.Works? && !plan.WriteFails?
      ensures ok ==> FilesValid(Target(scan), TornBytes(inputs))
      ensures !ok ==> Rotates(scan) && FilesValid(WriteLine(scan, plan), TornBytes(inputs))
      ensures ok && old(Retained(backups, rotations)) && scan.size == scan.length && scan.isOpen ==>
        Retained(backups, rotations)
    {
      ok, plan := true, Works;
      if currentSize > 0 && currentSize + |pending| + 1 > MAX_LOG_BYTES {
        ghost var torn := TornBytes(inputs);
        ok, plan := Rotate();
        RingStaysLimited(backups, old(backups), if plan.NoRotation? then None else old(current), torn);
        DropEndsLine(old(dropped), Content(old(backups[2])));
      }
    }

    /** Writes the pending line to the open file. */
    method PutLine(ghost t: Scan) returns (ok: bool, ghost plan: Plan)
      requires |backups| == MAX_BACKUPS && FilesValid(t, TornBytes(inputs))
      modifies this`current, this`currentSize
      ensures (plan.Works? || plan.WriteFails?) && (reliable ==> plan.Works?) && (ok <==> t.isOpen && plan.Works?)
      ensures FilesValid(Put(t, pending, plan), TornBytes(inputs) + if plan.WriteFails? then plan.written else 0)
    {
      if !isOpen {
        return false, Works;
      }
      var written := WriteAll(pending);
      AppendsTo(dropped, old(current), backups, start, t.out, pending[..written]);
      if written < |pending| {
        return false, WriteFails(written);
      }
      assert pending[..written] == pending;
      ghost var unfinished := current;
      var end := WriteAll([LF]);
      if end < 1 {
        assert Content(unfinished) + [LF][..end] == Content(unfinished);
        return false, WriteFails(written);
      }
      AppendsTo(dropped, unfinished, backups, start, t.out + pending, [LF]);
      assert [LF][..end] == [LF];
      currentSize := currentSize + |pending| + 1;
      return true, Works;
    }

    /** Writes what is pending as a line of the log, rid of a final CR. */
    method WriteOut() returns (ok: bool, ghost plan: Plan)
      requires |backups| == MAX_BACKUPS && Sound(scan) && pending == scan.pending && FilesValid(scan, TornBytes(inputs))
      modifies this`current, this`backups, this`currentSize, this`isOpen, this`dropped, this`rotations, this`pending
      ensures |backups| == MAX_BACKUPS && pending == WithoutReturn(scan.pending)
      ensures FilesValid(WriteLine(scan, plan), TornBytes(inputs) + if plan.WriteFails? then plan.written else 0)
      ensures ok <==> Completes(scan, plan)
      ensures reliable ==> plan.Works?
      ensures plan.Works? && scan.isOpen && scan.size == scan.length && old(Retained(backups, rotations)) ==>
        Retained(backups, rotations)
    {
      CutReturn();
      ok, plan := MakeRoom();
      if ok {
        ok, plan := PutLine(Target(scan));
        WritesToTarget(scan, plan);
      }
    }

    method CutReturn()
      modifies this`pending
      ensures pending == WithoutReturn(old(pending))
    {
      if pending != [] && pending[|pending| - 1] == CR {
        pending := pending[..|pending| - 1];
      }
    }

    /** The input was read: the state is the next one. */
    ghost method Read(i: Input)
      requires IsScan(scan, markers, base, inputs) && Sound(scan)
      modifies this`inputs, this`scan
      ensures inputs == old(inputs) + [i] && scan == Step(markers, old(scan), i)
      ensures IsScan(scan, markers, base, inputs) && Sound(scan)
      ensures TornBytes(inputs) == old(TornBytes(inputs)) + if i.plan.WriteFails? then i.plan.written else 0
      ensures FaultFree(inputs) <==> old(FaultFree(inputs)) && i.plan.Works?
    {
      ScanStep(scan, markers, base, inputs, i);
      SoundStep(markers, scan, i);
      TornLast(inputs, i);
      inputs, scan := inputs + [i], Step(markers, scan, i);
    }

    method WriteLineOut() returns (ok: bool, ghost plan: Plan)
      requires Valid() && !lineSensitive
      modifies this`current, this`backups, this`currentSize, this`isOpen, this`dropped, this`rotations, this`pending,
        this`inputs, this`scan
      ensures Core() && inputs == old(inputs) + [Input(LF, plan)] && (reliable ==> plan.Works?)
      ensures ok <==> !Fails(markers, old(scan), Input(LF, plan))
      ensures FaultFree(inputs) ==> ok
      ensures ok ==> scan.line == [] && scan.pending == []
      ensures !ok ==> Valid()
    {
      ok, plan := WriteOut();
      LineEnds(markers, scan, plan);
      Read(Input(LF, plan));
    }

    /** Ends the line. A line that fails stays pending, without its CR, and so does what the scanner knows of it. */
    method FinishLine() returns (ok: bool, ghost plan: Plan)
      requires Valid()
      modifies this
      ensures Valid() && inputs == old(inputs) + [Input(LF, plan)] && start == old(start) && base == old(base)
      ensures ok <==> !Fails(markers, old(scan), Input(LF, plan))
      ensures (reliable ==> plan.Works?) && (FaultFree(inputs) ==> ok)
      ensures fits == old(fits) && whole == old(whole)
    {
      if lineSensitive {
        PassOver();
        ok, plan := true, Works;
      } else {
        ok, plan := WriteLineOut();
      }
      if ok {
        Forget();
      }
    }

    /** A line with a marker is not written. */
    ghost method PassOver()
      requires Valid() && lineSensitive
      modifies this`inputs, this`scan
      ensures Core() && inputs == old(inputs) + [Input(LF, Works)]
      ensures scan == old(scan).(line := [], pending := [])
    {
      Read(Input(LF, Works));
    }

    /** The next line begins. */
    method Forget()
      requires Core() && scan.line == [] && scan.pending == []
      modifies this`pending, this`markerTail, this`lineSensitive
      ensures Valid()
    {
      NothingIsInsensitive(markers);
      pending, markerTail, lineSensitive := [], [], false;
    }

    /** A byte of a line touches no file. */
    ghost method ReadByte(b: Byte)
      requires Core() && b != LF
      modifies this`inputs, this`scan
      ensures Core() && inputs == old(inputs) + [Input(b, Works)] && scan == Extend(old(scan), b)
    {
      Read(Input(b, Works));
    }

    method ExtendLine(b: Byte)
      requires Valid() && b != LF
      modifies this`pending, this`markerTail, this`lineSensitive, this`inputs, this`scan
      ensures Valid() && inputs == old(inputs) + [Input(b, Works)]
    {
      if |pending| < MAX_LINE_BYTES {
        pending := pending + [b];
      }
      ScanSensitiveMarker(b);
      ReadByte(b);
    }

    /** Reads bytes up to the first line that fails. */
    method AppendSidecarStderr(bytes: Bytes) returns (ok: bool, ghost read: seq<Input>)
      requires Valid()
      modifies this
      ensures Valid() && inputs == old(inputs) + read && start == old(start) && base == old(base)
      ensures fits == old(fits) && whole == old(whole)
      ensures Stream(read) <= bytes && (ok ==> Stream(read) == bytes)
      ensures !ok ==>
        read != [] && Fails(markers, After(markers, Start(base), old(inputs) + read[..|read| - 1]), read[|read| - 1])
      ensures (reliable ==> FaultFree(read)) && (FaultFree(inputs) ==> ok)
    {
      read, ok := [], true;
      for i := 0 to |bytes|
        invariant Valid() && inputs == old(inputs) + read && start == old(start) && base == old(base)
        invariant fits == old(fits) && whole == old(whole)
        invariant ok && Stream(read) == bytes[..i] && (reliable ==> FaultFree(read))
      {
        ghost var before := read;
        ghost var plan;
        ok, plan := AppendByte(bytes[i], read, old(inputs));
        read := read + [Input(bytes[i], plan)];
        OneMoreRead(before, bytes, i, plan);
        if !ok {
          return;
        }
      }
    }

    method AppendByte(b: Byte, ghost read: seq<Input>, ghost before: seq<Input>) returns (ok: bool, ghost plan: Plan)
      requires Valid() && inputs == before + read
      modifies this
      ensures Valid() && inputs == before + (read + [Input(b, plan)]) && start == old(start) && base == old(base)
      ensures fits == old(fits) && whole == old(whole) && (reliable ==> plan.Works?)
      ensures ok <==> !Fails(markers, After(markers, Start(base), before + read), Input(b, plan))
      ensures FaultFree(inputs) ==> ok
    {
      assert scan == After(markers, Start(base), inputs);
      if b == LF {
        ok, plan := FinishLine();
      } else {
        ExtendLine(b);
        ok, plan := true, Works;
      }
      assert before + (read + [Input(b, plan)]) == before + read + [Input(b, plan)];
    }

    /** `Drop`: what is pending is finished. */
    method Close() returns (ghost read: seq<Input>)
      requires Valid()
      modifies this
      ensures Valid() && inputs == old(inputs) + read && start == old(start) && base == old(base)
      ensures fits == old(fits) && whole == old(whole)
      ensures Stream(read) == if old(scan.pending == [] && !Sensitive(markers, scan.line)) then [] else [LF]
      ensures reliable ==> FaultFree(read)
    {
      read := [];
      if pending != [] || lineSensitive {
        var _, plan := FinishLine();
        read := [Input(LF, plan)];
      }
    }
  }

  function Joint(chunks: seq<Bytes>): Bytes {
    FlatMap(chunk => chunk, chunks)
  }

  /** The stream as the logger sees it once closed: an unfinished last line is finished. */
  function Closed(stream: Bytes): Bytes {
    if Rest(stream) == [] then stream else stream + [LF]
  }

  /** What was read of the chunks: each up to its end or to a line feed whose line failed. */
  predicate ReadOf(taken: seq<Bytes>, chunks: seq<Bytes>) {
    |taken| == |chunks| &&
    forall i :: 0 <= i < |taken| ==>
      taken[i] <= chunks[i] && (taken[i] != chunks[i] ==> taken[i] != [] && taken[i][|taken[i]| - 1] == LF)
  }

  lemma StreamJoins(a: seq<Input>, b: seq<Input>)
    ensures Stream(a + b) == Stream(a) + Stream(b)
    ensures FaultFree(a + b) <==> FaultFree(a) && FaultFree(b)
  {
    assert forall k :: 0 <= k < |b| ==> (a + b)[|a| + k] == b[k];
    assert forall k :: 0 <= k < |a| ==> (a + b)[k] == a[k];
  }

  lemma JointLast(taken: seq<Bytes>, more: Bytes)
    ensures Joint(taken + [more]) == Joint(taken) + more
  {
    FlatMapLast((chunk: Bytes) => chunk, taken, more);
  }

  /** What the files hold in the end, whatever failed. */
  ghost predicate Outcome(current0: Bytes, backups0: seq<Option<Bytes>>, markers: seq<Bytes>, base: nat,
      inputs: seq<Input>,
                          dropped: Bytes, current: Option<Bytes>, backups: seq<Option<Bytes>>, rotations: nat)
    requires |backups0| == |backups| == MAX_BACKUPS
  {
    var torn := TornBytes(inputs);
    && base <= MAX_LOG_BYTES
    && Kept(dropped, current, backups) == Kept([], Some(current0), backups0) + After(markers, Start(base), inputs).out
    && |Content(current)| <= MAX_LOG_BYTES + torn
    && (Untorn(markers, base, inputs) ==> |Content(current)| <= MAX_LOG_BYTES)
    && (|current0| <= MAX_LOG_BYTES && Limited(backups0, 0) ==> Limited(backups, torn))
    && (EndsLine(current0) && WholeLines(backups0) ==>
          var s := After(markers, Start(base), inputs);
          && (!s.inside ==> WholeLines(backups) && EndsLine(dropped))
          && (EndsLine(Content(current)) <==> Content(current) == [] || EndsLine(s.out)))
    && (EndsLine(current0) && WholeLines(backups0) && torn == 0 ==>
          WholeLines(backups) && EndsLine(Content(current)) && EndsLine(dropped))
    && (FaultFree(inputs) ==> Retained(backups, rotations))
  }

  /** Without failures the inputs up to the closing give the log of the closed stream. */
  lemma ClosedLog(markers: seq<Bytes>, base: nat, inputs: seq<Input>, end: seq<Input>)
    requires MarkerSet(markers) && base <= MAX_LOG_BYTES && FaultFree(inputs + end)
    requires var s := After(markers, Start(base), inputs);
      Stream(end) == if s.pending == [] && !Sensitive(markers, s.line) then [] else [LF]
    ensures IsLog(After(markers, Start(base), inputs + end).out, markers, Closed(Stream(inputs)))
  {
    StreamJoins(inputs, end);
    FaultFreeIsLog(markers, base, inputs);
    FaultFreeIsLog(markers, base, inputs + end);
    NothingIsInsensitive(markers);
    assert Rest(Stream(inputs)) == [] <==> Stream(end) == [];
    assert Stream(inputs) + [] == Stream(inputs);
  }

  /** Feeds the chunks and closes the log. */
  method FeedLogger(logger: Logger, chunks: seq<Bytes>) returns (ghost taken: seq<Bytes>)
    requires logger.Valid() && logger.inputs == []
    modifies logger
    ensures logger.Valid() && logger.start == old(logger.start) && logger.base == old(logger.base)
    ensures logger.fits == old(logger.fits) && logger.whole == old(logger.whole)
    ensures (logger.reliable ==> FaultFree(logger.inputs)) && ReadOf(taken, chunks)
    ensures Stream(logger.inputs) == Joint(taken) || Stream(logger.inputs) == Joint(taken) + [LF]
    ensures FaultFree(logger.inputs) ==>
              taken == chunks &&
              IsLog(After(logger.markers, Start(logger.base), logger.inputs).out, logger.markers, Closed(Joint(chunks)))
  {
    taken := FeedChunks(logger, chunks);
    ghost var before := logger.inputs;
    assert logger.scan == After(logger.markers, Start(logger.base), before);
    var read := logger.Close();
    StreamJoins(before, read);
    assert Joint(taken) + [] == Joint(taken);
    if FaultFree(logger.inputs) {
      ClosedLog(logger.markers, logger.base, before, read);
    }
  }

  method FeedChunks(logger: Logger, chunks: seq<Bytes>) returns (ghost taken: seq<Bytes>)
    requires logger.Valid() && logger.inputs == []
    modifies logger
    ensures logger.Valid() && logger.start == old(logger.start) && logger.base == old(logger.base)
    ensures logger.fits == old(logger.fits) && logger.whole == old(logger.whole)
    ensures (logger.reliable ==> FaultFree(logger.inputs)) && ReadOf(taken, chunks)
    ensures Stream(logger.inputs) == Joint(taken) && (FaultFree(logger.inputs) ==> taken == chunks)
  {
    taken := [];
    for i := 0 to |chunks|
      invariant logger.Valid() && logger.start == old(logger.start) && logger.base == old(logger.base)
      invariant logger.fits == old(logger.fits) && logger.whole == old(logger.whole)
      invariant (logger.reliable ==> FaultFree(logger.inputs)) && ReadOf(taken, chunks[..i])
      invariant Stream(logger.inputs) == Joint(taken) && (FaultFree(logger.inputs) ==> taken == chunks[..i])
    {
      ghost var before := logger.inputs;
      var ok, read := logger.AppendSidecarStderr(chunks[i]);
      ChunkRead(taken, chunks, i, before, read);
      taken := taken + [Stream(read)];
    }
    assert chunks[..|chunks|] == chunks;
  }

  lemma ChunkRead(taken: seq<Bytes>, chunks: seq<Bytes>, i: nat, before: seq<Input>, read: seq<Input>)
    requires i < |chunks| && ReadOf(taken, chunks[..i]) && Stream(before) == Joint(taken) && Stream(read) <= chunks[i]
    requires Stream(read) != chunks[i] ==> read != [] && read[|read| - 1].byte == LF
    ensures ReadOf(taken + [Stream(read)], chunks[..i + 1]) && Stream(before + read) == Joint(taken + [Stream(read)])
    ensures FaultFree(before + read) <==> FaultFree(before) && FaultFree(read)
    ensures taken == chunks[..i] && Stream(read) == chunks[i] ==> taken + [Stream(read)] == chunks[..i + 1]
  {
    StreamJoins(before, read);
    JointLast(taken, Stream(read));
    assert chunks[..i + 1] == chunks[..i] + [chunks[i]];
  }

  lemma Summarize(logger: Logger, current0: Bytes, backups0: seq<Option<Bytes>>)
    requires logger.Valid() && |backups0| == MAX_BACKUPS
    requires logger.start == Kept([], Some(current0), backups0)
    requires logger.fits == (|current0| <= MAX_LOG_BYTES && Limited(backups0, 0))
    requires logger.whole == (EndsLine(current0) && WholeLines(backups0))
    ensures Outcome(current0, backups0, logger.markers, logger.base, logger.inputs, logger.dropped, logger.current,
                    logger.backups, logger.rotations)
    ensures HarmlessFailures(logger.markers, Start(logger.base), logger.inputs) ==>
      !Sensitive(logger.markers, After(logger.markers, Start(logger.base), logger.inputs).out)
  {
    var scan := After(logger.markers, Start(logger.base), logger.inputs);
    assert logger.scan == scan;
    if Untorn(logger.markers, logger.base, logger.inputs) {
      UntornIsTight(logger.markers, logger.base, logger.inputs, |logger.inputs|);
      assert logger.inputs[..|logger.inputs|] == logger.inputs;
    }
    if TornBytes(logger.inputs) == 0 {
      UntornIsWhole(logger.markers, logger.base, logger.inputs);
    }
    if HarmlessFailures(logger.markers, Start(logger.base), logger.inputs) {
      StartIsSafe(logger.markers, logger.base);
      HarmlessFailuresKeepClean(logger.markers, Start(logger.base), logger.inputs);
    }
  }

  /** A whole life of the logger: opened on any directory, fed a stream in chunks of any size, closed, with any file
      operation failing at any time. The directory always holds a final part of what it held before followed by what
      was written, and no file is over the limit by more than failed writes have left behind. Without failures what
      was written is the log of the stream, however it was cut; and no marker was written if no failure was harmful. */
  method RunLogger(current0: Bytes, backups0: seq<Option<Bytes>>, chunks: seq<Bytes>, reliable: bool)
    returns (started: bool, current: Option<Bytes>, backups: seq<Option<Bytes>>,
             ghost base: nat, ghost inputs: seq<Input>, ghost taken: seq<Bytes>, ghost dropped: Bytes,
                 ghost rotations: nat)
    requires |backups0| == MAX_BACKUPS
    ensures |backups| == MAX_BACKUPS && (reliable ==> started && FaultFree(inputs))
    ensures !started ==> Kept(dropped, current, backups) == Kept([], Some(current0), backups0)
    ensures started ==>
      Outcome(current0, backups0, SensitiveMarkers(), base, inputs, dropped, current, backups, rotations)
    ensures started ==>
      ReadOf(taken, chunks) && (Stream(inputs) == Joint(taken) || Stream(inputs) == Joint(taken) + [LF])
    ensures started && FaultFree(inputs) ==>
              taken == chunks &&
                IsLog(After(SensitiveMarkers(), Start(base), inputs).out, SensitiveMarkers(), Closed(Joint(chunks)))
    ensures started && HarmlessFailures(SensitiveMarkers(), Start(base), inputs) ==>
              !Sensitive(SensitiveMarkers(), After(SensitiveMarkers(), Start(base), inputs).out)
  {
    var markers := SensitiveMarkers();
    base, inputs, taken, rotations := 0, [], [], 0;
    var logger := new Logger(markers, current0, backups0, reliable);
    started := logger.Open();
    if started {
      taken := FeedLogger(logger, chunks);
      Summarize(logger, current0, backups0);
      base, inputs, rotations := logger.base, logger.inputs, logger.rotations;
    }
    current, backups, dropped := logger.current, logger.backups, logger.dropped;
  }
}
