/** What the log of the sidecar's standard error holds: the lines of a stream without those that hold a marker
    (desktop/src-tauri/src/logging.rs). */
module SidecarLog {
  import opened JsonText
  import opened Sequences

  const MAX_LOG_BYTES: nat := 2 * 1024 * 1024
  const MAX_LINE_BYTES: nat := 16 * 1024
  const MAX_BACKUPS: nat := 3
  const MAX_MARKER_BYTES: nat := 32
  const LF: Byte := 10
  const CR: Byte := 13

  type Bytes = seq<Byte>

  // ---------- What is written for a stream ----------

  function Rest(s: Bytes): Bytes {
    if s == [] || s[|s| - 1] == LF then [] else Rest(s[..|s| - 1]) + [s[|s| - 1]]
  }

  function CompleteLines(s: Bytes): seq<Bytes> {
    if s == [] then []
    else if s[|s| - 1] == LF then CompleteLines(s[..|s| - 1]) + [Rest(s[..|s| - 1])]
    else CompleteLines(s[..|s| - 1])
  }

  function Terminated(line: Bytes): Bytes {
    line + [LF]
  }

  predicate At(text: Bytes, marker: Bytes, i: int) {
    0 <= i <= |text| - |marker| && text[i..i + |marker|] == marker
  }

  ghost predicate Contains(text: Bytes, marker: Bytes) {
    exists i :: At(text, marker, i)
  }

  ghost predicate Sensitive(markers: seq<Bytes>, text: Bytes) {
    exists k :: 0 <= k < |markers| && Contains(text, markers[k])
  }

  /** No line is left unfinished. */
  predicate EndsLine(text: Bytes) {
    text == [] || text[|text| - 1] == LF
  }

  lemma EndsLineMore(text: Bytes, more: Bytes)
    ensures EndsLine(text + more) <==> if more == [] then EndsLine(text) else EndsLine(more)
  {
    assert more == [] ==> text + more == text;
  }

  function Truncated(line: Bytes): Bytes {
    if |line| > MAX_LINE_BYTES then line[..MAX_LINE_BYTES] else line
  }

  function WithoutReturn(line: Bytes): Bytes {
    if line != [] && line[|line| - 1] == CR then line[..|line| - 1] else line
  }

  function Rendered(line: Bytes): Bytes {
    Terminated(WithoutReturn(Truncated(line)))
  }

  ghost function Written(markers: seq<Bytes>, line: Bytes): Bytes {
    if Sensitive(markers, line) then [] else Rendered(line)
  }

  /** The log of a stream: its complete lines, without those that hold a marker anywhere, each cut to 16 KiB
      and rid of one final CR. */
  ghost function Log(markers: seq<Bytes>, stream: Bytes): Bytes {
    FlatMap(line => Written(markers, line), CompleteLines(stream))
  }

  /** `log` is the log of `stream`, said so that the log is only computed where it is mentioned. */
  ghost predicate IsLog(log: Bytes, markers: seq<Bytes>, stream: Bytes) {
    forall s {:trigger Log(markers, s)} :: s == stream ==> log == Log(markers, s)
  }

  /** Splitting loses nothing: the lines and the rest, put together, are the stream, and hold no line feed. */
  lemma {:induction false} LinesOfStream(s: Bytes)
    ensures FlatMap(Terminated, CompleteLines(s)) + Rest(s) == s
    ensures forall k :: 0 <= k < |CompleteLines(s)| ==> LF !in CompleteLines(s)[k]
    ensures LF !in Rest(s)
  {
    if s != [] {
      var front, last := s[..|s| - 1], s[|s| - 1];
      LinesOfStream(front);
      assert s == front + [last];
      if last == LF {
        FlatMapLast(Terminated, CompleteLines(front), Rest(front));
      }
    }
  }

  lemma LineFeed(log: Bytes, markers: seq<Bytes>, s: Bytes)
    requires IsLog(log, markers, s)
    ensures IsLog(log + Written(markers, Rest(s)), markers, s + [LF])
  {
    assert (s + [LF])[..|s|] == s;
    FlatMapLast(line => Written(markers, line), CompleteLines(s), Rest(s));
    assert log == Log(markers, s);
  }

  lemma RestOfLine(s: Bytes)
    ensures Rest(s + [LF]) == []
  {
  }

  lemma OtherByte(log: Bytes, markers: seq<Bytes>, s: Bytes, b: Byte)
    requires b != LF && IsLog(log, markers, s)
    ensures IsLog(log, markers, s + [b])
    ensures Rest(s + [b]) == Rest(s) + [b]
  {
    assert (s + [b])[..|s|] == s;
    assert log == Log(markers, s);
  }

  // ---------- The sliding window ----------

  predicate MarkerSet(markers: seq<Bytes>) {
    markers != [] && forall k :: 0 <= k < |markers| ==> MarkerBytes(markers[k])
  }

  /** A marker is short and has no control characters. */
  predicate MarkerBytes(marker: Bytes) {
    0 < |marker| <= MAX_MARKER_BYTES && forall i :: 0 <= i < |marker| ==> marker[i] > CR
  }

  /** No marker can be spelled with the bytes of another. */
  ghost predicate Independent(markers: seq<Bytes>) {
    forall k, l :: 0 <= k < |markers| && 0 <= l < |markers| && k != l ==> Apart(markers[k], markers[l])
  }

  /** `b` has a byte that `a` has not. */
  predicate Apart(a: Bytes, b: Bytes) {
    exists x :: x in b && x !in a
  }

  predicate EndsWith(text: Bytes, marker: Bytes) {
    |marker| <= |text| && text[|text| - |marker|..] == marker
  }

  predicate EndsWithAny(text: Bytes, markers: seq<Bytes>) {
    exists k :: 0 <= k < |markers| && EndsWith(text, markers[k])
  }

  function Window(line: Bytes): Bytes {
    if |line| > MAX_MARKER_BYTES then line[|line| - MAX_MARKER_BYTES..] else line
  }

  lemma EndsAt(text: Bytes, marker: Bytes)
    ensures EndsWith(text, marker) <==> At(text, marker, |text| - |marker|)
  {
    if |marker| <= |text| {
      assert text[|text| - |marker|..|text| - |marker| + |marker|] == text[|text| - |marker|..];
    }
  }

  lemma AtPrefix(text: Bytes, more: Bytes, marker: Bytes, i: int)
    requires i + |marker| <= |text|
    ensures At(text + more, marker, i) <==> At(text, marker, i)
  {
    if i >= 0 {
      assert (text + more)[i..i + |marker|] == text[i..i + |marker|];
    }
  }

  lemma ContainsLast(line: Bytes, b: Byte, marker: Bytes)
    requires marker != []
    ensures Contains(line + [b], marker) <==> Contains(line, marker) || EndsWith(line + [b], marker)
  {
    var text := line + [b];
    EndsAt(text, marker);
    forall i | i + |marker| <= |line|
      ensures At(text, marker, i) <==> At(line, marker, i)
    {
      AtPrefix(line, [b], marker, i);
    }
    if Contains(text, marker) && !EndsWith(text, marker) {
      var i :| At(text, marker, i);
      assert At(line, marker, i);
    }
    if Contains(line, marker) {
      var i :| At(line, marker, i);
      assert At(text, marker, i);
    }
  }

  lemma EndsWithWindow(line: Bytes, marker: Bytes)
    requires |marker| <= MAX_MARKER_BYTES
    ensures EndsWith(line, marker) <==> EndsWith(Window(line), marker)
  {
    var w := Window(line);
    if |marker| <= |w| {
      assert w[|w| - |marker|..] == line[|line| - |marker|..];
    }
  }

  /** Watching the last 32 bytes finds exactly the markers a search of the whole line finds. */
  lemma WindowIsEnough(markers: seq<Bytes>, line: Bytes, b: Byte)
    requires MarkerSet(markers)
    ensures Sensitive(markers, line + [b]) <==> Sensitive(markers, line) || EndsWithAny(Window(line + [b]), markers)
  {
    forall k | 0 <= k < |markers|
      ensures Contains(line + [b], markers[k]) <==>
        Contains(line, markers[k]) || EndsWith(Window(line + [b]), markers[k])
    {
      ContainsLast(line, b, markers[k]);
      EndsWithWindow(line + [b], markers[k]);
    }
  }

  lemma NothingIsInsensitive(markers: seq<Bytes>)
    requires MarkerSet(markers)
    ensures !Sensitive(markers, [])
  {
    forall k, i | 0 <= k < |markers|
      ensures !At([], markers[k], i)
    {
    }
  }

  // ---------- Nothing sensitive is ever written ----------

  lemma ContainsAcross(a: Bytes, b: Bytes, marker: Bytes)
    requires LF !in marker
    ensures Contains(a + [LF] + b, marker) ==> Contains(a, marker) || Contains(b, marker)
  {
    var text, m := a + [LF] + b, |marker|;
    if Contains(text, marker) {
      var i :| At(text, marker, i);
      forall k | i <= k < i + m
        ensures text[k] != LF
      {
        assert text[k] == marker[k - i] && marker[k - i] in marker;
      }
      assert text[|a|] == LF;
      if i + m <= |a| {
        assert a[i..i + m] == text[i..i + m];
        assert At(a, marker, i);
      } else if i > |a| {
        var j := i - |a| - 1;
        assert b[j..j + m] == text[i..i + m];
        assert At(b, marker, j);
      }
    }
  }

  lemma ContainsPrefix(line: Bytes, n: nat, marker: Bytes)
    requires n <= |line| && Contains(line[..n], marker)
    ensures Contains(line, marker)
  {
    var i :| At(line[..n], marker, i);
    assert line[i..i + |marker|] == line[..n][i..i + |marker|];
    assert At(line, marker, i);
  }

  lemma WrittenIsClean(markers: seq<Bytes>, line: Bytes, marker: Bytes)
    requires MarkerSet(markers) && marker in markers
    ensures !Contains(Written(markers, line), marker)
  {
    if !Sensitive(markers, line) && Contains(Rendered(line), marker) {
      var kept := WithoutReturn(Truncated(line));
      assert kept == line[..|kept|];
      assert Rendered(line) == kept + [LF] + [];
      ContainsAcross(kept, [], marker);
      ContainsPrefix(line, |kept|, marker);
    }
  }

  /** The log of a stream holds no marker, not even one put together from several lines. */
  lemma {:induction false} LogIsClean(markers: seq<Bytes>, lines: seq<Bytes>, marker: Bytes)
    requires MarkerSet(markers) && marker in markers
    ensures !Contains(FlatMap(line => Written(markers, line), lines), marker)
  {
    var f := line => Written(markers, line);
    if lines != [] {
      var tail := FlatMap(f, lines[1..]);
      LogIsClean(markers, lines[1..], marker);
      WrittenIsClean(markers, lines[0], marker);
      if Sensitive(markers, lines[0]) {
        assert [] + tail == tail;
      } else {
        var kept := WithoutReturn(Truncated(lines[0]));
        assert f(lines[0]) == kept + [LF];
        if Contains(kept, marker) {
          assert (kept + [LF])[..|kept|] == kept;
          ContainsPrefix(kept + [LF], |kept|, marker);
        }
        ContainsAcross(kept, tail, marker);
      }
    }
  }

  // ---------- The markers ----------

  const INIT_MARKER := "CY_KAF_INIT"
  const READY_MARKER := "CY_KAF_READY"
  const TOKEN_MARKER := "sessionToken"
  const SESSION_COOKIE := "cy_kaf_desktop_session"

  predicate MarkerText(s: string) {
    0 < |s| <= MAX_MARKER_BYTES && forall i :: 0 <= i < |s| ==> CR < s[i] as int < 128
  }

  function AsBytes(s: string): (bytes: Bytes)
    requires MarkerText(s)
    ensures MarkerBytes(bytes)
  {
    seq(|s|, i requires 0 <= i < |s| => s[i] as int)
  }

  lemma MarkerTexts()
    ensures MarkerText(INIT_MARKER) && MarkerText(READY_MARKER) && MarkerText(TOKEN_MARKER)
    ensures MarkerText(SESSION_COOKIE)
  {
  }

  function SensitiveMarkers(): (markers: seq<Bytes>)
    ensures MarkerSet(markers) && |markers| == 4
  {
    MarkerTexts();
    [AsBytes(INIT_MARKER), AsBytes(READY_MARKER), AsBytes(TOKEN_MARKER), AsBytes(SESSION_COOKIE)]
  }

  /** `c` is no letter of the text. */
  predicate Lacks(text: string, c: char) {
    forall i :: 0 <= i < |text| ==> text[i] != c
  }

  lemma SeparateBytes(a: string, b: string, p: nat)
    requires MarkerText(a) && MarkerText(b) && p < |b| && Lacks(a, b[p])
    ensures Apart(AsBytes(a), AsBytes(b))
  {
    assert AsBytes(b)[p] in AsBytes(b);
    assert forall i :: 0 <= i < |a| ==> AsBytes(a)[i] == a[i] as int;
  }

  lemma InitLetters()
    ensures Lacks(INIT_MARKER, 'R') && Lacks(INIT_MARKER, 's') && Lacks(INIT_MARKER, 'c')
  {
  }

  lemma ReadyLetters()
    ensures Lacks(READY_MARKER, 'N') && Lacks(READY_MARKER, 's') && Lacks(READY_MARKER, 'c')
  {
  }

  lemma TokenLetters()
    ensures Lacks(TOKEN_MARKER, 'C') && Lacks(TOKEN_MARKER, 'c')
  {
  }

  lemma CookieLetters()
    ensures Lacks(SESSION_COOKIE, 'C') && Lacks(SESSION_COOKIE, 'T')
  {
  }

  lemma FourIndependent(a: Bytes, b: Bytes, c: Bytes, d: Bytes)
    requires Apart(a, b) && Apart(a, c) && Apart(a, d) && Apart(b, a) && Apart(b, c) && Apart(b, d)
    requires Apart(c, a) && Apart(c, b) && Apart(c, d) && Apart(d, a) && Apart(d, b) && Apart(d, c)
    ensures Independent([a, b, c, d])
  {
  }

  lemma SeparateFour(a: string, b: string, c: string, d: string)
    requires MarkerText(a) && MarkerText(b) && MarkerText(c) && MarkerText(d)
    requires |a| > 8 && |b| > 7 && |c| > 7 && a[0] == 'C' && b[0] == 'C' && c[0] == 's' && d[0] == 'c'
    requires a[8] == 'N' && b[7] == 'R' && c[7] == 'T'
    requires Lacks(a, 'R') && Lacks(a, 's') && Lacks(a, 'c') && Lacks(b, 'N') && Lacks(b, 's') && Lacks(b, 'c')
    requires Lacks(c, 'C') && Lacks(c, 'c') && Lacks(d, 'C') && Lacks(d, 'T')
    ensures Independent([AsBytes(a), AsBytes(b), AsBytes(c), AsBytes(d)])
  {
    SeparateBytes(a, b, 7);
    SeparateBytes(a, c, 0);
    SeparateBytes(a, d, 0);
    SeparateBytes(b, a, 8);
    SeparateBytes(b, c, 0);
    SeparateBytes(b, d, 0);
    SeparateBytes(c, a, 0);
    SeparateBytes(c, b, 0);
    SeparateBytes(c, d, 0);
    SeparateBytes(d, a, 0);
    SeparateBytes(d, b, 0);
    SeparateBytes(d, c, 7);
    FourIndependent(AsBytes(a), AsBytes(b), AsBytes(c), AsBytes(d));
  }

  lemma MarkersAreIndependent()
    ensures Independent(SensitiveMarkers())
  {
    MarkerTexts();
    InitLetters();
    ReadyLetters();
    TokenLetters();
    CookieLetters();
    SeparateFour(INIT_MARKER, READY_MARKER, TOKEN_MARKER, SESSION_COOKIE);
  }

  lemma ContainsBytes(text: Bytes, marker: Bytes)
    requires Contains(text, marker)
    ensures |marker| <= |text| && forall b :: b in marker ==> b in text
  {
    var i :| At(text, marker, i);
    forall p | 0 <= p < |marker|
      ensures marker[p] in text
    {
      assert text[i..i + |marker|][p] == text[i + p];
    }
  }

  /** A proper part of a marker holds no marker. */
  lemma FragmentIsQuiet(markers: seq<Bytes>, k: nat, i: nat, j: nat)
    requires Independent(markers) && k < |markers| && i <= j <= |markers[k]| && j - i < |markers[k]|
    ensures !Sensitive(markers, markers[k][i..j])
  {
    var part := markers[k][i..j];
    assert forall b :: b in part ==> b in markers[k];
    forall l | 0 <= l < |markers|
      ensures !Contains(part, markers[l])
    {
      if Contains(part, markers[l]) {
        ContainsBytes(part, markers[l]);
      }
    }
  }

  /** None of the four markers stands anywhere in the log of any stream. */
  lemma LogHoldsNoMarker(stream: Bytes, text: string)
    requires MarkerText(text)
    requires
      text == "CY_KAF_INIT" || text == "CY_KAF_READY" || text == "sessionToken" || text == "cy_kaf_desktop_session"
    ensures !Contains(Log(SensitiveMarkers(), stream), AsBytes(text))
  {
    IsMarker(text);
    LogIsClean(SensitiveMarkers(), CompleteLines(stream), AsBytes(text));
  }

  lemma IsMarker(text: string)
    requires MarkerText(text)
    requires text == INIT_MARKER || text == READY_MARKER || text == TOKEN_MARKER || text == SESSION_COOKIE
    ensures AsBytes(text) in SensitiveMarkers()
  {
  }
}
