/** Sequences of verdicts on sidecar output, whatever the lines were. */
module Verdicts {
  import opened Wrappers
  import opened Protocol

  /** Output that gives the host no reason to report an invalid handshake: at most one control line,
      every line readable, and no report of an invalid init line. */
  predicate Clean(said: seq<Verdict>) {
    && (forall i :: 0 <= i < |said| ==> said[i].Ok? && said[i] != Ok(Some(Error(InitInvalid))))
    && (forall i, j :: 0 <= i < j < |said| ==> said[i] == Ok(None) || said[j] == Ok(None))
  }

  function Controls(said: seq<Verdict>): seq<Verdict> {
    if said == [] then []
    else Controls(said[..|said| - 1]) + (if said[|said| - 1] == Ok(None) then [] else [said[|said| - 1]])
  }

  /** Ordinary output does not matter: only the control lines decide. */
  lemma {:induction false} CleanByControls(said: seq<Verdict>)
    ensures Clean(said) <==> Clean(Controls(said))
    ensures forall v :: v in Controls(said) <==> v in said && v != Ok(None)
  {
    if said != [] {
      var front, last, c := said[..|said| - 1], said[|said| - 1], Controls(said[..|said| - 1]);
      CleanByControls(front);
      assert said == front + [last];
      if last != Ok(None) {
        CleanLast(front, last);
        CleanLast(c, last);
        assert Controls(said) == c + [last];
        assert forall v :: v in front && v != Ok(None) <==> v in c;
      } else {
        assert Controls(said) == c;
        CleanQuiet(front);
      }
    }
  }

  lemma CleanLast(front: seq<Verdict>, last: Verdict)
    requires last != Ok(None)
    ensures Clean(front + [last]) <==>
            Clean(front) && last.Ok? && last != Ok(Some(Error(InitInvalid))) &&
            forall v :: v in front ==> v == Ok(None)
  {
    var s := front + [last];
    assert s[|front|] == last;
    assert forall i :: 0 <= i < |front| ==> s[i] == front[i];
    if Clean(s) {
      forall v | v in front
        ensures v == Ok(None)
      {
        var i :| 0 <= i < |front| && front[i] == v;
        assert s[i] == v && s[|front|] == last;
      }
    }
    if (forall v :: v in front ==> v == Ok(None)) {
      assert forall i :: 0 <= i < |front| ==> front[i] in front;
    }
  }

  lemma CleanQuiet(front: seq<Verdict>)
    ensures Clean(front + [Ok(None)]) <==> Clean(front)
  {
    var s: seq<Verdict> := front + [Ok(None)];
    assert forall i :: 0 <= i < |front| ==> s[i] == front[i];
  }

  lemma CleanPrefix(said: seq<Verdict>, n: nat)
    requires Clean(said) && n <= |said|
    ensures Clean(said[..n])
  {
  }
}
