/** The host and the sidecar together. */
module DesktopHandshake {
  import opened Wrappers
  import opened JsonText
  import opened Protocol
  import opened Verdicts
  import opened DesktopTrace
  import Lifecycle
  import Sidecar
  import Base64

  /** In every run of the host, a sidecar that was started with the host's own init line, read it in time and
      does not listen on port 80 never makes the host report an invalid handshake, however much of its output
      the host has seen and whatever ordinary lines came in between. */
  lemma SidecarNeverFailsTheHandshake(t: seq<Action>, i: nat, secret: seq<Byte>, tail: string, desktop: bool,
      w: Sidecar.World)
    requires Accepted(t) && i < |t| && t[i].FailedWith?
    requires |secret| == TOKEN_BYTES && InitLine(Base64.Encode(secret)).Ok?
    requires w.stdin == InitLine(Base64.Encode(secret)).value + tail && w.initInTime
    requires w.listener != Some(Sidecar.Tcp(80))
    requires Controls(OutputSinceSpawn(t[..i])) <= VerdictsOf(Sidecar.Output(desktop, w))
    ensures t[i].code != Lifecycle.FailureCode.InitInvalid
  {
    Sidecar.HostInitGivesCleanOutput(secret, tail, desktop, w);
    CleanOutputIsHarmless(t, i, VerdictsOf(Sidecar.Output(desktop, w)));
  }

  lemma CleanOutputIsHarmless(t: seq<Action>, i: nat, said: seq<Verdict>)
    requires Accepted(t) && i < |t| && t[i].FailedWith?
    requires Clean(said) && Controls(OutputSinceSpawn(t[..i])) <= said
    ensures t[i].code != Lifecycle.FailureCode.InitInvalid
  {
    var controls := Controls(OutputSinceSpawn(t[..i]));
    CleanPrefix(said, |controls|);
    assert said[..|controls|] == controls;
    CleanOutputIsNeverInvalid(t, i);
  }
}
