/** What the owners of two connections may rely on, over every run. */
module DuplexResults {
  import opened Basics
  import opened Connections
  import opened Duplex
  import opened DuplexTheorems
  import opened DuplexSteps
  import opened DuplexHangs

  /** In every run of two connections over a network that may lose, repeat and reorder, in which
      nothing arrives more than 2^31 sequence numbers late: the run returns exactly when no step
      delivers a packet that the receiver chokes on; and wherever it has come to, both directions
      are faithful, through handshakes, resets and closing. */
  lemma BothWays(near: Config, far: Config, steps: seq<Step>)
    requires AllTimely(Boot(near, far), steps)
    requires Offered(steps, true) + 3 < TWO63 && Offered(steps, false) + 3 < TWO63
    ensures Duplex.Run(Boot(near, far), steps).Done? <==> Unstranded(Boot(near, far), steps)
    ensures
      var o := Duplex.Run(Boot(near, far), steps);
      o.Done? ==> Faithful(o.value.near, o.value.far) && Faithful(o.value.far, o.value.near)
  {
    hide Faithful, Half, Duplex.Run, Unstranded, AllTimely, Offered;
    BootAgrees(near, far);
    RunReturnsIff(Boot(near, far), steps, TWO63 - 4);
    DuplexSteps.RunKeeps(Boot(near, far), steps, TWO63 - 4);
    var o := Duplex.Run(Boot(near, far), steps);
    if o.Done? {
      HalfIsFaithful(o.value.near, o.value.far);
      HalfIsFaithful(o.value.far, o.value.near);
    }
  }

  /** For streams of at most 2^31 - 3 bytes each way this holds of every run whatsoever. */
  lemma BothWaysShort(near: Config, far: Config, steps: seq<Step>)
    requires Offered(steps, true) + 3 <= TWO31 && Offered(steps, false) + 3 <= TWO31
    ensures Duplex.Run(Boot(near, far), steps).Done? <==> Unstranded(Boot(near, far), steps)
    ensures
      var o := Duplex.Run(Boot(near, far), steps);
      o.Done? ==> Faithful(o.value.near, o.value.far) && Faithful(o.value.far, o.value.near)
  {
    hide Faithful, Agree, Duplex.Run, Unstranded, AllTimely, Offered;
    BootAgrees(near, far);
    assert Within(Boot(near, far), steps, TWO31 - 3);
    ShortIsTimely(Boot(near, far), steps);
    BothWays(near, far, steps);
  }
}
