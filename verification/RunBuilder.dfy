/** Runs put together step by step: the states reached by steps of some allowed kind. */
module RunBuilder {
  import opened Receiver
  import opened Sender
  import opened Transfer
  import T = TransferTheorems

  /** Which steps are allowed, judged by the step and the state it leads to. */
  type Allowed = (Label, State) -> bool

  /** Every step of the run is allowed. */
  ghost predicate Along(job: Upload, store: Store, ok: Allowed, labels: seq<Label>) {
    forall k :: 0 <= k < |labels| ==> ok(labels[k], T.Run(job, store, labels[..k + 1]))
  }

  /** A set of states that no allowed step leaves. */
  ghost predicate Closed(job: Upload, store: Store, ok: Allowed, R: State -> bool) {
    forall s: State, l: Label {:trigger R(s), Apply(job, store, s, l)} ::
      R(s) && ok(l, Apply(job, store, s, l)) ==> R(Apply(job, store, s, l))
  }

  lemma Extend(job: Upload, store: Store, ok: Allowed, R: State -> bool, s: State, l: Label, s': State)
    requires Closed(job, store, ok, R) && R(s) && Apply(job, store, s, l) == s' && ok(l, s')
    ensures R(s')
  {
  }

  lemma LongerRun(job: Upload, store: Store, labels: seq<Label>, l: Label)
    ensures T.Run(job, store, labels + [l]) == Apply(job, store, T.Run(job, store, labels), l)
  {
    assert (labels + [l])[..|labels|] == labels;
  }

  lemma AlongStep(job: Upload, store: Store, ok: Allowed, labels: seq<Label>, l: Label)
    requires Along(job, store, ok, labels) && ok(l, Apply(job, store, T.Run(job, store, labels), l))
    ensures Along(job, store, ok, labels + [l])
    ensures T.Run(job, store, labels + [l]) == Apply(job, store, T.Run(job, store, labels), l)
  {
    var longer := labels + [l];
    LongerRun(job, store, labels, l);
    forall k | 0 <= k < |longer| ensures ok(longer[k], T.Run(job, store, longer[..k + 1])) {
      if k < |labels| {
        assert longer[..k + 1] == labels[..k + 1];
      } else {
        assert longer[..k + 1] == longer;
      }
    }
  }

  /** The states reached by allowed steps contain the start and are closed. */
  lemma ReachedIsClosed(job: Upload, store: Store, ok: Allowed, R: State -> bool)
    requires forall s :: R(s) <==> exists labels :: Along(job, store, ok, labels) && T.Run(job, store, labels) == s
    ensures R(Start()) && Closed(job, store, ok, R)
  {
    assert Along(job, store, ok, []) && T.Run(job, store, []) == Start();
    forall s: State, l: Label | R(s) && ok(l, Apply(job, store, s, l)) ensures R(Apply(job, store, s, l)) {
      var labels :| Along(job, store, ok, labels) && T.Run(job, store, labels) == s;
      AlongStep(job, store, ok, labels, l);
    }
  }
}
