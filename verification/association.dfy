/**
 * Timestamp association of the KITTI-style evaluation driver: every estimate
 * sample is paired with the groundtruth sample nearest to its shifted stamp,
 * and kept only when the stamps are close enough.
 *
 * Stamps are integer nanoseconds. Poses are an opaque type `P`; the
 * groundtruth buffer stores values of an opaque type `V` (the 7-vector of a
 * pose), turned into poses by `toPose`. The groundtruth buffer's
 * nearest-stamp lookup is a parameter returning `(stamp, value, success)`.
 */
module Association {
  import opened Wrappers

  datatype Stamped<P> = Stamped(stamp: int, pose: P)

  /** What the groundtruth buffer's nearest-value lookup returns. */
  datatype Nearest<V> = Nearest(stamp: int, value: V, success: bool)

  /**
   * Which tolerance test decides whether a sample is kept. `AsWritten` is the
   * test of the driver, `|gtStamp - t + offset| <= maxDiff`; `Intended`
   * measures the distance to the stamp that was actually looked up,
   * `|gtStamp - (t + offset)| <= maxDiff`.
   */
  datatype ToleranceRule = AsWritten | Intended

  datatype Config<V> = Config(
    nearest: int -> Nearest<V>,  // nearest-value lookup of the groundtruth buffer
    offset: int,                 // nanoseconds added to every estimate stamp
    maxDiff: int,                // largest accepted stamp difference, nanoseconds
    rule: ToleranceRule)

  /** The two index-aligned pose lists and the number of dropped samples. */
  datatype Matches<P> = Matches(esPoses: seq<P>, gtPoses: seq<P>, skipped: nat)

  /** The fatal `CHECK(success)`: the lookup for estimate sample `sample` found nothing. */
  datatype AssociationError = LookupFailed(sample: nat, query: int)

  function Abs(x: int): nat {
    if x < 0 then -x else x
  }

  /** The groundtruth stamp asked for on behalf of estimate stamp `t`. */
  function Query<V>(c: Config<V>, t: int): int {
    t + c.offset
  }

  function Lookup<P, V>(c: Config<V>, s: Stamped<P>): Nearest<V> {
    c.nearest(Query(c, s.stamp))
  }

  predicate WithinTolerance<V>(c: Config<V>, gtStamp: int, t: int) {
    match c.rule
    case AsWritten => Abs(gtStamp - t + c.offset) <= c.maxDiff
    case Intended => Abs(gtStamp - Query(c, t)) <= c.maxDiff
  }

  /** Whether the lookup for a sample succeeds. */
  predicate Found<P, V>(c: Config<V>, s: Stamped<P>) {
    Lookup(c, s).success
  }

  predicate AllFound<P, V>(c: Config<V>, es: seq<Stamped<P>>) {
    forall i :: 0 <= i < |es| ==> Found(c, es[i])
  }

  /** Whether a sample passes the tolerance test against its nearest groundtruth stamp. */
  predicate Keep<P, V>(c: Config<V>, s: Stamped<P>)
    ensures Keep(c, s) ==> 0 <= c.maxDiff
    ensures c.offset == 0 ==> (Keep(c, s) <==> Abs(Lookup(c, s).stamp - s.stamp) <= c.maxDiff)
  {
    WithinTolerance(c, Lookup(c, s).stamp, s.stamp)
  }

  // Reference definitions: the association as filters over the estimate samples.

  /** The estimate poses of the kept samples, in order. */
  function KeptEs<P, V>(c: Config<V>, es: seq<Stamped<P>>): seq<P>
    decreases |es|
  {
    if |es| == 0 then []
    else
      var last := es[|es| - 1];
      KeptEs(c, es[..|es| - 1]) + (if Keep(c, last) then [last.pose] else [])
  }

  /** The groundtruth poses matched to the kept samples, in order. */
  function KeptGt<P, V>(c: Config<V>, toPose: V -> P, es: seq<Stamped<P>>): seq<P>
    decreases |es|
  {
    if |es| == 0 then []
    else
      var last := es[|es| - 1];
      KeptGt(c, toPose, es[..|es| - 1]) + (if Keep(c, last) then [toPose(Lookup(c, last).value)] else [])
  }

  /** The number of dropped samples. */
  function Skipped<P, V>(c: Config<V>, es: seq<Stamped<P>>): nat
    decreases |es|
  {
    if |es| == 0 then 0
    else Skipped(c, es[..|es| - 1]) + (if Keep(c, es[|es| - 1]) then 0 else 1)
  }

  /** The positions of the kept samples: strictly increasing, and exactly those that pass the test. */
  function KeptIndices<P, V>(c: Config<V>, es: seq<Stamped<P>>): (idx: seq<nat>)
    ensures forall k :: 0 <= k < |idx| ==> idx[k] < |es| && Keep(c, es[idx[k]])
    ensures forall k, l :: 0 <= k < l < |idx| ==> idx[k] < idx[l]
    ensures forall i :: 0 <= i < |es| && Keep(c, es[i]) ==> i in idx
    decreases |es|
  {
    if |es| == 0 then []
    else KeptIndices(c, es[..|es| - 1]) + (if Keep(c, es[|es| - 1]) then [|es| - 1] else [])
  }

  /**
   * The association loop of the driver. Samples are visited in order; a
   * failed lookup aborts the run; a sample failing the tolerance test is
   * counted as skipped; every other sample appends its estimate pose and its
   * groundtruth pose in lockstep.
   */
  method Associate<P, V>(es: seq<Stamped<P>>, c: Config<V>, toPose: V -> P)
    returns (r: Result<Matches<P>, AssociationError>)
    ensures r.Failure? <==> !AllFound(c, es)
    ensures r.Failure? ==>
              && r.error.sample < |es|
              && !Found(c, es[r.error.sample])
              && r.error.query == Query(c, es[r.error.sample].stamp)
              && forall j :: 0 <= j < r.error.sample ==> Found(c, es[j])
    ensures r.Success? ==>
              && r.value.esPoses == KeptEs(c, es)
              && r.value.gtPoses == KeptGt(c, toPose, es)
              && r.value.skipped == Skipped(c, es)
    ensures r.Success? ==>
              && |r.value.esPoses| == |r.value.gtPoses| <= |es|
              && |r.value.esPoses| + r.value.skipped == |es|
  {
    var esPoses: seq<P> := [];
    var gtPoses: seq<P> := [];
    var skipped: nat := 0;
    var i := 0;
    while i < |es|
      invariant 0 <= i <= |es|
      invariant forall j :: 0 <= j < i ==> Found(c, es[j])
      invariant esPoses == KeptEs(c, es[..i])
      invariant gtPoses == KeptGt(c, toPose, es[..i])
      invariant skipped == Skipped(c, es[..i])
    {
      assert es[..i + 1][..i] == es[..i];
      var n := c.nearest(es[i].stamp + c.offset);
      if !n.success {
        return Failure(LookupFailed(i, es[i].stamp + c.offset));
      }
      if !WithinTolerance(c, n.stamp, es[i].stamp) {
        skipped := skipped + 1;
        i := i + 1;
        continue;
      }
      esPoses := esPoses + [es[i].pose];
      gtPoses := gtPoses + [toPose(n.value)];
      i := i + 1;
    }
    assert es[..i] == es;
    Conservation(c, toPose, es);
    r := Success(Matches(esPoses, gtPoses, skipped));
  }

  /** Every sample is either matched or skipped, and the two pose lists stay in lockstep. */
  lemma {:induction false} Conservation<P, V>(c: Config<V>, toPose: V -> P, es: seq<Stamped<P>>)
    ensures |KeptEs(c, es)| == |KeptGt(c, toPose, es)|
    ensures |KeptEs(c, es)| + Skipped(c, es) == |es|
    decreases |es|
  {
    if |es| > 0 {
      Conservation(c, toPose, es[..|es| - 1]);
    }
  }

  /**
   * The matched lists are the kept samples in their original order, neither
   * reordered nor duplicated: entry `k` of both lists comes from the `k`-th
   * kept sample (whose positions `KeptIndices` characterises).
   */
  lemma {:induction false} KeptIsOrderedSubsequence<P, V>(c: Config<V>, toPose: V -> P, es: seq<Stamped<P>>)
    ensures |KeptIndices(c, es)| == |KeptEs(c, es)| == |KeptGt(c, toPose, es)|
    ensures forall k :: 0 <= k < |KeptIndices(c, es)| ==>
              && KeptEs(c, es)[k] == es[KeptIndices(c, es)[k]].pose
              && KeptGt(c, toPose, es)[k] == toPose(Lookup(c, es[KeptIndices(c, es)[k]]).value)
    decreases |es|
  {
    if |es| > 0 {
      var prefix := es[..|es| - 1];
      KeptIsOrderedSubsequence(c, toPose, prefix);
      assert forall k :: 0 <= k < |KeptIndices(c, prefix)| ==> es[KeptIndices(c, prefix)[k]] == prefix[KeptIndices(c, prefix)[k]];
    }
  }

  /** As written, the test measures the distance from the nearest stamp to `t - offset`,
      although the lookup was made at `t + offset`. */
  lemma AsWrittenMeasuresFromShiftedBack<P, V>(c: Config<V>, s: Stamped<P>)
    requires c.rule == AsWritten
    ensures Keep(c, s) <==> Abs(Lookup(c, s).stamp - (s.stamp - c.offset)) <= c.maxDiff
  {
  }

  /** Without an offset both tolerance tests decide alike. */
  lemma RulesAgreeWithoutOffset<P, V>(c: Config<V>, s: Stamped<P>)
    requires c.offset == 0
    ensures Keep(c.(rule := AsWritten), s) <==> Keep(c.(rule := Intended), s)
  {
  }

  /** With no offset and no tolerance a sample is kept exactly when the nearest
      groundtruth stamp equals its own stamp. */
  lemma ExactMatchOnly<P, V>(c: Config<V>, s: Stamped<P>)
    requires c.offset == 0 && c.maxDiff == 0
    ensures Keep(c, s) <==> Lookup(c, s).stamp == s.stamp
  {
  }

  /** As written, a groundtruth sample sitting exactly at the queried stamp is kept only
      when twice the offset fits in the tolerance. */
  lemma AsWrittenExactMatch<P, V>(c: Config<V>, s: Stamped<P>)
    requires c.rule == AsWritten
    requires Lookup(c, s).stamp == Query(c, s.stamp)
    ensures Keep(c, s) <==> 2 * Abs(c.offset) <= c.maxDiff
  {
  }

  /** A groundtruth buffer holding a sample at every stamp: the lookup finds the query itself. */
  function Dense<V>(v: V): int -> Nearest<V> {
    q => Nearest(q, v, true)
  }

  /** Counterexample to the test as written: with a 15 ms offset and the default 20 ms
      tolerance, an estimate sample whose shifted stamp is matched exactly is dropped. */
  lemma AsWrittenDropsExactMatch<P, V>(v: V, p: P)
    ensures var c := Config(Dense(v), 15_000_000, 20_000_000, AsWritten);
            && Lookup(c, Stamped(0, p)).stamp == Query(c, 0)
            && KeptEs(c, [Stamped(0, p)]) == []
            && Skipped(c, [Stamped(0, p)]) == 1
  {
    var c := Config(Dense(v), 15_000_000, 20_000_000, AsWritten);
    assert [Stamped(0, p)][..0] == [];
    assert !Keep(c, Stamped(0, p));
  }

  /** The corrected test keeps every sample whose shifted stamp is matched exactly, and
      keeps it precisely when the matched stamp is within the tolerance of the query. */
  lemma IntendedKeepsExactMatch<P, V>(c: Config<V>, s: Stamped<P>)
    requires c.rule == Intended
    ensures Keep(c, s) <==> Abs(Lookup(c, s).stamp - Query(c, s.stamp)) <= c.maxDiff
    ensures Lookup(c, s).stamp == Query(c, s.stamp) && 0 <= c.maxDiff ==> Keep(c, s)
  {
  }
}
