/**
 * The KITTI-style evaluation driver end to end: select the two loaders,
 * associate estimate samples with groundtruth samples, hand the matched pose
 * lists to the relative-error computation, and produce the result file's
 * name and contents.
 *
 * Loading is reduced to what the driver uses of each series: the groundtruth
 * series' nearest-value lookup and the estimate series' stamped poses. The
 * relative-error computation `calcSequenceErrors` is a parameter; its segment
 * length, frame stride and alignment options are bound inside it.
 */
module KittiEvaluation {
  import opened Wrappers
  import opened TrajectoryFormat
  import opened Association
  import opened ResultCsv

  /** The ways the driver aborts. */
  datatype Fatal =
    | BadFormat(formatError: FormatError)        // `LOG(FATAL)` in `loadData`
    | BadLookup(lookupError: AssociationError)   // `CHECK(success)` in the association loop

  /** What the driver produces: the result file and the association counts. */
  datatype Report = Report(fileName: string, contents: string, matched: nat, skipped: nat)

  method Evaluate<P, V, D>(
    formatGt: string,
    formatEs: string,
    loadGt: Format -> (int -> Nearest<V>),
    loadEs: Format -> seq<Stamped<P>>,
    toPose: V -> P,
    offset: int,
    maxDiff: int,
    rule: ToleranceRule,
    calcSequenceErrors: (seq<P>, seq<P>) -> seq<RelativeError<D>>,
    prefix: string,
    segmentLength: real,
    fmt: D -> string)
    returns (r: Result<Report, Fatal>)
    // The groundtruth format is checked first, and a bad format stops the run before anything else.
    ensures ParseFormat(formatGt).Failure? ==> r == Failure(BadFormat(UnsupportedFormat(formatGt)))
    ensures ParseFormat(formatGt).Success? && ParseFormat(formatEs).Failure? ==>
              r == Failure(BadFormat(UnsupportedFormat(formatEs)))
    ensures ParseFormat(formatGt).Success? && ParseFormat(formatEs).Success? ==>
              var c := Config(loadGt(ParseFormat(formatGt).value), offset, maxDiff, rule);
              var es := loadEs(ParseFormat(formatEs).value);
              && (r.Success? <==> AllFound(c, es))
              && (r.Failure? ==> r.error.BadLookup?)
              && (r.Success? ==>
                    && r.value.fileName == ResultFileName(prefix, segmentLength)
                    && r.value.contents == Csv(calcSequenceErrors(KeptGt(c, toPose, es), KeptEs(c, es)), fmt)
                    && r.value.matched + r.value.skipped == |es|
                    && r.value.matched == |KeptEs(c, es)|)
  {
    var gtFormat := ParseFormat(formatGt);
    if gtFormat.Failure? {
      return Failure(BadFormat(gtFormat.error));
    }
    var esFormat := ParseFormat(formatEs);
    if esFormat.Failure? {
      return Failure(BadFormat(esFormat.error));
    }
    var c := Config(loadGt(gtFormat.value), offset, maxDiff, rule);
    var es := loadEs(esFormat.value);
    var matches := Associate(es, c, toPose);
    if matches.Failure? {
      return Failure(BadLookup(matches.error));
    }
    var m := matches.value;
    var errors := calcSequenceErrors(m.gtPoses, m.esPoses);
    r := Success(Report(ResultFileName(prefix, segmentLength), Csv(errors, fmt), |m.esPoses|, m.skipped));
  }
}
