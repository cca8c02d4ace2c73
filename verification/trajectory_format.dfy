/**
 * Selection of a trajectory loader from the format name given on the command
 * line (`loadData` of the KITTI-style evaluation driver). Three names are
 * recognised; any other name is a fatal configuration error.
 */
module TrajectoryFormat {
  import opened Wrappers

  /** The three series types a trajectory file can be loaded into. */
  datatype Format =
    | Swe    // `SWEResultSeries`
    | Euroc  // `EurocResultSeries`
    | Pose   // plain `PoseSeries`

  /** The fatal error `loadData` raises, naming the rejected format string. */
  datatype FormatError = UnsupportedFormat(format: string)

  /** The command-line name of each format. */
  function Name(f: Format): (s: string)
    ensures |s| > 0
  {
    match f
    case Swe => "swe"
    case Euroc => "euroc"
    case Pose => "pose"
  }

  /** The dispatch of `loadData`: names are compared in the order swe, euroc, pose. */
  function ParseFormat(format: string): (r: Result<Format, FormatError>)
    ensures r.Success? <==> format in {"swe", "euroc", "pose"}
    ensures r.Success? ==> Name(r.value) == format
    ensures r.Failure? ==> r.error == UnsupportedFormat(format)
  {
    if format == "swe" then Success(Swe)
    else if format == "euroc" then Success(Euroc)
    else if format == "pose" then Success(Pose)
    else Failure(UnsupportedFormat(format))
  }

  /** Every format is selected by its own name, so each loader is reachable. */
  lemma NameRoundTrip(f: Format)
    ensures ParseFormat(Name(f)) == Success(f)
  {
  }

  /** Distinct formats have distinct names. */
  lemma NameInjective(f: Format, g: Format)
    requires Name(f) == Name(g)
    ensures f == g
  {
    NameRoundTrip(f);
    NameRoundTrip(g);
  }
}
