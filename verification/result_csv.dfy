/**
 * The result file of the KITTI-style evaluation driver: its name, built from
 * a prefix and the truncated segment length, and its contents, a fixed
 * header line followed by one comma-separated line per relative error.
 *
 * Floating-point fields are an opaque type `D`, written by a renderer `fmt`
 * standing for the stream's `operator<<`; integer fields are written in
 * decimal as the stream writes them.
 */
module ResultCsv {
  import opened Wrappers
  import opened Decimal

  /** One relative-error record, in the column order of the result file. */
  datatype RelativeError<D> = RelativeError(
    firstFrame: int,
    tx: D, ty: D, tz: D,   // translation error
    ax: D, ay: D, az: D,   // rotation error, angle-axis
    len: D,                // realised segment length
    numFrames: int,
    scaleError: D)

  /** `static_cast<int>` of a non-integral value: truncation toward zero. */
  function TruncToInt(x: real): (r: int)
    ensures 0.0 <= x ==> 0 <= r && r as real <= x < r as real + 1.0
    ensures x < 0.0 ==> r <= 0 && r as real - 1.0 < x <= r as real
  {
    if x >= 0.0 then x.Floor else -((-x).Floor)
  }

  /** `prefix + "_" + std::to_string(static_cast<int>(segmentLength)) + ".csv"`. */
  function ResultFileName(prefix: string, segmentLength: real): (name: string)
    ensures |prefix| + 6 <= |name|
    ensures name[..|prefix|] == prefix && name[|prefix|] == '_'
    ensures name[|name| - 4..] == ".csv"
  {
    prefix + "_" + ToDecimal(TruncToInt(segmentLength)) + ".csv"
  }

  /** The column titles of the header line. */
  const HeaderFields: seq<string> :=
    ["# First frame index", "err-tx", "err-ty", "err-tz", "err-ax", "err-ay", "err-az",
     "length", "num frames", "err-scale"]

  /** The header line, without its line break: the column titles joined by ", ". */
  function HeaderLine(): string {
    JoinCommaSpace(HeaderFields)
  }

  /** The ten fields of a record, each as written. */
  function Fields<D>(e: RelativeError<D>, fmt: D -> string): (fs: seq<string>)
    ensures |fs| == 10
  {
    [ToDecimal(e.firstFrame), fmt(e.tx), fmt(e.ty), fmt(e.tz), fmt(e.ax), fmt(e.ay), fmt(e.az),
     fmt(e.len), ToDecimal(e.numFrames), fmt(e.scaleError)]
  }

  /** The line written for one record, without its line break: the fields joined by ", ". */
  function RowLine<D>(e: RelativeError<D>, fmt: D -> string): string {
    JoinCommaSpace(Fields(e, fmt))
  }

  function JoinCommaSpace(fs: seq<string>): string
    requires |fs| > 0
    decreases |fs|
  {
    if |fs| == 1 then fs[0] else fs[0] + ", " + JoinCommaSpace(fs[1..])
  }

  /** Everything written after the header: each record's line followed by a line break. */
  function Rows<D>(errors: seq<RelativeError<D>>, fmt: D -> string): (text: string)
    ensures |errors| == 0 <==> text == ""
    ensures |errors| > 0 ==> text[|text| - 1] == '\n'
    decreases |errors|
  {
    if |errors| == 0 then ""
    else RowLine(errors[0], fmt) + "\n" + Rows(errors[1..], fmt)
  }

  /** The whole result file. */
  function Csv<D>(errors: seq<RelativeError<D>>, fmt: D -> string): (text: string)
    ensures |HeaderLine()| < |text|
    ensures text[..|HeaderLine()| + 1] == HeaderLine() + "\n"
    ensures text[|text| - 1] == '\n'
  {
    HeaderLine() + "\n" + Rows(errors, fmt)
  }

  function RowLines<D>(errors: seq<RelativeError<D>>, fmt: D -> string): (lines: seq<string>)
    ensures |lines| == |errors|
    ensures forall k :: 0 <= k < |errors| ==> lines[k] == RowLine(errors[k], fmt)
  {
    seq(|errors|, k requires 0 <= k < |errors| => RowLine(errors[k], fmt))
  }

  // Splitting and joining at a separator character, the reading partner of the writer.

  /** `parts` with `sep` between consecutive parts. */
  function Join(parts: seq<string>, sep: char): string
    requires |parts| > 0
    decreases |parts|
  {
    if |parts| == 1 then parts[0] else parts[0] + [sep] + Join(parts[1..], sep)
  }

  /** The pieces of `s` between occurrences of `sep`; there is always one more piece than separators. */
  function Split(s: string, sep: char): (parts: seq<string>)
    ensures |parts| > 0
    decreases |s|
  {
    if |s| == 0 then [""]
    else
      var rest := Split(s[1..], sep);
      if s[0] == sep then [""] + rest else [[s[0]] + rest[0]] + rest[1..]
  }

  predicate Free(s: string, sep: char) {
    sep !in s
  }

  /** A renderer that never writes the given character. */
  ghost predicate NeverWrites<D(!new)>(fmt: D -> string, c: char) {
    forall d :: Free(fmt(d), c)
  }

  lemma {:induction false} SplitFree(p: string, sep: char)
    requires Free(p, sep)
    ensures Split(p, sep) == [p]
    decreases |p|
  {
    if |p| > 0 {
      SplitFree(p[1..], sep);
      assert [p[0]] + p[1..] == p;
    }
  }

  lemma {:induction false} SplitAtSeparator(p: string, sep: char, t: string)
    requires Free(p, sep)
    ensures Split(p + [sep] + t, sep) == [p] + Split(t, sep)
    decreases |p|
  {
    if |p| == 0 {
      assert (p + [sep] + t)[1..] == t;
    } else {
      assert (p + [sep] + t)[1..] == p[1..] + [sep] + t;
      SplitAtSeparator(p[1..], sep, t);
      assert [p[0]] + p[1..] == p;
    }
  }

  /** Splitting undoes joining when no part contains the separator. */
  lemma {:induction false} SplitJoin(parts: seq<string>, sep: char)
    requires |parts| > 0
    requires forall k :: 0 <= k < |parts| ==> Free(parts[k], sep)
    ensures Split(Join(parts, sep), sep) == parts
    decreases |parts|
  {
    if |parts| == 1 {
      SplitFree(parts[0], sep);
    } else {
      SplitJoin(parts[1..], sep);
      SplitAtSeparator(parts[0], sep, Join(parts[1..], sep));
      assert [parts[0]] + parts[1..] == parts;
    }
  }

  lemma {:induction false} RowsAsJoin<D>(errors: seq<RelativeError<D>>, fmt: D -> string)
    ensures Rows(errors, fmt) == Join(RowLines(errors, fmt) + [""], '\n')
    decreases |errors|
  {
    if |errors| > 0 {
      RowsAsJoin(errors[1..], fmt);
      assert (RowLines(errors, fmt) + [""])[1..] == RowLines(errors[1..], fmt) + [""];
    }
  }

  lemma DecimalFree(n: int, c: char)
    requires c != '-' && !IsDigit(c)
    ensures Free(ToDecimal(n), c)
  {
  }

  lemma {:induction false} JoinCommaSpaceFree(fs: seq<string>, c: char)
    requires |fs| > 0
    requires c != ',' && c != ' '
    requires forall k :: 0 <= k < |fs| ==> Free(fs[k], c)
    ensures Free(JoinCommaSpace(fs), c)
    decreases |fs|
  {
    if |fs| > 1 {
      JoinCommaSpaceFree(fs[1..], c);
    }
  }

  lemma RowLineFree<D(!new)>(e: RelativeError<D>, fmt: D -> string)
    requires NeverWrites(fmt, '\n')
    ensures Free(RowLine(e, fmt), '\n')
  {
    var fs := Fields(e, fmt);
    DecimalFree(e.firstFrame, '\n');
    DecimalFree(e.numFrames, '\n');
    forall k | 0 <= k < 10
      ensures Free(fs[k], '\n')
    {
      if k != 0 && k != 8 {
        assert fs[k] in {fmt(e.tx), fmt(e.ty), fmt(e.tz), fmt(e.ax), fmt(e.ay), fmt(e.az), fmt(e.len), fmt(e.scaleError)};
      }
      assert Free(fs[k], '\n');
    }
    JoinCommaSpaceFree(fs, '\n');
  }

  /**
   * Read back line by line, the result file is the header line, then exactly
   * one line per record in list order, then nothing after the final line break.
   */
  lemma CsvLines<D(!new)>(errors: seq<RelativeError<D>>, fmt: D -> string)
    requires NeverWrites(fmt, '\n')
    ensures Split(Csv(errors, fmt), '\n') == [HeaderLine()] + RowLines(errors, fmt) + [""]
  {
    var lines := [HeaderLine()] + RowLines(errors, fmt) + [""];
    RowsAsJoin(errors, fmt);
    assert lines[1..] == RowLines(errors, fmt) + [""];
    assert Csv(errors, fmt) == Join(lines, '\n');
    forall k | 0 <= k < |lines|
      ensures Free(lines[k], '\n')
    {
      if k == 0 {
        HeaderLineFree();
      } else if k < |lines| - 1 {
        RowLineFree(errors[k - 1], fmt);
      }
    }
    SplitJoin(lines, '\n');
  }

  /** The fields as they appear between commas: all but the first keep the space of ", ". */
  function Spaced(fs: seq<string>): (parts: seq<string>)
    requires |fs| > 0
    ensures |parts| == |fs|
    ensures parts[0] == fs[0]
    ensures forall k :: 1 <= k < |fs| ==> parts[k] == " " + fs[k]
  {
    [fs[0]] + SpaceAll(fs[1..])
  }

  /** Every part preceded by a space. */
  function SpaceAll(ts: seq<string>): (parts: seq<string>)
    ensures |parts| == |ts|
    ensures forall k :: 0 <= k < |ts| ==> parts[k] == " " + ts[k]
    decreases |ts|
  {
    if |ts| == 0 then [] else [" " + ts[0]] + SpaceAll(ts[1..])
  }

  lemma JoinPrefixed(pre: string, parts: seq<string>, sep: char)
    requires |parts| > 0
    ensures Join([pre + parts[0]] + parts[1..], sep) == pre + Join(parts, sep)
  {
    var q := [pre + parts[0]] + parts[1..];
    if |parts| > 1 {
      assert q[1..] == parts[1..];
    }
  }

  lemma SpacedTail(fs: seq<string>)
    requires |fs| > 1
    ensures Spaced(fs)[1..] == [" " + Spaced(fs[1..])[0]] + Spaced(fs[1..])[1..]
  {
    var t := fs[1..];
    assert Spaced(fs)[1..] == SpaceAll(t);
    assert SpaceAll(t) == [" " + t[0]] + SpaceAll(t[1..]);
    assert Spaced(t) == [t[0]] + SpaceAll(t[1..]);
    assert Spaced(t)[1..] == SpaceAll(t[1..]);
  }

  lemma JoinStep(parts: seq<string>, sep: char)
    requires |parts| > 1
    ensures Join(parts, sep) == parts[0] + [sep] + Join(parts[1..], sep)
  {
  }

  lemma {:induction false} CommaSpaceAsJoin(fs: seq<string>)
    requires |fs| > 0
    ensures JoinCommaSpace(fs) == Join(Spaced(fs), ',')
    decreases |fs|
  {
    if |fs| > 1 {
      var tail := Spaced(fs[1..]);
      var spaced := Spaced(fs);
      var rest := Join(tail, ',');
      CommaSpaceAsJoin(fs[1..]);
      SpacedTail(fs);
      JoinPrefixed(" ", tail, ',');
      JoinStep(spaced, ',');
      assert Join(spaced, ',') == fs[0] + [','] + (" " + rest);
      assert [','] + " " == ", ";
      assert fs[0] + [','] + (" " + rest) == fs[0] + ", " + rest;
    }
  }

  /**
   * Read back at commas, a record's line has exactly ten fields in column
   * order; every field after the first carries the space of the ", " separator.
   */
  lemma RowFields<D(!new)>(e: RelativeError<D>, fmt: D -> string)
    requires NeverWrites(fmt, ',')
    ensures var parts := Split(RowLine(e, fmt), ',');
            && |parts| == 10
            && parts[0] == Fields(e, fmt)[0]
            && forall k :: 1 <= k < 10 ==> parts[k] == " " + Fields(e, fmt)[k]
  {
    var fs := Fields(e, fmt);
    var parts := Spaced(fs);
    DecimalFree(e.firstFrame, ',');
    DecimalFree(e.numFrames, ',');
    forall k | 0 <= k < 10
      ensures Free(parts[k], ',')
    {
      if k != 0 && k != 8 {
        assert fs[k] in {fmt(e.tx), fmt(e.ty), fmt(e.tz), fmt(e.ax), fmt(e.ay), fmt(e.az), fmt(e.len), fmt(e.scaleError)};
      }
      assert Free(fs[k], ',');
    }
    CommaSpaceAsJoin(fs);
    SplitJoin(parts, ',');
  }

  lemma HeaderFieldsFree(c: char)
    requires c in "\n,"
    ensures forall k :: 0 <= k < |HeaderFields| ==> Free(HeaderFields[k], c)
  {
    forall k | 0 <= k < |HeaderFields|
      ensures Free(HeaderFields[k], c)
    {
    }
  }

  lemma HeaderLineFree()
    ensures Free(HeaderLine(), '\n')
  {
    HeaderFieldsFree('\n');
    JoinCommaSpaceFree(HeaderFields, '\n');
  }

  /** Prefixing parts with a space keeps them free of any other character. */
  lemma SpacedFree(fs: seq<string>, c: char)
    requires |fs| > 0 && c != ' '
    requires forall k :: 0 <= k < |fs| ==> Free(fs[k], c)
    ensures forall k :: 0 <= k < |fs| ==> Free(Spaced(fs)[k], c)
  {
    forall k | 1 <= k < |fs|
      ensures Free(Spaced(fs)[k], c)
    {
      assert Spaced(fs)[k] == " " + fs[k];
    }
  }

  lemma HeaderSplit()
    ensures Split(HeaderLine(), ',') == Spaced(HeaderFields)
  {
    HeaderFieldsFree(',');
    SpacedFree(HeaderFields, ',');
    CommaSpaceAsJoin(HeaderFields);
    SplitJoin(Spaced(HeaderFields), ',');
  }

  /** Read back at commas, the header line has one title per column of a record line. */
  lemma HeaderColumns<D(!new)>(e: RelativeError<D>, fmt: D -> string)
    requires NeverWrites(fmt, ',')
    ensures |Split(HeaderLine(), ',')| == |Split(RowLine(e, fmt), ',')| == 10
  {
    HeaderSplit();
    RowFields(e, fmt);
  }

  /** The name of the result file gives back its parts: the prefix, an underscore, the
      truncated segment length in decimal, and the `.csv` extension. */
  lemma FileNameParts(prefix: string, segmentLength: real)
    ensures var name := ResultFileName(prefix, segmentLength);
            && |prefix| + 6 <= |name|
            && name[..|prefix|] == prefix
            && name[|prefix|] == '_'
            && name[|name| - 4..] == ".csv"
            && ParseDecimal(name[|prefix| + 1..|name| - 4]) == Some(TruncToInt(segmentLength))
            && NoLeadingZero(name[|prefix| + 1..|name| - 4])
  {
    var name := ResultFileName(prefix, segmentLength);
    var digits := ToDecimal(TruncToInt(segmentLength));
    assert name[|prefix| + 1..|name| - 4] == digits;
    DecimalRoundTrip(TruncToInt(segmentLength));
  }
}
