# ze_oss trajectory evaluation driver, IMU accessors and pixel visibility — Dafny model

This project models three small pieces of the ze_oss robotics libraries and proves
properties of them.

- **The KITTI-style evaluation driver** (`kitti_evaluation_node.cpp`). `loadData` chooses a
  trajectory loader from a format name. The loop in `main` pairs every estimate sample with
  the groundtruth sample nearest to its shifted stamp, keeps the pair when the stamps agree
  within a tolerance, and counts the rest as skipped. The matched pose lists go to
  `calcSequenceErrors`. The driver then writes the relative errors to a CSV file whose name
  carries the truncated segment length. Modules `TrajectoryFormat`, `Association`,
  `ResultCsv`, `Decimal` and `KittiEvaluation`.
- **IMU sample accessors** (`imu_types.hpp`). `getAcc` and `getGyr` split an `ImuAccGyr`
  6-vector into its accelerometer head and gyroscope tail. The const overloads return
  read-only blocks. The non-const overloads return writable views. Module `ImuTypes`.
- **Pixel visibility** (`camera_utils.h`). `isVisible` and the two `isVisibleWithMargin`
  overloads test whether a pixel lies inside an image, optionally keeping a border free.
  Module `CameraUtils`.

Modelling choices:

- Stamps are unbounded integers counting nanoseconds.
- Poses are an opaque type `P`. The groundtruth buffer's 7-vectors are an opaque type `V`,
  turned into poses by a parameter `toPose` that stands for `getTransformationFromVec7`.
- The groundtruth buffer's `getNearestValue` is a parameter that returns
  `(stamp, value, success)`.
- The relative-error computation is a parameter `calcSequenceErrors`. It is called with the
  groundtruth poses first, as the driver calls it. Segment length, frame stride and alignment
  options are bound inside it.
- Floating-point output fields are an opaque type `D`, written by a renderer `fmt`. Integer
  fields are written in decimal by `Decimal.ToDecimal`, which models `std::to_string` and the
  stream's integer output.
- Errors the driver treats as fatal (`LOG(FATAL)`, `CHECK`) become `Failure` values of a
  `Result`.

Two behaviours of the driver worth knowing:

- A failed nearest-value lookup is fatal (`CHECK(success)`, line 115), not a dropped sample,
  so `Association.Associate` returns `LookupFailed`. If the lookup reports failure on an empty
  groundtruth buffer, an empty groundtruth series aborts the run whenever there is at least
  one estimate sample.
- Line 116 measures the tolerance from `t - offset` although line 114 looks up `t + offset`
  (see Findings).

## Model

| member | source | states |
|---|---|---|
| TrajectoryFormat.ParseFormat | ze_trajectory_analysis/src/kitti_evaluation_node.cpp:52-74 | a format is accepted exactly when it is "swe", "euroc" or "pose"; the accepted format's name is the given string; any other string is the fatal error naming that string |
| TrajectoryFormat.NameRoundTrip | ze_trajectory_analysis/src/kitti_evaluation_node.cpp:52-72 | each of the three loaders is selected by its own name, so none of the branches is unreachable |
| TrajectoryFormat.NameInjective | ze_trajectory_analysis/src/kitti_evaluation_node.cpp:52-72 | no two formats share a name, so the dispatch is unambiguous |
| Association.Associate | ze_trajectory_analysis/src/kitti_evaluation_node.cpp:103-126 | the run aborts exactly when some lookup fails, and then at the first failing sample and its query `t + offset`; otherwise both pose lists are the kept-sample filters of the estimate, with equal length at most the number of samples, and matched plus skipped equals the number of samples |
| Association.KeptIndices | ze_trajectory_analysis/src/kitti_evaluation_node.cpp:108-122 | the positions of the kept samples are strictly increasing, each passes the tolerance test, and every sample that passes the test is among them |
| Association.Keep | ze_trajectory_analysis/src/kitti_evaluation_node.cpp:113-120 | a kept sample implies a non-negative tolerance; with zero offset a sample is kept iff its nearest groundtruth stamp is within the tolerance of its own stamp; `Association.AsWrittenMeasuresFromShiftedBack` and `Association.IntendedKeepsExactMatch` give the test for a non-zero offset under each rule |
| Association.Conservation | ze_trajectory_analysis/src/kitti_evaluation_node.cpp:106-124 | the two matched lists have equal length, and matched plus skipped equals the number of estimate samples |
| Association.KeptIsOrderedSubsequence | ze_trajectory_analysis/src/kitti_evaluation_node.cpp:108-123 | entry k of the estimate list is the pose of the k-th kept sample, and entry k of the groundtruth list is the pose of that sample's nearest groundtruth value: no reordering, no duplication, lockstep pairing |
| Association.AsWrittenMeasuresFromShiftedBack | ze_trajectory_analysis/src/kitti_evaluation_node.cpp:113-116 | as written, a sample is kept iff the nearest stamp to `t + offset` lies within the tolerance of `t - offset` |
| Association.RulesAgreeWithoutOffset | ze_trajectory_analysis/src/kitti_evaluation_node.cpp:113-116 | with a zero offset the written and the intended tolerance tests keep the same samples |
| Association.ExactMatchOnly | ze_trajectory_analysis/src/kitti_evaluation_node.cpp:113-120 | with zero offset and zero tolerance a sample is kept iff its nearest groundtruth stamp equals its own stamp |
| Association.AsWrittenExactMatch | ze_trajectory_analysis/src/kitti_evaluation_node.cpp:113-120 | as written, a groundtruth sample exactly at the queried stamp is kept iff twice the offset's magnitude fits in the tolerance |
| Association.AsWrittenDropsExactMatch | ze_trajectory_analysis/src/kitti_evaluation_node.cpp:113-120 | with a 15 ms offset and the 20 ms default tolerance, a sample matched exactly at its shifted stamp is dropped and counted as skipped |
| Association.IntendedKeepsExactMatch | ze_trajectory_analysis/src/kitti_evaluation_node.cpp:113-116 | the corrected test keeps a sample iff the nearest stamp lies within the tolerance of the query `t + offset`, so an exact match is always kept |
| ResultCsv.ResultFileName | ze_trajectory_analysis/src/kitti_evaluation_node.cpp:138-140 | the name starts with the prefix and an underscore and ends in ".csv"; `ResultCsv.FileNameParts` adds that the middle reads back as the truncated segment length |
| ResultCsv.Csv | ze_trajectory_analysis/src/kitti_evaluation_node.cpp:144-157 | the file starts with the header line and its line break and ends with a line break; `ResultCsv.CsvLines` and `ResultCsv.RowFields` characterise its lines and each record line's ten fields |
| ResultCsv.Rows | ze_trajectory_analysis/src/kitti_evaluation_node.cpp:145-157 | the record part is empty exactly when there are no errors, and otherwise ends with a line break |
| ResultCsv.TruncToInt | ze_trajectory_analysis/src/kitti_evaluation_node.cpp:140 | `static_cast<int>` truncates toward zero: the result has the input's sign and lies within one unit of the input, on the zero side |
| ResultCsv.FileNameParts | ze_trajectory_analysis/src/kitti_evaluation_node.cpp:138-140 | the result file name is the prefix, an underscore, a decimal without leading zeros that reads back as the truncated segment length, and ".csv" |
| ResultCsv.CsvLines | ze_trajectory_analysis/src/kitti_evaluation_node.cpp:144-157 | read back at line breaks, the file is the header line, then exactly one line per relative error in list order, then nothing after the last line break |
| ResultCsv.RowFields | ze_trajectory_analysis/src/kitti_evaluation_node.cpp:147-156 | read back at commas, a record's line has exactly ten fields in column order, each after the first preceded by the space of ", " |
| ResultCsv.HeaderColumns | ze_trajectory_analysis/src/kitti_evaluation_node.cpp:144-156 | the header line has as many comma-separated titles as every record line has fields, namely ten |
| Decimal.DecimalRoundTrip | ze_trajectory_analysis/src/kitti_evaluation_node.cpp:140 | the decimal rendering of an integer reads back as that integer |
| Decimal.DecimalInjective | ze_trajectory_analysis/src/kitti_evaluation_node.cpp:140 | distinct integers have distinct renderings, so distinct truncated segment lengths give distinct file names |
| Decimal.NatDigits | ze_trajectory_analysis/src/kitti_evaluation_node.cpp:147-155 | the rendering of a natural number is non-empty, all digits, and has no leading zero |
| Decimal.ToDecimal | ze_trajectory_analysis/src/kitti_evaluation_node.cpp:140 | the rendering of an integer is non-empty, starts with a minus sign exactly for negative values, holds only digits after that sign, and has no leading zero ("050", "-07" and "-0" are never written) |
| KittiEvaluation.Evaluate | ze_trajectory_analysis/src/kitti_evaluation_node.cpp:86-157 | a bad groundtruth format aborts first, then a bad estimate format; with valid formats the run succeeds iff every lookup succeeds, and then the file is named after the truncated segment length, holds the CSV of the errors computed from the matched groundtruth list and estimate list (in that argument order), and matched plus skipped equals the number of estimate samples |
| ImuTypes.GetAcc | ze_imu/include/ze/imu/imu_types.hpp:33-36 | the accelerometer block has length 3 and holds entries 0, 1, 2 of the sample |
| ImuTypes.GetGyr | ze_imu/include/ze/imu/imu_types.hpp:39-42 | the gyroscope block, taken as the tail of the vector, has length 3 and holds entries 3, 4, 5 of the sample |
| ImuTypes.AccGyrSplit | ze_imu/include/ze/imu/imu_types.hpp:33-42 | the accelerometer block followed by the gyroscope block is the whole sample |
| ImuTypes.ViewOf | ze_imu/include/ze/imu/imu_types.hpp:45-54 | a writable view has length 3 and entry i of the view is entry start+i of the sample (start 0 for acc, 3 for gyr) |
| ImuTypes.ConstAndViewAgree | ze_imu/include/ze/imu/imu_types.hpp:33-54 | the const and non-const overloads read the same values from the same sample |
| ImuTypes.WriteEntry | ze_imu/include/ze/imu/imu_types.hpp:45-54 | assigning one entry through a view sets that entry of the view, leaves the view's other entries and every entry outside the block unchanged |
| ImuTypes.WriteBlock | ze_imu/include/ze/imu/imu_types.hpp:45-54 | assigning a 3-vector through a view makes the view read that vector and leaves every entry outside the block unchanged |
| ImuTypes.WriteKeepsOtherBlock | ze_imu/include/ze/imu/imu_types.hpp:45-54 | writing through the accelerometer view leaves the gyroscope block as it was, and vice versa |
| ImuTypes.WriteBackIsIdentity | ze_imu/include/ze/imu/imu_types.hpp:45-54 | writing back what a view reads leaves the sample unchanged |
| CameraUtils.IsVisible | include/ze/cameras/camera_utils.h:18-21 | a visible pixel is never on the right or bottom edge (the upper bounds are strict), and only a non-empty image has visible pixels |
| CameraUtils.IsVisibleWithMargin | include/ze/cameras/camera_utils.h:32-35 | margin 0 coincides with `isVisible`; with a non-negative margin, visible-with-margin implies visible; when twice the margin reaches the width or height nothing is visible |
| CameraUtils.IsVisibleWithMarginInt | include/ze/cameras/camera_utils.h:42-45 | the int overload agrees with the templated overload on integer coordinates, and accepts nothing when twice the margin reaches the width or height |
| CameraUtils.MarginMonotone | include/ze/cameras/camera_utils.h:32-35 | a pixel visible under a wider margin is visible under any narrower one |
| CameraUtils.MarginIsShrunkenImage | include/ze/cameras/camera_utils.h:32-35 | visibility with margin m is plain visibility of the pixel shifted by m in an image shrunk by 2m in each dimension |
| CameraUtils.VisibleRowWidth | include/ze/cameras/camera_utils.h:42-45 | a column is accepted by the int overload iff it is in the counted set; on a row inside the margin that set has exactly width - 2*margin columns; on any other row, or when 2*margin >= width, it is empty |

## Findings

| source | as written | input that shows it | evidently intended | confidence | as-written member | corrected member |
|---|---|---|---|---|---|---|
| ze_trajectory_analysis/src/kitti_evaluation_node.cpp:116 | `std::abs(gt_stamp - it.first + offset_nsec)`, the distance from the nearest stamp to `t - offset`, although the lookup at line 114 was made at `t + offset` | offset 15 ms, tolerance 20 ms, groundtruth sample exactly at `t + offset`: the test sees 30 ms and drops the sample | `std::abs(gt_stamp - (it.first + offset_nsec))` | medium (the two agree for a zero offset, the default); not executed | Association.AsWrittenDropsExactMatch | Association.IntendedKeepsExactMatch |

The association is parametrised by `ToleranceRule`. `AsWritten` is the driver's test and
`Intended` is the corrected one. `Association.Associate`, `Association.Conservation`,
`Association.KeptIndices`, `Association.KeptIsOrderedSubsequence` and
`KittiEvaluation.Evaluate` hold for both rules.

## Left out

- `calcSequenceErrors` is not part of this model: its segment selection and relative-pose algebra over doubles are not in these files. It is a parameter at its call site.
- `getNearestValue` and `getTransformationFromVec7` are not part of this model; they are the parameters `nearest` and `toPose`.
- `secToNanosec` is a floating-point conversion; the offset and the tolerance are given directly as integer nanoseconds.
- Trajectory file loading (`series->load`), `joinPath`, `openOutputFileStream`, the stream writes, glog/gflags setup and the `VLOG` messages are I/O and logging. The result file is modelled as the string written to it. The directory it is written into is not modelled.
- Floating-point text formatting of the CSV's double fields is the opaque renderer `fmt`. `ResultCsv.CsvLines` and `ResultCsv.RowFields` require only that it never writes a line break or a comma.
- Association.Associate: stamps are unbounded integers, so the int64 overflow of `t + offset` and of the difference at line 116 is not modelled.
- ImuTypes.ViewOf: the blocks returned by `getAcc` and `getGyr` (const and non-const) are modelled as values read at the time of the call, not as live references into the sample; a block held across a later write to the sample sees that write in the code but not in the model.
- ResultCsv.TruncToInt: the segment length is an exact real, and the undefined `static_cast<int>` of a value outside the int range is not modelled.
- CameraUtils.IsVisibleWithMargin: the templated overloads are modelled over exact reals, so floating-point rounding of `width - margin` is not modelled.
- CameraUtils.IsVisibleWithMarginInt: 32-bit overflow of `width - margin` is not modelled.
- `generateRandomKeypoints` is declared but not defined in these files, and it is random.
- Determinism of the association is not stated as a lemma: every member is a pure function of its inputs.
- `n_skipped` is only a local counter in the driver. The model reports it in `Matches.skipped` and `Report.skipped` so that conservation can be stated.
- The GPU/ArrayFire bridge tests, the Pangolin plotting singleton and the Python package setup are outside the modelled core.
