/**
 * Accessors of an IMU sample `ImuAccGyr`, a 6-vector holding the three
 * accelerometer readings followed by the three gyroscope readings.
 *
 * The const overloads return read-only views of a block: `getAcc` is the
 * vector's head of length 3 and `getGyr` its tail of length 3. The non-const
 * overloads return writable views of the same blocks. Views are modelled as
 * the values they read at the time of reading, and writing through a view as
 * producing the updated sample; a view kept alive across a later write is not
 * modelled. The element type is generic.
 */
module ImuTypes {

  /** Length of an `ImuAccGyr` sample and of each of its two blocks. */
  const SampleLength: nat := 6
  const BlockLength: nat := 3

  predicate IsSample<T>(imu: seq<T>) {
    |imu| == SampleLength
  }

  /** The const `getAcc`: the head of length 3. */
  function GetAcc<T>(imu: seq<T>): (acc: seq<T>)
    requires IsSample(imu)
    ensures |acc| == BlockLength
    ensures acc == [imu[0], imu[1], imu[2]]
  {
    imu[..BlockLength]
  }

  /** The const `getGyr`: the tail of length 3, counted from the end of the vector. */
  function GetGyr<T>(imu: seq<T>): (gyr: seq<T>)
    requires IsSample(imu)
    ensures |gyr| == BlockLength
    ensures gyr == [imu[3], imu[4], imu[5]]
  {
    imu[|imu| - BlockLength..]
  }

  /** The two blocks a non-const accessor can return a view of. */
  datatype Block = Acc | Gyr

  /** Index of the first entry of a block inside the sample. */
  function Start(b: Block): nat {
    match b
    case Acc => 0
    case Gyr => SampleLength - BlockLength
  }

  /** Reading through the view returned by the non-const `getAcc` / `getGyr`. */
  function ViewOf<T>(imu: seq<T>, b: Block): (v: seq<T>)
    requires IsSample(imu)
    ensures |v| == BlockLength
    ensures forall i :: 0 <= i < BlockLength ==> v[i] == imu[Start(b) + i]
  {
    imu[Start(b)..Start(b) + BlockLength]
  }

  /** Assigning entry `i` of a view, e.g. `getGyr(imu)[i] = x`. */
  function WriteEntry<T>(imu: seq<T>, b: Block, i: nat, x: T): (r: seq<T>)
    requires IsSample(imu)
    requires i < BlockLength
    ensures IsSample(r)
    ensures ViewOf(r, b)[i] == x
    ensures forall j :: 0 <= j < SampleLength && !(Start(b) <= j < Start(b) + BlockLength) ==> r[j] == imu[j]
    ensures forall j :: 0 <= j < BlockLength && j != i ==> ViewOf(r, b)[j] == ViewOf(imu, b)[j]
  {
    imu[Start(b) + i := x]
  }

  /** Assigning a whole 3-vector through a view, e.g. `getAcc(imu) = a`. */
  function WriteBlock<T>(imu: seq<T>, b: Block, v: seq<T>): (r: seq<T>)
    requires IsSample(imu)
    requires |v| == BlockLength
    ensures IsSample(r)
    ensures ViewOf(r, b) == v
    ensures forall j :: 0 <= j < SampleLength && !(Start(b) <= j < Start(b) + BlockLength) ==> r[j] == imu[j]
  {
    imu[..Start(b)] + v + imu[Start(b) + BlockLength..]
  }

  /** The two blocks partition the sample: head and tail concatenate back to it. */
  lemma AccGyrSplit<T>(imu: seq<T>)
    requires IsSample(imu)
    ensures GetAcc(imu) + GetGyr(imu) == imu
  {
    assert imu == [imu[0], imu[1], imu[2], imu[3], imu[4], imu[5]];
  }

  /** The const and non-const overloads give the same values for the same sample. */
  lemma ConstAndViewAgree<T>(imu: seq<T>)
    requires IsSample(imu)
    ensures ViewOf(imu, Acc) == GetAcc(imu)
    ensures ViewOf(imu, Gyr) == GetGyr(imu)
  {
  }

  /** Writing through the accelerometer view leaves the gyroscope block alone, and vice versa. */
  lemma WriteKeepsOtherBlock<T>(imu: seq<T>, v: seq<T>)
    requires IsSample(imu)
    requires |v| == BlockLength
    ensures GetAcc(WriteBlock(imu, Acc, v)) == v
    ensures GetGyr(WriteBlock(imu, Acc, v)) == GetGyr(imu)
    ensures GetGyr(WriteBlock(imu, Gyr, v)) == v
    ensures GetAcc(WriteBlock(imu, Gyr, v)) == GetAcc(imu)
  {
  }

  /** Writing back what a view reads changes nothing. */
  lemma WriteBackIsIdentity<T>(imu: seq<T>, b: Block)
    requires IsSample(imu)
    ensures WriteBlock(imu, b, ViewOf(imu, b)) == imu
  {
    assert WriteBlock(imu, b, ViewOf(imu, b)) == imu[..Start(b)] + imu[Start(b)..Start(b) + BlockLength] + imu[Start(b) + BlockLength..];
  }
}
