/**
 * `Volume_loader_raw_hurricane` (`volume_loader_raw_hurrican.cpp`): the two channel
 * tables its constructor fills, the constant getters, the path `load_volume` builds
 * from a directory prefix, a channel and a time step, and the buffer it returns.
 * Opening and reading the file are given as a parameter `files`, which maps a path
 * to the file's bytes, or to `None` when the file cannot be opened.
 */
module VolumeLoader {
  import opened Unsigned

  datatype Option<T> = None | Some(value: T)

  /** An element of `volume_data_type`. */
  newtype byte = x: int | 0 <= x < 256

  /** A `glm::vec2` value range of a channel, lowest value first. */
  datatype Range = Range(lo: real, hi: real)

  /** A `glm::ivec3` of volume dimensions. */
  datatype Dims = Dims(x: int, y: int, z: int)

  // --------------------------------------------------------------- the channel tables

  /** The channel names the constructor appends, in order. */
  const CHANNEL_NAMES: seq<string> :=
    ["QCLOUDf", "QGRAUPf", "QICEf", "QSNOWf", "QVAPORf", "CLOUDf", "PRECIPf",
     "QRAINf", "Pf", "TCf", "Uf", "Vf", "Wf"]

  /** The value ranges the constructor appends, in order, one per channel name. */
  const CHANNEL_RANGES: seq<Range> :=
    [Range(0.0, 0.00332), Range(0.0, 0.01638), Range(0.0, 0.00099), Range(0.0, 0.00135),
     Range(0.0, 0.02368), Range(0.0, 0.00332), Range(0.0, 0.01672), Range(0.0, 0.00099),
     Range(-5471.85791, 3225.42578), Range(-83.00402, 31.51576), Range(-79.47297, 85.17703),
     Range(-76.03391, 82.95293), Range(-9.06026, 28.61434)]

  /**
   * The tables describe 13 channels in lockstep: entry `i` of each is channel `i`.
   * Each name is distinct and ends in the letter `f`, and each range is proper.
   */
  lemma ChannelTables()
    ensures |CHANNEL_NAMES| == |CHANNEL_RANGES| == 13
    ensures forall i, j :: 0 <= i < j < |CHANNEL_NAMES| ==> CHANNEL_NAMES[i] != CHANNEL_NAMES[j]
    ensures forall i :: 0 <= i < |CHANNEL_NAMES| ==>
      |CHANNEL_NAMES[i]| > 0 && CHANNEL_NAMES[i][|CHANNEL_NAMES[i]| - 1] == 'f'
    ensures forall i :: 0 <= i < |CHANNEL_RANGES| ==> CHANNEL_RANGES[i].lo <= CHANNEL_RANGES[i].hi
  {
  }

  // --------------------------------------------------------------- decimal numerals

  /** `c` is one of the characters `0` to `9`. */
  predicate IsDigit(c: char)
  {
    '0' <= c <= '9'
  }

  /** Every character of `s` is a decimal digit. */
  predicate IsDigits(s: string)
  {
    forall i :: 0 <= i < |s| ==> IsDigit(s[i])
  }

  /** The digit character of `d`. */
  function Digit(d: nat): (c: char)
    requires d < 10
    ensures IsDigit(c) && c as int - '0' as int == d
  {
    ('0' as int + d) as char
  }

  /**
   * `std::to_string` of an unsigned value: its decimal digits, most significant
   * first, with no leading zero; a single digit exactly for the values below 10.
   */
  function Decimal(n: nat): (s: string)
    ensures IsDigits(s) && |s| >= 1
    ensures |s| == 1 <==> n < 10
  {
    if n < 10 then [Digit(n)] else Decimal(n / 10) + [Digit(n % 10)]
  }

  /** The value of a string of decimal digits, read most significant first. */
  function ParseDecimal(s: string): nat
    requires IsDigits(s)
  {
    if s == [] then 0 else ParseDecimal(s[..|s| - 1]) * 10 + (s[|s| - 1] as int - '0' as int)
  }

  /** Reading a numeral back gives the value it was made from. */
  lemma {:induction false} ParseDecimalOfDecimal(n: nat)
    ensures ParseDecimal(Decimal(n)) == n
  {
    var s := Decimal(n);
    if n >= 10 {
      assert s[..|s| - 1] == Decimal(n / 10);
      ParseDecimalOfDecimal(n / 10);
    }
  }

  /** The numeral of a positive value does not start with `0`. */
  lemma {:induction false} DecimalLeadingDigit(n: nat)
    requires n >= 1
    ensures Decimal(n)[0] != '0'
  {
    if n >= 10 {
      DecimalLeadingDigit(n / 10);
    }
  }

  /** A leading `0` does not change the value of a numeral. */
  lemma {:induction false} ParseLeadingZero(s: string)
    requires IsDigits(s)
    ensures IsDigits("0" + s) && ParseDecimal("0" + s) == ParseDecimal(s)
  {
    if s != [] {
      assert ("0" + s)[..|"0" + s| - 1] == "0" + s[..|s| - 1];
      ParseLeadingZero(s[..|s| - 1]);
    }
  }

  // --------------------------------------------------------------- the file name

  /**
   * The time-step field of the file name: `++time_step` on an unsigned value (so
   * 2^32 - 1 wraps to 0), padded with one `0` when the result is below 10.
   */
  function StepField(timeStep: u32): (s: string)
    ensures IsDigits(s) && |s| >= 2
  {
    var t := Add32(timeStep, 1);
    (if t < 10 then "0" else "") + Decimal(t)
  }

  /** The field reads back as `time_step + 1`, modulo 2^32. */
  lemma StepFieldValue(timeStep: u32)
    ensures ParseDecimal(StepField(timeStep)) == Add32(timeStep, 1)
  {
    var t := Add32(timeStep, 1);
    ParseDecimalOfDecimal(t);
    if t < 10 {
      assert StepField(timeStep) == "0" + Decimal(t);
      ParseLeadingZero(Decimal(t));
    } else {
      assert StepField(timeStep) == Decimal(t);
    }
  }

  /** Time steps 0 to 8 give exactly two digits, `01` to `09`. */
  lemma StepFieldTwoDigits(timeStep: u32)
    requires timeStep < 9
    ensures StepField(timeStep) == ['0', Digit(timeStep as nat + 1)]
  {
  }

  /**
   * From time step 9 on (short of the wrap), the field is the plain decimal numeral
   * of `time_step + 1`, with no leading zero.
   */
  lemma StepFieldPlain(timeStep: u32)
    requires 9 <= timeStep < 0xFFFF_FFFF
    ensures StepField(timeStep) == Decimal(timeStep as nat + 1)
    ensures StepField(timeStep)[0] != '0'
  {
    DecimalLeadingDigit(timeStep as nat + 1);
  }

  /** The last time step wraps to 0, which is padded to `00`. */
  lemma StepFieldWrap()
    ensures StepField(0xFFFF_FFFF) == "00"
  {
  }

  /** Distinct time steps give distinct fields. */
  lemma StepFieldInjective(t1: u32, t2: u32)
    requires StepField(t1) == StepField(t2)
    ensures t1 == t2
  {
    StepFieldValue(t1);
    StepFieldValue(t2);
    SubUndoesAdd(t1, 1);
    SubUndoesAdd(t2, 1);
  }

  /**
   * The path `load_volume` opens: the caller's `filepath`, then the channel name,
   * then the time-step field, then `.bin`.
   */
  function VolumePath(filepath: string, name: string, timeStep: u32): (path: string)
    ensures |path| == |filepath| + |name| + |StepField(timeStep)| + 4
    ensures path[..|filepath|] == filepath && path[|path| - 4..] == ".bin"
  {
    filepath + name + StepField(timeStep) + ".bin"
  }

  /**
   * A name that ends in a non-digit, followed by a numeral, splits back into the
   * two: the numeral is the longest run of digits at the end.
   */
  lemma SplitAtDigits(a: string, d1: string, b: string, d2: string)
    requires |a| > 0 && !IsDigit(a[|a| - 1]) && |b| > 0 && !IsDigit(b[|b| - 1])
    requires IsDigits(d1) && IsDigits(d2) && a + d1 == b + d2
    ensures a == b && d1 == d2
  {
    var s := a + d1;
    assert a == s[..|a|] && b == s[..|b|];
    assert d1 == s[|a|..] && d2 == s[|b|..];
  }

  /**
   * For one `filepath`, names ending in a non-digit and time steps are recovered from
   * the path: distinct (name, time step) pairs give distinct paths.
   */
  lemma VolumePathInjective(filepath: string, n1: string, t1: u32, n2: string, t2: u32)
    requires |n1| > 0 && !IsDigit(n1[|n1| - 1]) && |n2| > 0 && !IsDigit(n2[|n2| - 1])
    requires VolumePath(filepath, n1, t1) == VolumePath(filepath, n2, t2)
    ensures n1 == n2 && t1 == t2
  {
    var p := VolumePath(filepath, n1, t1);
    assert n1 + StepField(t1) == p[|filepath|..|p| - 4];
    assert n2 + StepField(t2) == p[|filepath|..|p| - 4];
    SplitAtDigits(n1, StepField(t1), n2, StepField(t2));
    StepFieldInjective(t1, t2);
  }

  /** Every (channel, time step) pair names its own file. */
  lemma ChannelPathsDistinct(filepath: string, c1: nat, t1: u32, c2: nat, t2: u32)
    requires c1 < |CHANNEL_NAMES| && c2 < |CHANNEL_NAMES|
    requires VolumePath(filepath, CHANNEL_NAMES[c1], t1) == VolumePath(filepath, CHANNEL_NAMES[c2], t2)
    ensures c1 == c2 && t1 == t2
  {
    ChannelTables();
    VolumePathInjective(filepath, CHANNEL_NAMES[c1], t1, CHANNEL_NAMES[c2], t2);
  }

  // --------------------------------------------------------------- the buffer

  /**
   * `data_size`: the product of the dimensions, one channel, and the bytes per
   * channel. The conversion to the unsigned byte count makes the last factor
   * unsigned, so the product is taken modulo 2^32; the signed product of the
   * dimensions must not overflow, as C++ leaves that undefined.
   */
  function DataSize(d: Dims, bytePerChannel: u32): (n: u32)
    requires -0x8000_0000 <= d.x * d.y * d.z < 0x8000_0000
    ensures 0 <= d.x * d.y * d.z * bytePerChannel as int < U32_MODULUS ==>
      n as int == d.x * d.y * d.z * bytePerChannel as int
    ensures (d.x * d.y * d.z * bytePerChannel as int - n as int) % U32_MODULUS == 0
  {
    ((d.x * d.y * d.z * 1 * bytePerChannel as int) % U32_MODULUS) as u32
  }

  /**
   * A negative signed product wraps to a large unsigned byte count: a dimension of
   * -1 with 4 bytes per channel asks for 2^32 - 4 bytes.
   */
  lemma DataSizeNegativeWraps()
    ensures DataSize(Dims(-1, 1, 1), 4) == 0xFFFF_FFFC
  {
    assert (-1 * 1 * 1 * 1 * 4) % U32_MODULUS == 0xFFFF_FFFC;
  }

  /**
   * The buffer after a read of `contents`: `n` bytes, value-initialised by the
   * resize, of which the first ones are overwritten by as many bytes of the file as
   * it has.
   */
  function Filled(contents: seq<byte>, n: nat): (data: seq<byte>)
    ensures |data| == n
    ensures forall i :: 0 <= i < n ==> data[i] == if i < |contents| then contents[i] else 0
  {
    var m := if |contents| < n then |contents| else n;
    contents[..m] + seq(n - m, _ => 0 as byte)
  }

  /** A file at least as long as the buffer fills it with its first bytes. */
  lemma FilledFromLongFile(contents: seq<byte>, n: nat)
    requires n <= |contents|
    ensures Filled(contents, n) == contents[..n]
  {
  }

  // --------------------------------------------------------------- the loader

  class HurricaneLoader {
    /** `m_channel_names`. */
    var channelNames: seq<string>
    /** `m_channel_ranges`. */
    var channelRanges: seq<Range>

    /** The tables hold what the constructor put there; nothing else writes them. */
    ghost predicate Valid()
      reads this
    {
      channelNames == CHANNEL_NAMES && channelRanges == CHANNEL_RANGES
    }

    /** The constructor: clear both tables, then append the 13 channels in lockstep. */
    constructor ()
      ensures Valid()
    {
      channelNames, channelRanges := [], [];
      channelNames := channelNames + ["QCLOUDf"];
      channelRanges := channelRanges + [Range(0.0, 0.00332)];
      channelNames := channelNames + ["QGRAUPf"];
      channelRanges := channelRanges + [Range(0.0, 0.01638)];
      channelNames := channelNames + ["QICEf"];
      channelRanges := channelRanges + [Range(0.0, 0.00099)];
      channelNames := channelNames + ["QSNOWf"];
      channelRanges := channelRanges + [Range(0.0, 0.00135)];
      channelNames := channelNames + ["QVAPORf"];
      channelRanges := channelRanges + [Range(0.0, 0.02368)];
      channelNames := channelNames + ["CLOUDf"];
      channelRanges := channelRanges + [Range(0.0, 0.00332)];
      channelNames := channelNames + ["PRECIPf"];
      channelRanges := channelRanges + [Range(0.0, 0.01672)];
      channelNames := channelNames + ["QRAINf"];
      channelRanges := channelRanges + [Range(0.0, 0.00099)];
      channelNames := channelNames + ["Pf"];
      channelRanges := channelRanges + [Range(-5471.85791, 3225.42578)];
      channelNames := channelNames + ["TCf"];
      channelRanges := channelRanges + [Range(-83.00402, 31.51576)];
      channelNames := channelNames + ["Uf"];
      channelRanges := channelRanges + [Range(-79.47297, 85.17703)];
      channelNames := channelNames + ["Vf"];
      channelRanges := channelRanges + [Range(-76.03391, 82.95293)];
      channelNames := channelNames + ["Wf"];
      channelRanges := channelRanges + [Range(-9.06026, 28.61434)];
    }

    /** `get_channel_ranges`: a copy of the range table, one range per channel name. */
    method GetChannelRanges() returns (r: seq<Range>)
      requires Valid()
      ensures r == channelRanges && |r| == |channelNames| == 13
    {
      ChannelTables();
      r := channelRanges;
    }

    /** `get_channel_count`: the number of names (13), converted to `unsigned`; the path is unused. */
    method GetChannelCount(filepath: string) returns (n: u32)
      requires Valid()
      ensures n as int == |channelNames| % U32_MODULUS && n == 13
    {
      ChannelTables();
      n := (|channelNames| % U32_MODULUS) as u32;
    }

    /** `get_dimensions`: 500 by 500 by 100, whatever the path. */
    function GetDimensions(filepath: string): (d: Dims)
      ensures d.x == 500 && d.y == 500 && d.z == 100
    {
      Dims(500, 500, 100)
    }

    /** `get_bit_per_channel`: 4 bytes of 8 bits, whatever the path. */
    function GetBitPerChannel(filepath: string): (bits: u32)
      ensures bits == 32 && bits % 8 == 0
    {
      4 * 8
    }

    /** With the getters' constants, the buffer is 500 * 500 * 100 * 4 = 100,000,000 bytes. */
    lemma DataSizeOfGetters(filepath: string)
      ensures -0x8000_0000 <= GetDimensions(filepath).x * GetDimensions(filepath).y * GetDimensions(filepath).z < 0x8000_0000
      ensures DataSize(GetDimensions(filepath), GetBitPerChannel(filepath) / 8) == 100_000_000
    {
      assert 500 * 500 * 100 * 4 == 100_000_000;
    }

    /**
     * `load_volume(filepath, channel, time_step)`: build the path by appending to
     * `filepath`, open it, and on success read it into a buffer of `DataSize` bytes;
     * when the file does not open, `assert(0)` (a no-op in a release build) and an
     * empty buffer. `channel` indexes the name table unchecked, so it must be in range.
     */
    method LoadVolume(filepath: string, channel: u32, timeStep: u32, files: string -> Option<seq<byte>>)
      returns (path: string, data: seq<byte>)
      requires Valid() && channel as int < |channelNames|
      ensures path == VolumePath(filepath, channelNames[channel], timeStep)
      ensures files(path).None? ==> data == []
      ensures files(path).Some? ==> data == Filled(files(path).value, 100_000_000)
    {
      var fileprefix := channelNames[channel];
      path := filepath;
      path := path + fileprefix;
      var t := Add32(timeStep, 1);
      if t < 10 {
        path := path + "0";
      }
      path := path + Decimal(t) + ".bin";
      assert path == VolumePath(filepath, fileprefix, timeStep);
      match files(path)
      case None =>
        data := [];
      case Some(contents) =>
        var volDim := GetDimensions(path);
        var bytePerChannel := GetBitPerChannel(path) / 8;
        DataSizeOfGetters(path);
        var dataSize := DataSize(volDim, bytePerChannel);
        data := Filled(contents, dataSize as nat);
    }
  }
}
