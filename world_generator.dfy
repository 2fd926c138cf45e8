/** The heightmap generator (FWorldGenerator): a Width x Depth grid of
    heights, stored row-major and filled once by layered Perlin noise.

    FMath::PerlinNoise2D and FMath::Pow are engine numerics; they enter the
    model as arbitrary functions over the reals, so nothing here depends on
    what they compute or on floating-point rounding. What the model does keep
    exactly is the code's int32 arithmetic: `x / Width`, `y / Depth` and
    `1 / O` are integer divisions that truncate toward zero. */
module WorldGen {

  /** The two engine numeric routines the generator calls. */
  datatype Numerics = Numerics(perlin: (real, real) -> real, pow: (real, real) -> real)

  /** The generator's parameters, as stored by its constructors. */
  datatype Settings = Settings(width: int, depth: int, frequency: real, octaves: int, redistribution: real)

  /** True when the nested y/x loops of Generate visit at least one cell. */
  predicate HasCells(s: Settings) {
    s.width > 0 && s.depth > 0
  }

  /** Generate divides by the amplitude sum of every cell it visits; that sum
      is 0 unless at least one octave runs. */
  predicate CanGenerate(s: Settings) {
    HasCells(s) ==> s.octaves >= 1
  }

  function Abs(n: int): nat {
    if n < 0 then -n else n
  }

  /** C++ `/` on int32: the quotient truncated toward zero. */
  function CDiv(a: int, b: int): (q: int)
    requires b != 0
    ensures a >= 0 && b > 0 ==> q == a / b
    ensures (a < 0) == (b < 0) ==> q >= 0
    ensures (a < 0) != (b < 0) ==> q <= 0
    ensures 0 <= a < Abs(b) ==> q == 0
    ensures a == b ==> q == 1
  {
    var m := Abs(a) / Abs(b);
    assert Abs(a) < Abs(b) ==> m == 0;
    assert a == b ==> m == 1;
    if (a < 0) == (b < 0) then m else -m
  }

  /** `float Amplitude = 1/O;` is integer division converted to float: the
      first octave has amplitude 1 and every later one amplitude 0. */
  function Amplitude(o: int): (a: real)
    requires o >= 1
    ensures a == if o == 1 then 1.0 else 0.0
  {
    CDiv(1, o) as real
  }

  /** The normalised base coordinate `Frequency * (i / Extent - 0.5f)`, with
      `i / Extent` an int32 division. */
  function BaseCoord(frequency: real, i: int, extent: int): real
    requires extent != 0
  {
    frequency * (CDiv(i, extent) as real - 0.5)
  }

  /** The noise sample of octave `o`: the base coordinates scaled by
      Pow(2, O-1) and shifted by the per-octave adjustments. */
  function Sample(num: Numerics, vx: real, vy: real, o: int): real
    requires o >= 1
  {
    var modifier := num.pow(2.0, (o - 1) as real);
    var adjustX := num.pow(0.81, o as real) + 0.69 / (o as real);
    var adjustY := num.pow(0.5, o as real) + 0.7 / (o as real);
    num.perlin(vx * modifier + adjustX, vy * modifier + adjustY)
  }

  /** `Noise` after octaves 1..n: each octave adds its amplitude PLUS its
      sample (not their product). */
  function OctaveNoise(num: Numerics, vx: real, vy: real, n: int): real
    decreases n
  {
    if n < 1 then 0.0
    else OctaveNoise(num, vx, vy, n - 1) + (Amplitude(n) + Sample(num, vx, vy, n))
  }

  /** The sum of the samples of octaves 1..n alone. */
  function SampleSum(num: Numerics, vx: real, vy: real, n: int): real
    decreases n
  {
    if n < 1 then 0.0 else SampleSum(num, vx, vy, n - 1) + Sample(num, vx, vy, n)
  }

  /** `AmplitudeSum` after octaves 1..n: exactly 1 as soon as one octave ran,
      because only the first octave has a non-zero amplitude. */
  function AmplitudeSum(n: int): (r: real)
    decreases n
    ensures r == if n >= 1 then 1.0 else 0.0
  {
    if n < 1 then 0.0 else AmplitudeSum(n - 1) + Amplitude(n)
  }

  /** The height stored for cell (x, y). */
  function Cell(s: Settings, num: Numerics, x: int, y: int): real
    requires HasCells(s) && s.octaves >= 1
  {
    var vx := BaseCoord(s.frequency, x, s.width);
    var vy := BaseCoord(s.frequency, y, s.depth);
    num.pow(OctaveNoise(num, vx, vy, s.octaves) / AmplitudeSum(s.octaves), s.redistribution)
  }

  /** Row y of the grid, in the order the inner loop appends it. */
  function Row(s: Settings, num: Numerics, y: int): (r: seq<real>)
    requires HasCells(s) && s.octaves >= 1
    ensures |r| == s.width
  {
    seq(s.width, x requires 0 <= x < s.width => Cell(s, num, x, y))
  }

  /** Rows 0..y-1 of the grid, concatenated: what Data holds after y passes
      of the outer loop. */
  function Rows(s: Settings, num: Numerics, y: nat): (r: seq<real>)
    requires HasCells(s) && s.octaves >= 1
    ensures |r| == y * s.width
  {
    if y == 0 then [] else Rows(s, num, y - 1) + Row(s, num, y - 1)
  }

  /** The whole grid Generate produces from empty Data. */
  function Heightmap(s: Settings, num: Numerics): seq<real>
    requires CanGenerate(s)
  {
    if HasCells(s) then Rows(s, num, s.depth) else []
  }

  lemma RowMajorIndexInRange(w: int, d: int, x: int, y: int)
    requires 0 <= x < w && 0 <= y < d
    ensures 0 <= y * w + x < d * w
  {
    assert y * w + x < y * w + w == (y + 1) * w;
    assert (y + 1) * w <= d * w;
  }

  /** The grid has Width*Depth cells and cell (x, y) sits at index y*Width + x. */
  lemma {:induction false} HeightmapAt(s: Settings, num: Numerics, x: int, y: int)
    requires HasCells(s) && s.octaves >= 1
    requires 0 <= x < s.width && 0 <= y < s.depth
    ensures |Heightmap(s, num)| == s.width * s.depth
    ensures y * s.width + x < |Heightmap(s, num)|
    ensures Heightmap(s, num)[y * s.width + x] == Cell(s, num, x, y)
  {
    RowMajorIndexInRange(s.width, s.depth, x, y);
    RowsAt(s, num, s.depth, x, y);
  }

  lemma {:induction false} RowsAt(s: Settings, num: Numerics, rows: nat, x: int, y: int)
    requires HasCells(s) && s.octaves >= 1
    requires 0 <= x < s.width && 0 <= y < rows
    ensures y * s.width + x < |Rows(s, num, rows)|
    ensures Rows(s, num, rows)[y * s.width + x] == Cell(s, num, x, y)
  {
    RowMajorIndexInRange(s.width, rows, x, y);
    var prefix := Rows(s, num, rows - 1);
    assert Rows(s, num, rows) == prefix + Row(s, num, rows - 1);
    if y < rows - 1 {
      RowsAt(s, num, rows - 1, x, y);
    } else {
      assert |prefix| == y * s.width;
    }
  }

  /** Because `x / Width` and `y / Depth` are 0 on every in-range cell, every
      cell is computed from the same base coordinates, and with AmplitudeSum
      = 1 its height is Pow(1 + the sum of the samples, Redistribution). */
  lemma CellIsUniform(s: Settings, num: Numerics, x: int, y: int)
    requires HasCells(s) && s.octaves >= 1
    requires 0 <= x < s.width && 0 <= y < s.depth
    ensures Cell(s, num, x, y) == Cell(s, num, 0, 0)
    ensures Cell(s, num, x, y)
         == num.pow(1.0 + SampleSum(num, -0.5 * s.frequency, -0.5 * s.frequency, s.octaves), s.redistribution)
  {
    var v := -0.5 * s.frequency;
    assert BaseCoord(s.frequency, x, s.width) == v;
    assert BaseCoord(s.frequency, y, s.depth) == v;
    OctaveNoiseIsOnePlusSamples(num, v, v, s.octaves);
  }

  /** Zero-amplitude octaves still contribute their sample: the accumulated
      noise is 1 (the first octave's amplitude) plus every octave's sample. */
  lemma {:induction false} OctaveNoiseIsOnePlusSamples(num: Numerics, vx: real, vy: real, n: int)
    requires n >= 1
    ensures OctaveNoise(num, vx, vy, n) == 1.0 + SampleSum(num, vx, vy, n)
    decreases n
  {
    if n > 1 {
      OctaveNoiseIsOnePlusSamples(num, vx, vy, n - 1);
    }
  }

  /** All Width*Depth stored heights are equal. */
  lemma EveryHeightEqual(s: Settings, num: Numerics, i: int, j: int)
    requires HasCells(s) && s.octaves >= 1
    requires 0 <= i < |Heightmap(s, num)| && 0 <= j < |Heightmap(s, num)|
    ensures Heightmap(s, num)[i] == Heightmap(s, num)[j]
  {
    HeightmapIndex(s, num, i);
    HeightmapIndex(s, num, j);
  }

  lemma HeightmapIndex(s: Settings, num: Numerics, i: int)
    requires HasCells(s) && s.octaves >= 1
    requires 0 <= i < |Heightmap(s, num)|
    ensures Heightmap(s, num)[i] == Cell(s, num, 0, 0)
  {
    HeightmapAt(s, num, 0, 0);
    var x, y := i % s.width, i / s.width;
    assert i == y * s.width + x;
    assert 0 <= y < s.depth;
    HeightmapAt(s, num, x, y);
    CellIsUniform(s, num, x, y);
  }

  /** The regression scenario of a 2x2 grid with one octave, Redistribution 1,
      and a noise source that always yields 0.5: each cell is (1 + 0.5) / 1. */
  lemma ConstantNoiseScenario(num: Numerics)
    requires forall a, b :: num.perlin(a, b) == 0.5
    requires forall b :: num.pow(b, 1.0) == b
    ensures Heightmap(Settings(2, 2, 1.0, 1, 1.0), num) == [1.5, 1.5, 1.5, 1.5]
  {
    var s := Settings(2, 2, 1.0, 1, 1.0);
    var h := Heightmap(s, num);
    HeightmapAt(s, num, 0, 0);
    assert Cell(s, num, 0, 0) == 1.5 by {
      CellIsUniform(s, num, 0, 0);
      assert SampleSum(num, -0.5, -0.5, 1) == 0.5;
    }
    forall i | 0 <= i < 4 ensures h[i] == 1.5 {
      HeightmapIndex(s, num, i);
    }
  }

  /** One pass of Generate's inner loop appends the next cell of the row. */
  lemma AppendCell(s: Settings, num: Numerics, x: int, y: nat, h: real)
    requires HasCells(s) && s.octaves >= 1 && 0 <= x < s.width
    requires h == Cell(s, num, x, y)
    ensures Rows(s, num, y) + Row(s, num, y)[..x + 1] == Rows(s, num, y) + Row(s, num, y)[..x] + [h]
  {
    assert Row(s, num, y)[..x + 1] == Row(s, num, y)[..x] + [h];
  }

  /** FWorldGenerator. Data stays empty until the private Generate runs. */
  class WorldGenerator {
    var width: int
    var depth: int
    var frequency: real
    var octaves: int
    var redistribution: real
    var data: seq<real>

    /** The three-argument constructor: Octaves defaults to 3 and
        Redistribution to 1; nothing is validated. */
    constructor (inWidth: int, inDepth: int, inFrequency: real)
      ensures Config() == Settings(inWidth, inDepth, inFrequency, 3, 1.0)
      ensures GetWidth() == inWidth && GetDepth() == inDepth && GetFrequency() == inFrequency
      ensures GetOctaves() == 3 && GetRedistribution() == 1.0
      ensures GetValues() == []
    {
      width, depth, frequency := inWidth, inDepth, inFrequency;
      octaves, redistribution := 3, 1.0;
      data := [];
    }

    /** The five-argument constructor stores every parameter unchanged. */
    constructor WithOctaves(inWidth: int, inDepth: int, inFrequency: real, inOctaves: int, inRedistribution: real)
      ensures Config() == Settings(inWidth, inDepth, inFrequency, inOctaves, inRedistribution)
      ensures GetWidth() == inWidth && GetDepth() == inDepth && GetFrequency() == inFrequency
      ensures GetOctaves() == inOctaves && GetRedistribution() == inRedistribution
      ensures GetValues() == []
    {
      width, depth, frequency := inWidth, inDepth, inFrequency;
      octaves, redistribution := inOctaves, inRedistribution;
      data := [];
    }

    function Config(): Settings
      reads this
    {
      Settings(width, depth, frequency, octaves, redistribution)
    }

    /** The five getters hand out the settings the generator was built with. */
    function GetWidth(): (r: int)
      reads this
      ensures r == Config().width
    {
      width
    }

    function GetDepth(): (r: int)
      reads this
      ensures r == Config().depth
    {
      depth
    }

    function GetFrequency(): (r: real)
      reads this
      ensures r == Config().frequency
    {
      frequency
    }

    function GetOctaves(): (r: int)
      reads this
      ensures r == Config().octaves
    {
      octaves
    }

    function GetRedistribution(): (r: real)
      reads this
      ensures r == Config().redistribution
    {
      redistribution
    }

    /** GetValues hands out Data as it is; it does not generate. */
    function GetValues(): (r: seq<real>)
      reads this
      ensures r == data
    {
      data
    }

    /** GetValue checks both coordinates and then indexes Data row-major;
        TArray's bounds check demands that the cell is already stored. */
    function GetValue(x: int, y: int): (v: real)
      reads this
      requires 0 <= x < width && 0 <= y < depth
      requires y * width + x < |data|
      ensures v in GetValues()
    {
      data[y * width + x]
    }

    /** Once Data holds the generated grid, GetValue(x, y) is the height of
        cell (x, y) and of no other cell. */
    lemma GetValueOfHeightmap(num: Numerics, x: int, y: int)
      requires HasCells(Config()) && octaves >= 1
      requires data == Heightmap(Config(), num)
      requires 0 <= x < width && 0 <= y < depth
      ensures y * width + x < |data| && GetValue(x, y) == Cell(Config(), num, x, y)
    {
      HeightmapAt(Config(), num, x, y);
    }

    /** Fills Data once; a second call leaves it as it is. */
    method Generate(num: Numerics)
      requires data != [] || CanGenerate(Config())
      modifies this`data
      ensures old(data) != [] ==> data == old(data)
      ensures old(data) == [] ==> data == Heightmap(Config(), num)
    {
      if data != [] {
        return;
      }
      ghost var s := Config();
      var y := 0;
      while y < depth
        invariant 0 <= y && (depth > 0 ==> y <= depth)
        invariant data == if HasCells(s) then Rows(s, num, y) else []
      {
        var x := 0;
        while x < width
          invariant 0 <= x && (width > 0 ==> x <= width)
          invariant data == if HasCells(s) then Rows(s, num, y) + Row(s, num, y)[..x] else []
        {
          assert HasCells(s) && s.octaves >= 1;
          var vx := frequency * (CDiv(x, width) as real - 0.5);
          var vy := frequency * (CDiv(y, depth) as real - 0.5);
          assert vx == BaseCoord(s.frequency, x, s.width) && vy == BaseCoord(s.frequency, y, s.depth);
          var noise := 0.0;
          var amplitudeSum := 0.0;
          var o := 1;
          while o <= octaves
            invariant 1 <= o <= octaves + 1
            invariant noise == OctaveNoise(num, vx, vy, o - 1)
            invariant amplitudeSum == AmplitudeSum(o - 1)
          {
            var amplitude := CDiv(1, o) as real;
            noise := noise + (amplitude + Sample(num, vx, vy, o));
            amplitudeSum := amplitudeSum + amplitude;
            o := o + 1;
          }
          noise := noise / amplitudeSum;
          noise := num.pow(noise, redistribution);
          assert noise == Cell(s, num, x, y);
          AppendCell(s, num, x, y, noise);
          data := data + [noise];
          x := x + 1;
        }
        if HasCells(s) {
          assert Row(s, num, y)[..x] == Row(s, num, y);
        }
        y := y + 1;
      }
    }
  }
}
