/**
 * The noise configuration asset (Assets/Scripts/Data/NoiseData.cs): a bag of
 * parameters for the fractal noise generator whose editor hook clamps the two
 * parameters that would otherwise break the generator.
 */
module NoiseSettings {

  /** Local: normalise each grid by its own extremes; Global: by the theoretical maximum. */
  datatype NormalizeMode = Local | Global

  class NoiseData {
    var normalizeMode: NormalizeMode
    var noiseScale: real
    var octaves: int
    var persistance: real
    var lacunarity: real
    var seed: int
    var offsetX: real
    var offsetY: real

    constructor (normalizeMode: NormalizeMode, noiseScale: real, octaves: int, persistance: real,
                 lacunarity: real, seed: int, offsetX: real, offsetY: real)
      ensures this.normalizeMode == normalizeMode && this.noiseScale == noiseScale
      ensures this.octaves == octaves && this.persistance == persistance
      ensures this.lacunarity == lacunarity && this.seed == seed
      ensures this.offsetX == offsetX && this.offsetY == offsetY
    {
      this.normalizeMode := normalizeMode;
      this.noiseScale := noiseScale;
      this.octaves := octaves;
      this.persistance := persistance;
      this.lacunarity := lacunarity;
      this.seed := seed;
      this.offsetX := offsetX;
      this.offsetY := offsetY;
    }

    /** The ranges the noise generator relies on: frequency never shrinks, octave count never negative. */
    predicate InRange()
      reads this
    {
      lacunarity >= 1.0 && octaves >= 0
    }

    /**
     * Clamps lacunarity up to 1 and octaves up to 0. A value already in range
     * is kept, so a second call changes nothing; the other parameters are
     * never touched.
     */
    method OnValidate()
      modifies this
      ensures InRange()
      ensures lacunarity == if old(lacunarity) < 1.0 then 1.0 else old(lacunarity)
      ensures octaves == if old(octaves) < 0 then 0 else old(octaves)
      ensures old(InRange()) ==> lacunarity == old(lacunarity) && octaves == old(octaves)
      ensures normalizeMode == old(normalizeMode) && noiseScale == old(noiseScale)
      ensures persistance == old(persistance) && seed == old(seed)
      ensures offsetX == old(offsetX) && offsetY == old(offsetY)
    {
      if lacunarity < 1.0 {
        lacunarity := 1.0;
      }
      if octaves < 0 {
        octaves := 0;
      }
    }
  }
}
