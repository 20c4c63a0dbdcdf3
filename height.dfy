/**
 * The height of the terrain at a column, `GeneratePerlinHeight`. The coherent
 * noise it samples (`Mathf.PerlinNoise`, a foreign library routine) is a
 * parameter; single-precision rounding is not modelled, so the arithmetic is
 * on `real`.
 */
module HeightField {

  /** `smooth`: the scale applied to the sample coordinates. */
  const Smooth: real := 0.03

  /** `heightMult`: the amplitude of each sample. */
  const HeightMult: real := 5.0

  /** `GeneratePerlinHeight(posx, posz)`: ten times the average of two amplified noise samples. */
  function PerlinHeight(noise: (real, real) -> real, posx: real, posz: real): (h: real)
  {
    var height := (noise(posx * Smooth, posz * Smooth * 2.0) * HeightMult
                   + noise(posx * Smooth, posz * Smooth * 2.0) * HeightMult) / 2.0;
    height * 10.0
  }

  /**
   * Both averaged samples are taken at the same point, so the average is one
   * sample: the height is fifty times the noise at `(0.03 posx, 0.06 posz)`.
   */
  lemma AveragedSamplesCoincide(noise: (real, real) -> real, posx: real, posz: real)
    ensures PerlinHeight(noise, posx, posz) == 50.0 * noise(posx * 0.03, posz * 0.06)
  {
  }

  /** Noise values in `[0, 1]` give heights in `[0, 50]`. */
  lemma HeightRange(noise: (real, real) -> real, posx: real, posz: real)
    requires 0.0 <= noise(posx * Smooth, posz * Smooth * 2.0) <= 1.0
    ensures 0.0 <= PerlinHeight(noise, posx, posz) <= 50.0
  {
  }
}
