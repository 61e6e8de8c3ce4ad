/**
 * Colours (src/colour.rs): a colour is a vector of red, green and blue
 * intensities, multiplied component by component. Gamma encoding and the
 * conversion to 8-bit pixels are not part of this model.
 */
module Colours {
  import opened Vector

  type Colour = Vec3

  const BLACK: Colour := Vec3(0.0, 0.0, 0.0)
  const WHITE: Colour := Vec3(1.0, 1.0, 1.0)

  /** `Colour * Colour`: the Hadamard product, which filters one colour by another. */
  function Mul(c: Colour, d: Colour): Colour
  {
    Vec3(c.x * d.x, c.y * d.y, c.z * d.z)
  }

  /** White light passes a colour unchanged. */
  lemma WhiteIdentity(c: Colour)
    ensures Mul(WHITE, c) == c && Mul(c, WHITE) == c
  {
  }

  /** Black absorbs everything, on either side of the product. */
  lemma BlackAbsorbs(c: Colour)
    ensures Mul(BLACK, c) == BLACK && Mul(c, BLACK) == BLACK
  {
  }

  lemma MulCommutative(c: Colour, d: Colour)
    ensures Mul(c, d) == Mul(d, c)
  {
  }

  /** A scalar factor can be moved in and out of the product. */
  lemma MulScale(k: real, c: Colour, d: Colour)
    ensures Mul(Scale(k, c), d) == Scale(k, Mul(c, d))
  {
  }
}
