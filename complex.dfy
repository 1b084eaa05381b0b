/**
  * The `std::complex<scalar_t>` values the transform works on, over exact
  * reals: the model keeps the order of the operations but not rounding.
  */
module Complex {

  datatype Cpx = Cpx(re: real, im: real)

  const Zero: Cpx := Cpx(0.0, 0.0)

  function Add(a: Cpx, b: Cpx): Cpx {
    Cpx(a.re + b.re, a.im + b.im)
  }

  function Sub(a: Cpx, b: Cpx): Cpx {
    Cpx(a.re - b.re, a.im - b.im)
  }

  function Mul(a: Cpx, b: Cpx): Cpx {
    Cpx(a.re * b.re - a.im * b.im, a.re * b.im + a.im * b.re)
  }

  /** A complex value times a real scalar. */
  function Scale(a: Cpx, s: real): Cpx {
    Cpx(a.re * s, a.im * s)
  }

  /** A real sample as the complex value with imaginary part 0. */
  function FromReal(x: real): Cpx {
    Cpx(x, 0.0)
  }
}
