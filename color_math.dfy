/**
 * The colour library as the plugin sees it. A colour in LCH space is a concrete
 * triple of reals, so coordinate updates (`c = min(c + 3, 100)`, `l++`) are exact;
 * everything the library computes from colours is a function value in `Ops`.
 */
module ColorMath {

  /** A colour in LCH space: lightness, chroma, hue. */
  datatype Lch = Lch(l: real, c: real, h: real)

  /** The colour-library operations, left uninterpreted. */
  datatype Ops = Ops(
    parse: string -> Lch,               // `new Color(s).to("lch")`
    show: Lch -> string,                // `color.toString()` of an LCH colour
    named: string -> string,            // `new Color(name).toString()` of a named colour
    mix: (Lch, string, real) -> Lch,    // `base.mix(s, amount, { space: "lch" })`
    deltaE: (Lch, Lch) -> real,         // `a.deltaE2000(b)`
    apca: (Lch, Lch) -> real,           // `a.contrastAPCA(b)`, also `a.contrast(b, "APCA")`
    wcag: (Lch, Lch) -> real            // `a.contrastWCAG21(b)`
  )

  /** `Math.round`: the nearest integer, halves rounded up. */
  function JsRound(x: real): (r: int)
    ensures r as real - 0.5 <= x < r as real + 0.5
  {
    (x + 0.5).Floor
  }

  /** `Math.trunc`. */
  function Trunc(x: real): (r: int)
    ensures x >= 0.0 ==> r as real <= x < r as real + 1.0
    ensures x < 0.0 ==> r as real - 1.0 < x <= r as real
  {
    if x >= 0.0 then x.Floor else -((-x).Floor)
  }

  /** `x % 360` on JavaScript numbers: the remainder keeps the sign of the dividend. */
  function HueRem(x: real): (r: real)
    ensures x >= 0.0 ==> 0.0 <= r < 360.0
    ensures 0.0 <= x < 360.0 ==> r == x
  {
    x - 360.0 * (Trunc(x / 360.0) as real)
  }

  function MinReal(a: real, b: real): real {
    if a <= b then a else b
  }

  function MaxReal(a: real, b: real): real {
    if a >= b then a else b
  }

  function MinInt(a: int, b: int): int {
    if a <= b then a else b
  }

  function Abs(x: real): real {
    if x < 0.0 then -x else x
  }

  /**
   * `Math.round(next + len / 3)` is the integer `next + (len + 1) / 3`: the
   * shuffle's jump is plain integer arithmetic.
   */
  lemma RoundThird(next: int, len: nat)
    ensures JsRound(next as real + len as real / 3.0) == next + (len + 1) / 3
  {
    var q := (len + 1) / 3;
    var m := (len + 1) % 3;
    assert len == 3 * q + m - 1;
    var x := next as real + len as real / 3.0;
    assert x + 0.5 == (next + q) as real + (2 * m + 1) as real / 6.0;
  }
}
