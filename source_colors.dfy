/**
 * Publisher badge colours: a string hash folded in 32-bit integer
 * arithmetic over the UTF-16 code units of the publisher name, its
 * absolute value, and that modulo the 20-entry palette.
 */
module SourceColors {

  /** The badge palette, in order. */
  const Palette: seq<string> := [
    "#0d6efd", "#198754", "#dc3545", "#fd7e14", "#6f42c1",
    "#20c997", "#e83e8c", "#005a2b", "#6610f2", "#d63384",
    "#0dcaf0", "#ffc107", "#6c757d", "#0a58ca", "#ab2e3c",
    "#087990", "#aa6e2e", "#5c636a", "#3d8bfd", "#479f76"]

  const TwoTo31: int := 0x8000_0000
  const TwoTo32: int := 0x1_0000_0000

  // ----- code units -----

  /** The UTF-16 encoding of one character: one unit, or a surrogate pair above U+FFFF. */
  function CodeUnits(c: char): (u: seq<int>)
    ensures 1 <= |u| <= 2 && forall i :: 0 <= i < |u| ==> 0 <= u[i] < 0x1_0000
  {
    var v := c as int;
    if v < 0x1_0000 then [v]
    else [0xD800 + (v - 0x1_0000) / 0x400, 0xDC00 + (v - 0x1_0000) % 0x400]
  }

  /** What `charCodeAt` walks over: the string's UTF-16 code units. */
  function Utf16(s: string): (u: seq<int>)
    ensures forall i :: 0 <= i < |u| ==> 0 <= u[i] < 0x1_0000
  {
    if s == [] then [] else Utf16(s[..|s| - 1]) + CodeUnits(s[|s| - 1])
  }

  // ----- 32-bit arithmetic -----

  /** ECMAScript ToInt32: `x` modulo 2^32, read as a signed 32-bit integer. */
  function ToInt32(x: int): (r: int)
    ensures -TwoTo31 <= r < TwoTo31
    ensures (x - r) % TwoTo32 == 0
  {
    var m := x % TwoTo32;
    if m >= TwoTo31 then m - TwoTo32 else m
  }

  /** ToInt32 sees only the residue modulo 2^32. */
  lemma ToInt32Congruent(x: int, y: int)
    requires (x - y) % TwoTo32 == 0
    ensures ToInt32(x) == ToInt32(y)
  {
    var k := (x - y) / TwoTo32;
    assert x == y + k * TwoTo32;
    ModShift(y, k);
  }

  lemma ModShift(y: int, k: int)
    ensures (y + k * TwoTo32) % TwoTo32 == y % TwoTo32
  {
  }

  /**
   * One loop step: `hash << 5` wraps `hash * 32` to 32 bits, the
   * subtraction and addition are exact, and `hash & hash` wraps again.
   */
  function HashStep(h: int, unit: int): int {
    ToInt32(ToInt32(h * 32) - h + unit)
  }

  /** The hash after folding `HashStep` over code units `u`, from 0. */
  function HashFold(u: seq<int>): (h: int)
    ensures -TwoTo31 <= h < TwoTo31
  {
    if u == [] then 0 else HashStep(HashFold(u[..|u| - 1]), u[|u| - 1])
  }

  /** `Math.abs` of the wrapped hash. */
  function HashOf(s: string): (h: nat)
    ensures h <= TwoTo31
  {
    var f := HashFold(Utf16(s));
    if f < 0 then -f else f
  }

  /** The polynomial hash `sum of u[i] * 31^(|u| - 1 - i)`, in unbounded integers. */
  function Poly(u: seq<int>): int {
    if u == [] then 0 else 31 * Poly(u[..|u| - 1]) + u[|u| - 1]
  }

  /**
   * The double wrap in each step does not change the result: the fold is
   * the polynomial hash `h * 31 + charCode`, taken as a signed 32-bit
   * integer once at the end.
   */
  lemma {:induction false} HashFoldIsWrappedPoly(u: seq<int>)
    ensures HashFold(u) == ToInt32(Poly(u))
  {
    if u != [] {
      var init, c := u[..|u| - 1], u[|u| - 1];
      var h := HashFold(init);
      var p := Poly(init);
      HashFoldIsWrappedPoly(init);
      assert (p - h) % TwoTo32 == 0;
      var w := ToInt32(h * 32);
      assert (h * 32 - w) % TwoTo32 == 0;
      StepCongruent(h, p, w, c);
      ToInt32Congruent(w - h + c, 31 * p + c);
    }
  }

  /** The arithmetic behind one step: both wraps are multiples of 2^32. */
  lemma StepCongruent(h: int, p: int, w: int, c: int)
    requires (p - h) % TwoTo32 == 0 && (h * 32 - w) % TwoTo32 == 0
    ensures ((w - h + c) - (31 * p + c)) % TwoTo32 == 0
  {
    var a, b := (p - h) / TwoTo32, (h * 32 - w) / TwoTo32;
    assert p == h + a * TwoTo32;
    assert w == h * 32 - b * TwoTo32;
    assert (w - h + c) - (31 * p + c) == (-b - 31 * a) * TwoTo32;
    ModShift(0, -b - 31 * a);
  }

  // ----- colours -----

  /**
   * `getSourceColor` without its memo: `palette[0]` for a falsy (empty)
   * name, otherwise the palette entry at the hash modulo 20.
   */
  function SourceColorOf(source: string): (color: string)
    ensures color in Palette
    ensures source == "" ==> color == Palette[0]
    ensures source != "" ==> color == Palette[HashOf(source) % 20]
  {
    if source == "" then Palette[0] else Palette[HashOf(source) % |Palette|]
  }

  /** A name within the Basic Multilingual Plane has one code unit per character. */
  lemma {:induction false} BmpUnits(s: string)
    requires forall i :: 0 <= i < |s| ==> s[i] as int < 0x1_0000
    ensures |Utf16(s)| == |s| && forall i :: 0 <= i < |s| ==> Utf16(s)[i] == s[i] as int
  {
    if s != [] {
      BmpUnits(s[..|s| - 1]);
    }
  }
}
