/** `stringToColor` of src/server.js:36-43: a pastel colour derived from a
    string hash. The string is given as its UTF-16 code units, the values
    `charCodeAt` returns. */
module Color {
  /** A UTF-16 code unit. */
  newtype CodeUnit = x: int | 0 <= x < 0x1_0000

  const TwoTo31: int := 0x8000_0000
  const TwoTo32: int := 0x1_0000_0000

  /** ECMAScript ToInt32 on an integral number: the value congruent to `x`
      modulo 2^32 in [-2^31, 2^31). */
  function ToInt32(x: int): (r: int)
    ensures -TwoTo31 <= r < TwoTo31
    ensures (x - r) % TwoTo32 == 0
  {
    var m := x % TwoTo32;
    if m >= TwoTo31 then m - TwoTo32 else m
  }

  /** One step of the loop: `c + ((hash << 5) - hash)`. Only the shift goes
      through 32-bit arithmetic; the subtraction and the addition are on
      unbounded (double) values. */
  function Step(hash: int, c: CodeUnit): int
  {
    c as int + (ToInt32(ToInt32(hash) * 32) - hash)
  }

  /** The hash after the loop has seen all of `s`. */
  function Hash(s: seq<CodeUnit>): int
  {
    if s == [] then 0 else Step(Hash(s[..|s| - 1]), s[|s| - 1])
  }

  /** The largest change one step can make to the magnitude of the hash. */
  const StepBound: int := TwoTo31 + 0xFFFF

  /** The hash grows by at most `StepBound` per code unit, so for strings
      shorter than 2^53 / StepBound (about four million code units) every
      intermediate value is an integer a double represents exactly, and
      the unbounded integers of this model are what JavaScript computes. */
  lemma {:induction false} HashBound(s: seq<CodeUnit>)
    ensures -(|s| * StepBound) <= Hash(s) <= |s| * StepBound
  {
    if s != [] {
      HashBound(s[..|s| - 1]);
    }
  }

  /** `Math.abs(hash) % 360`: the hue is a degree in [0, 360) that
      differs from the magnitude of the hash by whole turns. */
  function HueOf(hash: int): (hue: nat)
    ensures 0 <= hue < 360
    ensures (if hash < 0 then -hash else hash) == 360 * ((if hash < 0 then -hash else hash) / 360) + hue
  {
    (if hash < 0 then -hash else hash) % 360
  }

  /** The hue of a string. */
  function Hue(s: seq<CodeUnit>): (hue: nat)
    ensures 0 <= hue < 360
  {
    HueOf(Hash(s))
  }

  /** The colour `hsl(${hue}, 70%, 80%)`. */
  datatype Hsl = Hsl(hue: nat, saturation: nat, lightness: nat)

  function StringToColor(s: seq<CodeUnit>): (c: Hsl)
    ensures c.hue < 360 && c.saturation == 70 && c.lightness == 80
    ensures c.hue == HueOf(Hash(s))
  {
    Hsl(Hue(s), 70, 80)
  }

  /** The hash is not kept within 32 bits: seven `a`s already take it past
      2^31 - 1. */
  lemma HashLeavesInt32()
    ensures Hash([97, 97, 97, 97, 97, 97, 97]) == 3058106369
  {
    var a: CodeUnit := 97;
    assert Hash([a]) == 97 by { assert [a][..0] == []; }
    assert Hash([a, a]) == 3104 by { assert [a, a][..1] == [a]; }
    assert Hash([a, a, a]) == 96321 by { assert [a, a, a][..2] == [a, a]; }
    assert Hash([a, a, a, a]) == 2986048 by { assert [a, a, a, a][..3] == [a, a, a]; }
    assert Hash([a, a, a, a, a]) == 92567585 by { assert [a, a, a, a, a][..4] == [a, a, a, a]; }
    assert Hash([a, a, a, a, a, a]) == -1425372064 by {
      assert [a, a, a, a, a, a][..5] == [a, a, a, a, a];
    }
    assert Hash([a, a, a, a, a, a, a]) == 3058106369 by {
      assert [a, a, a, a, a, a, a][..6] == [a, a, a, a, a, a];
    }
  }

  /** The decimal digits of `n`, as template literals print a non-negative
      integer. */
  function Decimal(n: nat): (d: string)
    ensures |d| >= 1
    ensures forall i :: 0 <= i < |d| ==> '0' <= d[i] <= '9'
    ensures |d| > 1 ==> d[0] != '0'
  {
    if n < 10 then [(n + '0' as int) as char]
    else Decimal(n / 10) + [((n % 10) + '0' as int) as char]
  }

  /** The number a string of decimal digits denotes. */
  function DecimalValue(d: string): nat
    requires forall i :: 0 <= i < |d| ==> '0' <= d[i] <= '9'
  {
    if d == [] then 0
    else 10 * DecimalValue(d[..|d| - 1]) + (d[|d| - 1] as int - '0' as int)
  }

  /** Printing a number in decimal loses nothing. */
  lemma {:induction false} DecimalRoundTrip(n: nat)
    ensures DecimalValue(Decimal(n)) == n
  {
    if n >= 10 {
      DecimalRoundTrip(n / 10);
      var d := Decimal(n);
      assert d[..|d| - 1] == Decimal(n / 10);
    }
  }

  /** The CSS text of a colour. */
  function Css(c: Hsl): string
  {
    "hsl(" + Decimal(c.hue) + ", " + Decimal(c.saturation) + "%, " + Decimal(c.lightness) + "%)"
  }
}
