/**
 * The deterministic fallback colour of a display name
 * (src/adapters/truffle/hash.ts): a 32-bit signed rolling hash of the name,
 * folded onto a fixed palette or onto a hue.
 */
module Hash {
  import Text

  const TwoTo31: int := 0x8000_0000
  const TwoTo32: int := 0x1_0000_0000

  predicate IsInt32(x: int) {
    -TwoTo31 <= x < TwoTo31
  }

  /** ECMAScript ToInt32, what `x | 0` and `x << k` apply to their result. */
  function ToInt32(x: int): (r: int)
    ensures IsInt32(r)
    ensures (r - x) % TwoTo32 == 0
  {
    (x + TwoTo31) % TwoTo32 - TwoTo31
  }

  lemma ToInt32OfCongruent(x: int, y: int)
    requires (x - y) % TwoTo32 == 0
    ensures ToInt32(x) == ToInt32(y)
  {
    var k := (x - y) / TwoTo32;
    assert x + TwoTo31 == (y + TwoTo31) + k * TwoTo32;
  }

  /** The hash as a specification: `h := int32(31·h + charCode)` over the
      characters, starting from 0. */
  function StringHash(s: string): (h: int)
    ensures IsInt32(h)
  {
    if s == [] then 0 else ToInt32(31 * StringHash(s[..|s| - 1]) + s[|s| - 1] as int)
  }

  /** One step of the loop as written: `hash = (hash << 5) - hash + chr; hash |= 0`. */
  function ShiftStep(hash: int, chr: int): int {
    ToInt32(ToInt32(hash * 32) - hash + chr)
  }

  /** The shift-and-subtract step is multiplication by 31 modulo 2^32. */
  lemma ShiftStepIsTimes31(hash: int, chr: int)
    ensures ShiftStep(hash, chr) == ToInt32(31 * hash + chr)
  {
    var x := ToInt32(hash * 32) - hash + chr;
    assert (x - (31 * hash + chr)) % TwoTo32 == (ToInt32(hash * 32) - hash * 32) % TwoTo32;
    ToInt32OfCongruent(x, 31 * hash + chr);
  }

  /** `getStringHash(string)` */
  method GetStringHash(s: string) returns (hash: int)
    ensures hash == StringHash(s)
    ensures IsInt32(hash)
  {
    hash := 0;
    if |s| == 0 {
      return 0;
    }
    for i := 0 to |s|
      invariant hash == StringHash(s[..i])
    {
      var chr := s[i] as int;
      ShiftStepIsTimes31(hash, chr);
      hash := ToInt32(ToInt32(hash * 32) - hash + chr);
      assert s[..i + 1][..i] == s[..i];
    }
    assert s[..|s|] == s;
  }

  /** The `%` operator of JavaScript: the remainder truncated toward zero,
      carrying the sign of the dividend. */
  function JsRemainder(a: int, n: int): (r: int)
    requires n > 0
    ensures -n < r < n
    ensures a >= 0 ==> r == a % n
  {
    if a >= 0 then a % n else -((-a) % n)
  }

  /** Euclidean division has one remainder: any way of writing `a` as a
      multiple of `n` plus a remainder in `[0, n)` gives `a % n`. */
  lemma ModUnique(a: int, n: int, k: int, r: int)
    requires n > 0 && 0 <= r < n && a == k * n + r
    ensures a % n == r
  {
    var q, m := a / n, a % n;
    assert a == q * n + m;
    if k > q {
      assert k * n == q * n + (k - q) * n;
      MulAtLeast(k - q, n);
      assert false;
    } else if k < q {
      assert q * n == k * n + (q - k) * n;
      MulAtLeast(q - k, n);
      assert false;
    }
  }

  lemma {:induction false} MulAtLeast(d: int, n: int)
    requires d >= 1 && n >= 0
    ensures d * n >= n
    decreases d
  {
    if d > 1 {
      MulAtLeast(d - 1, n);
      assert d * n == (d - 1) * n + n;
    }
  }

  /** `((a % n) + n) % n` in JavaScript is the non-negative residue of `a`. */
  lemma JsRemainderNormalised(a: int, n: int)
    requires n > 0
    ensures JsRemainder(JsRemainder(a, n) + n, n) == a % n
  {
    if a >= 0 {
      ModUnique(a % n + n, n, 1, a % n);
    } else {
      var m := (-a) % n;
      var q := (-a) / n;
      assert -a == q * n + m;
      if m == 0 {
        ModUnique(n, n, 1, 0);
        ModUnique(a, n, -q, 0);
      } else {
        ModUnique(n - m, n, 0, n - m);
        ModUnique(a, n, -q - 1, n - m);
      }
    }
  }

  const Colors: seq<string> := [
    "#ff0000", "#009000", "#b22222", "#ff7f50", "#9acd32", "#ff4500", "#2e8b57",
    "#daa520", "#d2691e", "#5f9ea0", "#1e90ff", "#ff69b4", "#00ff7f", "#a244f9"
  ]

  /** `((hash % colors.length) + colors.length) % colors.length` */
  function PaletteIndex(hash: int): (i: int)
    ensures 0 <= i < |Colors|
    ensures i == hash % |Colors|
  {
    JsRemainderNormalised(hash, |Colors|);
    JsRemainder(JsRemainder(hash, |Colors|) + |Colors|, |Colors|)
  }

  /** `getUsernameColor(string)`: one of the fourteen palette entries, picked
      by the residue of the name's hash. */
  function UsernameColor(name: string): (color: string)
    ensures color in Colors
    ensures color == Colors[StringHash(name) % 14]
  {
    Colors[PaletteIndex(StringHash(name))]
  }

  /** `(((hash % 60) + 60) % 60) * 6` */
  function Hue(hash: int): (hue: int)
    ensures 0 <= hue <= 354 && hue % 6 == 0
    ensures hue == (hash % 60) * 6
  {
    JsRemainderNormalised(hash, 60);
    JsRemainder(JsRemainder(hash, 60) + 60, 60) * 6
  }

  /** `hashColor(string)`: "hsl(", the hue in decimal digits, then
      "deg, 100%, 70%)"; reading the digits back gives the hue of the name. */
  function HashColor(name: string): (css: string)
    ensures |css| > 19 && css[..4] == "hsl(" && css[|css| - 15..] == "deg, 100%, 70%)"
    ensures forall i :: 4 <= i < |css| - 15 ==> '0' <= css[i] <= '9'
    ensures Text.DecimalValue(css[4..|css| - 15]) == StringHash(name) % 60 * 6
  {
    var digits := Text.NatToDecimal(Hue(StringHash(name)));
    Text.DecimalRoundTrip(Hue(StringHash(name)));
    var css := "hsl(" + digits + "deg, 100%, 70%)";
    assert css[4..|css| - 15] == digits;
    css
  }
}
