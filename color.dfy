/** RGB colours with std::size_t components (color.h) and the pure helpers of color.cpp. */
module Color {
  import opened Decimal

  /** 2^64: std::size_t arithmetic is taken modulo this. */
  const SIZE_MODULUS: int := 0x1_0000_0000_0000_0000

  type Size = n: int | 0 <= n < SIZE_MODULUS

  datatype Color = Color(r: Size, g: Size, b: Size)

  /** Conversion of an int to std::size_t: reduction modulo 2^64 (Dafny's % is never negative). */
  function ToSize(i: int): (n: Size)
    ensures 0 <= i < SIZE_MODULUS ==> n == i
    ensures (n - i) % SIZE_MODULUS == 0
  {
    i % SIZE_MODULUS
  }

  /** initColor: a colour holding exactly the given components. */
  function InitColor(red: Size, green: Size, blue: Size): (c: Color)
    ensures c.r == red && c.g == green && c.b == blue
  {
    Color(red, green, blue)
  }

  /** C++'s float-to-int cast: truncation toward zero. */
  function Trunc(v: real): int
  {
    if v >= 0.0 then v.Floor else -((-v).Floor)
  }

  /** The cast (int)v is defined only when its truncation fits a 32-bit int. */
  predicate CastsToInt(v: real) {
    -2147483649.0 < v < 2147483648.0
  }

  /** The product factor * c has a defined int cast. */
  predicate Scalable(factor: real, c: Size) {
    CastsToInt(factor * (c as real))
  }

  /** s is factor * c with its fraction dropped. */
  predicate TruncatedProduct(s: Size, factor: real, c: Size) {
    s as real <= factor * (c as real) < s as real + 1.0
  }

  /** The channel factor * c as scaleColor computes it: truncated to int, then stored as size_t. */
  function ScaleChannel(factor: real, c: Size): Size
    requires Scalable(factor, c)
  {
    ToSize(Trunc(factor * (c as real)))
  }

  /** scaleColor: each channel multiplied by factor and truncated. */
  function ScaleColor(color: Color, factor: real): (s: Color)
    requires Scalable(factor, color.r) && Scalable(factor, color.g) && Scalable(factor, color.b)
    ensures factor >= 0.0 ==> TruncatedProduct(s.r, factor, color.r)
    ensures factor >= 0.0 ==> TruncatedProduct(s.g, factor, color.g)
    ensures factor >= 0.0 ==> TruncatedProduct(s.b, factor, color.b)
  {
    InitColor(ScaleChannel(factor, color.r), ScaleChannel(factor, color.g), ScaleChannel(factor, color.b))
  }

  lemma ScaleByZero(color: Color)
    ensures ScaleColor(color, 0.0) == Color(0, 0, 0)
  {
  }

  /** Factor 1 keeps every channel that the int cast can hold. */
  lemma ScaleByOne(color: Color)
    requires color.r < 0x8000_0000 && color.g < 0x8000_0000 && color.b < 0x8000_0000
    ensures ScaleColor(color, 1.0) == color
  {
  }

  /** For a factor in [0, 1] a channel never increases. */
  lemma ScaleChannelNoIncrease(factor: real, c: Size)
    requires 0.0 <= factor <= 1.0 && c < 0x8000_0000
    ensures Scalable(factor, c)
    ensures ScaleChannel(factor, c) <= c
  {
    var v := factor * (c as real);
    ProductNonNegative(factor, c as real);
    ProductNonNegative(1.0 - factor, c as real);
    assert v == c as real - (1.0 - factor) * (c as real);
    assert 0 <= Trunc(v) == v.Floor <= c;
  }

  lemma ProductNonNegative(x: real, y: real)
    requires 0.0 <= x && 0.0 <= y
    ensures 0.0 <= x * y
  {
  }

  lemma ScaleNoIncrease(color: Color, factor: real)
    requires 0.0 <= factor <= 1.0
    requires color.r < 0x8000_0000 && color.g < 0x8000_0000 && color.b < 0x8000_0000
    ensures Scalable(factor, color.r) && Scalable(factor, color.g) && Scalable(factor, color.b)
    ensures var s := ScaleColor(color, factor); s.r <= color.r && s.g <= color.g && s.b <= color.b
  {
    ScaleChannelNoIncrease(factor, color.r);
    ScaleChannelNoIncrease(factor, color.g);
    ScaleChannelNoIncrease(factor, color.b);
  }

  /** negateColor: 255 minus each channel, in unsigned size_t arithmetic. */
  function NegateColor(color: Color): (n: Color)
    ensures color.r <= 255 ==> n.r == 255 - color.r
    ensures color.g <= 255 ==> n.g == 255 - color.g
    ensures color.b <= 255 ==> n.b == 255 - color.b
  {
    InitColor(ToSize(255 - color.r), ToSize(255 - color.g), ToSize(255 - color.b))
  }

  /** Negation is an involution on every colour, the wrapped ones included. */
  lemma NegateTwice(color: Color)
    ensures NegateColor(NegateColor(color)) == color
  {
    var n := NegateColor(color);
    NegateChannelTwice(color.r);
    NegateChannelTwice(color.g);
    NegateChannelTwice(color.b);
  }

  lemma NegateChannelTwice(c: Size)
    ensures ToSize(255 - ToSize(255 - c)) == c
  {
    if c <= 255 {
    } else {
      assert ToSize(255 - c) == 255 - c + SIZE_MODULUS;
    }
  }

  /** A component above 255 wraps around instead of going negative. */
  lemma NegateWraps()
    ensures NegateColor(Color(256, 0, 255)) == Color(SIZE_MODULUS - 1, 255, 0)
  {
  }

  predicate NoSpace(s: string) {
    forall i | 0 <= i < |s| :: s[i] != ' '
  }

  /** toString: the decimals of r, g and b separated by single spaces. */
  function ToString(color: Color): (s: string)
    ensures |s| >= 5
    ensures forall i | 0 <= i < |s| :: s[i] == ' ' || '0' <= s[i] <= '9'
    ensures s[0] != ' ' && s[|s| - 1] != ' '
  {
    NatToString(color.r) + " " + NatToString(color.g) + " " + NatToString(color.b)
  }

  lemma DecimalHasNoSpace(n: nat)
    ensures NoSpace(NatToString(n))
  {
  }

  lemma NoEarlierSpace(x: string, y: string, x2: string, y2: string)
    requires NoSpace(x2)
    requires x + " " + y == x2 + " " + y2
    ensures |x2| <= |x|
  {
    var s := x + " " + y;
    assert forall i | 0 <= i < |x2| :: s[i] == x2[i] != ' ';
    assert s[|x|] == ' ';
  }

  /** A string with no space before its first space splits there uniquely. */
  lemma SplitAtFirstSpace(x: string, y: string, x2: string, y2: string)
    requires NoSpace(x) && NoSpace(x2)
    requires x + " " + y == x2 + " " + y2
    ensures x == x2 && y == y2
  {
    NoEarlierSpace(x, y, x2, y2);
    NoEarlierSpace(x2, y2, x, y);
    var s := x + " " + y;
    assert x == s[..|x|] == x2;
    assert y == s[|x| + 1..] == y2;
  }

  /** toString is injective: the three components can be read back from the text. */
  lemma ToStringInjective(c1: Color, c2: Color)
    requires ToString(c1) == ToString(c2)
    ensures c1 == c2
  {
    DecimalHasNoSpace(c1.r); DecimalHasNoSpace(c1.g);
    DecimalHasNoSpace(c2.r); DecimalHasNoSpace(c2.g);
    var r1, g1, b1 := NatToString(c1.r), NatToString(c1.g), NatToString(c1.b);
    var r2, g2, b2 := NatToString(c2.r), NatToString(c2.g), NatToString(c2.b);
    assert r1 + " " + g1 + " " + b1 == r1 + " " + (g1 + " " + b1);
    assert r2 + " " + g2 + " " + b2 == r2 + " " + (g2 + " " + b2);
    SplitAtFirstSpace(r1, g1 + " " + b1, r2, g2 + " " + b2);
    SplitAtFirstSpace(g1, b1, g2, b2);
    NatToStringInjective(c1.r, c2.r);
    NatToStringInjective(c1.g, c2.g);
    NatToStringInjective(c1.b, c2.b);
  }

  lemma ToStringWhite()
    ensures ToString(InitColor(255, 255, 255)) == "255 255 255"
  {
    NatToStringExamples();
  }
}
