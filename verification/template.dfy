/**
 * The new file name's printf template: one conversion per coordinate built
 * from the sign policy, the coordinate type and the padding options, framed
 * by prefix, separator and suffix, unless a raw template overrides it all;
 * the integer coordinates cut down to the requested number of high-order
 * digits; the argument list handed to the printf engine; and the 256-byte
 * buffer the result lands in.
 */
module NameTemplate {
  import opened CStrings
  import opened Wrappers

  /** The command-line options that shape the name, as main holds them. */
  datatype Options = Options(
    coordType: string,    // -t: "real", anything else means integer (default "")
    signType: string,     // -g: "std", "force" or "geo" (default "std")
    padding: bool,        // -z (starts true and can only be set true)
    coordLength: string,  // -l (default "7")
    decLength: string,    // -d (default "3")
    sep: string,          // -s (default "_")
    prefix: string,       // -p (default "")
    suffix: string,       // -x (default "")
    printf: string)       // -f, a raw template; "" means unset

  function Defaults(): Options {
    Options("", "std", true, "7", "3", "_", "", "", "")
  }

  predicate IsRealType(o: Options) {
    Equal(o.coordType, "real")
  }

  predicate UsesOverride(o: Options) {
    !Equal(o.printf, "")
  }

  /** The integer branch of the template block runs, and with it nDigits on both coordinates. */
  predicate TruncationRuns(o: Options) {
    !UsesOverride(o) && !IsRealType(o)
  }

  function Max(a: int, b: int): int {
    if a >= b then a else b
  }

  function Pow10(k: nat): (p: nat)
    ensures p >= 1
  {
    if k == 0 then 1 else 10 * Pow10(k - 1)
  }

  lemma {:induction false} Pow10Add(a: nat, b: nat)
    ensures Pow10(a + b) == Pow10(a) * Pow10(b)
  {
    if a > 0 {
      Pow10Add(a - 1, b);
      assert Pow10(a + b) == 10 * Pow10(a - 1 + b);
    }
  }

  lemma {:induction false} Pow10Monotone(a: nat, b: nat)
    requires a <= b
    ensures Pow10(a) <= Pow10(b)
  {
    if a < b {
      Pow10Monotone(a, b - 1);
    }
  }

  /**
   * nDigits, ceil(log10(v)) on a positive integer: the least k with
   * 10^k >= v. An exact power of ten 10^k gives k, one less than its number
   * of decimal digits.
   */
  function NDigits(v: int): (k: nat)
    requires v >= 1
    ensures v <= Pow10(k)
    ensures k > 0 ==> Pow10(k - 1) < v
    decreases v
  {
    if v == 1 then 0 else 1 + NDigits((v + 9) / 10)
  }

  /** 10^a <= 10^b exactly when a <= b. */
  lemma Pow10Order(a: nat, b: nat)
    ensures a <= b <==> Pow10(a) <= Pow10(b)
  {
    if a <= b {
      Pow10Monotone(a, b);
    } else {
      Pow10Monotone(b, a - 1);
      assert Pow10(a) == 10 * Pow10(a - 1);
    }
  }

  /** No smaller exponent reaches v: NDigits is the least one. */
  lemma NDigitsIsLeast(v: int, j: nat)
    requires v >= 1 && v <= Pow10(j)
    ensures NDigits(v) <= j
  {
    var k := NDigits(v);
    if k > 0 {
      Pow10Order(j, k - 1);
    }
  }

  lemma NDigitsOfPowerOfTen(k: nat)
    ensures NDigits(Pow10(k)) == k
  {
    var d := NDigits(Pow10(k));
    NDigitsIsLeast(Pow10(k), k);
    Pow10Order(k, d);
  }

  lemma NDigitsMonotone(a: int, b: int)
    requires 1 <= a <= b
    ensures NDigits(a) <= NDigits(b)
  {
    NDigitsIsLeast(a, NDigits(b));
  }

  /**
   * Lines 379-390: when the larger digit count of the two coordinates exceeds
   * atoi(coordLength), both are divided by the same power of ten and
   * truncated; otherwise they are kept. The coordinates are positive here,
   * so integer division truncates as the C cast does.
   */
  function TruncateCoords(c0: int, c1: int, coordLength: string): (int, int)
    requires c0 >= 1 && c1 >= 1
  {
    var baseDigits := Max(NDigits(c0), NDigits(c1));
    var formatDigits := Atoi(coordLength);
    if baseDigits > formatDigits then
      var e := baseDigits - formatDigits;
      (c0 / Pow10(e), c1 / Pow10(e))
    else
      (c0, c1)
  }

  lemma {:induction false} MulMonotone(d: nat, x: int, y: int)
    requires x <= y
    ensures d * x <= d * y
  {
    if d > 0 {
      MulMonotone(d - 1, x, y);
      assert d * x == (d - 1) * x + x;
      assert d * y == (d - 1) * y + y;
    }
  }

  /** c / d is the quotient that brackets c between consecutive multiples of d. */
  lemma DivBracket(c: int, d: int)
    requires d > 0
    ensures (c / d) * d <= c < (c / d + 1) * d
  {
    var q, r := c / d, c % d;
    assert c == d * q + r && 0 <= r < d;
    assert (q + 1) * d == d * q + d;
  }

  lemma DivLowerBound(a: int, c: int, d: int)
    requires d > 0 && a * d <= c
    ensures a <= c / d
  {
    var q, r := c / d, c % d;
    assert c == d * q + r && r < d;
    if q < a {
      MulMonotone(d, q, a - 1);
      assert false;
    }
  }

  lemma DivUpperBound(a: int, c: int, d: int)
    requires d > 0 && c <= a * d
    ensures c / d <= a
  {
    var q, r := c / d, c % d;
    assert c == d * q + r && 0 <= r;
    if q > a {
      MulMonotone(d, a + 1, q);
      assert false;
    }
  }

  lemma DivMonotone(c0: int, c1: int, d: int)
    requires d > 0 && c0 <= c1
    ensures c0 / d <= c1 / d
  {
    var q0, q1 := c0 / d, c1 / d;
    assert c0 == d * q0 + c0 % d && c1 == d * q1 + c1 % d;
    if q0 > q1 {
      MulMonotone(d, q1 + 1, q0);
      assert false;
    }
  }

  /** When the larger digit count does not exceed atoi(coordLength), the coordinates are kept. */
  lemma TruncationSkipped(c0: int, c1: int, coordLength: string)
    requires c0 >= 1 && c1 >= 1
    requires Max(NDigits(c0), NDigits(c1)) <= Atoi(coordLength)
    ensures TruncateCoords(c0, c1, coordLength) == (c0, c1)
  {
  }

  /** Dividing two values by the same d brackets each and keeps their order. */
  lemma DividedPair(c0: int, c1: int, d: int)
    requires d > 0
    ensures (c0 / d) * d <= c0 < (c0 / d + 1) * d
    ensures (c1 / d) * d <= c1 < (c1 / d + 1) * d
    ensures c0 <= c1 ==> c0 / d <= c1 / d
    ensures c1 <= c0 ==> c1 / d <= c0 / d
  {
    DivBracket(c0, d);
    DivBracket(c1, d);
    if c0 <= c1 {
      DivMonotone(c0, c1, d);
    }
    if c1 <= c0 {
      DivMonotone(c1, c0, d);
    }
  }

  /**
   * When the truncation runs, both coordinates lose the same number e of
   * low-order digits: each result r satisfies r * 10^e <= c < (r + 1) * 10^e,
   * and the order of the two coordinates is kept.
   */
  lemma TruncationDropsLowDigits(c0: int, c1: int, coordLength: string)
    requires c0 >= 1 && c1 >= 1
    requires Max(NDigits(c0), NDigits(c1)) > Atoi(coordLength)
    ensures var e := Max(NDigits(c0), NDigits(c1)) - Atoi(coordLength);
            var r := TruncateCoords(c0, c1, coordLength);
            && r.0 * Pow10(e) <= c0 < (r.0 + 1) * Pow10(e)
            && r.1 * Pow10(e) <= c1 < (r.1 + 1) * Pow10(e)
            && (c0 <= c1 ==> r.0 <= r.1)
            && (c1 <= c0 ==> r.1 <= r.0)
  {
    var e := Max(NDigits(c0), NDigits(c1)) - Atoi(coordLength);
    var d := Pow10(e);
    assert TruncateCoords(c0, c1, coordLength) == (c0 / d, c1 / d);
    DividedPair(c0, c1, d);
  }

  /**
   * When the truncation runs with a positive length n, the larger result has
   * n digits, or is exactly 10^n, which the power-of-ten behaviour of nDigits
   * lets through.
   */
  lemma {:induction false} TruncationWidth(c0: int, c1: int, coordLength: string)
    requires c0 >= 1 && c1 >= 1
    requires Max(NDigits(c0), NDigits(c1)) > Atoi(coordLength) >= 1
    ensures var n := Atoi(coordLength);
            var r := TruncateCoords(c0, c1, coordLength);
            Pow10(n - 1) <= Max(r.0, r.1) <= Pow10(n)
  {
    var baseDigits := Max(NDigits(c0), NDigits(c1));
    var n: nat := Atoi(coordLength);
    var e: nat := baseDigits - n;
    var d := Pow10(e);
    var r := TruncateCoords(c0, c1, coordLength);
    assert r == (c0 / d, c1 / d);
    var big := if c0 >= c1 then c0 else c1;
    assert NDigits(big) == baseDigits by {
      if c0 >= c1 { NDigitsMonotone(c1, c0); } else { NDigitsMonotone(c0, c1); }
    }
    Pow10Add(n - 1, e);
    Pow10Add(n, e);
    assert Pow10(n - 1) * d < big;
    DivLowerBound(Pow10(n - 1), big, d);
    DivUpperBound(Pow10(n), big, d);
    if c0 >= c1 {
      DivMonotone(c1, c0, d);
      assert Max(r.0, r.1) == big / d;
    } else {
      DivMonotone(c0, c1, d);
      assert Max(r.0, r.1) == big / d;
    }
  }

  /** A value strictly above 10^(k-1) and at most 10^k has nDigits k. */
  lemma NDigitsExact(v: int, k: nat)
    requires k >= 1 && Pow10(k - 1) < v <= Pow10(k)
    ensures NDigits(v) == k
  {
    NDigitsIsLeast(v, k);
    Pow10Order(NDigits(v), k - 1);
  }

  /** The example of the usage text: easting 621000 with -l 4 keeps 6210. */
  lemma TruncationExample()
    ensures TruncateCoords(621000, 45000, "4") == (6210, 450)
  {
    assert Pow10(2) == 100;
    assert Pow10(4) == 10000;
    assert Pow10(5) == 100000 && Pow10(6) == 1000000;
    NDigitsExact(621000, 6);
    NDigitsExact(45000, 5);
    assert Decimal(4) == "4";
    AtoiDecimal(4, "");
    assert Atoi("4") == 4;
    assert TruncateCoords(621000, 45000, "4") == (621000 / 100, 45000 / 100);
  }

  /** An exact power of ten keeps one digit more than asked for. */
  lemma TruncationOfPowerOfTen()
    ensures TruncateCoords(1000000, 1, "4") == (10000, 0)
  {
    assert Pow10(2) == 100;
    assert Pow10(6) == 1000000;
    NDigitsOfPowerOfTen(6);
    assert NDigits(1) == 0;
    assert Decimal(4) == "4";
    AtoiDecimal(4, "");
    assert Atoi("4") == 4;
    assert TruncateCoords(1000000, 1, "4") == (1000000 / 100, 1 / 100);
  }

  /** The sign part of a coordinate conversion. */
  datatype Sign = Std | Force | Geo

  /** The numeric part of a coordinate conversion, if any. */
  datatype Field = NoField | RealField(width: string, decimals: string) | IntField(digits: string)

  /** "geo" (any case) wins; otherwise a sign type whose first four characters are "forc" forces the sign. */
  function SignOf(signType: string): Sign {
    if Equal(signType, "geo") then Geo
    else if EqualN(signType, "force", 4) then Force
    else Std
  }

  /** Width and precision are written only when padding is on. */
  function FieldOf(o: Options): Field {
    if IsRealType(o) then
      (if o.padding then RealField(o.coordLength, o.decLength) else NoField)
    else
      (if o.padding then IntField(o.coordLength) else NoField)
  }

  function SignText(s: Sign): string {
    match s
    case Std => ""
    case Force => "+"
    case Geo => "c%"
  }

  function FieldText(f: Field): string {
    match f
    case NoField => ""
    case RealField(w, d) => "0" + w + "." + d + "f"
    case IntField(n) => "." + n + "d"
  }

  /** The conversion written once per coordinate. */
  function CoordTemplate(o: Options): string {
    "%" + SignText(SignOf(o.signType)) + FieldText(FieldOf(o))
  }

  /** The whole template: the raw one if given, else prefix, conversion, separator, conversion, suffix. */
  function MainTemplate(o: Options): string {
    if UsesOverride(o) then o.printf
    else o.prefix + CoordTemplate(o) + o.sep + CoordTemplate(o) + o.suffix
  }

  /** Reads the sign part at the start of t, returning the rest. */
  function ParseSign(t: string): (Sign, string) {
    if |t| >= 2 && t[0] == 'c' && t[1] == '%' then (Geo, t[2..])
    else if |t| >= 1 && t[0] == '+' then (Force, t[1..])
    else (Std, t)
  }

  /** Reads a numeric field: empty, 0<width>.<decimals>f or .<digits>d. */
  function ParseField(body: string): Option<Field> {
    if body == [] then Some(NoField)
    else if |body| >= 2 && body[0] == '0' && body[|body| - 1] == 'f' then
      var inner := body[1..|body| - 1];
      var k := IndexOf(inner, '.');
      if k < |inner| then Some(RealField(inner[..k], inner[k + 1..])) else None
    else if |body| >= 2 && body[0] == '.' && body[|body| - 1] == 'd' then
      Some(IntField(body[1..|body| - 1]))
    else None
  }

  /** Reads a coordinate conversion back into its sign and field. */
  function ParseCoordTemplate(t: string): Option<(Sign, Field)> {
    if |t| == 0 || t[0] != '%' then None
    else
      var (s, body) := ParseSign(t[1..]);
      match ParseField(body)
      case Some(f) => Some((s, f))
      case None => None
  }

  predicate PlainField(f: Field) {
    match f
    case NoField => true
    case RealField(w, d) => IsDigits(w) && IsDigits(d)
    case IntField(n) => IsDigits(n)
  }

  lemma ParseSignText(s: Sign, body: string)
    requires body == [] || body[0] == '0' || body[0] == '.'
    ensures ParseSign(SignText(s) + body) == (s, body)
  {
    match s
    case Std =>
      assert SignText(s) + body == body;
    case Force =>
      assert (SignText(s) + body)[1..] == body;
    case Geo =>
      assert (SignText(s) + body)[2..] == body;
  }

  lemma ParseFieldText(f: Field)
    requires PlainField(f)
    ensures ParseField(FieldText(f)) == Some(f)
  {
    var body := FieldText(f);
    match f
    case NoField =>
    case IntField(n) =>
      assert body[1..|body| - 1] == n;
    case RealField(w, d) =>
      var inner := body[1..|body| - 1];
      assert inner == w + "." + d;
      assert inner[|w|] == '.';
      var k := IndexOf(inner, '.');
      assert k == |w|;
      assert inner[..|w|] == w;
      assert inner[|w| + 1..] == d;
  }

  /**
   * The conversion records the options faithfully: when the length and
   * decimal options are digit strings, it starts with '%' and reading it
   * back gives the sign policy and the field it was built from.
   */
  lemma TemplateEncodesOptions(o: Options)
    requires IsDigits(o.coordLength) && IsDigits(o.decLength)
    ensures CoordTemplate(o)[0] == '%'
    ensures ParseCoordTemplate(CoordTemplate(o)) == Some((SignOf(o.signType), FieldOf(o)))
  {
    var s, f := SignOf(o.signType), FieldOf(o);
    var body := FieldText(f);
    var t := CoordTemplate(o);
    assert t == "%" + (SignText(s) + body);
    assert t[1..] == SignText(s) + body;
    assert PlainField(f);
    assert body == [] || body[0] == '0' || body[0] == '.' by {
      match f
      case NoField =>
      case RealField(w, d) =>
      case IntField(n) =>
    }
    ParseSignText(s, body);
    ParseFieldText(f);
    assert ParseSign(t[1..]) == (s, body);
  }

  lemma EqualNForce(s: string)
    ensures EqualN(s, "force", 4) <==> |s| >= 4 && Lower(s[..4]) == "forc"
  {
    if EqualN(s, "force", 4) {
      assert ToLower(CharAt(s, 0)) == 'f' && ToLower(CharAt(s, 1)) == 'o';
      assert ToLower(CharAt(s, 2)) == 'r' && ToLower(CharAt(s, 3)) == 'c';
    }
    if |s| >= 4 && Lower(s[..4]) == "forc" {
      assert Lower(s[..4])[0] == ToLower(s[0]);
      assert Lower(s[..4])[1] == ToLower(s[1]);
      assert Lower(s[..4])[2] == ToLower(s[2]);
      assert Lower(s[..4])[3] == ToLower(s[3]);
    }
  }

  /**
   * The sign policy: "geo" in any case selects the hemisphere letter and
   * takes precedence; otherwise the sign is forced exactly when the first
   * four characters spell "forc" in any case ("forc", "FORCE", "forcible");
   * everything else is the standard sign.
   */
  lemma SignPolicy(s: string)
    ensures SignOf(s) == Geo <==> Lower(s) == "geo"
    ensures SignOf(s) == Force <==> Lower(s) != "geo" && |s| >= 4 && Lower(s[..4]) == "forc"
  {
    LowerOfLowerCase("geo");
    EqualNForce(s);
  }

  /**
   * With the override empty, the template holds the same conversion twice,
   * with prefix, separator and suffix verbatim around it; with the override
   * set, the template is the override whatever the other options are.
   */
  lemma OverrideTakesPrecedence(o: Options, o': Options)
    requires o.printf == o'.printf
    ensures UsesOverride(o) <==> o.printf != []
    ensures UsesOverride(o) ==> MainTemplate(o) == MainTemplate(o') == o.printf
    ensures !UsesOverride(o) ==>
      MainTemplate(o) == o.prefix + CoordTemplate(o) + o.sep + CoordTemplate(o) + o.suffix
  {
    EqualEmpty(o.printf);
  }

  /** The arguments handed to the printf engine, in order. */
  datatype Arg = Chr(c: char) | Int(i: int) | Dbl(d: real)

  /**
   * The integer arguments as written: iCoord0 and iCoord1 start at 0 and are
   * only assigned in the template block's integer branch, so a raw template
   * receives 0 for both.
   */
  function IntArgsAsWritten(o: Options, c0: int, c1: int): (int, int)
    requires TruncationRuns(o) ==> c0 >= 1 && c1 >= 1
  {
    if TruncationRuns(o) then TruncateCoords(c0, c1, o.coordLength) else (0, 0)
  }

  /**
   * The integer arguments as intended: the truncated coordinates when the
   * template is built from the options, the coordinates themselves (the
   * (int) cast) otherwise.
   */
  function IntArgs(o: Options, c0: int, c1: int): (int, int)
    requires TruncationRuns(o) ==> c0 >= 1 && c1 >= 1
  {
    if TruncationRuns(o) then TruncateCoords(c0, c1, o.coordLength) else (c0, c1)
  }

  /**
   * As written, a raw template receives 0 for both integer arguments,
   * whatever the coordinates.
   */
  lemma OverrideZeroesIntegerArgs(o: Options, c0: int, c1: int)
    requires UsesOverride(o)
    ensures IntArgsAsWritten(o, c0, c1) == (0, 0)
  {
  }

  /**
   * As intended, a raw template receives the coordinates, so different
   * coordinates give different arguments.
   */
  lemma OverrideArgsDistinguishTiles(o: Options, c0: int, c1: int, d0: int, d1: int)
    requires UsesOverride(o)
    requires (c0, c1) != (d0, d1)
    ensures IntArgs(o, c0, c1) != IntArgs(o, d0, d1)
    ensures !IsRealType(o) ==> IntArgs(o, c0, c1) == (c0, c1)
  {
  }

  /**
   * The argument list for a given pair of integer coordinates: real
   * coordinates as doubles, integer ones as ints, each preceded by its
   * hemisphere letter under the "geo" policy.
   */
  function ArgList(o: Options, hemi0: char, c0: int, hemi1: char, c1: int, ints: (int, int)): (args: seq<Arg>)
    ensures |args| == if Equal(o.signType, "geo") then 4 else 2
    ensures Equal(o.signType, "geo") ==> args[0] == Chr(hemi0) && args[2] == Chr(hemi1)
    ensures var k := if Equal(o.signType, "geo") then 1 else 0;
            && args[k] == (if IsRealType(o) then Dbl(c0 as real) else Int(ints.0))
            && args[|args| - 1] == (if IsRealType(o) then Dbl(c1 as real) else Int(ints.1))
  {
    var (x0, x1) :=
      if IsRealType(o) then (Dbl(c0 as real), Dbl(c1 as real))
      else (Int(ints.0), Int(ints.1));
    if Equal(o.signType, "geo") then [Chr(hemi0), x0, Chr(hemi1), x1] else [x0, x1]
  }

  /**
   * Lines 403-416 as written: the integer arguments are iCoord0 and iCoord1,
   * which a raw template leaves at 0.
   */
  function PrintfArgs(o: Options, hemi0: char, c0: int, hemi1: char, c1: int): (args: seq<Arg>)
    requires TruncationRuns(o) ==> c0 >= 1 && c1 >= 1
    ensures |args| == if Equal(o.signType, "geo") then 4 else 2
    ensures UsesOverride(o) && !IsRealType(o) ==>
      forall i :: 0 <= i < |args| && args[i].Int? ==> args[i].i == 0
  {
    ArgList(o, hemi0, c0, hemi1, c1, IntArgsAsWritten(o, c0, c1))
  }

  /** Lines 403-416 as intended: a raw template receives the coordinates. */
  function IntendedPrintfArgs(o: Options, hemi0: char, c0: int, hemi1: char, c1: int): (args: seq<Arg>)
    requires TruncationRuns(o) ==> c0 >= 1 && c1 >= 1
    ensures |args| == if Equal(o.signType, "geo") then 4 else 2
    ensures UsesOverride(o) && !IsRealType(o) ==> Int(c0) in args && Int(c1) in args
  {
    ArgList(o, hemi0, c0, hemi1, c1, IntArgs(o, c0, c1))
  }

  /**
   * As written, a raw template in integer mode gets the same arguments for
   * every pair of coordinates, and every integer among them is 0.
   */
  lemma OverridePrintfArgsIgnoreCoords(o: Options, hemi0: char, hemi1: char, c0: int, c1: int, d0: int, d1: int)
    requires UsesOverride(o) && !IsRealType(o)
    ensures PrintfArgs(o, hemi0, c0, hemi1, c1) == PrintfArgs(o, hemi0, d0, hemi1, d1)
    ensures forall i :: 0 <= i < |PrintfArgs(o, hemi0, c0, hemi1, c1)| && PrintfArgs(o, hemi0, c0, hemi1, c1)[i].Int? ==>
      PrintfArgs(o, hemi0, c0, hemi1, c1)[i].i == 0
  {
    OverrideZeroesIntegerArgs(o, c0, c1);
    OverrideZeroesIntegerArgs(o, d0, d1);
  }

  /**
   * The usage text's own raw template: rasters at eastings 621000 and 622000
   * get the same argument list, two zeros.
   */
  lemma UsageExampleTilesCollide()
    ensures var o := Defaults().(printf := "Tiles_%.4d-%.4d_Lambert93");
            && PrintfArgs(o, 'E', 621000, 'N', 6840000) == [Int(0), Int(0)]
            && PrintfArgs(o, 'E', 622000, 'N', 6840000) == PrintfArgs(o, 'E', 621000, 'N', 6840000)
  {
    var o := Defaults().(printf := "Tiles_%.4d-%.4d_Lambert93");
    EqualEmpty(o.printf);
    assert !Equal(o.signType, "geo") by {
      LowerOfLowerCase("std");
      LowerOfLowerCase("geo");
    }
    assert !IsRealType(o) by {
      EqualEmpty("real");
    }
  }

  /**
   * As intended, a raw template in integer mode gives different argument
   * lists for different coordinates.
   */
  lemma IntendedPrintfArgsDistinguishTiles(o: Options, hemi0: char, hemi1: char, c0: int, c1: int, d0: int, d1: int)
    requires UsesOverride(o) && !IsRealType(o)
    requires (c0, c1) != (d0, d1)
    ensures IntendedPrintfArgs(o, hemi0, c0, hemi1, c1) != IntendedPrintfArgs(o, hemi0, d0, hemi1, d1)
  {
    var a, b := IntendedPrintfArgs(o, hemi0, c0, hemi1, c1), IntendedPrintfArgs(o, hemi0, d0, hemi1, d1);
    var k := if Equal(o.signType, "geo") then 1 else 0;
    if c0 != d0 {
      assert a[k] != b[k];
    } else {
      assert a[|a| - 1] != b[|b| - 1];
    }
  }

  /** The defect is confined to raw templates in integer mode: elsewhere both lists agree. */
  lemma PrintfArgsAgreeOutsideOverride(o: Options, hemi0: char, c0: int, hemi1: char, c1: int)
    requires TruncationRuns(o) ==> c0 >= 1 && c1 >= 1
    requires !UsesOverride(o) || IsRealType(o)
    ensures PrintfArgs(o, hemi0, c0, hemi1, c1) == IntendedPrintfArgs(o, hemi0, c0, hemi1, c1)
  {
  }

  /** One '%' in a conversion, two under "geo", when the option strings carry none. */
  lemma CoordTemplatePercents(o: Options)
    requires '%' !in o.coordLength && '%' !in o.decLength
    ensures Count(CoordTemplate(o), '%') == if SignOf(o.signType) == Geo then 2 else 1
  {
    var s := SignText(SignOf(o.signType));
    var f := FieldText(FieldOf(o));
    CountAppend("%" + s, f, '%');
    CountAppend("%", s, '%');
    assert Count("%", '%') == 1;
    assert Count(s, '%') == (if SignOf(o.signType) == Geo then 1 else 0) by {
      assert Count("c%", '%') == 1 && Count("+", '%') == 0 && Count("", '%') == 0;
    }
    assert Count(f, '%') == 0 by {
      CountAbsent(o.coordLength, '%');
      CountAbsent(o.decLength, '%');
      match FieldOf(o)
      case NoField =>
      case IntField(n) =>
        CountAppend("." + n, "d", '%');
        CountAppend(".", n, '%');
      case RealField(w, d) =>
        CountAppend("0" + w + "." + d, "f", '%');
        CountAppend("0" + w + ".", d, '%');
        CountAppend("0" + w, ".", '%');
        CountAppend("0", w, '%');
    }
  }

  /**
   * A template built from the options has one '%' per argument when the
   * option strings carry none themselves: two conversions, each preceded by
   * a %c under the "geo" policy.
   */
  lemma TemplateArityMatchesArgs(o: Options, hemi0: char, c0: int, hemi1: char, c1: int)
    requires !UsesOverride(o)
    requires TruncationRuns(o) ==> c0 >= 1 && c1 >= 1
    requires '%' !in o.prefix && '%' !in o.sep && '%' !in o.suffix
    requires '%' !in o.coordLength && '%' !in o.decLength
    ensures Count(MainTemplate(o), '%') == |PrintfArgs(o, hemi0, c0, hemi1, c1)|
  {
    var t := CoordTemplate(o);
    CoordTemplatePercents(o);
    CountAbsent(o.prefix, '%');
    CountAbsent(o.sep, '%');
    CountAbsent(o.suffix, '%');
    CountAppend(o.prefix + t + o.sep + t, o.suffix, '%');
    CountAppend(o.prefix + t + o.sep, t, '%');
    CountAppend(o.prefix + t, o.sep, '%');
    CountAppend(o.prefix, t, '%');
    assert SignOf(o.signType) == Geo <==> Equal(o.signType, "geo");
  }

  lemma {:induction false} CountAbsent(s: string, c: char)
    requires c !in s
    ensures Count(s, c) == 0
  {
    if s != [] {
      assert s[0] in s;
      assert forall x :: x in s[1..] ==> x in s;
      CountAbsent(s[1..], c);
    }
  }

  lemma AppendThree(x: string, a: string, b: string, c: string)
    ensures x + a + b + c == x + (a + b + c)
  {
  }

  lemma AppendFive(x: string, a: string, b: string, c: string, d: string, e: string)
    ensures x + a + b + c + d + e == x + (a + b + c + d + e)
  {
  }

  /**
   * Lines 379-390 as written: the (int) casts, then the division of both by
   * the same power of ten when the coordinates have too many digits.
   */
  method TruncateIntCoords(coord0: int, coord1: int, coordLength: string) returns (iCoord0: int, iCoord1: int)
    requires coord0 >= 1 && coord1 >= 1
    ensures (iCoord0, iCoord1) == TruncateCoords(coord0, coord1, coordLength)
  {
    var baseDigits := Max(NDigits(coord0), NDigits(coord1));
    var formatDigits := Atoi(coordLength);
    iCoord0, iCoord1 := coord0, coord1;
    if baseDigits > formatDigits {
      var e := baseDigits - formatDigits;
      iCoord0 := coord0 / Pow10(e);
      iCoord1 := coord1 / Pow10(e);
    }
  }

  /**
   * Lines 341-396 as written: grow the coordinate conversion step by step,
   * cut the integer coordinates down when they have too many digits, and
   * assemble the template, unless a raw template is given.
   */
  method BuildTemplate(o: Options, coord0: int, coord1: int) returns (mainTpl: string, iCoord0: int, iCoord1: int)
    requires TruncationRuns(o) ==> coord0 >= 1 && coord1 >= 1
    ensures mainTpl == MainTemplate(o)
    ensures (iCoord0, iCoord1) == IntArgsAsWritten(o, coord0, coord1)
  {
    iCoord0, iCoord1 := 0, 0;
    if Equal(o.printf, "") {
      var coordTpl := "%";
      if Equal(o.signType, "geo") {
        coordTpl := coordTpl + "c%";
      } else if EqualN(o.signType, "force", 4) {
        coordTpl := coordTpl + "+";
      }
      ghost var signTpl := coordTpl;
      assert signTpl == "%" + SignText(SignOf(o.signType));
      if Equal(o.coordType, "real") {
        if o.padding {
          coordTpl := coordTpl + "0" + o.coordLength + "." + o.decLength + "f";
          AppendFive(signTpl, "0", o.coordLength, ".", o.decLength, "f");
        }
      } else {
        if o.padding {
          coordTpl := coordTpl + "." + o.coordLength + "d";
          AppendThree(signTpl, ".", o.coordLength, "d");
        }
        iCoord0, iCoord1 := TruncateIntCoords(coord0, coord1, o.coordLength);
      }
      assert coordTpl == CoordTemplate(o);
      mainTpl := o.prefix + coordTpl + o.sep + coordTpl + o.suffix;
    } else {
      mainTpl := o.printf;
    }
  }

  /** The name the printf engine leaves in the 256-byte buffer: at most 255 characters of its output. */
  function NameFromBuffer(printed: string): (name: string)
    ensures |name| <= 255 && |name| <= |printed|
    ensures name == printed[..|name|]
    ensures |printed| <= 255 ==> name == printed
  {
    if |printed| <= 255 then printed else printed[..255]
  }
}
