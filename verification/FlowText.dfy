/** The text form of a flow: its printer, and the tokens of the scanner. */
module FlowText {
  import opened FlowTypes

  // ---------------------------------------------------------------------------
  // Digits

  predicate IsDigit(c: char) {
    '0' <= c <= '9'
  }

  function DigitOf(d: nat): (c: char)
    requires d < 10
    ensures IsDigit(c) && DigitValue(c) == d
  {
    ('0' as int + d) as char
  }

  function DigitValue(c: char): (d: nat)
    requires IsDigit(c)
    ensures d < 10
  {
    c as int - '0' as int
  }

  predicate AllDigits(s: string) {
    forall i :: 0 <= i < |s| ==> IsDigit(s[i])
  }

  function Decimal(s: string): nat
    requires AllDigits(s)
  {
    if |s| == 0 then 0 else Decimal(s[..|s| - 1]) * 10 + DigitValue(s[|s| - 1])
  }

  function Exp10(k: nat): (p: nat)
    ensures p >= 1
  {
    if k == 0 then 1 else 10 * Exp10(k - 1)
  }

  // ---------------------------------------------------------------------------
  // The printer

  function PrintNat(n: nat): (s: string)
    ensures AllDigits(s) && |s| > 0
  {
    if n < 10 then [DigitOf(n)] else PrintNat(n / 10) + [DigitOf(n % 10)]
  }

  function PrintInt(n: int): string {
    if n < 0 then "-" + PrintNat(-n) else PrintNat(n)
  }

  /** The last k digits of n. */
  function PrintPadded(n: nat, k: nat): (s: string)
    ensures AllDigits(s) && |s| == k
  {
    if k == 0 then "" else PrintPadded(n / 10, k - 1) + [DigitOf(n % 10)]
  }

  const MILLION: nat := 1000000

  /** A non-negative number in millionths, rounded to nearest, ties to even. */
  function Micro(p: real): (m: nat)
    requires p >= 0.0
  {
    var t := p * MILLION as real;
    var f := t.Floor;
    var rest := t - f as real;
    if rest < 0.5 || (rest == 0.5 && f % 2 == 0) then f else f + 1
  }

  function PrintFixed(m: nat): string {
    PrintNat(m / MILLION) + "." + PrintPadded(m % MILLION, 6)
  }

  /** The format %f. */
  function PrintProba(p: real): string {
    if p < 0.0 then "-" + PrintFixed(Micro(-p)) else PrintFixed(Micro(p))
  }

  function Fields(b: Tfl): (ns: seq<int>)
    ensures |ns| == 7
  {
    [b.kind, b.id, b.oid, b.own, b.qttRequ, b.qttProv, b.qtt]
  }

  function PrintFields(ns: seq<int>): string {
    if |ns| == 0 then "" else PrintInt(ns[0]) + ", " + PrintFields(ns[1..])
  }

  function PrintNode(b: Tfl): string {
    "(" + PrintFields(Fields(b)) + PrintProba(b.proba) + ")"
  }

  function PrintNodes(x: seq<Tfl>): string {
    if |x| == 0 then "" else PrintNodes(x[..|x| - 1]) + (if |x| == 1 then "" else ",") + PrintNode(x[|x| - 1])
  }

  function Print(x: seq<Tfl>): string {
    "[" + PrintNodes(x) + "]"
  }

  lemma OneDigit(n: nat)
    requires n < 10
    ensures PrintInt(n) == [DigitOf(n)]
  {}

  /** The first digit is printed first. */
  lemma ManyDigits()
    ensures PrintInt(35) == "35" && PrintInt(-1) == "-1"
  {
    assert PrintNat(35) == PrintNat(3) + [DigitOf(5)];
  }

  lemma PaddedStep(n: nat, k: nat)
    requires k > 0
    ensures PrintPadded(n, k) == PrintPadded(n / 10, k - 1) + [DigitOf(n % 10)]
  {}

  lemma QuarterDigits()
    ensures PrintPadded(250000, 6) == "250000"
  {
    PaddedStep(250000, 6);
    PaddedStep(25000, 5);
    PaddedStep(2500, 4);
    PaddedStep(250, 3);
    PaddedStep(25, 2);
    PaddedStep(2, 1);
    EmptyPadded();
    hide PrintPadded;
    assert PrintPadded(2, 1) == PrintPadded(0, 0) + "2";
  }

  lemma QuarterAsText()
    ensures PrintProba(0.25) == "0.250000"
  {
    hide PrintPadded;
    QuarterDigits();
    assert Micro(0.25) == 250000;
    assert PrintNat(0) == "0";
  }

  lemma EmptyPadded()
    ensures PrintPadded(0, 0) == ""
  {}

  lemma FieldsFrom(ns: seq<int>, i: nat, t: string)
    requires i < |ns| && PrintInt(ns[i]) == t
    ensures PrintFields(ns[i..]) == t + ", " + PrintFields(ns[i + 1..])
  {
    hide PrintInt;
    assert ns[i..][1..] == ns[i + 1..];
  }

  lemma NoFields()
    ensures PrintFields([]) == ""
  {}

  /** The text of a node: its type, id, stock and owner, what it requires and provides,
      what remains, and its probability. */
  lemma NodeText(b: Tfl)
    ensures PrintNode(b) == "(" + (PrintInt(b.kind) + ", " + (PrintInt(b.id) + ", " + (PrintInt(b.oid) + ", "
                            + (PrintInt(b.own) + ", " + (PrintInt(b.qttRequ) + ", " + (PrintInt(b.qttProv) + ", "
                            + (PrintInt(b.qtt) + ", "))))))) + PrintProba(b.proba) + ")"
  {
    var ns := Fields(b);
    hide PrintInt, PrintProba;
    FieldsFrom(ns, 6, PrintInt(b.qtt));
    FieldsFrom(ns, 5, PrintInt(b.qttProv));
    FieldsFrom(ns, 4, PrintInt(b.qttRequ));
    FieldsFrom(ns, 3, PrintInt(b.own));
    FieldsFrom(ns, 2, PrintInt(b.oid));
    FieldsFrom(ns, 1, PrintInt(b.id));
    FieldsFrom(ns, 0, PrintInt(b.kind));
    NoFields();
    assert ns[7..] == [] && ns[0..] == ns;
    hide PrintFields;
    assert PrintInt(b.qtt) + ", " + "" == PrintInt(b.qtt) + ", ";
  }

  /** The text of two nodes. */
  lemma FlowAsText(a: Tfl, b: Tfl)
    ensures Print([a, b]) == "[" + PrintNode(a) + "," + PrintNode(b) + "]" && Print([]) == "[]"
  {
    hide PrintNode;
    assert [a, b][..1] == [a] && [a][..0] == [];
    assert PrintNodes([a]) == PrintNode(a);
  }

  /** The number printed for a probability is the nearest one of six decimals. */
  lemma PrintedNearest(p: real)
    requires p >= 0.0
    ensures -0.5 <= Micro(p) as real - p * 1000000.0 <= 0.5
    ensures Micro(p) as real - p * 1000000.0 in {-0.5, 0.5} ==> Micro(p) % 2 == 0
  {}

  /** The loop of the printer. */
  method NdboxToStr(x: seq<Tfl>) returns (buf: string)
    ensures buf == Print(x)
  {
    hide PrintNode;
    buf := "[";
    var i := 0;
    while i < |x|
      invariant 0 <= i <= |x| && buf == "[" + PrintNodes(x[..i])
    {
      assert x[..i + 1][..i] == x[..i];
      if i != 0 { buf := buf + ","; }
      buf := buf + PrintNode(x[i]);
      i := i + 1;
    }
    assert x[..i] == x;
    buf := buf + "]";
  }

  // ---------------------------------------------------------------------------
  // The scanner

  /** What atoll returns for digits. */
  type ScannedInt = n: int | 0 <= n <= INT64_MAX

  datatype Token =
    | Number(dval: real)
    | FlowInt(val: ScannedInt)
    | OBracket
    | CBracket
    | OParen
    | CParen
    | Comma
    | Garbage(c: char)

  predicate IsSpace(c: char) {
    c in " \t\n\r\U{000c}"
  }

  /** The token of one character. */
  function Single(c: char): Token {
    if c == '[' then OBracket
    else if c == ']' then CBracket
    else if c == '(' then OParen
    else if c == ')' then CParen
    else if c == ',' then Comma
    else Garbage(c)
  }

  /** The number of digits at the beginning. */
  function DigitRun(s: string): (d: nat)
    ensures d <= |s| && AllDigits(s[..d]) && (d < |s| ==> !IsDigit(s[d]))
  {
    if |s| == 0 || !IsDigit(s[0]) then 0 else 1 + DigitRun(s[1..])
  }

  predicate IsSign(c: char) {
    c == '-' || c == '+'
  }

  function SignLength(s: string): nat {
    if |s| > 1 && IsSign(s[1]) then 1 else 0
  }

  /** The length of an exponent at the beginning, 0 when there is none. */
  function ExponentLength(s: string): (k: nat)
    ensures k <= |s|
  {
    if |s| == 0 || (s[0] != 'e' && s[0] != 'E') then 0
    else
      var k := 1 + SignLength(s);
      var d := DigitRun(s[k..]);
      if d == 0 then 0 else k + d
  }

  /** Where the fraction of a number ends, 0 when no number begins here. */
  function FractionEnd(s: string): (n: nat)
    ensures n <= |s| && (n > 0 ==> DigitRun(s) + 1 < n && AllDigits(s[DigitRun(s) + 1..n]))
    ensures n > 0 ==> s[DigitRun(s)] == '.' && (n < |s| ==> !IsDigit(s[n]))
  {
    var d := DigitRun(s);
    if d == |s| || s[d] != '.' || DigitRun(s[d + 1..]) == 0 then 0
    else
      var f := DigitRun(s[d + 1..]);
      assert s[d + 1..][..f] == s[d + 1..d + 1 + f];
      d + 1 + f
  }

  /** The length of the number that begins here, 0 when there is none. */
  function NumberLength(s: string): (n: nat)
    ensures n <= |s|
  {
    var e := FractionEnd(s);
    if e == 0 then 0 else e + ExponentLength(s[e..])
  }

  /** The value of a literal with an exponent. */
  function ScaledValue(mantissa: real, exponent: string): real {
    if ExponentLength(exponent) == 0 then mantissa
    else
      var k := 1 + SignLength(exponent);
      var p := Exp10(Decimal(exponent[k..][..DigitRun(exponent[k..])])) as real;
      if exponent[1] == '-' then mantissa / p else mantissa * p
  }

  /** The value of the number that begins here. */
  function NumberValue(s: string): real
    requires NumberLength(s) > 0
  {
    var d, e := DigitRun(s), FractionEnd(s);
    ScaledValue(Decimal(s[..d] + s[d + 1..e]) as real / Exp10(e - d - 1) as real, s[e..])
  }

  /** atoll, which stops at the largest int64. */
  function Saturated(n: nat): ScannedInt {
    if n <= INT64_MAX then n else INT64_MAX
  }

  function Scan(s: string): seq<Token>
    decreases |s|
  {
    if |s| == 0 then []
    else if IsSpace(s[0]) then Scan(s[1..])
    else if NumberLength(s) > 0 then [Number(NumberValue(s))] + Scan(s[NumberLength(s)..])
    else if DigitRun(s) > 0 then [FlowInt(Saturated(Decimal(s[..DigitRun(s)])))] + Scan(s[DigitRun(s)..])
    else [Single(s[0])] + Scan(s[1..])
  }

  // ---------------------------------------------------------------------------
  // The scanner takes the longest number

  /** [eE][-+]?[0-9]+ */
  predicate ExponentLiteral(t: string) {
    && |t| >= 2
    && (t[0] == 'e' || t[0] == 'E')
    && |t| > 1 + SignLength(t)
    && AllDigits(t[1 + SignLength(t)..])
  }

  /** [0-9]*\.[0-9]+ with the point at d and the fraction up to e, and an exponent. */
  predicate NumberSplit(t: string, d: nat, e: nat) {
    && d + 1 < e <= |t|
    && AllDigits(t[..d]) && t[d] == '.' && AllDigits(t[d + 1..e])
    && (e == |t| || ExponentLiteral(t[e..]))
  }

  ghost predicate NumberLiteral(t: string) {
    exists d: nat, e: nat :: NumberSplit(t, d, e)
  }

  lemma {:induction false} DigitRunOf(ds: string, rest: string)
    requires AllDigits(ds) && (|rest| > 0 ==> !IsDigit(rest[0]))
    ensures DigitRun(ds + rest) == |ds|
  {
    if |ds| == 0 {
      assert ds + rest == rest;
    } else {
      assert (ds + rest)[1..] == ds[1..] + rest;
      DigitRunOf(ds[1..], rest);
    }
  }

  lemma {:induction false} DigitRunLongest(s: string, n: nat)
    requires n <= |s| && AllDigits(s[..n])
    ensures n <= DigitRun(s)
  {
    if n > 0 {
      assert s[0] == s[..n][0];
      assert s[1..][..n - 1] == s[..n][1..];
      DigitRunLongest(s[1..], n - 1);
    }
  }

  lemma LongestExponent(s: string, n: nat)
    requires n <= |s| && ExponentLiteral(s[..n])
    ensures n <= ExponentLength(s)
  {
    var t := s[..n];
    var k := 1 + SignLength(t);
    assert t[1] == s[1] && SignLength(s) == SignLength(t);
    assert s[k..][..n - k] == t[k..];
    DigitRunLongest(s[k..], n - k);
  }

  /** No longer beginning of the text is a number. */
  lemma LongestNumber(s: string, n: nat)
    requires n <= |s| && NumberLiteral(s[..n])
    ensures n <= NumberLength(s)
  {
    var t := s[..n];
    var d: nat, e: nat :| NumberSplit(t, d, e);
    hide AllDigits, IsDigit, DigitRun, ExponentLiteral, FractionEnd;
    FractionReaches(s, n, d, e);
    if e < n {
      assert s[e..][..n - e] == t[e..];
      LongestExponent(s[e..], n - e);
    }
  }

  lemma Slices(s: string, n: nat, i: nat, j: nat)
    requires i <= j <= n <= |s|
    ensures s[..n][i..j] == s[i..j] == s[i..][..j - i]
  {}

  /** The fraction found ends at least where it does in the literal, and exactly
      there before an exponent. */
  lemma FractionReaches(s: string, n: nat, d: nat, e: nat)
    requires n <= |s| && NumberSplit(s[..n], d, e)
    ensures e <= FractionEnd(s) && (e < n ==> FractionEnd(s) == e)
  {
    var t := s[..n];
    assert s[..d] == t[..d] && s[d] == t[d];
    DigitRunAt(s, d);
    hide DigitRun;
    Slices(s, n, d + 1, e);
    DigitRunLongest(s[d + 1..], e - d - 1);
    if e < n {
      assert s[d + 1..][e - d - 1] == s[e] == t[e..][0];
      DigitRunAt(s[d + 1..], e - d - 1);
    }
  }

  lemma DigitRunAt(s: string, d: nat)
    requires d < |s| && AllDigits(s[..d]) && !IsDigit(s[d])
    ensures DigitRun(s) == d
  {
    assert s == s[..d] + s[d..];
    DigitRunOf(s[..d], s[d..]);
  }

  lemma ExponentLengthIsLiteral(u: string)
    requires ExponentLength(u) > 0
    ensures ExponentLiteral(u[..ExponentLength(u)])
  {
    var k := 1 + SignLength(u);
    var t := u[..ExponentLength(u)];
    assert t[k..] == u[k..][..DigitRun(u[k..])];
    assert SignLength(t) == SignLength(u);
  }

  /** What the scanner takes for a number is one. */
  lemma NumberLengthIsLiteral(s: string)
    requires NumberLength(s) > 0
    ensures NumberLiteral(s[..NumberLength(s)])
  {
    hide IsDigit, ExponentLiteral, ExponentLength, FractionEnd, DigitRun;
    var n, d, e := NumberLength(s), DigitRun(s), FractionEnd(s);
    var t := s[..n];
    assert t[..d] == s[..d] && t[d + 1..e] == s[d + 1..e];
    if e < n {
      ExponentLengthIsLiteral(s[e..]);
      assert t[e..] == s[e..][..n - e];
    }
    assert NumberSplit(t, d, e);
  }

  // ---------------------------------------------------------------------------
  // Scanning what was printed

  lemma {:induction false} DecimalOfNat(n: nat)
    ensures Decimal(PrintNat(n)) == n
  {
    if n >= 10 {
      DecimalSnoc(PrintNat(n / 10), n % 10);
      DecimalOfNat(n / 10);
    }
  }

  lemma {:induction false} DecimalOfPadded(a: string, n: nat, k: nat)
    requires AllDigits(a)
    ensures Decimal(a + PrintPadded(n, k)) == Decimal(a) * Exp10(k) + n % Exp10(k)
  {
    if k == 0 {
      assert a + PrintPadded(n, k) == a;
    } else {
      var s := a + PrintPadded(n / 10, k - 1);
      assert a + PrintPadded(n, k) == s + [DigitOf(n % 10)];
      hide PrintPadded, Decimal, DigitValue;
      DecimalSnoc(s, n % 10);
      DecimalOfPadded(a, n / 10, k - 1);
      LastDigit(n, Exp10(k - 1));
      ShiftDigit(Decimal(a), Exp10(k - 1), (n / 10) % Exp10(k - 1), n % 10);
    }
  }

  lemma DecimalSnoc(s: string, d: nat)
    requires AllDigits(s) && d < 10
    ensures Decimal(s + [DigitOf(d)]) == Decimal(s) * 10 + d
  {
    assert (s + [DigitOf(d)])[..|s|] == s;
  }

  lemma ShiftDigit(a: nat, p: nat, m: nat, d: nat)
    ensures (a * p + m) * 10 + d == a * (10 * p) + (m * 10 + d)
  {}

  lemma LastDigit(n: nat, p: nat)
    requires p >= 1
    ensures n % (10 * p) == (n / 10) % p * 10 + n % 10
  {
    var a, r := n / 10 / p, (n / 10) % p;
    assert n / 10 == a * p + r;
    assert n == a * (10 * p) + (r * 10 + n % 10);
    RemainderIs(n, 10 * p, a, r * 10 + n % 10);
  }

  lemma RemainderIs(n: nat, m: nat, q: nat, r: nat)
    requires m >= 1 && r < m && n == q * m + r
    ensures n % m == r
  {
    hide *;
    SameQuotient(n / m, n % m, m, q, r);
  }

  lemma SameQuotient(q1: nat, r1: nat, m: nat, q: nat, r: nat)
    requires r1 < m && r < m && q1 * m + r1 == q * m + r
    ensures q1 == q && r1 == r
  {
    if q < q1 { AtLeastOnce(q1 - q, m); } else if q1 < q { AtLeastOnce(q - q1, m); }
  }

  lemma AtLeastOnce(k: nat, m: nat)
    requires k >= 1
    ensures k * m >= m
  {}

  function IntTokens(n: int): seq<Token> {
    if n < 0 then [Garbage('-'), FlowInt(Saturated(-n))] else [FlowInt(Saturated(n))]
  }

  function FieldTokens(ns: seq<int>): seq<Token> {
    if |ns| == 0 then [] else IntTokens(ns[0]) + [Comma] + FieldTokens(ns[1..])
  }

  /** The number read for a printed probability. */
  function ReadProba(p: real): real
    requires p >= 0.0
  {
    Micro(p) as real / MILLION as real
  }

  function ProbaTokens(p: real): seq<Token> {
    if p < 0.0 then [Garbage('-'), Number(ReadProba(-p))] else [Number(ReadProba(p))]
  }

  function NodeTokens(b: Tfl): seq<Token> {
    [OParen] + FieldTokens(Fields(b)) + ProbaTokens(b.proba) + [CParen]
  }

  function NodesTokens(x: seq<Tfl>): seq<Token> {
    if |x| == 0 then []
    else NodesTokens(x[..|x| - 1]) + (if |x| == 1 then [] else [Comma]) + NodeTokens(x[|x| - 1])
  }

  lemma ScanSingle(c: char, rest: string)
    requires !IsSpace(c) && !IsDigit(c) && c != '.'
    ensures Scan([c] + rest) == [Single(c)] + Scan(rest)
  {
    var s := [c] + rest;
    assert s[1..] == rest;
    assert DigitRun(s) == 0;
  }

  lemma ScanDigits(ds: string, rest: string)
    requires AllDigits(ds) && |ds| > 0 && |rest| > 0 && !IsDigit(rest[0]) && rest[0] != '.'
    ensures Scan(ds + rest) == [FlowInt(Saturated(Decimal(ds)))] + Scan(rest)
  {
    var s := ds + rest;
    DigitRunOf(ds, rest);
    assert s[..|ds|] == ds && s[|ds|..] == rest;
    assert s[0] == ds[0] && IsDigit(s[0]);
    assert s[|ds|] == rest[0];
    assert FractionEnd(s) == 0;
  }

  lemma ScanPoint(ds: string, fs: string, rest: string)
    requires AllDigits(ds) && AllDigits(fs) && |fs| > 0 && |ds| > 0
    requires |rest| > 0 && !IsDigit(rest[0]) && rest[0] != 'e' && rest[0] != 'E'
    ensures Scan(ds + "." + fs + rest) ==
            [Number(Decimal(ds + fs) as real / Exp10(|fs|) as real)] + Scan(rest)
  {
    var s := ds + "." + fs + rest;
    var e := |ds| + 1 + |fs|;
    assert s[0] == ds[0] && IsDigit(s[0]);
    hide Scan, Decimal, DigitRun;
    PointSplit(ds, fs, rest);
    assert s[e..] == rest;
    ScanNumber(s);
  }

  lemma PointSplit(ds: string, fs: string, rest: string)
    requires AllDigits(ds) && AllDigits(fs) && |fs| > 0 && |ds| > 0
    requires |rest| > 0 && !IsDigit(rest[0]) && rest[0] != 'e' && rest[0] != 'E'
    ensures var s := ds + "." + fs + rest;
            && NumberLength(s) == |ds| + 1 + |fs|
            && NumberValue(s) == Decimal(ds + fs) as real / Exp10(|fs|) as real
  {
    hide Decimal, Exp10, FractionEnd, DigitRun;
    var s := ds + "." + fs + rest;
    var e := |ds| + 1 + |fs|;
    FractionEnds(ds, fs, rest);
    assert s[e..] == rest && s[..|ds|] == ds && s[|ds| + 1..e] == fs;
  }

  lemma FractionEnds(ds: string, fs: string, rest: string)
    requires AllDigits(ds) && AllDigits(fs) && |fs| > 0
    requires |rest| > 0 && !IsDigit(rest[0])
    ensures var s := ds + "." + fs + rest;
            DigitRun(s) == |ds| && FractionEnd(s) == |ds| + 1 + |fs|
  {
    var s := ds + "." + fs + rest;
    assert s == ds + ("." + fs + rest);
    DigitRunOf(ds, "." + fs + rest);
    DigitRunOf(fs, rest);
    hide DigitRun;
    assert s[|ds| + 1..] == fs + rest;
  }

  lemma ScanNumber(s: string)
    requires NumberLength(s) > 0 && !IsSpace(s[0])
    ensures Scan(s) == [Number(NumberValue(s))] + Scan(s[NumberLength(s)..])
  {}

  /** What an exponent literal says: its sign and its digits. */
  predicate Exponent(x: string, negative: bool, es: string) {
    && |es| > 0 && AllDigits(es)
    && if negative then x == "e-" + es || x == "E-" + es
       else x == "e" + es || x == "E" + es || x == "e+" + es || x == "E+" + es
  }

  lemma ExponentTaken(x: string, negative: bool, es: string, rest: string)
    requires Exponent(x, negative, es) && (|rest| > 0 ==> !IsDigit(rest[0]))
    ensures var y := x + rest;
            var k := 1 + SignLength(y);
            && |x| >= 2 && ExponentLength(y) == |x| && DigitRun(y[k..]) == |es| && y[k..][..|es|] == es
            && (y[1] == '-' <==> negative) && !IsDigit(x[0])
  {
    var y := x + rest;
    assert IsDigit(es[0]);
    var k := 1 + SignLength(y);
    assert y[k..] == es + rest;
    DigitRunOf(es, rest);
  }

  /** The text is digits, a point, digits, and the rest. */
  predicate Pointed(s: string, ds: string, fs: string, rest: string) {
    s == ds + "." + fs + rest
  }

  function MantissaOf(ds: string, fs: string): real
    requires AllDigits(ds) && AllDigits(fs)
  {
    Decimal(ds + fs) as real / Exp10(|fs|) as real
  }

  /** Multiplied or divided by a power of ten. */
  function TimesTen(m: real, negative: bool, k: nat): real {
    if negative then m / Exp10(k) as real else m * Exp10(k) as real
  }

  lemma Mantissa(s: string, ds: string, fs: string, rest: string)
    requires AllDigits(ds) && AllDigits(fs) && |fs| > 0 && |rest| > 0 && !IsDigit(rest[0]) && Pointed(s, ds, fs, rest)
    ensures NumberLength(s) == |ds| + 1 + |fs| + ExponentLength(rest)
    ensures NumberValue(s) == ScaledValue(MantissaOf(ds, fs), rest)
  {
    hide Decimal, Exp10, FractionEnd, DigitRun, ScaledValue, ExponentLength;
    var e := |ds| + 1 + |fs|;
    FractionEnds(ds, fs, rest);
    assert s[e..] == rest && s[..|ds|] == ds && s[|ds| + 1..e] == fs;
  }

  lemma PointedParts(s: string, ds: string, fs: string, x: string, rest: string)
    requires Pointed(s, ds, fs, x + rest) && AllDigits(ds)
    ensures |s| == |ds| + 1 + |fs| + |x| + |rest| && !IsSpace(s[0])
    ensures s[|ds| + 1 + |fs| + |x|..] == rest
  {
    assert s[0] == if |ds| > 0 then ds[0] else '.';
  }

  /** A number with an exponent, in any of its forms, is its mantissa multiplied or divided
      by a power of ten. */
  lemma ExponentScales(s: string, ds: string, fs: string, x: string, negative: bool, es: string, rest: string)
    requires AllDigits(ds) && AllDigits(fs) && |fs| > 0 && Exponent(x, negative, es)
    requires Pointed(s, ds, fs, x + rest) && (|rest| > 0 ==> !IsDigit(rest[0]))
    ensures Scan(s) == [Number(TimesTen(MantissaOf(ds, fs), negative, Decimal(es)))] + Scan(rest)
  {
    hide *;
    var y := x + rest;
    ExponentTaken(x, negative, es, rest);
    ScaledIs(MantissaOf(ds, fs), y, |x|, negative, es);
    Mantissa(s, ds, fs, y);
    PointedParts(s, ds, fs, x, rest);
    ScanNumber(s);
    assert s[NumberLength(s)..] == rest;
  }

  lemma ScaledIs(mantissa: real, y: string, n: nat, negative: bool, es: string)
    requires ExponentLength(y) == n > 0 && |y| >= 2 && (y[1] == '-' <==> negative) && AllDigits(es)
    requires var k := 1 + SignLength(y);
             DigitRun(y[k..]) == |es| && y[k..][..|es|] == es
    ensures ScaledValue(mantissa, y) == TimesTen(mantissa, negative, Decimal(es))
  {
    hide Decimal, Exp10, DigitRun, AllDigits;
  }

  /** Blanks, tabs, line feeds, form feeds and carriage returns are skipped. */
  lemma SpacesAreSkipped(c: char, rest: string)
    requires c as int in {9, 10, 12, 13, 32}
    ensures Scan([c] + rest) == Scan(rest)
  {
    assert ([c] + rest)[1..] == rest;
  }

  /** Digits alone are an integer, that stops at the largest int64. */
  lemma DigitsAreScanned(ds: string, rest: string)
    requires AllDigits(ds) && |ds| > 0 && |rest| > 0 && !IsDigit(rest[0]) && rest[0] != '.'
    ensures var n := Decimal(ds);
            Scan(ds + rest) == [FlowInt(if n < 0x8000_0000_0000_0000 then n else 0x7FFF_FFFF_FFFF_FFFF)] + Scan(rest)
  {
    hide Scan, Decimal, AllDigits, IsDigit;
    ScanDigits(ds, rest);
  }

  lemma ScanInt(n: int, rest: string)
    requires |rest| > 0 && rest[0] == ','
    ensures Scan(PrintInt(n) + rest) == IntTokens(n) + Scan(rest)
  {
    hide Scan, PrintNat, Decimal, Saturated, AllDigits, IsDigit;
    if n < 0 { ScanNegative(-n, rest); } else { ScanNat(n, rest); }
  }

  lemma ScanNegative(m: nat, rest: string)
    requires |rest| > 0 && rest[0] == ','
    ensures Scan("-" + PrintNat(m) + rest) == [Garbage('-'), FlowInt(Saturated(m))] + Scan(rest)
  {
    hide *;
    ScanMinus(PrintNat(m), rest);
    ScanNat(m, rest);
    TwoTokens(Garbage('-'), FlowInt(Saturated(m)), Scan(rest));
  }

  lemma TwoTokens(a: Token, b: Token, rest: seq<Token>)
    ensures [a] + ([b] + rest) == [a, b] + rest
  {}

  lemma ScanMinus(s: string, rest: string)
    ensures Scan("-" + s + rest) == [Garbage('-')] + Scan(s + rest)
  {
    hide Scan;
    assert "-" + s + rest == ['-'] + (s + rest);
    ScanSingle('-', s + rest);
  }

  lemma ScanNat(n: nat, rest: string)
    requires |rest| > 0 && rest[0] == ','
    ensures Scan(PrintNat(n) + rest) == [FlowInt(Saturated(n))] + Scan(rest)
  {
    hide Scan, PrintNat, Decimal;
    ScanDigits(PrintNat(n), rest);
    DecimalOfNat(n);
  }

  lemma ScanComma(rest: string)
    ensures Scan(", " + rest) == [Comma] + Scan(rest)
  {
    hide Scan;
    assert ", " + rest == [','] + ([' '] + rest);
    ScanSingle(',', [' '] + rest);
    ScanSpace(' ', rest);
  }

  lemma ScanSpace(c: char, rest: string)
    requires IsSpace(c)
    ensures Scan([c] + rest) == Scan(rest)
  {
    assert ([c] + rest)[1..] == rest;
  }

  lemma {:induction false} ScanFields(ns: seq<int>, rest: string)
    ensures Scan(PrintFields(ns) + rest) == FieldTokens(ns) + Scan(rest)
  {
    hide Scan, PrintInt, IntTokens;
    if |ns| == 0 {
      assert PrintFields(ns) + rest == rest;
    } else {
      var more := PrintFields(ns[1..]) + rest;
      assert PrintFields(ns) + rest == PrintInt(ns[0]) + (", " + more);
      ScanInt(ns[0], ", " + more);
      ScanComma(more);
      ScanFields(ns[1..], rest);
      assert IntTokens(ns[0]) + ([Comma] + (FieldTokens(ns[1..]) + Scan(rest))) == FieldTokens(ns) + Scan(rest);
    }
  }

  lemma ScanFixed(m: nat, rest: string)
    ensures Scan(PrintFixed(m) + ")" + rest) == [Number(m as real / MILLION as real)] + Scan(")" + rest)
  {
    hide Scan, PrintNat, PrintPadded;
    var ds, fs := PrintNat(m / MILLION), PrintPadded(m % MILLION, 6);
    assert PrintFixed(m) + ")" + rest == ds + "." + fs + (")" + rest);
    ScanPoint(ds, fs, ")" + rest);
    DecimalOfPadded(ds, m % MILLION, 6);
    DecimalOfNat(m / MILLION);
    MillionIs();
  }

  lemma MillionIs()
    ensures Exp10(6) == MILLION
  {
    assert Exp10(3) == 1000;
    assert Exp10(6) == 10 * (10 * (10 * Exp10(3)));
  }

  lemma ScanProba(p: real, rest: string)
    ensures Scan(PrintProba(p) + ")" + rest) == ProbaTokens(p) + [CParen] + Scan(rest)
  {
    hide Scan, PrintFixed, Micro;
    ScanSingle(')', rest);
    assert ")" + rest == [')'] + rest;
    if p < 0.0 {
      var more := PrintFixed(Micro(-p)) + ")" + rest;
      assert PrintProba(p) + ")" + rest == ['-'] + more;
      ScanSingle('-', more);
      ScanFixed(Micro(-p), rest);
    } else {
      ScanFixed(Micro(p), rest);
    }
  }

  lemma ScanNode(b: Tfl, rest: string)
    ensures Scan(PrintNode(b) + rest) == NodeTokens(b) + Scan(rest)
  {
    hide Scan, PrintFields, PrintProba, FieldTokens, ProbaTokens, Fields;
    var more := PrintProba(b.proba) + ")" + rest;
    assert PrintNode(b) + rest == ['('] + (PrintFields(Fields(b)) + more);
    ScanSingle('(', PrintFields(Fields(b)) + more);
    ScanFields(Fields(b), more);
    ScanProba(b.proba, rest);
    assert [OParen] + (FieldTokens(Fields(b)) + (ProbaTokens(b.proba) + [CParen] + Scan(rest))) ==
           NodeTokens(b) + Scan(rest);
  }

  lemma {:induction false} ScanNodes(x: seq<Tfl>, rest: string)
    ensures Scan(PrintNodes(x) + rest) == NodesTokens(x) + Scan(rest)
  {
    hide Scan, PrintNode, NodeTokens;
    if |x| == 0 {
      assert PrintNodes(x) + rest == rest;
    } else {
      var n := |x| - 1;
      var last := PrintNode(x[n]) + rest;
      ScanNode(x[n], rest);
      if n == 0 {
        assert PrintNodes(x) + rest == last;
      } else {
        assert PrintNodes(x) + rest == PrintNodes(x[..n]) + ([','] + last);
        ScanNodes(x[..n], [','] + last);
        ScanSingle(',', last);
        assert NodesTokens(x[..n]) + ([Comma] + (NodeTokens(x[n]) + Scan(rest))) == NodesTokens(x) + Scan(rest);
      }
    }
  }

  /** The tokens of the text of a flow. */
  lemma ScanPrinted(x: seq<Tfl>)
    ensures Scan(Print(x)) == [OBracket] + NodesTokens(x) + [CBracket]
  {
    hide Scan, PrintNodes, NodesTokens;
    assert Print(x) == ['['] + (PrintNodes(x) + "]");
    ScanSingle('[', PrintNodes(x) + "]");
    ScanNodes(x, "]");
    assert "]" == [']'] + "";
    ScanSingle(']', "");
    ScanEmpty();
    assert [OBracket] + (NodesTokens(x) + ([CBracket] + [])) == [OBracket] + NodesTokens(x) + [CBracket];
  }

  lemma ScanEmpty()
    ensures Scan("") == []
  {}
}
