/** The idempotency key as text (src/decision/mandate.py): a time, a value and the targets,
    joined by bars before they are hashed. */
module KeyTexts {
  function RoundHalfEven(x: real): int {
    var f := x.Floor;
    var rest := x - f as real;
    if rest < 0.5 || (rest == 0.5 && f % 2 == 0) then f else f + 1
  }

  /** To the nearest whole number, and halfway to the even one. */
  lemma RoundedExactly(x: real, n: int)
    ensures n == RoundHalfEven(x)
            <==> n as real - 0.5 <= x <= n as real + 0.5 && (x == n as real - 0.5 || x == n as real + 0.5 ==> n % 2 == 0)
  {
  }

  /** A number rounded to so many places: its sign survives rounding to zero. */
  datatype Quantized = Quantized(negative: bool, units: int)
  {
    ghost predicate Signed() {
      if negative then units <= 0 else 0 <= units
    }
  }

  function Quantize(x: real, unitsPerOne: nat): Quantized {
    Quantized(x < 0.0, RoundHalfEven(x * unitsPerOne as real))
  }

  lemma QuantizeSigned(x: real, unitsPerOne: nat)
    ensures Quantize(x, unitsPerOne).Signed()
  {
    if x < 0.0 { ProductUpper(x, 0.0, unitsPerOne as real); } else { ProductUpper(0.0, x, unitsPerOne as real); }
  }

  lemma ProductUpper(x: real, y: real, k: real)
    requires x <= y && 0.0 <= k
    ensures x * k <= y * k
  {
  }

  // ----- numbers

  function Digit(d: nat): char
    requires d < 10
  {
    '0' + d as char
  }

  function Digits(n: nat): string {
    if n < 10 then [Digit(n)] else Digits(n / 10) + [Digit(n % 10)]
  }

  /** The last `places` digits of a number, with leading zeros. */
  function Padded(n: nat, places: nat): string {
    if places == 0 then "" else Padded(n / 10, places - 1) + [Digit(n % 10)]
  }

  function Power(places: nat): (p: nat)
    ensures 0 < p
  {
    if places == 0 then 1 else 10 * Power(places - 1)
  }

  function Magnitude(q: Quantized): nat {
    if q.units < 0 then -q.units else q.units
  }

  function Whole(n: nat, power: nat): nat
    requires 0 < power
  {
    n / power
  }

  function Rest(n: nat, power: nat): nat
    requires 0 < power
  {
    n % power
  }

  lemma WholeAndRest(m: nat, n: nat, power: nat)
    requires 0 < power
    ensures Rest(m, power) < power
    ensures Whole(m, power) == Whole(n, power) && Rest(m, power) == Rest(n, power) ==> m == n
  {
    assert m == power * (m / power) + m % power && n == power * (n / power) + n % power;
  }

  function Unsigned(n: nat, places: nat): string {
    Digits(Whole(n, Power(places))) + "." + Padded(Rest(n, Power(places)), places)
  }

  function NumberText(q: Quantized, places: nat): string {
    (if q.negative then "-" else "") + Unsigned(Magnitude(q), places)
  }

  /** No character of it is a bar or a colon. */
  ghost predicate Plain(s: string) {
    forall i :: 0 <= i < |s| ==> s[i] != '|' && s[i] != ':'
  }

  ghost predicate AllDigits(s: string) {
    forall i :: 0 <= i < |s| ==> '0' <= s[i] <= '9'
  }

  lemma {:induction false} DigitsAreDigits(n: nat)
    ensures Digits(n) != [] && AllDigits(Digits(n))
  {
    if 10 <= n { DigitsAreDigits(n / 10); }
  }

  lemma {:induction false} PaddedAreDigits(n: nat, places: nat)
    ensures |Padded(n, places)| == places && AllDigits(Padded(n, places))
  {
    if places != 0 { PaddedAreDigits(n / 10, places - 1); }
  }

  lemma {:induction false} DigitsDetermine(m: nat, n: nat)
    requires Digits(m) == Digits(n)
    ensures m == n
  {
    DigitsAreDigits(m / 10);
    DigitsAreDigits(n / 10);
    var a, b := Digits(m), Digits(n);
    assert a[|a| - 1] == Digit(m % 10) && b[|b| - 1] == Digit(n % 10);
    if 10 <= m && 10 <= n {
      assert a[..|a| - 1] == Digits(m / 10) && b[..|b| - 1] == Digits(n / 10);
      DigitsDetermine(m / 10, n / 10);
    }
  }

  lemma {:induction false} PaddedDetermine(m: nat, n: nat, places: nat)
    requires Padded(m, places) == Padded(n, places) && m < Power(places) && n < Power(places)
    ensures m == n
  {
    if places != 0 {
      var a, b := Padded(m, places), Padded(n, places);
      assert a[|a| - 1] == Digit(m % 10) && b[|b| - 1] == Digit(n % 10);
      assert a[..|a| - 1] == Padded(m / 10, places - 1) && b[..|b| - 1] == Padded(n / 10, places - 1);
      PaddedDetermine(m / 10, n / 10, places - 1);
    }
  }

  lemma UnsignedDetermines(m: nat, n: nat, places: nat)
    requires Unsigned(m, places) == Unsigned(n, places)
    ensures m == n
  {
    hide Whole, Rest, Power, Digits, Padded, AllDigits;
    var p := Power(places);
    var a, b, c, d := Digits(Whole(m, p)), Digits(Whole(n, p)), Padded(Rest(m, p), places), Padded(Rest(n, p), places);
    PaddedAreDigits(Rest(m, p), places);
    PaddedAreDigits(Rest(n, p), places);
    SplitAtDot(a, c, b, d);
    DigitsDetermine(Whole(m, p), Whole(n, p));
    WholeAndRest(m, n, p);
    WholeAndRest(n, m, p);
    PaddedDetermine(Rest(m, p), Rest(n, p), places);
  }

  lemma SplitAtDot(a: string, c: string, b: string, d: string)
    requires a + "." + c == b + "." + d && |c| == |d|
    ensures a == b && c == d
  {
    var s := a + "." + c;
    assert s[|a| + 1..] == c && s[|b| + 1..] == d;
    assert s[..|a|] == a && s[..|b|] == b;
  }

  lemma UnsignedIsPlain(n: nat, places: nat)
    ensures Plain(Unsigned(n, places)) && Unsigned(n, places) != [] && Unsigned(n, places)[0] != '-'
  {
    hide Whole, Rest, Power, Digits, Padded;
    DigitsAreDigits(Whole(n, Power(places)));
    PaddedAreDigits(Rest(n, Power(places)), places);
  }

  lemma NumberIsPlain(q: Quantized, places: nat)
    ensures Plain(NumberText(q, places))
  {
    UnsignedIsPlain(Magnitude(q), places);
  }

  /** A number can be read back from its text, the sign of a zero included. */
  lemma NumberReadsBack(q: Quantized, r: Quantized, places: nat)
    requires q.Signed() && r.Signed() && NumberText(q, places) == NumberText(r, places)
    ensures q == r
  {
    hide Unsigned, Plain;
    UnsignedIsPlain(Magnitude(q), places);
    UnsignedIsPlain(Magnitude(r), places);
    var a, b := Unsigned(Magnitude(q), places), Unsigned(Magnitude(r), places);
    assert ("-" + a)[1..] == a && ("-" + b)[1..] == b && ("" + a) == a && "" + b == b;
    assert q.negative == r.negative;
    UnsignedDetermines(Magnitude(q), Magnitude(r), places);
  }

  // ----- targets

  type Part = (string, Quantized)

  function PartText(part: Part): string {
    part.0 + ":" + NumberText(part.1, 4)
  }

  function Tail(parts: seq<Part>): string {
    if parts == [] then "" else "|" + PartText(parts[0]) + Tail(parts[1..])
  }

  /** The symbol that reads like a target followed by the beginning of another. */
  function Misread(first: string, weight: Quantized, second: string): string {
    PartText((first, weight)) + "|" + second
  }

  ghost predicate ReadsAsTarget(symbol: string) {
    exists first, weight: Quantized, second :: weight.Signed() && symbol == Misread(first, weight, second)
  }

  ghost predicate ReadOnce(parts: seq<Part>) {
    forall p :: p in parts ==> !ReadsAsTarget(p.0) && p.1.Signed()
  }

  /** Only a symbol with a bar does. */
  lemma MisreadHasBar(symbol: string)
    requires ReadsAsTarget(symbol)
    ensures '|' in symbol
  {
    var first, weight: Quantized, second :| weight.Signed() && symbol == Misread(first, weight, second);
    hide PartText;
    BarBetween(PartText((first, weight)), second);
  }

  lemma BarBetween(a: string, b: string)
    ensures '|' in a + "|" + b
  {
    assert (a + "|" + b)[|a|] == '|';
  }

  lemma PartReadsBack(a: Part, b: Part)
    requires a.1.Signed() && b.1.Signed() && PartText(a) == PartText(b)
    ensures a == b
  {
    hide NumberText;
    if |a.0| < |b.0| { ColonInSymbol(b, a); assert false; }
    if |b.0| < |a.0| { ColonInSymbol(a, b); assert false; }
    assert PartText(a)[..|a.0|] == a.0 && PartText(b)[..|b.0|] == b.0;
    assert PartText(a)[|a.0| + 1..] == NumberText(a.1, 4) && PartText(b)[|b.0| + 1..] == NumberText(b.1, 4);
    NumberReadsBack(a.1, b.1, 4);
  }

  lemma ColonInSymbol(long: Part, short: Part)
    requires |short.0| < |long.0|
    ensures PartText(long) != PartText(short)
  {
    hide NumberText;
    assert PartText(long)[|long.0|] == ':';
    if |long.0| < |PartText(short)| { AfterSymbol(short, |long.0|); }
  }

  lemma AfterSymbol(part: Part, n: nat)
    requires |part.0| < n < |PartText(part)|
    ensures PartText(part)[n] != ':' && PartText(part)[n] != '|'
  {
    hide NumberText;
    NumberIsPlain(part.1, 4);
    assert PartText(part)[n] == NumberText(part.1, 4)[n - |part.0| - 1];
  }

  lemma TailStarts(parts: seq<Part>)
    ensures Tail(parts) == "" || Tail(parts)[0] == '|'
  {
  }

  lemma BarInSymbol(part: Part, n: nat)
    requires n < |PartText(part)| && PartText(part)[n] == '|'
    ensures n < |part.0|
  {
    if |part.0| < n { AfterSymbol(part, n); }
  }

  lemma LongerIsMisread(a: Part, tail: string, b: Part, rest: string)
    requires PartText(a) + tail == PartText(b) + rest && |PartText(a)| < |PartText(b)| && a.1.Signed()
    requires tail == "" || tail[0] == '|'
    ensures ReadsAsTarget(b.0)
  {
    hide NumberText;
    var n, s := |PartText(a)|, PartText(a) + tail;
    assert s[..n] == PartText(a) && s[..|PartText(b)|] == PartText(b);
    assert s[n] == tail[0] == '|' && s[n] == PartText(b)[n];
    BarInSymbol(b, n);
    assert PartText(b)[..|b.0|] == b.0;
    assert b.0[..n] == PartText(a) && b.0[n] == '|';
    assert b.0 == Misread(a.0, a.1, b.0[n + 1..]);
  }

  lemma {:induction false} TailReadsBack(xs: seq<Part>, ys: seq<Part>)
    requires ReadOnce(xs) && ReadOnce(ys) && Tail(xs) == Tail(ys)
    ensures xs == ys
  {
    hide PartText, ReadsAsTarget;
    if xs != [] && ys != [] {
      var a, b, ta, tb := PartText(xs[0]), PartText(ys[0]), Tail(xs[1..]), Tail(ys[1..]);
      assert Tail(xs)[1..] == a + ta && Tail(ys)[1..] == b + tb;
      TailStarts(xs[1..]);
      TailStarts(ys[1..]);
      if |a| < |b| { LongerIsMisread(xs[0], ta, ys[0], tb); }
      if |b| < |a| { LongerIsMisread(ys[0], tb, xs[0], ta); }
      assert (a + ta)[..|a|] == a && (a + ta)[|a|..] == ta && (b + tb)[..|b|] == b && (b + tb)[|b|..] == tb;
      PartReadsBack(xs[0], ys[0]);
      TailReadsBack(xs[1..], ys[1..]);
    }
  }

  // ----- the whole text

  function Joined(parts: seq<string>): string {
    if parts == [] then "" else if |parts| == 1 then parts[0] else parts[0] + "|" + Joined(parts[1..])
  }

  function PartTexts(parts: seq<Part>): seq<string> {
    if parts == [] then [] else PartTexts(parts[..|parts| - 1]) + [PartText(parts[|parts| - 1])]
  }

  /** What the digest is taken over: the time, the value in cents, and each target in
      symbol order, in basis points. */
  datatype MandateKey = MandateKey(decisionTime: int, cents: Quantized, targets: seq<Part>)

  function KeyParts(key: MandateKey, iso: int -> string): seq<string> {
    [iso(key.decisionTime), NumberText(key.cents, 2)] + PartTexts(key.targets)
  }

  function KeyText(key: MandateKey, iso: int -> string): string {
    Joined(KeyParts(key, iso))
  }

  lemma {:induction false} PartTextsAt(parts: seq<Part>)
    ensures |PartTexts(parts)| == |parts|
    ensures forall i :: 0 <= i < |parts| ==> PartTexts(parts)[i] == PartText(parts[i])
  {
    hide PartText;
    if parts != [] { PartTextsAt(parts[..|parts| - 1]); }
  }

  lemma {:induction false} JoinedTail(first: string, strings: seq<string>, parts: seq<Part>)
    requires |strings| == |parts| && forall i :: 0 <= i < |parts| ==> strings[i] == PartText(parts[i])
    decreases |parts|
    ensures Joined([first] + strings) == first + Tail(parts)
  {
    hide PartText;
    assert ([first] + strings)[1..] == strings;
    if parts != [] {
      JoinedTail(strings[0], strings[1..], parts[1..]);
      assert strings == [strings[0]] + strings[1..];
      var e, rest := PartText(parts[0]), Tail(parts[1..]);
      assert first + "|" + (e + rest) == first + ("|" + e + rest);
    }
  }

  lemma KeyTextIs(key: MandateKey, iso: int -> string)
    ensures KeyText(key, iso) == iso(key.decisionTime) + ("|" + (NumberText(key.cents, 2) + Tail(key.targets)))
  {
    hide NumberText, Tail, PartText;
    var time, cents, rest := iso(key.decisionTime), NumberText(key.cents, 2), PartTexts(key.targets);
    PartTextsAt(key.targets);
    JoinedTail(cents, rest, key.targets);
    assert KeyParts(key, iso)[1..] == [cents] + rest;
    assert time + "|" + (cents + Tail(key.targets)) == time + ("|" + (cents + Tail(key.targets)));
  }

  lemma FirstBar(x: string, restX: string, y: string, restY: string)
    requires '|' !in x && '|' !in y && x + restX == y + restY
    requires restX == "" || restX[0] == '|'
    requires restY == "" || restY[0] == '|'
    ensures x == y && restX == restY
  {
    var s := x + restX;
    assert s[..|x|] == x && s[..|y|] == y && s[|x|..] == restX && s[|y|..] == restY;
    if |x| < |y| { BarWithin(x, restX, y, restY); assert false; }
    if |y| < |x| { BarWithin(y, restY, x, restX); assert false; }
  }

  lemma BarWithin(x: string, restX: string, y: string, restY: string)
    requires |x| < |y| && x + restX == y + restY
    requires restX == "" || restX[0] == '|'
    ensures '|' in y
  {
    assert y[|x|] == (x + restX)[|x|] == restX[0];
  }

  ghost predicate Sound(key: MandateKey) {
    key.cents.Signed() && forall p :: p in key.targets ==> p.1.Signed()
  }

  /** ISO timestamps hold no bar, and these two tell their instants apart. */
  ghost predicate ReadsBack(iso: int -> string, t: int, u: int) {
    '|' !in iso(t) && '|' !in iso(u) && (iso(t) == iso(u) ==> t == u)
  }

  /** Unless a symbol reads as a target itself, the key can be read back from its text. */
  lemma KeyReadsBack(k: MandateKey, l: MandateKey, iso: int -> string)
    requires Sound(k) && Sound(l) && ReadsBack(iso, k.decisionTime, l.decisionTime)
    requires ReadOnce(k.targets) && ReadOnce(l.targets)
    ensures KeyText(k, iso) == KeyText(l, iso) <==> k == l
  {
    hide NumberText, Tail, KeyText, ReadOnce, Plain;
    if KeyText(k, iso) == KeyText(l, iso) {
      KeyTextIs(k, iso);
      KeyTextIs(l, iso);
      var a, b := NumberText(k.cents, 2), NumberText(l.cents, 2);
      var ta, tb := Tail(k.targets), Tail(l.targets);
      FirstBar(iso(k.decisionTime), "|" + (a + ta), iso(l.decisionTime), "|" + (b + tb));
      assert ("|" + (a + ta))[1..] == a + ta && ("|" + (b + tb))[1..] == b + tb;
      NumberHasNoBar(k.cents);
      NumberHasNoBar(l.cents);
      TailStarts(k.targets);
      TailStarts(l.targets);
      FirstBar(a, ta, b, tb);
      NumberReadsBack(k.cents, l.cents, 2);
      TailReadsBack(k.targets, l.targets);
    }
  }

  lemma NumberHasNoBar(q: Quantized)
    ensures '|' !in NumberText(q, 2)
  {
    hide NumberText;
    NumberIsPlain(q, 2);
  }

  /** A symbol that does read as a target makes one target read as two. */
  lemma MisreadCollides(time: int, cents: Quantized, first: string, weight: Quantized, second: string, last: Quantized, iso: int -> string)
    ensures KeyText(MandateKey(time, cents, [(first, weight), (second, last)]), iso)
         == KeyText(MandateKey(time, cents, [(Misread(first, weight, second), last)]), iso)
  {
    var two, one: seq<Part> := [(first, weight), (second, last)], [(Misread(first, weight, second), last)];
    KeyTextIs(MandateKey(time, cents, two), iso);
    KeyTextIs(MandateKey(time, cents, one), iso);
    hide NumberText;
    assert two[1..] == [(second, last)] && two[1..][1..] == [] && one[1..] == [];
    var e, n := PartText((first, weight)), NumberText(last, 4);
    assert Tail(two[1..]) == "|" + (second + ":" + n) + "";
    assert Tail(two) == "|" + e + ("|" + (second + ":" + n) + "");
    assert Tail(one) == "|" + ((e + "|" + second) + ":" + n) + "";
    assert Tail(two) == Tail(one);
  }
}
