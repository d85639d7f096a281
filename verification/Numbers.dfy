/** Decimal numbers as to_string prints them and sscanf reads them back. */
module Numbers {
  import opened Wrappers

  /** mantissa / 10^scale, exactly; what hexadecimal notation denotes is mantissa * 2^exponent. */
  datatype Number = Number(mantissa: int, scale: int) | Binary(mantissa: int, exponent: int)
    | Infinity(negative: bool) | NaN

  const ZERO := Number(0, 0)

  predicate IsDigit(c: char) { '0' <= c <= '9' }

  predicate IsSpace(c: char) {
    c == ' ' || c == '\t' || c == '\n' || c as int == 11 || c as int == 12 || c == '\r'
  }

  predicate AllDigits(s: string) { forall i :: 0 <= i < |s| ==> IsDigit(s[i]) }

  function Digit(d: nat): char
    requires d < 10
  {
    ('0' as int + d) as char
  }

  /** The number a digit string denotes. */
  function ValueOf(s: string): nat
    requires AllDigits(s)
  {
    if s == [] then 0 else 10 * ValueOf(s[..|s| - 1]) + (s[|s| - 1] as int - '0' as int)
  }

  function Pow10(n: nat): nat { if n == 0 then 1 else 10 * Pow10(n - 1) }

  /** to_string of a non-negative integer. */
  function Print(n: nat): string {
    if n < 10 then [Digit(n)] else Print(n / 10) + [Digit(n % 10)]
  }

  /** The last width digits of n, with leading zeros. */
  function Padded(n: nat, width: nat): string {
    if width == 0 then "" else Padded(n / 10, width - 1) + [Digit(n % 10)]
  }

  function Abs(n: int): nat { if n < 0 then -n else n }

  /** to_string of a double holding n millionths. */
  function PrintDouble(n: int): string {
    (if n < 0 then "-" else "") + Print(Abs(n) / 1_000_000) + "." + Padded(Abs(n) % 1_000_000, 6)
  }

  /** A decimal number as it stands in a text: sign, digits and fractional digits. */
  datatype Field = Field(negative: bool, whole: string, fraction: string) {
    predicate Valid() { whole != [] && AllDigits(whole) && AllDigits(fraction) }

    function Text(): string {
      (if negative then "-" else "") + whole + Point()
    }

    function Point(): string { if fraction == [] then "" else "." + fraction }

    function Value(): (v: Number)
      requires Valid()
      ensures v.Number?
    {
      var digits: int := ValueOf(whole + fraction);
      Number(if negative then -digits else digits, |fraction|)
    }
  }

  /** An item of a sscanf format: a literal word, %d or %lf. Items are separated by a blank, which
      matches any white space, also none. */
  datatype Item = Word(w: string) | Int | Double

  function SkipSpaces(s: string): string {
    if s != [] && IsSpace(s[0]) then SkipSpaces(s[1..]) else s
  }

  /** How many digits s starts with. */
  function DigitCount(s: string): (n: nat)
    ensures n <= |s| && AllDigits(s[..n])
    ensures n < |s| ==> !IsDigit(s[n])
  {
    if s == [] || !IsDigit(s[0]) then 0 else 1 + DigitCount(s[1..])
  }

  predicate HasSign(s: string) { s != [] && (s[0] == '-' || s[0] == '+') }

  /** %d: the number and what follows it. */
  function ScanInt(text: string): Option<(Number, string)> {
    var s := SkipSpaces(text);
    var body := if HasSign(s) then s[1..] else s;
    var n := DigitCount(body);
    if n == 0 then None
    else Some((Field(HasSign(s) && s[0] == '-', body[..n], "").Value(), body[n..]))
  }

  /** The fractional digits after a point, if there is one, and what follows. */
  function ScanFraction(tail: string): (r: (string, string))
    ensures AllDigits(r.0)
  {
    if tail != [] && tail[0] == '.' then
      var n := DigitCount(tail[1..]);
      (tail[1..][..n], tail[1..][n..])
    else ("", tail)
  }

  /** The exponent behind a mark in front of tail, none standing for zero. A mark with no digits behind it
      is the start of a number that never comes, so that the conversion fails. */
  function ScanExponent(tail: string, lower: char, upper: char): Option<(int, string)> {
    if tail == [] || (tail[0] != lower && tail[0] != upper) then Some((0, tail))
    else
      var signed := tail[1..];
      var digits := if HasSign(signed) then signed[1..] else signed;
      var n := DigitCount(digits);
      var v: int := ValueOf(digits[..n]);
      if n == 0 then None else Some((if HasSign(signed) && signed[0] == '-' then -v else v, digits[n..]))
  }

  /** Digits with an optional point, at least one digit in all, and an optional exponent. */
  function ScanDecimal(negative: bool, body: string): Option<(Number, string)> {
    var n := DigitCount(body);
    var (fraction, tail) := ScanFraction(body[n..]);
    var v: int := ValueOf(body[..n] + fraction);
    if n == 0 && fraction == [] then None
    else match ScanExponent(tail, 'e', 'E')
      case None => None
      case Some((e, rest)) => Some((Number(if negative then -v else v, |fraction| - e), rest))
  }

  function HexDigit(c: char): Option<nat> {
    if IsDigit(c) then Some(c as int - '0' as int)
    else if 'a' <= c <= 'f' then Some(10 + c as int - 'a' as int)
    else if 'A' <= c <= 'F' then Some(10 + c as int - 'A' as int)
    else None
  }

  /** The hexadecimal digits s starts with, in front of v, how many there are, and what follows. */
  function ScanHex(s: string, v: nat): (nat, nat, string) {
    if s == [] || HexDigit(s[0]) == None then (v, 0, s)
    else var (w, n, rest) := ScanHex(s[1..], 16 * v + HexDigit(s[0]).value); (w, n + 1, rest)
  }

  /** The same behind a 0x, with a binary exponent. */
  function ScanHexadecimal(negative: bool, body: string): Option<(Number, string)> {
    var (whole, n, tail) := ScanHex(body, 0);
    var (v, k, after) := if tail != [] && tail[0] == '.' then ScanHex(tail[1..], whole) else (whole, 0, tail);
    var m: int := v;
    var mantissa: int := if negative then -m else m;
    if n + k == 0 then None
    else match ScanExponent(after, 'p', 'P')
      case None => None
      case Some((e, rest)) => Some((Binary(mantissa, e - 4 * k), rest))
  }

  /** Does s start with the word, in upper or lower case? */
  predicate StartsWith(s: string, word: string) {
    && |word| <= |s|
    && forall i :: 0 <= i < |word| ==> s[i] == word[i] || ('A' <= s[i] <= 'Z' && s[i] as int + 32 == word[i] as int)
  }

  /** inf or infinity; anything further of the long word without all of it fails. */
  function ScanInfinity(negative: bool, body: string): Option<(Number, string)> {
    if StartsWith(body, "infinity") then Some((Infinity(negative), body[8..]))
    else if !StartsWith(body, "inf") || StartsWith(body, "infi") then None
    else Some((Infinity(negative), body[3..]))
  }

  /** How many letters, digits and underscores s starts with. */
  function WordCount(s: string): (n: nat)
    ensures n <= |s|
  {
    if s != [] && (IsDigit(s[0]) || 'a' <= s[0] <= 'z' || 'A' <= s[0] <= 'Z' || s[0] == '_') then 1 + WordCount(s[1..])
    else 0
  }

  /** nan, with an optional word in parentheses, which must be closed. */
  function ScanNaN(body: string): Option<(Number, string)> {
    if !StartsWith(body, "nan") then None
    else if |body| == 3 || body[3] != '(' then Some((NaN, body[3..]))
    else
      var n := WordCount(body[4..]);
      if 4 + n < |body| && body[4 + n] == ')' then Some((NaN, body[5 + n..])) else None
  }

  /** %lf behind its sign. */
  function ScanUnsigned(negative: bool, body: string): Option<(Number, string)> {
    if StartsWith(body, "i") then ScanInfinity(negative, body)
    else if StartsWith(body, "n") then ScanNaN(body)
    else if StartsWith(body, "0x") then ScanHexadecimal(negative, body[2..])
    else ScanDecimal(negative, body)
  }

  /** %lf, as the standard of C defines it. */
  function ScanDouble(text: string): Option<(Number, string)> {
    var s := SkipSpaces(text);
    ScanUnsigned(HasSign(s) && s[0] == '-', if HasSign(s) then s[1..] else s)
  }

  /** One item: the number it assigns, if any, and what follows. */
  function ScanItem(item: Item, s: string): Option<(seq<Number>, string)> {
    match item
    case Word(w) => if w <= s then Some(([], s[|w|..])) else None
    case Int => (match ScanInt(s) case None => None case Some((v, rest)) => Some(([v], rest)))
    case Double => (match ScanDouble(s) case None => None case Some((v, rest)) => Some(([v], rest)))
  }

  /** The numbers sscanf assigns before it stops. */
  function Sscanf(format: seq<Item>, s: string): seq<Number>
    decreases |format|
  {
    if format == [] then []
    else match ScanItem(format[0], s)
      case None => []
      case Some((v, rest)) => v + Sscanf(format[1..], SkipSpaces(rest))
  }

  /** A format with its numbers filled in. */
  datatype Piece = Literal(w: string) | Whole(f: Field) | Decimal(f: Field) {
    predicate Fits() {
      match this
      case Literal(w) => w != [] && !IsSpace(w[0])
      case Whole(f) => f.Valid() && f.fraction == []
      case Decimal(f) => f.Valid()
    }

    function Text(): string { if Literal? then w else f.Text() }

    function Item(): Item { if Literal? then Word(w) else if Whole? then Int else Double }

    function Value(): seq<Number>
      requires Fits()
    {
      if Literal? then [] else [f.Value()]
    }
  }

  function Format(pieces: seq<Piece>): seq<Item> {
    seq(|pieces|, i requires 0 <= i < |pieces| => pieces[i].Item())
  }

  predicate AllFit(pieces: seq<Piece>) { forall i :: 0 <= i < |pieces| ==> pieces[i].Fits() }

  /** The text of the pieces, with single blanks between them. */
  function Render(pieces: seq<Piece>): string
    decreases |pieces|, 0
  {
    if pieces == [] then [] else pieces[0].Text() + Remainder(pieces[1..])
  }

  function Remainder(pieces: seq<Piece>): string
    decreases |pieces|, 1
  {
    if pieces == [] then [] else " " + Render(pieces)
  }

  function Values(pieces: seq<Piece>): seq<Number>
    requires AllFit(pieces)
  {
    if pieces == [] then [] else pieces[0].Value() + Values(pieces[1..])
  }

  // ---------------------------------------------------------------- printing and reading digits

  lemma {:induction false} PrintIsDigits(n: nat)
    ensures AllDigits(Print(n)) && Print(n) != [] && ValueOf(Print(n)) == n
  {
    if n >= 10 {
      PrintIsDigits(n / 10);
      assert Print(n)[..|Print(n)| - 1] == Print(n / 10);
    }
  }

  /** Padding reads back: digits followed by a padded number denote both. */
  lemma {:induction false} PaddedReadsBack(s: string, n: nat, width: nat)
    requires AllDigits(s) && n < Pow10(width)
    ensures AllDigits(Padded(n, width)) && |Padded(n, width)| == width
    ensures ValueOf(s + Padded(n, width)) == ValueOf(s) * Pow10(width) + n
  {
    if width == 0 {
      assert s + Padded(n, width) == s;
    } else {
      PaddedReadsBack(s, n / 10, width - 1);
      var shorter, last := Padded(n / 10, width - 1), Digit(n % 10);
      assert s + (shorter + [last]) == (s + shorter) + [last];
      hide ValueOf;
      OneMoreDigit(s + shorter, n % 10);
      ShiftDigits(ValueOf(s), Pow10(width - 1), n);
    }
  }

  lemma {:induction false} OneMoreDigit(s: string, d: nat)
    requires AllDigits(s) && d < 10
    ensures AllDigits(s + [Digit(d)]) && ValueOf(s + [Digit(d)]) == 10 * ValueOf(s) + d
  {
    assert (s + [Digit(d)])[..|s|] == s;
  }

  lemma {:induction false} ShiftDigits(v: nat, p: nat, n: nat)
    ensures 10 * (v * p + n / 10) + n % 10 == v * (10 * p) + n
  {
    assert v * (10 * p) == 10 * (v * p);
  }

  function DoubleField(n: int): Field {
    Field(n < 0, Print(Abs(n) / 1_000_000), Padded(Abs(n) % 1_000_000, 6))
  }

  /** What to_string prints for n millionths is a decimal text denoting n millionths. */
  lemma {:induction false} PrintDoubleReadsBack(n: int)
    ensures PrintDouble(n) == DoubleField(n).Text()
    ensures DoubleField(n).Valid() && DoubleField(n).Value() == Number(n, 6)
  {
    var whole, millionths := Abs(n) / 1_000_000, Abs(n) % 1_000_000;
    PrintIsDigits(whole);
    SixDigits(Print(whole), millionths);
    hide Print, Padded, ValueOf, AllDigits;
    var signed := (if n < 0 then "-" else "") + Print(whole);
    assert signed + "." + Padded(millionths, 6) == signed + ("." + Padded(millionths, 6));
  }

  lemma {:induction false} SixDigits(s: string, n: nat)
    requires AllDigits(s) && n < 1_000_000
    ensures AllDigits(Padded(n, 6)) && |Padded(n, 6)| == 6
    ensures ValueOf(s + Padded(n, 6)) == ValueOf(s) * 1_000_000 + n
  {
    assert Pow10(6) == 1_000_000 by {
      assert Pow10(3) == 1000;
    }
    PaddedReadsBack(s, n, 6);
  }

  lemma {:induction false} DigitCountOfDigits(s: string, rest: string)
    requires AllDigits(s) && (rest == [] || !IsDigit(rest[0]))
    ensures DigitCount(s + rest) == |s|
    ensures (s + rest)[..|s|] == s && (s + rest)[|s|..] == rest
  {
    if s == [] {
      assert s + rest == rest;
    } else {
      assert (s + rest)[1..] == s[1..] + rest;
      DigitCountOfDigits(s[1..], rest);
    }
  }

  predicate EndsNumber(rest: string) {
    rest == [] || (!IsDigit(rest[0]) && rest[0] !in ".eExX")
  }

  lemma {:induction false} TextStart(f: Field, rest: string)
    requires f.Valid()
    ensures var s := f.Text() + rest;
            && SkipSpaces(s) == s && s != [] && !IsSpace(s[0])
            && (HasSign(s) <==> f.negative) && (f.negative ==> s[0] == '-')
            && (if f.negative then s[1..] else s) ==
                 f.whole + (f.Point() + rest)
  {
    var s := f.Text() + rest;
    assert IsDigit(f.whole[0]);
    if f.negative {
      assert s[0] == '-';
    } else {
      assert s[0] == f.whole[0];
    }
  }

  lemma {:induction false} ScanIntReadsText(f: Field, rest: string)
    requires f.Valid() && f.fraction == [] && EndsNumber(rest)
    ensures ScanInt(f.Text() + rest) == Some((f.Value(), rest))
  {
    TextStart(f, rest);
    assert "" + rest == rest;
    DigitCountOfDigits(f.whole, rest);
  }

  lemma {:induction false} ScanFractionReadsText(f: Field, rest: string)
    requires f.Valid() && EndsNumber(rest)
    ensures ScanFraction(f.Point() + rest) == (f.fraction, rest)
    ensures f.Point() + rest == [] || !IsDigit((f.Point() + rest)[0])
  {
    if f.fraction == [] {
      assert "" + rest == rest;
    } else {
      assert (("." + f.fraction) + rest)[1..] == f.fraction + rest;
      DigitCountOfDigits(f.fraction, rest);
    }
  }

  lemma {:induction false} ScanDoubleReadsText(f: Field, rest: string)
    requires f.Valid() && EndsNumber(rest)
    ensures ScanDouble(f.Text() + rest) == Some((f.Value(), rest))
  {
    TextStart(f, rest);
    ScanFractionReadsText(f, rest);
    DigitCountOfDigits(f.whole, f.Point() + rest);
    ScanDoubleParts(f.Text() + rest, f, f.Point() + rest, rest);
  }

  /** ScanDouble on a text already taken apart. */
  lemma {:induction false} ScanDoubleParts(s: string, f: Field, tail: string, rest: string)
    requires f.Valid() && SkipSpaces(s) == s && (HasSign(s) <==> f.negative) && (f.negative ==> s[0] == '-')
    requires (if f.negative then s[1..] else s) == f.whole + tail
    requires DigitCount(f.whole + tail) == |f.whole|
    requires (f.whole + tail)[..|f.whole|] == f.whole && (f.whole + tail)[|f.whole|..] == tail
    requires ScanFraction(tail) == (f.fraction, rest) && EndsNumber(rest)
    ensures ScanDouble(s) == Some((f.Value(), rest))
  {
    hide DigitCount, ScanDecimal, ScanFraction, StartsWith, ScanExponent, ValueOf, Field.Value, Field.Valid, EndsNumber;
    NoMarkBehind(tail, rest, f);
    NoOtherNotation(f, tail);
    ScanDecimalWith(f, tail, rest);
  }

  lemma {:induction false} NoMarkBehind(tail: string, rest: string, f: Field)
    requires ScanFraction(tail) == (f.fraction, rest) && EndsNumber(rest)
    ensures ScanExponent(rest, 'e', 'E') == Some((0, rest)) && (tail == [] || tail[0] !in "xX")
  {
    hide DigitCount;
  }

  // ---------------------------------------------------------------- the other notations

  /** Blanks in front and either sign. */
  lemma {:induction false} SignsAreRead(blank: string, sign: string, body: string)
    requires (forall i :: 0 <= i < |blank| ==> IsSpace(blank[i])) && (sign == "" || sign == "-" || sign == "+")
    requires body != [] && !IsSpace(body[0]) && !HasSign(body)
    ensures ScanDouble(blank + (sign + body)) == ScanUnsigned(sign == "-", body)
    ensures IsDigit(body[0]) ==>
              var n := DigitCount(body);
              var v: int := ValueOf(body[..n]);
              ScanInt(blank + (sign + body)) == Some((Number(if sign == "-" then -v else v, 0), body[n..]))
  {
    hide ScanUnsigned, DigitCount, ValueOf;
    SkipsBlanks(blank, sign + body);
    if sign == "" {
      assert sign + body == body;
    } else {
      assert (sign + body)[1..] == body && (sign + body)[0] == sign[0];
    }
    assert body[..DigitCount(body)] + "" == body[..DigitCount(body)];
    if IsDigit(body[0]) {
      DigitIsCounted(body);
    }
  }

  lemma {:induction false} DigitIsCounted(s: string)
    requires s != [] && IsDigit(s[0])
    ensures DigitCount(s) > 0
  {
  }

  lemma {:induction false} SkipsBlanks(blank: string, s: string)
    requires (forall i :: 0 <= i < |blank| ==> IsSpace(blank[i])) && s != [] && !IsSpace(s[0])
    ensures SkipSpaces(blank + s) == s
  {
    if blank == [] {
      assert blank + s == s;
    } else {
      assert (blank + s)[1..] == blank[1..] + s;
      SkipsBlanks(blank[1..], s);
    }
  }

  /** What may follow a number or a word without becoming part of it. */
  predicate EndsWord(rest: string) {
    EndsNumber(rest) && (rest == [] || !(('a' <= rest[0] <= 'z') || ('A' <= rest[0] <= 'Z') || rest[0] in "_(+-"))
  }

  function Exponent(mark: char, minus: bool, digits: string): string {
    [mark] + ((if minus then "-" else "") + digits)
  }

  /** An exponent reads back; a mark without digits makes the conversion fail. */
  lemma {:induction false} ExponentReadsText(lower: char, upper: char, mark: char, minus: bool, digits: string,
                                             rest: string)
    requires (mark == lower || mark == upper) && AllDigits(digits) && EndsWord(rest)
    ensures var e: int := ValueOf(digits);
            ScanExponent(Exponent(mark, minus, digits) + rest, lower, upper) ==
              if digits == [] then None else Some((if minus then -e else e, rest))
  {
    hide DigitCount, ValueOf, ScanExponent;
    var tail := Exponent(mark, minus, digits) + rest;
    assert tail[0] == mark && tail[1..] == (if minus then "-" else "") + (digits + rest);
    hide Exponent;
    assert rest == [] || !IsDigit(rest[0]);
    DigitCountOfDigits(digits, rest);
    SignedDigits(minus, digits, rest);
    ExponentParts(tail, lower, upper, minus, digits, rest);
  }

  lemma {:induction false} SignedDigits(minus: bool, digits: string, rest: string)
    requires AllDigits(digits) && EndsWord(rest)
    ensures var signed := (if minus then "-" else "") + (digits + rest);
            && (HasSign(signed) <==> minus) && (minus ==> signed[0] == '-')
            && (if minus then signed[1..] else signed) == digits + rest
  {
    assert digits != [] ==> (digits + rest)[0] == digits[0] && IsDigit(digits[0]);
    assert digits == [] ==> digits + rest == rest;
  }

  /** ScanExponent on a text already taken apart. */
  lemma {:induction false} ExponentParts(tail: string, lower: char, upper: char, minus: bool, digits: string,
                                         rest: string)
    requires tail != [] && (tail[0] == lower || tail[0] == upper) && AllDigits(digits)
    requires (HasSign(tail[1..]) <==> minus) && (minus ==> tail[1] == '-')
    requires (if minus then tail[2..] else tail[1..]) == digits + rest
    requires DigitCount(digits + rest) == |digits|
    requires (digits + rest)[..|digits|] == digits && (digits + rest)[|digits|..] == rest
    ensures var e: int := ValueOf(digits);
            ScanExponent(tail, lower, upper) == if digits == [] then None else Some((if minus then -e else e, rest))
  {
    hide DigitCount, ValueOf, AllDigits;
    assert minus ==> tail[1..][1..] == tail[2..];
  }

  /** Decimal notation with an exponent: it moves the point. */
  lemma {:induction false} ExponentMovesPoint(f: Field, mark: char, minus: bool, digits: string, rest: string)
    requires f.Valid() && (mark == 'e' || mark == 'E') && AllDigits(digits) && EndsWord(rest)
    ensures var v, e: int := f.Value(), ValueOf(digits);
            ScanUnsigned(f.negative, f.whole + (f.Point() + (Exponent(mark, minus, digits) + rest))) ==
              if digits == [] then None
              else Some((Number(v.mantissa, v.scale - (if minus then -e else e)), rest))
  {
    hide DigitCount, ScanExponent, ScanFraction, StartsWith, ScanDecimal, ValueOf, Field.Value;
    var after := Exponent(mark, minus, digits) + rest;
    assert after[0] == mark && !IsDigit(mark) && mark !in ".xX";
    hide Exponent, EndsWord;
    FractionBeforeMark(f, after);
    assert f.Valid();
    hide Field.Point;
    DigitCountOfDigits(f.whole, f.Point() + after);
    ExponentReadsText('e', 'E', mark, minus, digits, rest);
    NoOtherNotation(f, f.Point() + after);
    ScanDecimalWith(f, f.Point() + after, after);
  }

  /** ScanDecimal on a text already taken apart. */
  lemma {:induction false} ScanDecimalWith(f: Field, tail: string, after: string)
    requires f.Valid() && DigitCount(f.whole + tail) == |f.whole|
    requires (f.whole + tail)[..|f.whole|] == f.whole && (f.whole + tail)[|f.whole|..] == tail
    requires ScanFraction(tail) == (f.fraction, after)
    ensures ScanDecimal(f.negative, f.whole + tail) ==
              match ScanExponent(after, 'e', 'E')
              case None => None
              case Some((e, rest)) => Some((Number(f.Value().mantissa, f.Value().scale - e), rest))
  {
    hide DigitCount, ScanFraction, ScanExponent;
  }

  lemma {:induction false} FractionBeforeMark(f: Field, tail: string)
    requires f.Valid() && tail != [] && !IsDigit(tail[0]) && tail[0] !in ".xX"
    ensures ScanFraction(f.Point() + tail) == (f.fraction, tail)
    ensures f.Point() + tail != [] && !IsDigit((f.Point() + tail)[0]) && (f.Point() + tail)[0] !in "xX"
  {
    if f.fraction == [] {
      assert "" + tail == tail;
    } else {
      assert (("." + f.fraction) + tail)[1..] == f.fraction + tail;
      DigitCountOfDigits(f.fraction, tail);
    }
  }

  lemma {:induction false} NoOtherNotation(f: Field, tail: string)
    requires f.Valid() && (tail == [] || tail[0] !in "xX")
    ensures var body := f.whole + tail;
            !StartsWith(body, "i") && !StartsWith(body, "n") && !StartsWith(body, "0x")
  {
    var body := f.whole + tail;
    assert body[0] == f.whole[0] && IsDigit(body[0]);
    assert "i"[0] == 'i' && "n"[0] == 'n' && "0x"[1] == 'x';
    if |body| > 1 {
      assert body[1] == if |f.whole| > 1 then f.whole[1] else tail[0];
      assert body[1] != 'x' && body[1] != 'X';
    }
  }

  /** A word at the front is the word alone. */
  lemma {:induction false} WordInFront(word: string, rest: string, name: string)
    requires |name| <= |word|
    ensures StartsWith(word + rest, name) <==> StartsWith(word, name)
    ensures (word + rest)[|word|..] == rest
  {
    assert forall i :: 0 <= i < |name| ==> (word + rest)[i] == word[i];
  }

  lemma {:induction false} WordBehind(word: string, rest: string, name: string)
    requires |word| < |name| && EndsWord(rest) && 'a' <= name[|word|] <= 'z'
    ensures !StartsWith(word + rest, name)
  {
    assert rest != [] ==> (word + rest)[|word|] == rest[0];
  }

  /** The words for infinity, in any case; one that goes on like the long one and is not makes the conversion
      fail. */
  lemma {:induction false} InfinityIsRead(negative: bool, word: string, rest: string)
    requires EndsWord(rest) && StartsWith(word, "inf") && |word| in {3, 4, 8}
    requires |word| == 4 ==> StartsWith(word, "infi")
    requires |word| == 8 ==> StartsWith(word, "infinity")
    ensures ScanUnsigned(negative, word + rest) == if |word| == 4 then None else Some((Infinity(negative), rest))
  {
    assert StartsWith(word, "i") by { assert "i"[0] == "inf"[0]; }
    assert "infi"[3] == 'i' && "infinity"[4] == 'n' && "infinity"[3] == 'i';
    hide StartsWith, EndsWord;
    WordInFront(word, rest, "i");
    WordInFront(word, rest, "inf");
    if |word| == 3 {
      WordBehind(word, rest, "infi");
      WordBehind(word, rest, "infinity");
    } else if |word| == 4 {
      WordInFront(word, rest, "infi");
      WordBehind(word, rest, "infinity");
    } else {
      WordInFront(word, rest, "infinity");
    }
  }

  /** nan, with an optional name in parentheses, which must be closed. */
  lemma {:induction false} NaNIsRead(negative: bool, rest: string, name: string)
    requires EndsWord(rest) && WordCount(name) == |name|
    ensures ScanUnsigned(negative, "nan" + rest) == Some((NaN, rest))
    ensures ScanUnsigned(negative, "nan(" + (name + (")" + rest))) == Some((NaN, rest))
    ensures ScanUnsigned(negative, "nan(" + name) == None
  {
    NameIsRead(name, rest);
    var plain, closed, open := "nan" + rest, "nan(" + (name + (")" + rest)), "nan(" + name;
    assert plain[3..] == rest && (rest != [] ==> plain[3] == rest[0]);
    OnlyNaN(negative, plain);
    OnlyNaN(negative, closed);
    OnlyNaN(negative, open);
    hide WordCount, StartsWith, ScanUnsigned;
  }

  lemma {:induction false} OnlyNaN(negative: bool, body: string)
    requires |body| >= 3 && body[0] == 'n' && body[1] == 'a' && body[2] == 'n'
    ensures StartsWith(body, "nan") && ScanUnsigned(negative, body) == ScanNaN(body)
  {
    hide ScanNaN;
    assert "i"[0] == 'i' && "n"[0] == 'n';
  }

  lemma {:induction false} NameIsRead(name: string, rest: string)
    requires WordCount(name) == |name|
    ensures var closed, open := "nan(" + (name + (")" + rest)), "nan(" + name;
            && WordCount(closed[4..]) == |name| && closed[4 + |name|] == ')' && closed[5 + |name|..] == rest
            && WordCount(open[4..]) == |name|
  {
    var closed, open := "nan(" + (name + (")" + rest)), "nan(" + name;
    assert closed[4..] == name + (")" + rest) && open[4..] == name;
    assert closed == (("nan(" + name) + ")") + rest;
    WordStops(name, ")" + rest);
  }

  lemma {:induction false} WordStops(name: string, tail: string)
    requires WordCount(name) == |name| && tail != [] && tail[0] == ')'
    ensures WordCount(name + tail) == |name|
  {
    if name == [] {
      assert name + tail == tail;
    } else {
      assert (name + tail)[1..] == name[1..] + tail;
      WordStops(name[1..], tail);
    }
  }

  predicate AllHex(s: string) { forall i :: 0 <= i < |s| ==> HexDigit(s[i]).Some? }

  /** The number a hexadecimal digit string denotes. */
  function HexValue(s: string): nat
    requires AllHex(s)
  {
    if s == [] then 0 else 16 * HexValue(s[..|s| - 1]) + HexDigit(s[|s| - 1]).value
  }

  lemma {:induction false} HexReadsText(before: string, s: string, rest: string)
    requires AllHex(before) && AllHex(s) && (rest == [] || HexDigit(rest[0]) == None)
    ensures AllHex(before + s) && ScanHex(s + rest, HexValue(before)) == (HexValue(before + s), |s|, rest)
    decreases |s|
  {
    if s == [] {
      assert s + rest == rest && before + s == before;
    } else {
      var next := before + [s[0]];
      assert next[..|before|] == before;
      assert (s + rest)[1..] == s[1..] + rest && next + s[1..] == before + s;
      HexReadsText(next, s[1..], rest);
    }
  }

  /** Hexadecimal notation: all digits before and behind the point, and a binary exponent. */
  lemma {:induction false} HexadecimalReadsText(negative: bool, whole: string, fraction: string, mark: char,
                                                minus: bool, digits: string, rest: string)
    requires AllHex(whole) && AllHex(fraction) && whole + fraction != [] && (mark == 'p' || mark == 'P')
    requires AllDigits(digits) && EndsWord(rest)
    ensures AllHex(whole + fraction)
    ensures var v: int, e: int := HexValue(whole + fraction), ValueOf(digits);
            ScanUnsigned(negative, "0x" + (whole + ("." + (fraction + (Exponent(mark, minus, digits) + rest))))) ==
              if digits == [] then None
              else Some((Binary(if negative then -v else v, (if minus then -e else e) - 4 * |fraction|), rest))
  {
    hide ScanHex, ScanExponent, StartsWith, ScanDecimal, ScanInfinity, ScanNaN, ScanHexadecimal, ValueOf, HexValue,
         AllDigits;
    var after := Exponent(mark, minus, digits) + rest;
    assert after[0] == mark && HexDigit('.') == None && HexDigit(mark) == None;
    hide Exponent, HexDigit, EndsWord;
    var point := "." + (fraction + after);
    assert point[0] == '.' && point[1..] == fraction + after;
    NoHex();
    HexReadsText([], whole, point);
    HexReadsText(whole, fraction, after);
    assert [] + whole == whole;
    assert |whole| + |fraction| > 0 by { assert |whole + fraction| == |whole| + |fraction|; }
    ExponentReadsText('p', 'P', mark, minus, digits, rest);
    OnlyHexadecimal(negative, whole + point);
    HexadecimalParts(negative, whole + point, HexValue(whole), |whole|, point, HexValue(whole + fraction), |fraction|,
                     after);
  }

  lemma {:induction false} NoHex()
    ensures AllHex([]) && HexValue([]) == 0
  {
  }

  lemma {:induction false} HexadecimalParts(negative: bool, s: string, w: nat, n: nat, tail: string, v: nat, k: nat,
                                            after: string)
    requires ScanHex(s, 0) == (w, n, tail) && tail != [] && tail[0] == '.'
    requires ScanHex(tail[1..], w) == (v, k, after) && n + k > 0
    ensures var m: int := v;
            ScanHexadecimal(negative, s) ==
              match ScanExponent(after, 'p', 'P')
              case None => None
              case Some((e, rest)) => Some((Binary(if negative then -m else m, e - 4 * k), rest))
  {
    hide ScanHex, ScanExponent;
  }

  lemma {:induction false} OnlyHexadecimal(negative: bool, s: string)
    ensures ScanUnsigned(negative, "0x" + s) == ScanHexadecimal(negative, s)
  {
    hide ScanHexadecimal;
    var body := "0x" + s;
    assert body[0] == '0' && body[1] == 'x' && body[2..] == s;
    assert "i"[0] == 'i' && "n"[0] == 'n' && "0x"[0] == '0' && "0x"[1] == 'x';
  }

  lemma {:induction false} ItemReadsText(p: Piece, rest: string)
    requires p.Fits() && EndsNumber(rest)
    ensures ScanItem(p.Item(), p.Text() + rest) == Some((p.Value(), rest))
  {
    match p
    case Literal(w) => assert (w + rest)[|w|..] == rest;
    case Whole(f) => ScanIntReadsText(f, rest);
    case Decimal(f) => ScanDoubleReadsText(f, rest);
  }

  lemma {:induction false} RemainderStart(pieces: seq<Piece>)
    requires AllFit(pieces)
    ensures EndsNumber(Remainder(pieces)) && SkipSpaces(Remainder(pieces)) == Render(pieces)
  {
    if pieces != [] {
      if !pieces[0].Literal? {
        TextStart(pieces[0].f, Remainder(pieces[1..]));
      }
      assert Remainder(pieces)[1..] == Render(pieces);
      assert SkipSpaces(Render(pieces)) == Render(pieces);
    }
  }

  /** sscanf undoes Render, for every format: all numbers are assigned, each to the value its text
      denotes. */
  lemma {:induction false} ScanUndoesRender(pieces: seq<Piece>)
    requires AllFit(pieces)
    ensures Sscanf(Format(pieces), Render(pieces)) == Values(pieces)
  {
    if pieces != [] {
      var rest := pieces[1..];
      ScanUndoesRender(rest);
      RemainderStart(rest);
      ItemReadsText(pieces[0], Remainder(rest));
      SscanfStep(pieces[0].Item(), Format(rest), pieces[0].Text() + Remainder(rest), pieces[0].Value(),
                 Remainder(rest));
      assert [pieces[0]] + rest == pieces;
      Prepend(pieces[0], rest);
    }
  }

  lemma {:induction false} SscanfStep(item: Item, format: seq<Item>, s: string, v: seq<Number>, rest: string)
    requires ScanItem(item, s) == Some((v, rest))
    ensures Sscanf([item] + format, s) == v + Sscanf(format, SkipSpaces(rest))
  {
    assert ([item] + format)[1..] == format;
  }

  /** Render and Values of a list built in front. */
  lemma {:induction false} Prepend(p: Piece, rest: seq<Piece>)
    requires p.Fits() && AllFit(rest)
    ensures AllFit([p] + rest)
    ensures Render([p] + rest) == p.Text() + Remainder(rest)
    ensures Values([p] + rest) == p.Value() + Values(rest)
    ensures Format([p] + rest) == [p.Item()] + Format(rest)
  {
    hide Piece.Fits, Piece.Text, Piece.Value, Piece.Item;
    var all := [p] + rest;
    assert all[0] == p && all[1..] == rest;
    assert forall i :: 1 <= i < |all| ==> all[i] == rest[i - 1];
  }

  /** A format, a text of that shape and the numbers in it; rest is the text with a blank in front,
      or nothing for the empty format. */
  datatype Sample = Sample(pieces: seq<Piece>, format: seq<Item>, text: string, rest: string, values: seq<Number>) {
    predicate Sound() {
      && AllFit(pieces) && format == Format(pieces) && text == Render(pieces)
      && rest == Remainder(pieces) && values == Values(pieces)
    }
  }

  lemma {:induction false} Extend(p: Piece, x: Sample) returns (y: Sample)
    requires p.Fits() && x.Sound()
    ensures y.Sound()
    ensures y.format == [p.Item()] + x.format && y.values == p.Value() + x.values
    ensures y.text == p.Text() + x.rest && y.rest == " " + y.text
  {
    Prepend(p, x.pieces);
    var ps := [p] + x.pieces;
    y := Sample(ps, Format(ps), Render(ps), Remainder(ps), Values(ps));
  }

  lemma {:induction false} Nothing() returns (y: Sample)
    ensures y.Sound() && y.format == [] && y.values == [] && y.rest == []
  {
    y := Sample([], [], [], [], []);
  }

  lemma {:induction false} SampleScans(x: Sample)
    requires x.Sound()
    ensures Sscanf(x.format, x.text) == x.values
  {
    ScanUndoesRender(x.pieces);
  }
}
