/** Decimal text as the order codec prints and reads it: printf's %d and %ld, strtol, strtok_r on
    blanks, and the exact parsers that accept nothing but the printer's own output. */
module OrderText {
  import opened Options

  type CInt = n: int | -0x8000_0000 <= n <= 0x7fff_ffff

  const LONG_MAX: int := 0x7fff_ffff_ffff_ffff
  const LONG_MIN: int := -0x8000_0000_0000_0000

  type CLong = n: int | LONG_MIN <= n <= LONG_MAX

  // ---- Printing ----------------------------------------------------------------------------

  const DIGITS: string := "0123456789"

  predicate IsDigit(c: char) {
    '0' <= c <= '9'
  }

  function DigitOf(c: char): nat
    requires IsDigit(c)
  {
    c as nat - '0' as nat
  }

  function PrintNat(n: nat): (text: string)
    ensures |text| > 0
  {
    if n < 10 then [DIGITS[n]] else PrintNat(n / 10) + [DIGITS[n % 10]]
  }

  function Print(n: int): string {
    if n < 0 then "-" + PrintNat(-n) else PrintNat(n)
  }

  // ---- strtol ------------------------------------------------------------------------------

  predicate IsSpace(c: char) {
    c == ' ' || '\t' <= c <= '\r'
  }

  function SkipSpaces(text: string): string {
    if text != "" && IsSpace(text[0]) then SkipSpaces(text[1..]) else text
  }

  function DigitRun(text: string): (run: string)
    ensures forall i :: 0 <= i < |run| ==> IsDigit(run[i])
  {
    if text != "" && IsDigit(text[0]) then [text[0]] + DigitRun(text[1..]) else ""
  }

  function Value(digits: string): nat
    requires forall i :: 0 <= i < |digits| ==> IsDigit(digits[i])
  {
    if digits == "" then 0 else 10 * Value(digits[..|digits| - 1]) + DigitOf(digits[|digits| - 1])
  }

  /** What strtol reports in base 10: the value, clamped to a long, whether it had to clamp (ERANGE),
      and the text it stopped at. */
  datatype Scan = Scan(value: CLong, outOfRange: bool, rest: string)

  function Strtol(text: string): Scan {
    var trimmed := SkipSpaces(text);
    var signed := trimmed != "" && (trimmed[0] == '-' || trimmed[0] == '+');
    var body := if signed then trimmed[1..] else trimmed;
    var run := DigitRun(body);
    if run == "" then Scan(0, false, text)
    else
      RunIsPrefix(body);
      var magnitude: int := Value(run);
      var value: int := if signed && trimmed[0] == '-' then -magnitude else magnitude;
      if value > LONG_MAX then Scan(LONG_MAX, true, body[|run|..])
      else if value < LONG_MIN then Scan(LONG_MIN, true, body[|run|..])
      else Scan(value, false, body[|run|..])
  }

  lemma {:induction false} RunIsPrefix(text: string)
    ensures DigitRun(text) <= text
  {
    if text != "" && IsDigit(text[0]) { RunIsPrefix(text[1..]); }
  }

  // ---- The exact parsers -------------------------------------------------------------------

  /** parse_long_exact: strtol must consume the whole text, and printing the value must give the
      text back. */
  function ParseLong(text: Option<string>): Option<CLong> {
    if text.None? || text.value == "" then None
    else
      var scan := Strtol(text.value);
      if scan.outOfRange || scan.rest == text.value || scan.rest != "" then None
      else if text.value != Print(scan.value) then None
      else Some(scan.value)
  }

  function ParseInt(text: Option<string>): Option<CInt> {
    var parsed := ParseLong(text);
    if parsed.None? || parsed.value < -0x8000_0000 || parsed.value > 0x7fff_ffff then None
    else Some(parsed.value)
  }

  lemma DigitsAreDigits(d: nat)
    requires d < 10
    ensures IsDigit(DIGITS[d]) && DigitOf(DIGITS[d]) == d
  {
  }

  /** Printed naturals are digits, and their value is what was printed. */
  lemma {:induction false} PrintNatReadsBack(n: nat)
    ensures var t := PrintNat(n);
            && (forall i :: 0 <= i < |t| ==> IsDigit(t[i]))
            && Value(t) == n
  {
    DigitsAreDigits(n % 10);
    var t := PrintNat(n);
    if n >= 10 {
      PrintNatReadsBack(n / 10);
      assert t[..|t| - 1] == PrintNat(n / 10);
    } else {
      assert t[..0] == "";
    }
  }

  lemma {:induction false} AllDigitsRun(text: string)
    requires forall i :: 0 <= i < |text| ==> IsDigit(text[i])
    ensures DigitRun(text) == text
  {
    if text != "" {
      AllDigitsRun(text[1..]);
    }
  }

  /** strtol reads a printed long back, to the last character and without clamping. */
  lemma StrtolReadsPrinted(n: CLong)
    ensures Strtol(Print(n)) == Scan(n, false, "") && Print(n) != ""
  {
    hide DigitRun, Value;
    var signed: int := n;
    var m: nat := if signed < 0 then -signed else signed;
    PrintNatReadsBack(m);
    AllDigitsRun(PrintNat(m));
    assert n < 0 ==> Print(n)[1..] == PrintNat(m);
    assert SkipSpaces(Print(n)) == Print(n);
  }

  /** The exact long parser accepts precisely the printer's image: no signs, leading zeros, blanks,
      trailing text or out-of-range values slip through, and no printed long is refused. */
  lemma ParseLongIsInverseOfPrint(text: string, v: CLong)
    ensures ParseLong(Some(text)) == Some(v) <==> text == Print(v)
  {
    StrtolReadsPrinted(v);
  }

  lemma ParseIntIsInverseOfPrint(text: string, v: CInt)
    ensures ParseInt(Some(text)) == Some(v) <==> text == Print(v)
  {
    ParseLongIsInverseOfPrint(text, v);
  }

  // ---- Tokens ------------------------------------------------------------------------------

  /** What repeated strtok_r calls on blanks return, `word` being the token read so far. */
  function TokensFrom(text: string, word: string): seq<string> {
    var done := if word == "" then [] else [word];
    if text == "" then done
    else if text[0] == ' ' then done + TokensFrom(text[1..], "")
    else TokensFrom(text[1..], word + [text[0]])
  }

  function Tokens(text: string): seq<string> {
    TokensFrom(text, "")
  }

  predicate Blankless(text: string) {
    forall i :: 0 <= i < |text| ==> text[i] != ' '
  }

  lemma {:induction false} WordIsRead(w: string, rest: string, word: string)
    requires Blankless(w)
    ensures TokensFrom(w + rest, word) == TokensFrom(rest, word + w)
    decreases |w|
  {
    if w == "" {
      assert w + rest == rest && word + w == word;
    } else {
      assert (w + rest)[1..] == w[1..] + rest;
      assert (word + [w[0]]) + w[1..] == word + w;
      WordIsRead(w[1..], rest, word + [w[0]]);
    }
  }

  lemma TokenThenRest(w: string, rest: string)
    requires Blankless(w) && w != ""
    ensures Tokens(w + " " + rest) == [w] + Tokens(rest)
    ensures Tokens(w) == [w]
  {
    WordIsRead(w, " " + rest, "");
    assert w + " " + rest == w + (" " + rest) && "" + w == w;
    assert (" " + rest)[1..] == rest;
    WordIsRead(w, "", "");
    assert w + "" == w;
  }

  lemma PrintedIsBlankless(n: int)
    ensures Blankless(Print(n)) && Print(n) != ""
  {
    PrintNatReadsBack(if n < 0 then -n else n);
  }

  function RadiusText(x: int, y: int, radius: int): string {
    "radius " + Print(x) + " " + Print(y) + " " + Print(radius)
  }

  function TargetText(target: int): string {
    "target " + Print(target)
  }

  /** parse_radius: four tokens, three exact ints, and the text must be what printing them gives. */
  function ParseRadius(text: Option<string>): Option<(CInt, CInt, CInt)> {
    if text.None? then None
    else
      var tokens := Tokens(text.value);
      if |tokens| != 4 || tokens[0] != "radius" then None
      else
        var x, y, radius := ParseInt(Some(tokens[1])), ParseInt(Some(tokens[2])), ParseInt(Some(tokens[3]));
        if x.None? || y.None? || radius.None? then None
        else if text.value != RadiusText(x.value, y.value, radius.value) then None
        else Some((x.value, y.value, radius.value))
  }

  /** parse_target_mode */
  function ParseTarget(text: Option<string>): Option<CLong> {
    if text.None? then None
    else
      var tokens := Tokens(text.value);
      if |tokens| != 2 || tokens[0] != "target" then None
      else
        var target := ParseLong(Some(tokens[1]));
        if target.None? || text.value != TargetText(target.value) then None else target
  }

  lemma ParseRadiusIsInverse(text: string, x: CInt, y: CInt, radius: CInt)
    ensures ParseRadius(Some(text)) == Some((x, y, radius)) <==> text == RadiusText(x, y, radius)
  {
    hide Print, ParseInt;
    if text == RadiusText(x, y, radius) {
      PrintedIsBlankless(x);
      PrintedIsBlankless(y);
      PrintedIsBlankless(radius);
      assert text == "radius" + " " + (Print(x) + " " + (Print(y) + " " + Print(radius)));
      TokenThenRest("radius", Print(x) + " " + (Print(y) + " " + Print(radius)));
      TokenThenRest(Print(x), Print(y) + " " + Print(radius));
      TokenThenRest(Print(y), Print(radius));
      TokenThenRest(Print(radius), "");
      ParseIntIsInverseOfPrint(Print(x), x);
      ParseIntIsInverseOfPrint(Print(y), y);
      ParseIntIsInverseOfPrint(Print(radius), radius);
    }
  }

  lemma ParseTargetIsInverse(text: string, target: CLong)
    ensures ParseTarget(Some(text)) == Some(target) <==> text == TargetText(target)
  {
    if text == TargetText(target) {
      PrintedIsBlankless(target);
      assert text == "target" + " " + Print(target);
      TokenThenRest("target", Print(target));
      TokenThenRest(Print(target), "");
      ParseLongIsInverseOfPrint(Print(target), target);
    }
  }
}
