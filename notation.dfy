/** The dice notation recognised by `EZDice`: a left-to-right scanner equivalent
    to running `preg_match_all` with the pattern at ezdice.php:10.  Captures are
    kept as the digit strings PHP receives; the evaluator decides what they mean.

    At a start position p the pattern reads an optional `+`/`-`, any whitespace,
    one or more digits (greedily) and then, in `Tolerant` mode (`roll`, whose
    pattern ends in an extra `?`) optionally and in `DiceOnly` mode
    (`strContainsDice`) necessarily, a dice suffix: `d`/`D`, digits or `%`, and
    optionally `-` with a drop letter and digits.  Every later element is
    optional or greedy with nothing after it that could fail, so the first path
    the regex engine tries is the one that succeeds; when the operator is taken
    and no digit follows, the engine's other path (no operator) starts with the
    sign itself and fails too.  A failed start position moves the search on by
    one character, a successful one moves it to the end of the match. */
module Notation {
  import opened Optional
  import opened Numerals
  import opened PregMatchAll

  datatype Sign = Plus | Minus
  datatype Sides = Numbered(text: string) | Percentile
  datatype DropKind = Lowest | Highest
  /** `-L`/`-H` (any case) with the optional quantity digits. */
  datatype DropRule = DropRule(kind: DropKind, quantity: Option<string>)

  datatype Token =
    | Modifier(sign: Sign, number: string)
    | Dice(sign: Sign, number: string, sides: Sides, drop: Option<DropRule>)

  datatype Mode = Tolerant | DiceOnly

  /** Every capture of a token is a non-empty run of digits, as the pattern
      guarantees. */
  predicate WellFormed(t: Token) {
    && |t.number| > 0 && AllDigits(t.number)
    && (t.Dice? && t.sides.Numbered? ==> |t.sides.text| > 0 && AllDigits(t.sides.text))
    && (t.Dice? && t.drop.Some? && t.drop.value.quantity.Some? ==>
          |t.drop.value.quantity.value| > 0 && AllDigits(t.drop.value.quantity.value))
  }

  datatype Suffix = Suffix(sides: Sides, drop: Option<DropRule>, end: nat)

  /** `\s` without Unicode support: space, \t, \n, \v, \f, \r. */
  predicate IsSpace(c: char) {
    c == ' ' || c == '\t' || c == '\n' || c == '\r' || c == '\U{000B}' || c == '\U{000C}'
  }

  predicate IsSign(c: char) {
    c == '+' || c == '-'
  }

  predicate IsDieLetter(c: char) {
    c == 'd' || c == 'D'
  }

  /** `\s*` from p: the end of the whitespace run. */
  function SkipSpaces(s: string, p: nat): (q: nat)
    requires p <= |s|
    ensures p <= q <= |s|
    ensures forall k :: p <= k < q ==> IsSpace(s[k])
    ensures q == |s| || !IsSpace(s[q])
    decreases |s| - p
  {
    if p < |s| && IsSpace(s[p]) then SkipSpaces(s, p + 1) else p
  }

  /** `\d+` (greedy) from p: the end of the digit run, p itself when there is none. */
  function DigitsEnd(s: string, p: nat): (q: nat)
    requires p <= |s|
    ensures p <= q <= |s|
    ensures forall k :: p <= k < q ==> IsDigit(s[k])
    ensures q == |s| || !IsDigit(s[q])
    decreases |s| - p
  {
    if p < |s| && IsDigit(s[p]) then DigitsEnd(s, p + 1) else p
  }

  /** `(?:-(?<drop>[LlHh])(?<dquantity>\d+)?)?` from p: the rule and where it ends. */
  function DropAt(s: string, p: nat): (r: (Option<DropRule>, nat))
    requires p <= |s|
    ensures p <= r.1 <= |s|
    ensures r.0.None? <==> r.1 == p
    ensures r.0.Some? && r.0.value.quantity.Some? ==>
              |r.0.value.quantity.value| > 0 && AllDigits(r.0.value.quantity.value)
  {
    if p + 1 < |s| && s[p] == '-' && s[p + 1] in "LlHh" then
      var kind := if s[p + 1] in "Ll" then Lowest else Highest;
      var e := DigitsEnd(s, p + 2);
      (Some(DropRule(kind, if e > p + 2 then Some(s[p + 2..e]) else None)), e)
    else
      (None, p)
  }

  /** `[dD](?<sides>(?:\d+|%))` and the drop rule after it, from p. */
  function DiceSuffix(s: string, p: nat): (r: Option<Suffix>)
    requires p <= |s|
    ensures r.Some? ==> p + 2 <= r.value.end <= |s|
    ensures r.Some? <==> p + 1 < |s| && IsDieLetter(s[p]) && (IsDigit(s[p + 1]) || s[p + 1] == '%')
    ensures r.Some? && r.value.sides.Numbered? ==> |r.value.sides.text| > 0 && AllDigits(r.value.sides.text)
    ensures r.Some? && r.value.drop.Some? && r.value.drop.value.quantity.Some? ==>
              |r.value.drop.value.quantity.value| > 0 && AllDigits(r.value.drop.value.quantity.value)
  {
    if p + 1 < |s| && IsDieLetter(s[p]) then
      if IsDigit(s[p + 1]) then
        var e := DigitsEnd(s, p + 1);
        var drop := DropAt(s, e);
        Some(Suffix(Numbered(s[p + 1..e]), drop.0, drop.1))
      else if s[p + 1] == '%' then
        var drop := DropAt(s, p + 2);
        Some(Suffix(Percentile, drop.0, drop.1))
      else
        None
    else
      None
  }

  /** The match of the pattern that starts exactly at p, if any. */
  function MatchAt(s: string, p: nat, mode: Mode): (m: Option<Match<Token>>)
    requires p < |s|
    ensures m.Some? ==> p < m.value.end <= |s|
  {
    var sign := SignOf(s[p]);
    var r := SkipSpaces(s, if IsSign(s[p]) then p + 1 else p);
    var e := DigitsEnd(s, r);
    if e == r then None
    else
      var number := s[r..e];
      match DiceSuffix(s, e)
      case Some(suffix) => Some(Match(Dice(sign, number, suffix.sides, suffix.drop), suffix.end))
      case None => if mode == Tolerant then Some(Match(Modifier(sign, number), e)) else None
  }

  /** What a match guarantees: its sign is `-` exactly when it starts with `-`,
      every capture is a run of digits, and with the dice suffix required it is
      a dice group. */
  lemma MatchFacts(s: string, p: nat, mode: Mode)
    requires p < |s| && MatchAt(s, p, mode).Some?
    ensures MatchAt(s, p, mode).value.token.sign == Minus <==> s[p] == '-'
    ensures WellFormed(MatchAt(s, p, mode).value.token)
    ensures mode == DiceOnly ==> MatchAt(s, p, mode).value.token.Dice?
  {
  }

  /** The pattern as the search loop sees it: a match, if any, at each start. */
  function Matcher(s: string, mode: Mode): nat -> Option<Match<Token>> {
    (q: nat) => if q < |s| then MatchAt(s, q, mode) else None
  }

  /** All matches from p on, in order: `preg_match_all` from offset p. */
  function Scan(s: string, p: nat, mode: Mode): (r: seq<Token>)
    requires p <= |s|
    ensures |r| <= |s| - p
  {
    MatchAll(|s|, p, Matcher(s, mode))
  }

  /** Each token of a scan is the match at some start position q: its captures
      are digit runs and its sign is `-` exactly when the text at q is `-`. */
  lemma TokenOrigin(s: string, p: nat, mode: Mode, k: nat) returns (q: nat)
    requires p <= |s| && k < |Scan(s, p, mode)|
    ensures p <= q < |s| && MatchAt(s, q, mode).Some? && MatchAt(s, q, mode).value.token == Scan(s, p, mode)[k]
    ensures WellFormed(Scan(s, p, mode)[k])
    ensures Scan(s, p, mode)[k].sign == Minus <==> s[q] == '-'
  {
    q := FromMatches(|s|, p, Matcher(s, mode), k);
    MatchFacts(s, q, mode);
  }

  /** The dice groups and modifiers `roll` finds in a string. */
  function Tokens(s: string): (r: seq<Token>)
    ensures |r| <= |s|
  {
    Scan(s, 0, Tolerant)
  }

  /** A dice group in its shortest form starts at i: a digit, the die letter,
      then a digit or `%`. */
  predicate DiceAt(s: string, i: int) {
    0 <= i && i + 2 < |s| && IsDigit(s[i]) && IsDieLetter(s[i + 1]) && (IsDigit(s[i + 2]) || s[i + 2] == '%')
  }

  // ---------------------------------------------------------------------------
  // What the scan finds

  /** From p on there is no digit, so there is no match. */
  lemma NoDigitScansEmpty(s: string, p: nat, mode: Mode)
    requires p <= |s|
    requires forall k :: p <= k < |s| ==> !IsDigit(s[k])
    ensures Scan(s, p, mode) == []
  {
    forall k | p <= k < |s| ensures Matcher(s, mode)(k).None? {
      NoDigitNoMatch(s, k, mode);
    }
    Skips(|s|, p, |s|, Matcher(s, mode));
  }

  /** Start positions inside a whitespace run that is not followed by a digit
      match nothing. */
  lemma ScanSkipsSpaces(s: string, p: nat, q: nat, mode: Mode)
    requires p <= q < |s| && SkipSpaces(s, p) == q && !IsDigit(s[q])
    ensures Scan(s, p, mode) == Scan(s, q, mode)
  {
    forall k | p <= k < q ensures Matcher(s, mode)(k).None? {
      SkipSpacesFrom(s, p, k);
      assert IsSpace(s[k]) && !IsSign(s[k]);
    }
    Skips(|s|, p, q, Matcher(s, mode));
  }

  /** A digit at i always starts at least a modifier match. */
  lemma DigitStartsMatch(s: string, i: nat)
    requires i < |s| && IsDigit(s[i])
    ensures MatchAt(s, i, Tolerant).Some?
  {
  }

  /** Without a digit there is nothing to match. */
  lemma NoDigitNoMatch(s: string, p: nat, mode: Mode)
    requires p < |s|
    requires forall k :: p <= k < |s| ==> !IsDigit(s[k])
    ensures MatchAt(s, p, mode).None?
  {
    var r := SkipSpaces(s, if IsSign(s[p]) then p + 1 else p);
    assert DigitsEnd(s, r) == r;
  }

  /** `roll` finds no dice group and no modifier exactly when the string holds
      no digit at all (the empty string among them). */
  lemma NoTokensIffNoDigit(s: string)
    ensures Tokens(s) == [] <==> forall k :: 0 <= k < |s| ==> !IsDigit(s[k])
  {
    if forall k :: 0 <= k < |s| ==> !IsDigit(s[k]) {
      NoDigitScansEmpty(s, 0, Tolerant);
    } else {
      var i :| 0 <= i < |s| && IsDigit(s[i]);
      DigitStartsMatch(s, i);
      FindsMatch(|s|, 0, i, Matcher(s, Tolerant));
    }
  }

  /** A match in `DiceOnly` mode always contains `DiceAt` at the last digit of
      its count. */
  lemma DiceMatchHasDiceAt(s: string, p: nat) returns (i: nat)
    requires p < |s| && MatchAt(s, p, DiceOnly).Some?
    ensures DiceAt(s, i)
  {
    var r := SkipSpaces(s, if IsSign(s[p]) then p + 1 else p);
    var e := DigitsEnd(s, r);
    i := e - 1;
  }

  /** `DiceAt` at i is a `DiceOnly` match starting at i. */
  lemma DiceAtMatches(s: string, i: nat)
    requires DiceAt(s, i)
    ensures MatchAt(s, i, DiceOnly).Some?
  {
    assert DigitsEnd(s, i + 1) == i + 1;
    assert DigitsEnd(s, i) == i + 1;
  }

  /** The test behind `strContainsDice`: some match of the pattern with the dice
      suffix required exists exactly when a digit, a die letter and a digit or
      `%` stand next to each other somewhere; a zero count or zero sides
      (`0d6`) still counts. */
  lemma ContainsDiceIff(s: string)
    ensures Scan(s, 0, DiceOnly) != [] <==> exists i :: DiceAt(s, i)
  {
    if Scan(s, 0, DiceOnly) != [] {
      var p := NeedsMatch(|s|, 0, Matcher(s, DiceOnly));
      var i := DiceMatchHasDiceAt(s, p);
    }
    if exists i :: DiceAt(s, i) {
      var i :| DiceAt(s, i);
      DiceAtMatches(s, i);
      FindsMatch(|s|, 0, i, Matcher(s, DiceOnly));
    }
  }

  // ---------------------------------------------------------------------------
  // Integer literals: the `is_numeric` short-circuit of `roll`

  function SignOf(c: char): Sign {
    if c == '-' then Minus else Plus
  }

  /** The value `(int)` gives a string that `is_numeric` accepts as an integer:
      whitespace, an optional sign, decimal digits, whitespace.  Fractions and
      exponents are not modelled. */
  function IntegerLiteral(s: string): (r: Option<int>)
    ensures r.Some? ==> exists p :: 0 <= p < |s| && IsDigit(s[p])
  {
    var lead := SkipSpaces(s, 0);
    var start := if lead < |s| && IsSign(s[lead]) then lead + 1 else lead;
    var e := DigitsEnd(s, start);
    if e > start && SkipSpaces(s, e) == |s| then
      var magnitude: int := DecimalValue(s[start..e]);
      Some(if lead < |s| && s[lead] == '-' then -magnitude else magnitude)
    else
      None
  }

  /** The value a modifier token adds: its digits, negated after a `-`. */
  function ModifierValue(t: Token): int {
    var magnitude: int := DecimalValue(t.number);
    if t.sign == Minus then -magnitude else magnitude
  }

  /** At p the pattern reads the optional sign and whitespace up to `start`, then
      the digits up to e, and no dice suffix follows: a modifier match. */
  lemma ModifierMatchAt(s: string, p: nat, start: nat, e: nat)
    requires p < |s|
    requires SkipSpaces(s, if IsSign(s[p]) then p + 1 else p) == start
    requires start < e == DigitsEnd(s, start)
    requires e == |s| || IsSpace(s[e])
    ensures MatchAt(s, p, Tolerant) == Some(Match(Modifier(SignOf(s[p]), s[start..e]), e))
  {
    assert DiceSuffix(s, e).None?;
  }

  /** Where the parts of an integer literal lie: the scan's match starts at p
      (the first character, or the sign after leading whitespace), the digits
      run from start to e and only whitespace follows. */
  lemma LiteralParts(s: string) returns (p: nat, start: nat, e: nat)
    requires IntegerLiteral(s).Some?
    ensures p < start < e <= |s| || p == start < e <= |s|
    ensures SkipSpaces(s, if IsSign(s[p]) then p + 1 else p) == start
    ensures e == DigitsEnd(s, start) && SkipSpaces(s, e) == |s|
    ensures p == 0 || (SkipSpaces(s, 0) == p && !IsDigit(s[p]))
    ensures IntegerLiteral(s).value == ModifierValue(Modifier(SignOf(s[p]), s[start..e]))
  {
    var lead := SkipSpaces(s, 0);
    var signed := lead < |s| && IsSign(s[lead]);
    start := if signed then lead + 1 else lead;
    e := DigitsEnd(s, start);
    p := if signed then lead else 0;
    if signed {
      SkipSpacesFrom(s, 0, p);
    }
  }

  /** The scan from p of a modifier followed by nothing but whitespace. */
  lemma LoneModifierScan(s: string, p: nat, start: nat, e: nat)
    requires p < |s|
    requires SkipSpaces(s, if IsSign(s[p]) then p + 1 else p) == start
    requires start < e == DigitsEnd(s, start) && SkipSpaces(s, e) == |s|
    ensures Scan(s, p, Tolerant) == [Modifier(SignOf(s[p]), s[start..e])]
  {
    ModifierMatchAt(s, p, start, e);
    Takes(|s|, p, Matcher(s, Tolerant));
    NoDigitScansEmpty(s, e, Tolerant);
  }

  /** The token the scan of `roll` makes of an integer literal is one modifier
      with its sign and digits, so the short-circuit and the general path agree. */
  lemma LiteralScansAsModifier(s: string) returns (t: Token)
    requires IntegerLiteral(s).Some?
    ensures Tokens(s) == [t] && t.Modifier?
    ensures IntegerLiteral(s).value == ModifierValue(t)
  {
    var p, start, e := LiteralParts(s);
    LoneModifierScan(s, p, start, e);
    if p > 0 {
      ScanSkipsSpaces(s, 0, p, Tolerant);
    }
    t := Modifier(SignOf(s[p]), s[start..e]);
  }

  /** A sign followed by nothing but digits is an integer literal. */
  lemma SignedDigitsLiteral(s: string)
    requires |s| >= 2 && IsSign(s[0]) && AllDigits(s[1..])
    ensures IntegerLiteral(s) == Some(if s[0] == '-' then -(DecimalValue(s[1..]) as int) else DecimalValue(s[1..]))
  {
    assert !IsSpace(s[0]);
    assert SkipSpaces(s, 0) == 0;
    forall k | 1 <= k < |s| ensures IsDigit(s[k]) { assert s[k] == s[1..][k - 1]; }
    assert DigitsEnd(s, 1) == |s|;
    assert s[1..|s|] == s[1..];
  }

  /** What `sprintf("%+d", m)` prints reads back as m: the text `getModifier`
      returns is an integer literal of the combined modifier. */
  lemma FormatSignedParses(m: int)
    ensures IntegerLiteral(FormatSigned(m)) == Some(m)
  {
    SignedDigitsLiteral(FormatSigned(m));
  }

  /** Whitespace runs: starting inside one ends at the same place. */
  lemma {:induction false} SkipSpacesFrom(s: string, p: nat, k: nat)
    requires p <= |s| && p <= k <= SkipSpaces(s, p)
    ensures SkipSpaces(s, k) == SkipSpaces(s, p)
    decreases k - p
  {
    if p < k {
      SkipSpacesFrom(s, p + 1, k);
    }
  }
}
