/**
 Reading "resets in 13 days" out of free text. The pattern is matched greedily
 without backtracking; the lemmas show that this finds exactly the phrases the
 pattern describes.
 */
module ResetCountdown {
  import opened Prelude

  datatype Unit = Day | Hour | Minute | Second {
    function Name(): string {
      match this
      case Day => "day"
      case Hour => "hour"
      case Minute => "minute"
      case Second => "second"
    }

    /** `n` of the unit, in milliseconds. */
    function Milliseconds(n: nat): nat {
      match this
      case Day => n * 86_400_000
      case Hour => n * 3_600_000
      case Minute => n * 60_000
      case Second => n * 1_000
    }
  }

  // ----- the pieces of the pattern -----

  predicate IsWordChar(c: char) {
    IsDigit(c) || 'a' <= c <= 'z' || 'A' <= c <= 'Z' || c == '_'
  }

  /** A word boundary after a word character. */
  predicate Boundary(rest: string) {
    rest == "" || !IsWordChar(rest[0])
  }

  predicate Run(s: string, inRun: char -> bool) {
    s != "" && forall i :: 0 <= i < |s| ==> inRun(s[i])
  }

  /** Length of the longest prefix whose characters satisfy a test. */
  function RunLength(s: string, inRun: char -> bool): (n: nat)
    ensures n <= |s|
    ensures forall i :: 0 <= i < n ==> inRun(s[i])
    ensures n < |s| ==> !inRun(s[n])
  {
    if s == "" || !inRun(s[0]) then 0 else 1 + RunLength(s[1..], inRun)
  }

  lemma {:induction false} RunLengthIs(run: string, rest: string, inRun: char -> bool)
    requires forall i :: 0 <= i < |run| ==> inRun(run[i])
    requires rest == "" || !inRun(rest[0])
    ensures RunLength(run + rest, inRun) == |run|
  {
    if run == "" {
      assert run + rest == rest;
    } else {
      RunLengthIs(run[1..], rest, inRun);
      assert (run + rest)[1..] == run[1..] + rest;
    }
  }

  const SPACES: char -> bool := (c: char) => IsSpace(c)
  const DIGITS: char -> bool := (c: char) => IsDigit(c)

  function SkipWord(s: Option<string>, word: string): Option<string> {
    if s.Some? && word <= s.value then Some(s.value[|word|..]) else None
  }

  function SkipRun(s: Option<string>, inRun: char -> bool): Option<string> {
    if s.Some? && RunLength(s.value, inRun) > 0 then Some(s.value[RunLength(s.value, inRun)..]) else None
  }

  predicate WordAt(s: string, word: string) {
    word <= s && Boundary(s[|word|..])
  }

  predicate UnitWordAt(s: string, u: Unit) {
    WordAt(s, u.Name()) || WordAt(s, u.Name() + "s")
  }

  function UnitAt(s: string): Option<Unit> {
    if UnitWordAt(s, Day) then Some(Day)
    else if UnitWordAt(s, Hour) then Some(Hour)
    else if UnitWordAt(s, Minute) then Some(Minute)
    else if UnitWordAt(s, Second) then Some(Second)
    else None
  }

  datatype Found = Found(digits: string, unit: Unit)

  function AfterReset(s: string): Option<string> {
    var reset := SkipWord(Some(s), "reset");
    if SkipWord(reset, "s").Some? then SkipWord(reset, "s") else reset
  }

  /** What follows "reset" or "resets", the word "in" and their spaces. */
  function AtDigits(s: string): Option<string> {
    SkipRun(SkipWord(SkipRun(AfterReset(s), SPACES), "in"), SPACES)
  }

  function CountAndUnit(s: string): Option<Found> {
    var unitText := SkipRun(SkipRun(Some(s), DIGITS), SPACES);
    if unitText.None? || UnitAt(unitText.value).None? then None
    else Some(Found(s[..RunLength(s, DIGITS)], UnitAt(unitText.value).value))
  }

  function MatchAt(s: string): Option<Found> {
    if AtDigits(s).None? then None else CountAndUnit(AtDigits(s).value)
  }

  type Matcher = string -> Option<Found>

  /** Tries a matcher at every position, left to right. */
  function Leftmost(text: string, matcher: Matcher): Option<Found> {
    if matcher(text).Some? then matcher(text)
    else if text == "" then None
    else Leftmost(text[1..], matcher)
  }

  const RESET_PHRASE: Matcher := (s: string) => MatchAt(s)

  function FirstMatch(text: string): Option<Found> {
    Leftmost(text, RESET_PHRASE)
  }

  function DigitValue(c: char): nat
    requires IsDigit(c)
  {
    (c as int) - ('0' as int)
  }

  function Value(digits: string): nat
    requires forall i :: 0 <= i < |digits| ==> IsDigit(digits[i])
  {
    if digits == "" then 0 else 10 * Value(digits[..|digits| - 1]) + DigitValue(digits[|digits| - 1])
  }

  function Decimal(n: nat): (digits: string)
    ensures Run(digits, DIGITS)
  {
    if n < 10 then [('0' as int + n) as char] else Decimal(n / 10) + [('0' as int + n % 10) as char]
  }

  lemma {:induction false} DecimalReadsBack(n: nat)
    ensures Value(Decimal(n)) == n
  {
    if n >= 10 {
      DecimalReadsBack(n / 10);
      var d := Decimal(n);
      assert d[..|d| - 1] == Decimal(n / 10);
    } else {
      assert Value(Decimal(n)[..0]) == 0;
    }
  }

  /** The leftmost match is the match at some position. */
  lemma {:induction false} LeftmostIsSomewhere(text: string, matcher: Matcher) returns (i: nat)
    requires Leftmost(text, matcher).Some?
    ensures i <= |text| && Leftmost(text, matcher) == matcher(text[i..])
  {
    if matcher(text).Some? {
      i := 0;
      assert text[0..] == text;
    } else {
      i := LeftmostIsSomewhere(text[1..], matcher);
      assert text[1..][i..] == text[i + 1..];
      i := i + 1;
    }
  }

  lemma MatchHasDigits(s: string)
    ensures MatchAt(s).Some? ==> Run(MatchAt(s).value.digits, DIGITS)
  {
  }

  lemma FirstMatchIsSomewhere(text: string) returns (i: nat)
    requires FirstMatch(text).Some?
    ensures i <= |text| && FirstMatch(text) == MatchAt(text[i..])
  {
    i := LeftmostIsSomewhere(text, RESET_PHRASE);
  }

  lemma FoundDigits(text: string)
    ensures FirstMatch(text).Some? ==> Run(FirstMatch(text).value.digits, DIGITS)
  {
    if FirstMatch(text).Some? {
      var i := FirstMatchIsSomewhere(text);
      MatchHasDigits(text[i..]);
    }
  }

  function InIntegers(found: Found): Option<nat>
    requires Run(found.digits, DIGITS)
  {
    if Value(found.digits) == 0 then None else Some(found.unit.Milliseconds(Value(found.digits)))
  }

  function ParseResetCountdownMs(text: string): Option<nat> {
    FoundDigits(text);
    if FirstMatch(text).None? then None else InIntegers(FirstMatch(text).value)
  }

  // ----- the pattern, declaratively -----

  /** One text the pattern matches: the pieces in order, spaces and digits nonempty, a boundary after the unit. */
  datatype Phrase = Phrase(plural: bool, gap1: string, gap2: string, digits: string, gap3: string, unit: Unit, units: bool) {
    predicate WellFormed() {
      Run(gap1, SPACES) && Run(gap2, SPACES) && Run(gap3, SPACES) && Run(digits, DIGITS)
    }

    function FromUnit(rest: string): string {
      (unit.Name() + if units then "s" else "") + rest
    }

    function FromDigits(rest: string): string {
      digits + (gap3 + FromUnit(rest))
    }

    function FromGap(rest: string): string {
      gap1 + ("in" + (gap2 + FromDigits(rest)))
    }

    /** The phrase, followed by `rest`. */
    function Then(rest: string): string {
      "reset" + ((if plural then "s" else "") + FromGap(rest))
    }
  }

  lemma SkipRunOver(run: string, rest: string, inRun: char -> bool)
    requires Run(run, inRun)
    requires rest == "" || !inRun(rest[0])
    ensures SkipRun(Some(run + rest), inRun) == Some(rest)
    ensures RunLength(run + rest, inRun) == |run|
    ensures (run + rest)[..|run|] == run
  {
    RunLengthIs(run, rest, inRun);
  }

  lemma SkipWordOver(word: string, rest: string)
    ensures SkipWord(Some(word + rest), word) == Some(rest)
  {
  }

  lemma UnitWordFound(u: Unit, plural: bool, rest: string)
    requires Boundary(rest)
    ensures UnitAt(u.Name() + (if plural then "s" else "") + rest) == Some(u)
  {
    var word := u.Name() + if plural then "s" else "";
    var s := word + rest;
    assert WordAt(s, word);
    assert s[0] == u.Name()[0];
    forall v: Unit | v != u
      ensures !UnitWordAt(s, v)
    {
      assert v.Name()[0] != s[0];
      assert (v.Name() + "s")[0] == v.Name()[0];
    }
    assert plural ==> word == u.Name() + "s";
    assert !plural ==> word == u.Name();
  }

  lemma CountAndUnitIsComplete(p: Phrase, rest: string)
    requires p.WellFormed() && Boundary(rest)
    ensures CountAndUnit(p.FromDigits(rest)) == Some(Found(p.digits, p.unit))
  {
    var unitText := p.FromUnit(rest);
    var atGap3 := p.gap3 + unitText;
    assert unitText[0] == p.unit.Name()[0];
    SkipRunOver(p.gap3, unitText, SPACES);
    assert IsSpace(atGap3[0]);
    SkipRunOver(p.digits, atGap3, DIGITS);
    UnitWordFound(p.unit, p.units, rest);
  }

  lemma AfterResetIsComplete(plural: bool, tail: string)
    requires tail != "" && tail[0] != 's'
    ensures AfterReset("reset" + ((if plural then "s" else "") + tail)) == Some(tail)
  {
    SkipWordOver("reset", (if plural then "s" else "") + tail);
    if plural {
      SkipWordOver("s", tail);
    } else {
      assert "" + tail == tail;
    }
  }

  lemma GapsAndInAreSkipped(gap1: string, gap2: string, tail: string)
    requires Run(gap1, SPACES) && Run(gap2, SPACES)
    requires tail != "" && !IsSpace(tail[0])
    ensures SkipRun(SkipWord(SkipRun(Some(gap1 + ("in" + (gap2 + tail))), SPACES), "in"), SPACES) == Some(tail)
  {
    SkipRunOver(gap1, "in" + (gap2 + tail), SPACES);
    SkipWordOver("in", gap2 + tail);
    SkipRunOver(gap2, tail, SPACES);
  }

  lemma DigitIsNoSpace(digits: string, after: string)
    requires Run(digits, DIGITS)
    ensures digits + after != "" && !IsSpace((digits + after)[0])
  {
    assert DIGITS(digits[0]);
  }

  lemma SpaceIsNoS(gap: string, after: string)
    requires Run(gap, SPACES)
    ensures gap + after != "" && (gap + after)[0] != 's'
  {
    assert SPACES(gap[0]);
  }

  lemma AtDigitsIsComplete(p: Phrase, rest: string)
    requires p.WellFormed()
    ensures AtDigits(p.Then(rest)) == Some(p.FromDigits(rest))
  {
    SpaceIsNoS(p.gap1, "in" + (p.gap2 + p.FromDigits(rest)));
    AfterResetIsComplete(p.plural, p.FromGap(rest));
    DigitIsNoSpace(p.digits, p.gap3 + p.FromUnit(rest));
    GapsAndInAreSkipped(p.gap1, p.gap2, p.FromDigits(rest));
  }

  /** Greedy matching takes every phrase the pattern allows, whatever follows the boundary. */
  lemma MatchAtIsComplete(p: Phrase, rest: string)
    requires p.WellFormed() && Boundary(rest)
    ensures MatchAt(p.Then(rest)) == Some(Found(p.digits, p.unit))
  {
    AtDigitsIsComplete(p, rest);
    CountAndUnitIsComplete(p, rest);
  }

  lemma RunSplits(s: string, inRun: char -> bool) returns (run: string, rest: string)
    requires SkipRun(Some(s), inRun).Some?
    ensures run == s[..RunLength(s, inRun)] && rest == SkipRun(Some(s), inRun).value
    ensures Run(run, inRun) && s == run + rest
  {
    run, rest := s[..RunLength(s, inRun)], s[RunLength(s, inRun)..];
  }

  lemma UnitWordSplits(s: string) returns (unit: Unit, units: bool, rest: string)
    requires UnitAt(s).Some?
    ensures UnitAt(s) == Some(unit) && Boundary(rest) && s == (unit.Name() + if units then "s" else "") + rest
  {
    unit := UnitAt(s).value;
    units := !WordAt(s, unit.Name());
    var word := unit.Name() + if units then "s" else "";
    assert unit.Name() + "" == unit.Name();
    rest := s[|word|..];
  }

  lemma AfterResetSplits(s: string) returns (plural: bool, tail: string)
    requires AfterReset(s).Some?
    ensures tail == AfterReset(s).value && s == "reset" + ((if plural then "s" else "") + tail)
  {
    var afterReset := SkipWord(Some(s), "reset").value;
    plural := SkipWord(Some(afterReset), "s").Some?;
    tail := AfterReset(s).value;
    assert s == "reset" + afterReset;
    assert afterReset == (if plural then "s" else "") + tail;
  }

  lemma AtDigitsSplits(s: string) returns (plural: bool, gap1: string, gap2: string, atDigits: string)
    requires AtDigits(s).Some?
    ensures atDigits == AtDigits(s).value && Run(gap1, SPACES) && Run(gap2, SPACES)
    ensures s == "reset" + ((if plural then "s" else "") + (gap1 + ("in" + (gap2 + atDigits))))
  {
    var atGap1, atIn, atGap2;
    plural, atGap1 := AfterResetSplits(s);
    gap1, atIn := RunSplits(atGap1, SPACES);
    atGap2 := SkipWord(Some(atIn), "in").value;
    assert atIn == "in" + atGap2;
    gap2, atDigits := RunSplits(atGap2, SPACES);
  }

  lemma CountAndUnitSplits(s: string) returns (digits: string, gap3: string, unit: Unit, units: bool, rest: string)
    requires CountAndUnit(s).Some?
    ensures CountAndUnit(s) == Some(Found(digits, unit)) && Run(digits, DIGITS) && Run(gap3, SPACES) && Boundary(rest)
    ensures s == digits + (gap3 + ((unit.Name() + if units then "s" else "") + rest))
  {
    var atGap3, unitText;
    digits, atGap3 := RunSplits(s, DIGITS);
    gap3, unitText := RunSplits(atGap3, SPACES);
    unit, units, rest := UnitWordSplits(unitText);
  }

  /** Whatever is found is a phrase of the pattern at the front of the text, ending at a boundary. */
  lemma MatchAtIsSound(s: string) returns (p: Phrase, rest: string)
    requires MatchAt(s).Some?
    ensures p.WellFormed() && Boundary(rest) && s == p.Then(rest)
    ensures MatchAt(s) == Some(Found(p.digits, p.unit))
  {
    var plural, gap1, gap2, atDigits := AtDigitsSplits(s);
    var digits, gap3, unit, units, after := CountAndUnitSplits(atDigits);
    p, rest := Phrase(plural, gap1, gap2, digits, gap3, unit, units), after;
  }

  // ----- the whole text -----

  lemma MatchStartsWithReset(s: string)
    requires MatchAt(s).Some?
    ensures "reset" <= s
  {
  }

  lemma ResetDoesNotStraddle(before: string, after: string)
    requires before != "" && "reset" <= after && "reset" <= before + after
    ensures "reset" <= before
  {
    var s := before + after;
    assert s[0] == 'r' && s[1] == 'e' && s[2] == 's' && s[3] == 'e' && s[4] == 't';
    assert s[|before|] == after[0] == 'r';
    assert |before| >= 5;
    assert s[..5] == before[..5];
  }

  lemma {:induction false} LeftmostSkips(before: string, after: string, matcher: Matcher)
    requires forall i :: 0 <= i < |before| ==> matcher(before[i..] + after).None?
    requires matcher(after).Some?
    ensures Leftmost(before + after, matcher) == matcher(after)
  {
    if before == "" {
      assert before + after == after;
    } else {
      assert before[0..] == before;
      assert (before + after)[1..] == before[1..] + after;
      forall i | 0 <= i < |before[1..]|
        ensures matcher(before[1..][i..] + after).None?
      {
        assert before[1..][i..] == before[i + 1..];
      }
      LeftmostSkips(before[1..], after, matcher);
    }
  }

  lemma NoResetAt(before: string, i: nat)
    requires i < |before| && !Contains(before, "reset")
    ensures !("reset" <= before[i..])
  {
    if "reset" <= before[i..] {
      assert before[i..][..5] == before[i..i + 5];
      assert OccursAt(before, "reset", i);
    }
  }

  lemma NoMatchYet(before: string, i: nat, after: string)
    requires i < |before| && !Contains(before, "reset")
    requires "reset" <= after
    ensures MatchAt(before[i..] + after).None?
  {
    var s := before[i..] + after;
    NoResetAt(before, i);
    assert !("reset" <= s) by {
      if "reset" <= s {
        ResetDoesNotStraddle(before[i..], after);
      }
    }
    assert AfterReset(s).None?;
  }

  lemma FirstMatchSkips(before: string, after: string)
    requires !Contains(before, "reset")
    requires MatchAt(after).Some?
    ensures FirstMatch(before + after) == MatchAt(after)
  {
    MatchStartsWithReset(after);
    forall i | 0 <= i < |before|
      ensures RESET_PHRASE(before[i..] + after).None?
    {
      NoMatchYet(before, i, after);
    }
    LeftmostSkips(before, after, RESET_PHRASE);
  }

  /** Any phrase of the pattern, in any surroundings with no earlier "reset" and a boundary behind it, reads as its number of units. */
  lemma EveryPhraseIsRead(before: string, p: Phrase, rest: string)
    requires !Contains(before, "reset")
    requires p.WellFormed() && Boundary(rest)
    ensures ParseResetCountdownMs(before + p.Then(rest))
         == if Value(p.digits) == 0 then None else Some(p.unit.Milliseconds(Value(p.digits)))
  {
    MatchAtIsComplete(p, rest);
    FirstMatchSkips(before, p.Then(rest));
  }

  function Printed(n: nat, unit: Unit, units: bool): string {
    "resets in " + Decimal(n) + " " + (unit.Name() + if units then "s" else "")
  }

  lemma PrintedIsAPhrase(n: nat, unit: Unit, units: bool, rest: string)
    ensures Printed(n, unit, units) + rest == Phrase(true, " ", " ", Decimal(n), " ", unit, units).Then(rest)
  {
    var p := Phrase(true, " ", " ", Decimal(n), " ", unit, units);
    var tail := p.FromDigits(rest);
    assert Printed(n, unit, units) + rest == "resets in " + tail;
    assert "resets in " + tail == "reset" + ("s" + (" " + ("in" + (" " + tail))));
  }

  /** Printing a positive countdown and reading it back. */
  lemma PrintedCountdownReadsBack(before: string, n: nat, unit: Unit, units: bool, rest: string)
    requires n >= 1 && !Contains(before, "reset") && Boundary(rest)
    ensures ParseResetCountdownMs(before + (Printed(n, unit, units) + rest)) == Some(unit.Milliseconds(n))
  {
    var p := Phrase(true, " ", " ", Decimal(n), " ", unit, units);
    PrintedIsAPhrase(n, unit, units, rest);
    EveryPhraseIsRead(before, p, rest);
    DecimalReadsBack(n);
  }

  /** A phrase of the pattern starts `s`, with a boundary behind it. */
  ghost predicate StartsPhrase(s: string) {
    exists p: Phrase, rest: string :: p.WellFormed() && Boundary(rest) && s == p.Then(rest)
  }

  lemma StartsPhraseIsMatch(s: string)
    ensures StartsPhrase(s) <==> MatchAt(s).Some?
  {
    if StartsPhrase(s) {
      var p: Phrase, rest: string :| p.WellFormed() && Boundary(rest) && s == p.Then(rest);
      MatchAtIsComplete(p, rest);
    }
    if MatchAt(s).Some? {
      var p, rest := MatchAtIsSound(s);
    }
  }

  lemma {:induction false} NothingToFind(text: string, matcher: Matcher)
    requires forall i :: 0 <= i <= |text| ==> matcher(text[i..]).None?
    ensures Leftmost(text, matcher).None?
  {
    assert text[0..] == text;
    if text != "" {
      forall i | 0 <= i <= |text[1..]|
        ensures matcher(text[1..][i..]).None?
      {
        assert text[1..][i..] == text[i + 1..];
      }
      NothingToFind(text[1..], matcher);
    }
  }

  /** In any text at all: the first phrase is the one read, whatever comes before it, a lone "reset" included. */
  lemma FirstPhraseIsRead(before: string, p: Phrase, rest: string)
    requires p.WellFormed() && Boundary(rest)
    requires forall i :: 0 <= i < |before| ==> !StartsPhrase(before[i..] + p.Then(rest))
    ensures ParseResetCountdownMs(before + p.Then(rest))
         == if Value(p.digits) == 0 then None else Some(p.unit.Milliseconds(Value(p.digits)))
  {
    var after := p.Then(rest);
    MatchAtIsComplete(p, rest);
    forall i | 0 <= i < |before|
      ensures RESET_PHRASE(before[i..] + after).None?
    {
      StartsPhraseIsMatch(before[i..] + after);
    }
    LeftmostSkips(before, after, RESET_PHRASE);
  }

  /** A text without a phrase reads as nothing. */
  lemma NoPhraseNoCountdown(text: string)
    requires forall i :: 0 <= i <= |text| ==> !StartsPhrase(text[i..])
    ensures ParseResetCountdownMs(text).None?
  {
    forall i | 0 <= i <= |text|
      ensures RESET_PHRASE(text[i..]).None?
    {
      StartsPhraseIsMatch(text[i..]);
    }
    NothingToFind(text, RESET_PHRASE);
  }

  /** A minute is sixty seconds, an hour sixty minutes, a day twenty-four hours. */
  lemma UnitsScale(n: nat)
    ensures Second.Milliseconds(n) == 1000 * n
    ensures Minute.Milliseconds(n) == Second.Milliseconds(60 * n)
    ensures Hour.Milliseconds(n) == Minute.Milliseconds(60 * n)
    ensures Day.Milliseconds(n) == Hour.Milliseconds(24 * n)
  {
  }

  lemma ReadsUnit(before: string, n: nat, unit: Unit, units: bool, rest: string)
    requires n >= 1 && !Contains(before, "reset") && Boundary(rest)
    ensures var word := unit.Name() + if units then "s" else "";
            ParseResetCountdownMs(before + ("resets in " + Decimal(n) + " " + word + rest)) == Some(unit.Milliseconds(n))
  {
    PrintedCountdownReadsBack(before, n, unit, units, rest);
  }

  /** The length of a unit, by its word. */
  predicate UnitWord(word: string, ms: nat) {
    || ((word == "day" || word == "days") && ms == 24 * 60 * 60 * 1000)
    || ((word == "hour" || word == "hours") && ms == 60 * 60 * 1000)
    || ((word == "minute" || word == "minutes") && ms == 60 * 1000)
    || ((word == "second" || word == "seconds") && ms == 1000)
  }

  lemma UnitOfWord(word: string, ms: nat, n: nat) returns (unit: Unit, units: bool)
    requires UnitWord(word, ms)
    ensures word == unit.Name() + (if units then "s" else "") && unit.Milliseconds(n) == ms * n
  {
    units := word[|word| - 1] == 's';
    unit := if word == "day" || word == "days" then Day
            else if word == "hour" || word == "hours" then Hour
            else if word == "minute" || word == "minutes" then Minute
            else Second;
  }

  /** In words: each unit reads as its own length, in the singular and the plural. */
  lemma CountdownInWords(before: string, n: nat, word: string, ms: nat, rest: string)
    requires n >= 1 && !Contains(before, "reset") && Boundary(rest) && UnitWord(word, ms)
    ensures ParseResetCountdownMs(before + ("resets in " + Decimal(n) + " " + word + rest)) == Some(ms * n)
  {
    var unit, units := UnitOfWord(word, ms, n);
    ReadsUnit(before, n, unit, units, rest);
  }

  lemma {:induction false} ValueOfAppended(digits: string, c: char)
    requires Run(digits, DIGITS) && IsDigit(c)
    ensures Value(digits + [c]) == 10 * Value(digits) + (c as int - '0' as int)
  {
    assert (digits + [c])[..|digits|] == digits;
  }

  /** Decimal digits, most significant first. */
  lemma {:induction false} DecimalIs(n: nat, d: nat)
    requires d < 10
    ensures n > 0 ==> Decimal(10 * n + d) == Decimal(n) + ["0123456789"[d]]
    ensures Decimal(d) == ["0123456789"[d]]
  {
    assert n > 0 ==> (10 * n + d) / 10 == n && (10 * n + d) % 10 == d;
  }

  lemma WholeSeconds(n: nat, unit: Unit)
    requires n > 0
    ensures unit.Milliseconds(n) > 0 && unit.Milliseconds(n) % 1000 == 0
  {
    var seconds := match unit case Day => 86_400 * n case Hour => 3_600 * n case Minute => 60 * n case Second => n;
    assert unit.Milliseconds(n) == 1000 * seconds;
  }

  /** A number read is a positive multiple of a second. */
  lemma ReadsWholeSeconds(text: string)
    ensures var ms := ParseResetCountdownMs(text);
            ms.Some? ==> ms.value > 0 && ms.value % 1000 == 0
  {
    if ParseResetCountdownMs(text).Some? {
      FoundDigits(text);
      WholeSeconds(Value(FirstMatch(text).value.digits), FirstMatch(text).value.unit);
    }
  }

  lemma SplitAt(text: string, i: nat)
    requires i <= |text|
    ensures text == text[..i] + text[i..]
  {
  }

  /** And it was really there: the text holds a phrase of the pattern with that number and unit. */
  lemma ReadingIsSound(text: string) returns (before: string, p: Phrase, rest: string)
    requires FirstMatch(text).Some?
    ensures text == before + p.Then(rest)
    ensures p.WellFormed() && Boundary(rest) && FirstMatch(text) == Some(Found(p.digits, p.unit))
  {
    var i := FirstMatchIsSomewhere(text);
    before := text[..i];
    p, rest := MatchAtIsSound(text[i..]);
    SplitAt(text, i);
  }

  // ----- the arithmetic of the source: doubles -----

  datatype Number = Finite(n: nat) | Infinite

  /** The nearest double of a whole number, as a parameter. */
  type Rounding = nat -> Number

  const MAX_EXACT: nat := 0x20_0000_0000_0000

  /** Whole numbers up to 2 to the power of 53 are doubles themselves. */
  ghost predicate ExactWhenSmall(round: Rounding) {
    forall n: nat :: n <= MAX_EXACT ==> round(n) == Finite(n)
  }

  /** The count and the product, each rounded; an infinite or zero count reads as nothing. */
  function Rounded(round: Rounding, count: nat, unit: Unit): Option<Number> {
    var n := round(count);
    if n.Infinite? || n.n == 0 then None else Some(round(unit.Milliseconds(n.n)))
  }

  function InDoubles(round: Rounding, found: Found): Option<Number>
    requires Run(found.digits, DIGITS)
  {
    Rounded(round, Value(found.digits), found.unit)
  }

  function ParseInDoubles(round: Rounding, text: string): Option<Number> {
    FoundDigits(text);
    if FirstMatch(text).None? then None else InDoubles(round, FirstMatch(text).value)
  }

  lemma SmallIsExact(round: Rounding, found: Found)
    requires ExactWhenSmall(round) && Run(found.digits, DIGITS)
    requires InIntegers(found).Some? ==> InIntegers(found).value <= MAX_EXACT
    ensures InDoubles(round, found)
         == if InIntegers(found).None? then None else Some(Finite(InIntegers(found).value))
  {
    var count := Value(found.digits);
    assert count <= found.unit.Milliseconds(count);
  }

  /** Up to 2 to the power of 53 milliseconds, doubles read what integers read. */
  lemma DoublesReadTheSame(round: Rounding, text: string)
    requires ExactWhenSmall(round)
    requires ParseResetCountdownMs(text).Some? ==> ParseResetCountdownMs(text).value <= MAX_EXACT
    ensures ParseInDoubles(round, text)
         == if ParseResetCountdownMs(text).None? then None else Some(Finite(ParseResetCountdownMs(text).value))
  {
    FoundDigits(text);
    if FirstMatch(text).Some? {
      SmallIsExact(round, FirstMatch(text).value);
    }
  }
}
