/**
 * Kernel extension versions, told on strings and numerals alone: what number each legal text
 * stands for, which texts are legal, and how the stages are ordered.
 */
module KextLaws {
  import opened Basics
  import opened KextVersion

  // ---------- texts ----------

  /** At most `max` decimal digits. */
  predicate Numeral(d: string, max: nat) {
    |d| <= max && forall i :: 0 <= i < |d| ==> '0' <= d[i] <= '9'
  }

  /** The number part of a version: up to three numerals of at most four digits between periods,
      the first of them not empty; four digits of revision may have a period after them. */
  datatype Dotted = Dotted(major: string, minor: Option<string>, revision: Option<string>, dot: bool) {
    predicate Legal() {
      && 1 <= |major| && Numeral(major, 4)
      && (minor.Some? ==> Numeral(minor.value, 4))
      && (revision.Some? ==> minor.Some? && Numeral(revision.value, 4))
      && (dot ==> revision.Some? && |revision.value| == 4)
    }

    function Text(): string {
      major + (if minor.Some? then "." + minor.value else "") + (if revision.Some? then "." + revision.value else "")
            + if dot then "." else ""
    }

    function Amount(): nat {
      Value(major) * 1_000_000_000_000 + (if minor.Some? then Value(minor.value) * 100_000_000 else 0)
        + if revision.Some? then Value(revision.value) * 10_000 else 0
    }
  }

  /** What may follow a version: nothing, or white space, or the terminator. */
  predicate Stops(tail: string) {
    tail == "" || tail[0] == ' ' || tail[0] == '\t' || tail[0] == '\r' || tail[0] == '\n' || tail[0] == '\0'
  }

  /** A numeral is read in base ten. */
  lemma ValueInBaseTen(d: string, c: char)
    requires '0' <= c <= '9'
    ensures Value("") == 0 && Value(d + [c]) == 10 * Value(d) + (c as int - 48)
  {
    assert (d + [c])[..|d|] == d;
  }

  function AsNumbers(n: Dotted): Numbers {
    Numbers(n.major, n.minor, n.revision, n.dot)
  }

  lemma SameNumbers(n: Dotted, rest: string)
    ensures n.Legal() <==> LegalNumbers(AsNumbers(n))
    ensures SpelledNumbers(AsNumbers(n), rest) == n.Text() + rest
  {
    var minor := if n.minor.Some? then "." + n.minor.value else "";
    var revision := if n.revision.Some? then "." + n.revision.value else "";
    var dot := if n.dot then "." else "";
    assert Stray(n.dot, rest) == dot + rest;
    assert Part(n.revision, dot + rest) == revision + (dot + rest);
    assert Part(n.minor, revision + (dot + rest)) == minor + (revision + (dot + rest));
    Regroup(n.major, minor, revision, dot, rest);
  }

  lemma SameEnd(tail: string)
    ensures Stops(tail) <==> Ends(tail)
  {
  }

  // ---------- what a text stands for ----------

  function StageDigit(mark: string): nat {
    if mark == "d" then 1 else if mark == "a" then 3 else if mark == "b" then 5 else if mark == "f" || mark == "fc" then 7 else 9
  }

  predicate IsMark(mark: string) {
    mark == "d" || mark == "a" || mark == "b" || mark == "f" || mark == "fc"
  }

  lemma SpelledMark(mark: string, level: string, tail: string)
    requires IsMark(mark)
    ensures IsStage(StageDigit(mark)) && StageDigit(mark) != RELEASE && (mark == "fc" ==> StageDigit(mark) == CANDIDATE)
    ensures SpelledStage(StageText(StageDigit(mark), mark == "fc", level), tail) == mark + (level + tail)
  {
  }

  lemma TooHigh(v: Version, d: string, rest: string)
    requires d != "" && Numeral(d, 3) && Stops(rest)
    requires Value(d) > 255 || (v.stage == CANDIDATE && Value(d) == 0)
    ensures ReadLevel(v, d + rest).None?
  {
    RunOf(d, rest, LEVEL_DIGITS);
  }

  lemma MarkRead(n: Dotted, mark: string, level: string, tail: string)
    requires n.Legal() && IsMark(mark) && level != "" && Numeral(level, 3) && Stops(tail)
    ensures Read(n.Text() + (mark + (level + tail)))
         == ReadLevel(MeaningOfNumbers(AsNumbers(n)).(stage := StageDigit(mark)), level + tail)
  {
    var t, s := AsNumbers(n), mark + (level + tail);
    SpelledMark(mark, level, tail);
    assert (level + tail)[0] == level[0];
    NamedStage(StageDigit(mark), mark == "fc", level + tail);
    SameNumbers(n, s);
    ReadsNumbers(t, s);
  }

  /** A text with a stage stands for its numbers, its stage's digit and its level side by side;
      it is refused when the level is over 255, or zero for a candidate. */
  lemma StageValue(n: Dotted, mark: string, level: string, tail: string)
    requires n.Legal() && IsMark(mark) && level != "" && Numeral(level, 3) && Stops(tail)
    ensures Parsed(n.Text() + (mark + (level + tail)))
         == if Value(level) > 255 || ((mark == "f" || mark == "fc") && Value(level) == 0) then -1
            else n.Amount() + 1_000 * StageDigit(mark) + Value(level)
  {
    var v := MeaningOfNumbers(AsNumbers(n)).(stage := StageDigit(mark));
    MarkRead(n, mark, level, tail);
    SpelledMark(mark, level, tail);
    SameNumbers(n, "");
    if Value(level) > 255 || (v.stage == CANDIDATE && Value(level) == 0) {
      TooHigh(v, level, tail);
    } else {
      LevelStep(v, level, tail);
    }
  }

  /** A text without one is a release. */
  lemma ReleaseValue(n: Dotted, tail: string)
    requires n.Legal() && Stops(tail)
    ensures Parsed(n.Text() + tail) == n.Amount() + 9_000
  {
    SameNumbers(n, tail);
    ReadsNumbers(AsNumbers(n), tail);
  }

  /** The digit of the stage can be read off the number: the thousands' digit. */
  lemma StageDigitOfValue(n: Dotted, mark: string, level: string, tail: string, r: int)
    requires n.Legal() && IsMark(mark) && level != "" && Numeral(level, 3) && Stops(tail)
    requires r == Parsed(n.Text() + (mark + (level + tail))) && r >= 0
    ensures r / 1_000 % 10 == StageDigit(mark) && r % 1_000 == Value(level)
  {
    StageValue(n, mark, level, tail);
    ThousandsDigit(n, StageDigit(mark), Value(level), r);
  }

  lemma LowDigits(k: nat, stage: nat, level: nat)
    requires stage <= 9 && level < 1_000
    ensures var x := 10_000 * k + 1_000 * stage + level; x / 1_000 % 10 == stage && x % 1_000 == level
  {
    var x := 10_000 * k + 1_000 * stage + level;
    assert x == 1_000 * (10 * k + stage) + level;
    assert x / 1_000 == 10 * k + stage;
  }

  lemma ThousandsDigit(n: Dotted, stage: nat, level: nat, x: nat)
    requires stage <= 9 && level < 1_000 && x == n.Amount() + 1_000 * stage + level
    ensures x / 1_000 % 10 == stage && x % 1_000 == level
  {
    var m, r := if n.minor.Some? then Value(n.minor.value) else 0, if n.revision.Some? then Value(n.revision.value) else 0;
    LowDigits(Value(n.major) * 100_000_000 + m * 10_000 + r, stage, level);
  }

  lemma ReleaseDigitOfValue(n: Dotted, tail: string, r: int)
    requires n.Legal() && Stops(tail) && r == Parsed(n.Text() + tail)
    ensures r / 1_000 % 10 == 9 && r % 1_000 == 0
  {
    ReleaseValue(n, tail);
    ThousandsDigit(n, 9, 0, r);
  }

  /** For the same numbers every development text comes before every alpha text, that before
      every beta, that before every candidate, and that before the release. */
  lemma StagesAscend(n: Dotted, d: string, a: string, b: string, f: string, fc: string, tail: string)
    requires n.Legal() && Stops(tail)
    requires forall l | l in [d, a, b, f, fc] :: l != "" && Numeral(l, 3) && Value(l) <= 255
    requires Value(f) > 0 && Value(fc) > 0
    ensures 0 <= Parsed(n.Text() + ("d" + (d + tail))) < Parsed(n.Text() + ("a" + (a + tail)))
              < Parsed(n.Text() + ("b" + (b + tail))) < Parsed(n.Text() + ("f" + (f + tail))) < Parsed(n.Text() + tail)
    ensures Parsed(n.Text() + ("b" + (b + tail))) < Parsed(n.Text() + ("fc" + (fc + tail))) < Parsed(n.Text() + tail)
    ensures Value(f) == Value(fc) ==> Parsed(n.Text() + ("f" + (f + tail))) == Parsed(n.Text() + ("fc" + (fc + tail)))
  {
    StageValue(n, "d", d, tail);
    StageValue(n, "a", a, tail);
    StageValue(n, "b", b, tail);
    StageValue(n, "f", f, tail);
    StageValue(n, "fc", fc, tail);
    ReleaseValue(n, tail);
  }

  // ---------- which texts ----------

  function MarkOf(e: StageText): string
    requires IsStage(e.stage)
  {
    StringForStage(e.stage) + if e.long then "c" else ""
  }

  lemma MarkSpelled(e: StageText, rest: string)
    requires LegalStage(e)
    ensures SpelledStage(e, rest) == MarkOf(e) + (e.level + rest)
    ensures if e.stage == RELEASE then MarkOf(e) == "" else IsMark(MarkOf(e))
  {
  }

  /** Whatever is accepted is such a text. */
  lemma AcceptedText(s: string) returns (n: Dotted, mark: string, level: string, tail: string)
    requires Parsed(s) >= 0
    ensures n.Legal() && Stops(tail) && s == n.Text() + (mark + (level + tail))
    ensures (mark == "" && level == "") || (IsMark(mark) && level != "" && Numeral(level, 3) && Value(level) <= 255)
  {
    var t, e, rest := LegalTextOf(s);
    n, mark, level, tail := Dotted(t.major, t.minor, t.revision, t.stray), MarkOf(e), e.level, rest;
    MarkSpelled(e, rest);
    assert AsNumbers(n) == t;
    SameNumbers(n, SpelledStage(e, rest));
    SameEnd(rest);
  }

  // ---------- the other texts the printer gives, and the room it wants ----------

  /** Below zero, and where the number holds no version, the printer says so; zero is no version. */
  lemma PrintedOther(n: int)
    ensures n < 0 ==> Printed(n) == "(invalid)"
    ensures Printed(0) == "(missing)"
    ensures n >= 10_000_000_000_000_000 || (n > 0 && n % 1_000 > 255) ==> Printed(n) == "(invalid)"
    ensures n > 0 && n / 1_000 % 10 !in {1, 3, 5, 7, 9} ==> Printed(n) == "(invalid)"
  {
    if n > 0 {
      var v := Unpack(n);
      FieldDigits(n, v);
    }
  }

  lemma FieldsInRange(n: nat, v: Version)
    requires v == Unpack(n)
    ensures v.major == n / 1_000_000_000_000
    ensures v.minor <= 9_999 && v.revision <= 9_999 && v.stage <= 9 && v.level <= 999
  {
    var a := n - v.major * 1_000_000_000_000;
    assert 0 <= a < 1_000_000_000_000 && v.minor == a / 100_000_000;
    var b := a - v.minor * 100_000_000;
    assert 0 <= b < 100_000_000 && v.revision == b / 10_000;
    var c := b - v.revision * 10_000;
    assert 0 <= c < 10_000 && v.stage == c / 1_000;
  }

  lemma HighDigits(k: nat, minor: nat, revision: nat, low: nat, n: nat)
    requires minor <= 9_999 && revision <= 9_999 && low < 10_000
    requires n == 10_000 * (10_000 * (10_000 * k + minor) + revision) + low
    ensures n / 100_000_000 % 10_000 == minor && n / 10_000 % 10_000 == revision
  {
    assert n / 10_000 == 10_000 * (10_000 * k + minor) + revision;
    assert n / 100_000_000 == 10_000 * k + minor;
  }

  lemma FieldDigits(n: nat, v: Version)
    requires v == Unpack(n)
    ensures v.major == n / 1_000_000_000_000 && v.stage == n / 1_000 % 10 && v.level == n % 1_000
    ensures v.minor == n / 100_000_000 % 10_000 && v.revision == n / 10_000 % 10_000
  {
    FieldsInRange(n, v);
    PackedDigits(n, v);
  }

  lemma PackedDigits(n: nat, v: Version)
    requires n == Pack(v) && v.minor <= 9_999 && v.revision <= 9_999 && v.stage <= 9 && v.level <= 999
    ensures v.stage == n / 1_000 % 10 && v.level == n % 1_000
    ensures v.minor == n / 100_000_000 % 10_000 && v.revision == n / 10_000 % 10_000
  {
    LowDigits(100_000_000 * v.major + 10_000 * v.minor + v.revision, v.stage, v.level);
    HighDigits(v.major, v.minor, v.revision, 1_000 * v.stage + v.level, n);
  }

  /** The letter of a stage's digit. */
  function Letter(stage: nat): string {
    if stage == 1 then "d" else if stage == 3 then "a" else if stage == 5 then "b" else if stage == 7 then "f" else ""
  }

  /** What is printed for a number that holds a version: its digit groups, the revision only if it is
      not zero, and the stage's letter with the level unless it is a release. */
  lemma PrintedVersion(n: nat)
    requires 0 < n < 10_000_000_000_000_000 && n / 1_000 % 10 in {1, 3, 5, 7, 9} && n % 1_000 <= 255
    ensures Printed(n)
         == Decimal(n / 1_000_000_000_000) + ['.'] + Decimal(n / 100_000_000 % 10_000)
            + (if n / 10_000 % 10_000 == 0 then "" else ['.'] + Decimal(n / 10_000 % 10_000))
            + (Letter(n / 1_000 % 10) + if n / 1_000 % 10 == 9 then "" else Decimal(n % 1_000))
  {
    FieldDigits(n, Unpack(n));
  }

  /** A buffer of twenty characters is wanted, and enough. */
  method PrintedInTwenty(n: int, buffer: array<char>) returns (ok: bool)
    modifies buffer
    ensures ok <==> buffer.Length >= 20
    ensures ok ==> CString(buffer[..]) == Printed(n)
  {
    ok := GetString(n, buffer);
  }
}
