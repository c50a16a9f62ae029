/**
 * Kernel extension version strings: the parser, the printer and the packed decimal form
 * between them.
 */
module KextVersion {
  import opened Basics

  const MAJOR_DIGITS := 4
  const MINOR_DIGITS := 4
  const REVISION_DIGITS := 4
  const LEVEL_DIGITS := 3
  const MAJOR_MAX := 9999
  const LEVEL_MAX := 255
  const MAJOR_MULT := 1_000_000_000_000
  const MINOR_MULT := 100_000_000
  const REVISION_MULT := 10_000
  const STAGE_MULT := 1_000
  const BUFFER_MIN := 20

  const INVALID := 0
  const DEVELOPMENT := 1
  const ALPHA := 3
  const BETA := 5
  const CANDIDATE := 7
  const RELEASE := 9

  datatype Version = Version(major: nat, minor: nat, revision: nat, stage: nat, level: nat)

  // ---------- characters ----------

  predicate IsDigit(c: char) {
    '0' <= c <= '9'
  }

  predicate IsSpace(c: char) {
    c == ' ' || c == '\t' || c == '\r' || c == '\n'
  }

  predicate IsReleaseState(c: char) {
    c == 'd' || c == 'a' || c == 'b' || c == 'f'
  }

  /** A character that ends a version: white space or the string's own end. */
  predicate IsEnd(c: char) {
    IsSpace(c) || c == '\0'
  }

  /** -1 for a character that is no digit. */
  function DigitForChar(c: char): (r: int)
    ensures r >= 0 <==> IsDigit(c)
    ensures r <= 9
  {
    if IsDigit(c) then c as int - '0' as int else -1
  }

  function CharForDigit(d: nat): (c: char)
    requires d < 10
    ensures IsDigit(c) && DigitForChar(c) == d
  {
    ('0' as int + d) as char
  }

  /** The character a cursor sees: past the last one stands the terminator. */
  function At(s: string, i: nat): char {
    if i < |s| then s[i] else '\0'
  }

  // ---------- numbers ----------

  predicate Digits(s: string) {
    forall i :: 0 <= i < |s| ==> IsDigit(s[i])
  }

  /** The number that digits denote. */
  function Value(d: string): nat {
    if d == "" then 0
    else Value(d[..|d| - 1]) * 10 + if IsDigit(d[|d| - 1]) then DigitForChar(d[|d| - 1]) else 0
  }

  /** Decimal notation without leading zeros. */
  function Decimal(n: nat): (d: string)
    ensures d != "" && Digits(d)
  {
    (if n < 10 then "" else Decimal(n / 10)) + [CharForDigit(n % 10)]
  }

  lemma {:induction false} ValueOfDecimal(n: nat)
    ensures Value(Decimal(n)) == n
  {
    var d := Decimal(n);
    if n < 10 {
      assert d[..|d| - 1] == "";
    } else {
      ValueOfDecimal(n / 10);
      assert d[..|d| - 1] == Decimal(n / 10);
    }
  }

  function Power10(k: nat): nat {
    if k == 0 then 1 else 10 * Power10(k - 1)
  }

  lemma {:induction false} ValueBound(d: string)
    requires Digits(d)
    ensures Value(d) < Power10(|d|)
  {
    if d == "" {
    } else {
      ValueBound(d[..|d| - 1]);
    }
  }

  lemma {:induction false} DecimalLength(n: nat, k: nat)
    requires n < Power10(k) && k > 0
    ensures |Decimal(n)| <= k
  {
    if n < 10 {
    } else {
      assert k > 1;
      DecimalLength(n / 10, k - 1);
    }
  }

  /** How many digits s begins with, counting no further than max. */
  function Run(s: string, max: nat): (k: nat)
    ensures k <= max && k <= |s|
  {
    if max == 0 || s == "" || !IsDigit(s[0]) then 0 else 1 + Run(s[1..], max - 1)
  }

  lemma {:induction false} RunDigits(s: string, max: nat)
    ensures Number(s[..Run(s, max)], max)
    ensures Run(s, max) < max ==> !IsDigit(At(s, Run(s, max)))
  {
    var k := Run(s, max);
    if k == 0 {
    } else {
      RunDigits(s[1..], max - 1);
      assert forall i :: 0 < i < k ==> s[..k][i] == s[1..][..k - 1][i - 1];
    }
  }

  lemma {:induction false} RunIs(s: string, max: nat, k: nat)
    requires k <= max && k <= |s| && Digits(s[..k]) && (k < max ==> !IsDigit(At(s, k)))
    ensures Run(s, max) == k
  {
    if k == 0 {
    } else {
      assert s[..k][0] == s[0];
      assert s[1..][..k - 1] == s[..k][1..];
      RunIs(s[1..], max - 1, k - 1);
    }
  }

  // ---------- what a version string means ----------

  predicate Ends(s: string) {
    IsEnd(At(s, 0))
  }

  /** The stage a text begins with and how many characters name it; INVALID when it names none. */
  function StageFor(s: string): (r: (nat, nat))
    ensures r.1 <= |s|
  {
    if At(s, 0) == 'd' && IsDigit(At(s, 1)) then (DEVELOPMENT, 1)
    else if At(s, 0) == 'a' && IsDigit(At(s, 1)) then (ALPHA, 1)
    else if At(s, 0) == 'b' && IsDigit(At(s, 1)) then (BETA, 1)
    else if At(s, 0) == 'f' && IsDigit(At(s, 1)) then (CANDIDATE, 1)
    else if At(s, 0) == 'f' && At(s, 1) == 'c' && IsDigit(At(s, 2)) then (CANDIDATE, 2)
    else (INVALID, 0)
  }

  function ReadLevel(v: Version, s: string): Option<Version> {
    var k := Run(s, LEVEL_DIGITS);
    var level := Value(s[..k]);
    if k == 0 || !Ends(s[k..]) || level > LEVEL_MAX || (v.stage == CANDIDATE && level == 0) then None
    else Some(v.(level := level))
  }

  function ReadStage(v: Version, s: string): Option<Version> {
    if Ends(s) then Some(v.(stage := RELEASE))
    else
      var (stage, n) := StageFor(s);
      if stage == INVALID then None else ReadLevel(v.(stage := stage), s[n..])
  }

  /** A fourth digit of the revision may be followed by one stray period. */
  function ReadRevision(v: Version, s: string): Option<Version> {
    var k := Run(s, REVISION_DIGITS);
    var w := v.(revision := Value(s[..k]));
    if k == REVISION_DIGITS && At(s, k) == '.' then ReadStage(w, s[k + 1..]) else ReadStage(w, s[k..])
  }

  function ReadMinor(v: Version, s: string): Option<Version> {
    var k := Run(s, MINOR_DIGITS);
    var w := v.(minor := Value(s[..k]));
    if At(s, k) == '.' then ReadRevision(w, s[k + 1..]) else ReadStage(w, s[k..])
  }

  /** The version a string spells, if it spells one. */
  function Read(s: string): Option<Version> {
    var k := Run(s, MAJOR_DIGITS);
    var w := Version(Value(s[..k]), 0, 0, INVALID, 0);
    if k == 0 then None
    else if At(s, k) == '.' then ReadMinor(w, s[k + 1..]) else ReadStage(w, s[k..])
  }

  // ---------- the packed form ----------

  function Pack(v: Version): nat {
    v.major * MAJOR_MULT + v.minor * MINOR_MULT + v.revision * REVISION_MULT + v.stage * STAGE_MULT + v.level
  }

  predicate InRange(v: Version) {
    v.major <= 9999 && v.minor <= 9999 && v.revision <= 9999 && v.stage <= 9 && v.level <= 999
  }

  predicate Before(v: Version, w: Version) {
    v.major < w.major || (v.major == w.major && (
    v.minor < w.minor || (v.minor == w.minor && (
    v.revision < w.revision || (v.revision == w.revision && (
    v.stage < w.stage || (v.stage == w.stage && v.level < w.level)))))))
  }

  /** Packing keeps the order, so no two versions share a number. */
  lemma PackKeepsOrder(v: Version, w: Version)
    requires InRange(v) && InRange(w)
    ensures Pack(v) < Pack(w) <==> Before(v, w)
    ensures Pack(v) == Pack(w) <==> v == w
  {
  }

  /** The fields by division, each after the fields before it are taken away. */
  function Unpack(n: nat): (v: Version)
    ensures Pack(v) == n
    ensures n < 10000 * MAJOR_MULT ==> InRange(v)
  {
    var major := n / MAJOR_MULT;
    var minor := (n - major * MAJOR_MULT) / MINOR_MULT;
    var revision := (n - (major * MAJOR_MULT + minor * MINOR_MULT)) / REVISION_MULT;
    var stage := (n - (major * MAJOR_MULT + minor * MINOR_MULT + revision * REVISION_MULT)) / STAGE_MULT;
    var level := n - (major * MAJOR_MULT + minor * MINOR_MULT + revision * REVISION_MULT + stage * STAGE_MULT);
    Version(major, minor, revision, stage, level)
  }

  lemma UnpackPack(v: Version)
    requires InRange(v)
    ensures Unpack(Pack(v)) == v
  {
    PackKeepsOrder(Unpack(Pack(v)), v);
  }

  // ---------- which strings, which versions ----------

  predicate IsStage(stage: nat) {
    stage == DEVELOPMENT || stage == ALPHA || stage == BETA || stage == CANDIDATE || stage == RELEASE
  }

  /** The versions that strings spell: releases have no level, candidates always have one. */
  predicate Canonical(v: Version) {
    && v.major <= 9999 && v.minor <= 9999 && v.revision <= 9999 && v.level <= LEVEL_MAX && IsStage(v.stage)
    && (v.stage == RELEASE ==> v.level == 0) && (v.stage == CANDIDATE ==> v.level != 0)
  }

  function StringForStage(stage: nat): string
    requires IsStage(stage)
  {
    if stage == DEVELOPMENT then "d" else if stage == ALPHA then "a" else if stage == BETA then "b"
    else if stage == CANDIDATE then "f" else ""
  }

  /** One way to write the numbers of a version.  `None` for a part that is not there at all;
      `stray` for a period after a revision of four digits. */
  datatype Numbers = Numbers(major: string, minor: Option<string>, revision: Option<string>, stray: bool)

  /** One way to write a stage; `long` for a candidate written "fc". */
  datatype StageText = StageText(stage: nat, long: bool, level: string)

  predicate Number(d: string, max: nat) {
    |d| <= max && Digits(d)
  }

  /** The grammar: the numbers ... */
  predicate LegalNumbers(t: Numbers) {
    && t.major != "" && Number(t.major, MAJOR_DIGITS)
    && (t.minor.Some? ==> Number(t.minor.value, MINOR_DIGITS))
    && (t.revision.Some? ==> t.minor.Some? && Number(t.revision.value, REVISION_DIGITS))
    && (t.stray ==> t.revision.Some? && |t.revision.value| == REVISION_DIGITS)
  }

  /** ... and the stage with its level. */
  predicate LegalStage(e: StageText) {
    && IsStage(e.stage) && (e.long ==> e.stage == CANDIDATE) && (e.stage == RELEASE <==> e.level == "")
    && Number(e.level, LEVEL_DIGITS) && Value(e.level) <= LEVEL_MAX
    && (e.stage == CANDIDATE ==> Value(e.level) != 0)
  }

  function Part(d: Option<string>, rest: string): string {
    if d.Some? then ['.'] + (d.value + rest) else rest
  }

  function Stray(stray: bool, rest: string): string {
    if stray then ['.'] + rest else rest
  }

  /** The numbers with whatever follows them. */
  function SpelledNumbers(t: Numbers, rest: string): string {
    t.major + Part(t.minor, Part(t.revision, Stray(t.stray, rest)))
  }

  /** The stage with whatever follows it. */
  function SpelledStage(e: StageText, rest: string): string
    requires IsStage(e.stage)
  {
    StringForStage(e.stage) + ((if e.long then "c" else "") + (e.level + rest))
  }

  function ValueOf(d: Option<string>): nat {
    if d.Some? then Value(d.value) else 0
  }

  function MeaningOfNumbers(t: Numbers): Version
    requires LegalNumbers(t)
  {
    Version(Value(t.major), ValueOf(t.minor), ValueOf(t.revision), INVALID, 0)
  }

  function Meaning(t: Numbers, e: StageText): Version
    requires LegalNumbers(t) && LegalStage(e)
  {
    MeaningOfNumbers(t).(stage := e.stage, level := Value(e.level))
  }

  // Every legal text is read, and read as what it means.

  lemma {:induction false} RunOf(d: string, rest: string, max: nat)
    requires Number(d, max) && !IsDigit(At(rest, 0))
    ensures Run(d + rest, max) == |d| && (d + rest)[..|d|] == d && (d + rest)[|d|..] == rest
    ensures At(d + rest, |d|) == At(rest, 0)
    ensures rest != "" ==> (d + rest)[|d| + 1..] == rest[1..]
  {
    assert (d + rest)[..|d|] == d;
    RunIs(d + rest, max, |d|);
  }

  lemma {:induction false} LevelStep(v: Version, d: string, rest: string)
    requires Number(d, LEVEL_DIGITS) && Ends(rest) && d != ""
    requires Value(d) <= LEVEL_MAX && (v.stage == CANDIDATE ==> Value(d) != 0)
    ensures ReadLevel(v, d + rest) == Some(v.(level := Value(d)))
  {
    RunOf(d, rest, LEVEL_DIGITS);
  }

  lemma NamedStage(stage: nat, long: bool, s: string)
    requires IsStage(stage) && stage != RELEASE && (long ==> stage == CANDIDATE) && IsDigit(At(s, 0))
    ensures var name := StringForStage(stage) + ((if long then "c" else "") + s);
      StageFor(name) == (stage, if long then 2 else 1) && name[if long then 2 else 1..] == s
      && !Ends(name) && !IsDigit(name[0]) && name[0] != '.'
  {
    var name := StringForStage(stage) + ((if long then "c" else "") + s);
    assert At(name, if long then 2 else 1) == At(s, 0);
    assert name[if long then 2 else 1..] == s;
  }

  lemma StageStep(v: Version, e: StageText, rest: string)
    requires LegalStage(e) && Ends(rest) && v.level == 0
    ensures ReadStage(v, SpelledStage(e, rest)) == Some(v.(stage := e.stage, level := Value(e.level)))
    ensures !IsDigit(At(SpelledStage(e, rest), 0)) && At(SpelledStage(e, rest), 0) != '.'
  {
    if e.stage == RELEASE {
      assert SpelledStage(e, rest) == rest;
    } else {
      NamedStage(e.stage, e.long, e.level + rest);
      LevelStep(v.(stage := e.stage), e.level, rest);
    }
  }

  lemma {:induction false} RevisionStep(v: Version, d: string, stray: bool, e: string)
    requires Number(d, REVISION_DIGITS) && (stray ==> |d| == REVISION_DIGITS)
    requires !IsDigit(At(e, 0)) && At(e, 0) != '.'
    ensures ReadRevision(v, d + Stray(stray, e)) == ReadStage(v.(revision := Value(d)), e)
  {
    RunOf(d, Stray(stray, e), REVISION_DIGITS);
    assert (['.'] + e)[1..] == e;
  }

  lemma {:induction false} MinorStep(v: Version, d: string, e: string)
    requires Number(d, MINOR_DIGITS) && !IsDigit(At(e, 0))
    ensures ReadMinor(v, d + e) == if At(e, 0) == '.' then ReadRevision(v.(minor := Value(d)), e[1..])
                                   else ReadStage(v.(minor := Value(d)), e)
  {
    RunOf(d, e, MINOR_DIGITS);
  }

  lemma {:induction false} MajorStep(d: string, e: string)
    requires d != "" && Number(d, MAJOR_DIGITS) && !IsDigit(At(e, 0))
    ensures var w := Version(Value(d), 0, 0, INVALID, 0);
      Read(d + e) == if At(e, 0) == '.' then ReadMinor(w, e[1..]) else ReadStage(w, e)
  {
    RunOf(d, e, MAJOR_DIGITS);
  }

  lemma ReadsRevision(t: Numbers, v: Version, e: string)
    requires LegalNumbers(t) && t.revision.Some? && !IsDigit(At(e, 0)) && At(e, 0) != '.'
    ensures ReadRevision(v, Part(t.revision, Stray(t.stray, e))[1..])
         == ReadStage(v.(revision := Value(t.revision.value)), e)
  {
    assert Part(t.revision, Stray(t.stray, e))[1..] == t.revision.value + Stray(t.stray, e);
    RevisionStep(v, t.revision.value, t.stray, e);
  }

  lemma ReadsMinor(t: Numbers, v: Version, e: string)
    requires LegalNumbers(t) && t.minor.Some? && !IsDigit(At(e, 0)) && At(e, 0) != '.' && v.revision == 0
    ensures ReadMinor(v, Part(t.minor, Part(t.revision, Stray(t.stray, e)))[1..])
         == ReadStage(v.(minor := Value(t.minor.value), revision := ValueOf(t.revision)), e)
  {
    var p := Part(t.revision, Stray(t.stray, e));
    assert Part(t.minor, p)[1..] == t.minor.value + p;
    if t.revision.Some? {
      ReadsRevision(t, v.(minor := Value(t.minor.value)), e);
    }
    MinorStep(v, t.minor.value, p);
  }

  lemma ReadsNumbers(t: Numbers, e: string)
    requires LegalNumbers(t) && !IsDigit(At(e, 0)) && At(e, 0) != '.'
    ensures Read(SpelledNumbers(t, e)) == ReadStage(MeaningOfNumbers(t), e)
  {
    if t.minor.Some? {
      ReadsMinor(t, Version(Value(t.major), 0, 0, INVALID, 0), e);
    }
    MajorStep(t.major, Part(t.minor, Part(t.revision, Stray(t.stray, e))));
  }

  /** The parser takes every legal text. */
  lemma ReadsLegal(t: Numbers, e: StageText, rest: string)
    requires LegalNumbers(t) && LegalStage(e) && Ends(rest)
    ensures Read(SpelledNumbers(t, SpelledStage(e, rest))) == Some(Meaning(t, e))
  {
    StageStep(MeaningOfNumbers(t), e, rest);
    ReadsNumbers(t, SpelledStage(e, rest));
  }

  // What is read is a legal text.

  lemma SplitLevel(v: Version, s: string) returns (d: string, rest: string)
    requires ReadLevel(v, s).Some?
    ensures d != "" && Number(d, LEVEL_DIGITS) && Value(d) <= LEVEL_MAX && (v.stage == CANDIDATE ==> Value(d) != 0)
    ensures s == d + rest && Ends(rest) && ReadLevel(v, s) == Some(v.(level := Value(d)))
  {
    var k := Run(s, LEVEL_DIGITS);
    RunDigits(s, LEVEL_DIGITS);
    d, rest := s[..k], s[k..];
  }

  lemma StageForSpells(s: string)
    ensures var (stage, n) := StageFor(s); stage != INVALID ==>
      && IsStage(stage) && stage != RELEASE && (n == 2 ==> stage == CANDIDATE)
      && s == StringForStage(stage) + ((if n == 2 then "c" else "") + s[n..])
  {
  }

  lemma SplitStage(v: Version, s: string) returns (e: StageText, rest: string)
    requires v.level == 0 && ReadStage(v, s).Some?
    ensures LegalStage(e) && Ends(rest) && s == SpelledStage(e, rest)
    ensures ReadStage(v, s) == Some(v.(stage := e.stage, level := Value(e.level)))
  {
    if Ends(s) {
      e, rest := StageText(RELEASE, false, ""), s;
    } else {
      var (stage, n) := StageFor(s);
      var d;
      d, rest := SplitLevel(v.(stage := stage), s[n..]);
      e := StageText(stage, n == 2, d);
      StageForSpells(s);
    }
  }

  /** Cut a string at k, dropping a period there. */
  lemma Cleave(s: string, k: nat, drop: bool) returns (d: string, more: bool, e: string)
    requires k <= |s|
    ensures d == s[..k] && more == (drop && At(s, k) == '.') && s == d + Stray(more, e)
    ensures if more then e == s[k + 1..] else e == s[k..]
  {
    d, more := s[..k], drop && At(s, k) == '.';
    CutAt(s, k);
    e := if more then s[k + 1..] else s[k..];
  }

  lemma CutAt(s: string, k: nat)
    requires k <= |s|
    ensures s == s[..k] + s[k..] && (k < |s| ==> s == s[..k] + ([s[k]] + s[k + 1..]))
  {
  }

  lemma SplitRevision(v: Version, s: string) returns (d: string, stray: bool, e: string)
    ensures Number(d, REVISION_DIGITS) && (stray ==> |d| == REVISION_DIGITS) && s == d + Stray(stray, e)
    ensures ReadRevision(v, s) == ReadStage(v.(revision := Value(d)), e)
  {
    var k := Run(s, REVISION_DIGITS);
    RunDigits(s, REVISION_DIGITS);
    d, stray, e := Cleave(s, k, k == REVISION_DIGITS);
  }

  lemma {:induction false} MinorIs(v: Version, s: string, k: nat)
    requires k == Run(s, MINOR_DIGITS)
    ensures var w := v.(minor := Value(s[..k]));
      ReadMinor(v, s) == if At(s, k) == '.' then ReadRevision(w, s[k + 1..]) else ReadStage(w, s[k..])
  {
  }

  lemma {:induction false} MajorIs(s: string, k: nat)
    requires k == Run(s, MAJOR_DIGITS) > 0
    ensures var w := Version(Value(s[..k]), 0, 0, INVALID, 0);
      Read(s) == if At(s, k) == '.' then ReadMinor(w, s[k + 1..]) else ReadStage(w, s[k..])
  {
  }

  lemma SplitNumbers(s: string) returns (t: Numbers, e: string)
    requires Read(s).Some?
    ensures LegalNumbers(t) && s == SpelledNumbers(t, e) && Read(s) == ReadStage(MeaningOfNumbers(t), e)
  {
    var k := Run(s, MAJOR_DIGITS);
    MajorIs(s, k);
    RunDigits(s, MAJOR_DIGITS);
    var major, more, p := Cleave(s, k, true);
    if !more {
      t, e := Numbers(major, None, None, false), p;
      return;
    }
    var w := Version(Value(major), 0, 0, INVALID, 0);
    var k' := Run(p, MINOR_DIGITS);
    MinorIs(w, p, k');
    RunDigits(p, MINOR_DIGITS);
    var minor, more', p' := Cleave(p, k', true);
    if !more' {
      t, e := Numbers(major, Some(minor), None, false), p';
      return;
    }
    var revision, stray, p'' := SplitRevision(w.(minor := Value(minor)), p');
    t, e := Numbers(major, Some(minor), Some(revision), stray), p'';
  }

  /** The parser takes nothing but legal texts. */
  lemma LegalTextOf(s: string) returns (t: Numbers, e: StageText, rest: string)
    requires Read(s).Some?
    ensures LegalNumbers(t) && LegalStage(e) && Ends(rest)
    ensures s == SpelledNumbers(t, SpelledStage(e, rest)) && Read(s) == Some(Meaning(t, e))
  {
    var p;
    t, p := SplitNumbers(s);
    e, rest := SplitStage(MeaningOfNumbers(t), p);
  }

  // ---------- printing ----------

  /** What is printed for a number. */
  function Printed(n: int): string {
    if n < 0 then "(invalid)"
    else if n == 0 then "(missing)"
    else
      var v := Unpack(n);
      if v.major > MAJOR_MAX || v.level > LEVEL_MAX || !IsStage(v.stage) then "(invalid)" else Shown(v)
  }

  function Shown(v: Version): string
    requires IsStage(v.stage)
  {
    ShownNumbers(v) + ShownStage(v)
  }

  function ShownNumbers(v: Version): string {
    Decimal(v.major) + ['.'] + Decimal(v.minor) + if v.revision == 0 then "" else ['.'] + Decimal(v.revision)
  }

  function ShownStage(v: Version): string
    requires IsStage(v.stage)
  {
    StringForStage(v.stage) + if v.stage < RELEASE then Decimal(v.level) else ""
  }

  /** The result of the parser. */
  function Parsed(s: string): int {
    if Read(s).Some? then Pack(Read(s).value) else -1
  }

  function NumbersOf(v: Version): Numbers {
    Numbers(Decimal(v.major), Some(Decimal(v.minor)), if v.revision == 0 then None else Some(Decimal(v.revision)), false)
  }

  function StageTextOf(v: Version): StageText {
    StageText(v.stage, false, if v.stage == RELEASE then "" else Decimal(v.level))
  }

  lemma {:induction false} ShortDecimal(n: nat)
    ensures n <= 9999 ==> Number(Decimal(n), 4)
    ensures n <= 999 ==> Number(Decimal(n), 3)
    ensures Value(Decimal(n)) == n
  {
    ValueOfDecimal(n);
    assert Power10(3) == 1000 && Power10(4) == 10000;
    if n <= 9999 {
      DecimalLength(n, 4);
    }
    if n <= 999 {
      DecimalLength(n, 3);
    }
  }

  lemma NumbersSpell(v: Version, e: string)
    ensures SpelledNumbers(NumbersOf(v), e) == ShownNumbers(v) + e
  {
    var r := if v.revision == 0 then "" else ['.'] + Decimal(v.revision);
    assert Part(NumbersOf(v).revision, Stray(false, e)) == r + e;
    Regroup(Decimal(v.major), ['.'], Decimal(v.minor), r, e);
  }

  lemma Regroup(a: string, b: string, c: string, d: string, e: string)
    ensures a + (b + (c + (d + e))) == a + b + c + d + e
  {
  }

  lemma StageSpells(v: Version)
    requires IsStage(v.stage)
    ensures SpelledStage(StageTextOf(v), "") == ShownStage(v)
  {
  }

  lemma NumbersAreLegal(v: Version)
    requires v.major <= 9999 && v.minor <= 9999 && v.revision <= 9999
    ensures LegalNumbers(NumbersOf(v)) && MeaningOfNumbers(NumbersOf(v)) == v.(stage := INVALID, level := 0)
  {
    ShortDecimal(v.major);
    ShortDecimal(v.minor);
    ShortDecimal(v.revision);
  }

  /** Printing a canonical version and parsing the text gives the version back. */
  lemma PrintThenParse(v: Version)
    requires Canonical(v)
    ensures Read(Shown(v)) == Some(v)
  {
    NumbersSpell(v, ShownStage(v));
    StageSpells(v);
    NumbersAreLegal(v);
    ShortDecimal(v.level);
    ReadsLegal(NumbersOf(v), StageTextOf(v), "");
  }

  lemma PrintsShown(v: Version)
    requires Canonical(v)
    ensures Printed(Pack(v)) == Shown(v)
  {
    UnpackPack(v);
  }

  lemma MeaningIsCanonical(t: Numbers, e: StageText)
    requires LegalNumbers(t) && LegalStage(e)
    ensures Canonical(Meaning(t, e))
  {
    assert Power10(0) == 1 && Power10(1) == 10 && Power10(2) == 100 && Power10(3) == 1000 && Power10(4) == 10000;
    ValueBound(t.major);
    if t.minor.Some? {
      ValueBound(t.minor.value);
    }
    if t.revision.Some? {
      ValueBound(t.revision.value);
    }
  }

  /** An accepted string spells a canonical version; printing it and parsing that gives the same number. */
  lemma ParseThenPrint(s: string)
    requires Parsed(s) >= 0
    ensures Canonical(Read(s).value) && Unpack(Parsed(s)) == Read(s).value
    ensures Parsed(Printed(Parsed(s))) == Parsed(s) < 0x8000_0000_0000_0000
  {
    var t, e, rest := LegalTextOf(s);
    MeaningIsCanonical(t, e);
    UnpackPack(Meaning(t, e));
    PrintsShown(Meaning(t, e));
    PrintThenParse(Meaning(t, e));
  }

  /** Numbers order accepted strings as their versions are ordered, and tell them apart. */
  lemma ParsedOrder(s: string, s': string)
    requires Parsed(s) >= 0 && Parsed(s') >= 0
    ensures Parsed(s) < Parsed(s') <==> Before(Read(s).value, Read(s').value)
    ensures Parsed(s) == Parsed(s') <==> Read(s) == Read(s')
  {
    ParseThenPrint(s);
    ParseThenPrint(s');
    PackKeepsOrder(Read(s).value, Read(s').value);
  }

  /** Exactly which numbers survive printing and parsing. */
  lemma PrintThenParseNumber(n: int)
    ensures Parsed(Printed(n)) == n <==> n == -1 || (n > 0 && Canonical(Unpack(n)))
  {
    assert Parsed("(invalid)") == Parsed("(missing)") == -1;
    if n > 0 {
      var v := Unpack(n);
      if Canonical(v) {
        PrintThenParse(v);
        PrintsShown(v);
      } else if v.major <= MAJOR_MAX && v.level <= LEVEL_MAX && IsStage(v.stage) {
        if Parsed(Printed(n)) == n {
          ParseThenPrint(Printed(n));
          assert false;
        }
      }
    }
  }

  // ---------- the parser's code ----------

  /** How a scan for a number stopped: at the end of the version, at a letter that may name a
      stage, past a period, at the limit of digits, or at a character that cannot follow. */
  datatype Stop = AtEnd | AtStage | PastDot | AtLimit | AtJunk

  predicate Stopped(s: string, j: nat, n: nat, max: nat, dots: bool, how: Stop) {
    if n == max then how == AtLimit
    else if IsEnd(At(s, j)) then how == AtEnd
    else if IsReleaseState(At(s, j)) then how == AtStage
    else if dots && At(s, j) == '.' then how == PastDot
    else how == AtJunk
  }

  lemma Cut(s: string, i: nat, j: nat)
    requires i <= j <= |s|
    ensures s[i..][..j - i] == s[i..j] && s[i..][j - i..] == s[j..]
    ensures At(s[i..], j - i) == At(s, j) && At(s[j..], 0) == At(s, j)
    ensures j < |s| ==> s[i..][j - i + 1..] == s[j + 1..]
  {
  }

  lemma {:induction false} RunMore(s: string, i: nat, max: nat)
    requires i < |s| && max > 0 && IsDigit(s[i])
    ensures Run(s[i..], max) == 1 + Run(s[i + 1..], max - 1)
  {
    assert s[i..][1..] == s[i + 1..];
  }

  lemma {:induction false} RunStops(s: string, i: nat, max: nat)
    requires i <= |s| && (max == 0 || !IsDigit(At(s, i)))
    ensures Run(s[i..], max) == 0
  {
  }

  lemma ValueMore(s: string, start: nat, i: nat)
    requires start <= i < |s| && Digits(s[start..i]) && IsDigit(s[i])
    ensures Digits(s[start..i + 1]) && Value(s[start..i + 1]) == Value(s[start..i]) * 10 + DigitForChar(s[i])
  {
    assert s[start..i + 1] == s[start..i] + [s[i]];
  }

  /** The number that begins at start is v as far as j. */
  ghost predicate Scanned(s: string, start: nat, j: nat, v: nat) {
    start <= j <= |s| && Digits(s[start..j]) && v == Value(s[start..j])
  }

  /** The scanning loop.  Of the number that begins at start the digits up to i are read. */
  method ScanNumber(s: string, start: nat, i: nat, max: nat, dots: bool, value: nat)
    returns (how: Stop, v: nat, next: nat, ghost j: nat)
    requires Scanned(s, start, i, value) && i - start <= max
    ensures j == i + Run(s[i..], max - (i - start)) && Scanned(s, start, j, v)
    ensures Stopped(s, j, j - start, max, dots, how) && next == if how == PastDot then j + 1 else j
    ensures next <= |s|
  {
    v, next, j := value, i, i;
    ghost var total := i + Run(s[i..], max - (i - start));
    var n := i - start;
    while n < max
      invariant i <= next == j && n == j - start <= max && Scanned(s, start, j, v)
      invariant j + Run(s[j..], max - n) == total
    {
      var c := At(s, next);
      if !IsDigit(c) {
        RunStops(s, j, max - n);
      }
      if IsEnd(c) {
        return AtEnd, v, next, j;
      } else if IsDigit(c) {
        RunMore(s, j, max - n);
        ValueMore(s, start, j);
        v := v * 10 + DigitForChar(c);
        next, j, n := next + 1, j + 1, n + 1;
      } else if IsReleaseState(c) {
        return AtStage, v, next, j;
      } else if dots && c == '.' {
        return PastDot, v, next + 1, j;
      } else {
        return AtJunk, v, next, j;
      }
    }
    how := AtLimit;
  }

  function Outcome(r: Option<Version>): int {
    if r.Some? then Pack(r.value) else -1
  }

  /** A candidate needs a level. */
  method Finish(v: Version) returns (r: int)
    ensures r == if v.stage == CANDIDATE && v.level == 0 then -1 else Pack(v)
  {
    if v.stage == CANDIDATE && v.level == 0 {
      return -1;
    }
    r := v.major * MAJOR_MULT + v.minor * MINOR_MULT + v.revision * REVISION_MULT + v.stage * STAGE_MULT + v.level;
  }

  lemma {:induction false} SmallLevel(d: string)
    requires Digits(d) && |d| < LEVEL_DIGITS
    ensures Value(d) <= LEVEL_MAX
  {
    assert Power10(0) == 1 && Power10(1) == 10 && Power10(2) == 100;
    ValueBound(d);
  }

  method ParseLevel(v: Version, s: string, i: nat) returns (r: int)
    requires i <= |s| && v.level == 0
    ensures r == Outcome(ReadLevel(v, s[i..]))
  {
    var how, level, next, j := ScanNumber(s, i, i, LEVEL_DIGITS, false, 0);
    ghost var e, k := s[i..], j - i;
    Cut(s, i, j);
    if how == AtEnd {
      SmallLevel(e[..k]);
      if next == i {
        return -1;
      }
    } else if how == AtLimit {
      if !IsEnd(At(s, next)) {
        return -1;
      }
      if level > LEVEL_MAX {
        return -1;
      }
    } else {
      return -1;
    }
    r := Finish(v.(level := level));
  }

  method ParseStage(v: Version, s: string, i: nat) returns (r: int)
    requires i <= |s| && v.level == 0
    ensures r == Outcome(ReadStage(v, s[i..]))
  {
    assert At(s, i) == At(s[i..], 0);
    if IsEnd(At(s, i)) {
      r := Finish(v.(stage := RELEASE));
      return;
    }
    var (stage, n) := StageFor(s[i..]);
    if stage == INVALID {
      return -1;
    }
    assert s[i..][n..] == s[i + n..];
    r := ParseLevel(v.(stage := stage), s, i + n);
  }

  /** A text that begins with anything else has no stage. */
  lemma NoStage(v: Version, s: string)
    requires !IsEnd(At(s, 0)) && !IsReleaseState(At(s, 0))
    ensures ReadStage(v, s) == None
  {
  }

  method ParseRevision(v: Version, s: string, i: nat) returns (r: int)
    requires i <= |s| && v.level == 0
    ensures r == Outcome(ReadRevision(v, s[i..]))
  {
    var how, revision, next, j := ScanNumber(s, i, i, REVISION_DIGITS, false, 0);
    ghost var e, k := s[i..], j - i;
    Cut(s, i, j);
    var w := v.(revision := revision);
    if how == AtEnd {
      r := Finish(w.(stage := RELEASE));
      return;
    } else if how == AtJunk {
      NoStage(w, s[j..]);
      return -1;
    } else if how == AtLimit {
      if At(s, next) == '.' {
        next := next + 1;
      } else if IsDigit(At(s, next)) {
        NoStage(w, s[j..]);
        return -1;
      }
    }
    r := ParseStage(w, s, next);
  }

  /** A number of four digits with no period after it leads on to an empty next number. */
  lemma EmptyRevision(v: Version, s: string)
    requires !IsDigit(At(s, 0)) && At(s, 0) != '.' && v.revision == 0
    ensures ReadRevision(v, s) == ReadStage(v, s)
  {
    assert s[0..] == s;
  }

  lemma EmptyMinor(v: Version, s: string)
    requires !IsDigit(At(s, 0)) && At(s, 0) != '.' && v.minor == 0
    ensures ReadMinor(v, s) == ReadStage(v, s)
  {
    assert s[0..] == s;
  }

  lemma MinorAt(v: Version, s: string, i: nat, j: nat)
    requires i <= |s| && j == i + Run(s[i..], MINOR_DIGITS)
    ensures var w := v.(minor := Value(s[i..j]));
      ReadMinor(v, s[i..]) == if At(s, j) == '.' then ReadRevision(w, s[j + 1..]) else ReadStage(w, s[j..])
  {
    Cut(s, i, j);
    MinorIs(v, s[i..], j - i);
  }

  method ParseMinor(v: Version, s: string, i: nat) returns (r: int)
    requires i <= |s| && v.level == 0 && v.revision == 0
    ensures r == Outcome(ReadMinor(v, s[i..]))
  {
    var how, minor, next, j := ScanNumber(s, i, i, MINOR_DIGITS, true, 0);
    MinorAt(v, s, i, j);
    assert At(s[j..], 0) == At(s, j);
    var w := v.(minor := minor);
    if how == AtEnd {
      r := Finish(w.(stage := RELEASE));
      return;
    } else if how == AtStage {
      r := ParseStage(w, s, next);
      return;
    } else if how == AtJunk {
      NoStage(w, s[j..]);
      return -1;
    } else if how == AtLimit {
      if At(s, next) == '.' {
        next := next + 1;
      } else if IsDigit(At(s, next)) {
        NoStage(w, s[j..]);
        return -1;
      } else {
        EmptyRevision(w, s[j..]);
      }
    }
    r := ParseRevision(w, s, next);
  }

  method ParseMajor(s: string) returns (r: int)
    requires s != ""
    ensures r == Parsed(s)
  {
    var major := DigitForChar(At(s, 0));
    if major < 0 {
      assert Run(s, MAJOR_DIGITS) == 0;
      return -1;
    }
    ValueMore(s, 0, 0);
    RunMore(s, 0, MAJOR_DIGITS);
    assert s[0..] == s && s[0..0] == "";
    var how, value, next, j := ScanNumber(s, 0, 1, MAJOR_DIGITS, true, major);
    MajorIs(s, j);
    assert s[..j] == s[0..j] && At(s[j..], 0) == At(s, j);
    var w := Version(value, 0, 0, INVALID, 0);
    if how == AtEnd {
      r := Finish(w.(stage := RELEASE));
      return;
    } else if how == AtStage {
      r := ParseStage(w, s, next);
      return;
    } else if how == AtJunk {
      NoStage(w, s[j..]);
      return -1;
    } else if how == AtLimit {
      if At(s, next) == '.' {
        next := next + 1;
      } else if IsDigit(At(s, next)) {
        NoStage(w, s[j..]);
        return -1;
      } else {
        EmptyMinor(w, s[j..]);
      }
    }
    r := ParseMinor(w, s, next);
  }

  /** The parser. */
  method ParseVersionString(s: Option<string>) returns (r: int)
    ensures r == if s.Some? then Parsed(s.value) else -1
  {
    if s.None? || At(s.value, 0) == '\0' {
      return -1;
    }
    r := ParseMajor(s.value);
  }

  // ---------- the printer's code ----------

  /** The string a buffer holds: what stands before its first terminator. */
  function CString(b: string): string {
    if b == "" || b[0] == '\0' then "" else [b[0]] + CString(b[1..])
  }

  predicate NoZero(d: string) {
    forall i :: 0 <= i < |d| ==> d[i] != '\0'
  }

  lemma {:induction false} CStringIs(b: string, d: string)
    requires NoZero(d) && |d| < |b| && b[..|d|] == d && b[|d|] == '\0'
    ensures CString(b) == d
  {
    if d == "" {
    } else {
      assert b[0] == d[0] && b[1..][..|d| - 1] == d[1..];
      CStringIs(b[1..], d[1..]);
    }
  }

  /** The buffer holds exactly d. */
  ghost predicate Holds(buffer: array<char>, d: string)
    reads buffer
  {
    NoZero(d) && |d| < buffer.Length && buffer[..|d|] == d && buffer[|d|] == '\0'
  }

  /** Write text at pos with a terminator: what the library's string routines do. */
  method Put(buffer: array<char>, pos: nat, text: string, ghost before: string)
    requires pos + |text| < buffer.Length && NoZero(text) && NoZero(before) && |before| == pos
    requires buffer[..pos] == before
    modifies buffer
    ensures Holds(buffer, before + text)
  {
    var i := 0;
    while i < |text|
      invariant 0 <= i <= |text|
      invariant buffer[..pos] == before && buffer[pos..pos + i] == text[..i]
    {
      buffer[pos + i] := text[i];
      assert buffer[pos..pos + i + 1] == buffer[pos..pos + i] + [text[i]];
      i := i + 1;
    }
    buffer[pos + |text|] := '\0';
    assert buffer[..pos + |text|] == buffer[..pos] + buffer[pos..pos + |text|];
  }

  method PutDot(buffer: array<char>, pos: nat, ghost before: string) returns (next: nat)
    requires Holds(buffer, before) && |before| == pos
    modifies buffer
    ensures next == pos + 1 && buffer[..next] == before + ['.'] && NoZero(before + ['.'])
  {
    buffer[pos] := '.';
    next := pos + 1;
  }

  /** A number in decimal; the next free place comes back. */
  method PutNumber(buffer: array<char>, pos: nat, n: nat, ghost before: string) returns (next: nat)
    requires n <= 9999 && pos + 4 < buffer.Length && NoZero(before) && |before| == pos && buffer[..pos] == before
    modifies buffer
    ensures Holds(buffer, before + Decimal(n)) && next == |before + Decimal(n)| <= pos + 4
  {
    ShortDecimal(n);
    Put(buffer, pos, Decimal(n), before);
    next := pos + |Decimal(n)|;
  }

  /** A period and a number behind what the buffer holds. */
  method PutPart(buffer: array<char>, pos: nat, n: nat, ghost before: string) returns (next: nat)
    requires n <= 9999 && pos + 5 < buffer.Length && Holds(buffer, before) && |before| == pos
    modifies buffer
    ensures Holds(buffer, before + (['.'] + Decimal(n))) && next == |before + (['.'] + Decimal(n))| <= pos + 5
  {
    next := PutDot(buffer, pos, before);
    next := PutNumber(buffer, next, n, before + ['.']);
    assert before + ['.'] + Decimal(n) == before + (['.'] + Decimal(n));
  }

  method PutNumbers(buffer: array<char>, v: Version) returns (pos: nat)
    requires InRange(v) && buffer.Length >= BUFFER_MIN
    modifies buffer
    ensures Holds(buffer, ShownNumbers(v)) && pos == |ShownNumbers(v)| <= 14
  {
    pos := PutNumber(buffer, 0, v.major, "");
    assert "" + Decimal(v.major) == Decimal(v.major);
    pos := PutPart(buffer, pos, v.minor, Decimal(v.major));
    ghost var d := Decimal(v.major) + (['.'] + Decimal(v.minor));
    assert d == Decimal(v.major) + ['.'] + Decimal(v.minor);
    if v.revision != 0 {
      pos := PutPart(buffer, pos, v.revision, d);
    } else {
      assert d + "" == d;
    }
  }

  method PutStage(buffer: array<char>, v: Version, pos: nat)
    requires InRange(v) && IsStage(v.stage) && buffer.Length >= BUFFER_MIN
    requires Holds(buffer, ShownNumbers(v)) && pos == |ShownNumbers(v)| <= 14
    modifies buffer
    ensures Holds(buffer, Shown(v))
  {
    var name, next := StringForStage(v.stage), pos;
    ghost var d := ShownNumbers(v);
    if name != "" {
      Put(buffer, next, name, d);
      next := next + |name|;
    }
    assert Holds(buffer, d + name) by {
      assert name == "" ==> d + name == d;
    }
    if v.stage < RELEASE {
      var last := PutNumber(buffer, next, v.level, d + name);
    }
    assert Shown(v) == d + name + if v.stage < RELEASE then Decimal(v.level) else "";
  }

  method PutText(buffer: array<char>, text: string)
    requires |text| < buffer.Length && NoZero(text)
    modifies buffer
    ensures CString(buffer[..]) == text
  {
    Put(buffer, 0, text, "");
    assert "" + text == text && buffer[..][..|text|] == buffer[..|text|];
    CStringIs(buffer[..], text);
  }

  method PutVersion(buffer: array<char>, v: Version)
    requires InRange(v) && IsStage(v.stage) && buffer.Length >= BUFFER_MIN
    modifies buffer
    ensures CString(buffer[..]) == Shown(v)
  {
    var pos := PutNumbers(buffer, v);
    PutStage(buffer, v, pos);
    assert buffer[..][..|Shown(v)|] == buffer[..|Shown(v)|];
    CStringIs(buffer[..], Shown(v));
  }

  /** The printer. */
  method GetString(n: int, buffer: array?<char>) returns (ok: bool)
    modifies buffer
    ensures ok <==> buffer != null && buffer.Length >= BUFFER_MIN
    ensures ok ==> CString(buffer[..]) == Printed(n)
    ensures !ok && buffer != null ==> buffer[..] == old(buffer[..])
  {
    if buffer == null || buffer.Length < BUFFER_MIN {
      return false;
    }
    Clear(buffer);
    ok := true;
    if n < 0 {
      PutText(buffer, "(invalid)");
      return;
    }
    if n == 0 {
      PutText(buffer, "(missing)");
      return;
    }
    var v := Unpack(n);
    if v.major > MAJOR_MAX || v.level > LEVEL_MAX {
      PutText(buffer, "(invalid)");
      return;
    }
    if !IsStage(v.stage) {
      var _ := PutNumbers(buffer, v);
      PutText(buffer, "(invalid)");
      return;
    }
    PutVersion(buffer, v);
  }

  method Clear(buffer: array<char>)
    modifies buffer
    ensures forall i :: 0 <= i < buffer.Length ==> buffer[i] == '\0'
  {
    for i := 0 to buffer.Length
      invariant forall j :: 0 <= j < i ==> buffer[j] == '\0'
    {
      buffer[i] := '\0';
    }
  }
}
