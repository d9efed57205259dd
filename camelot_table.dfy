/**
  The static table from "tonic mode" spellings to Camelot codes, checked
  entry by entry against the circle of fifths.
 */
module CamelotTable {
  import opened Camelot

  /** The twelve major keys (B codes), the twelve minor keys (A codes), and eight flat synonyms. */
  const CamelotMap: map<string, string> := map[
    "B major" := "1B", "F# major" := "2B", "C# major" := "3B",
    "G# major" := "4B", "D# major" := "5B", "A# major" := "6B",
    "F major" := "7B", "C major" := "8B", "G major" := "9B",
    "D major" := "10B", "A major" := "11B", "E major" := "12B",
    "G# minor" := "1A", "D# minor" := "2A", "A# minor" := "3A",
    "F minor" := "4A", "C minor" := "5A", "G minor" := "6A",
    "D minor" := "7A", "A minor" := "8A", "E minor" := "9A",
    "B minor" := "10A", "F# minor" := "11A", "C# minor" := "12A",
    "Ab major" := "4B", "Eb major" := "5B", "Bb major" := "6B",
    "Db major" := "3B", "Gb major" := "2B",
    "Ab minor" := "1A", "Eb minor" := "2A", "Bb minor" := "3A"
  ]

  // An independent reference: the circle of fifths.

  datatype Mode = Major | Minor

  /** Pitch classes (C = 0) of the tonic spellings, sharps and flats. */
  const PitchClasses: map<string, int> := map[
    "C" := 0, "C#" := 1, "Db" := 1, "D" := 2, "D#" := 3, "Eb" := 3,
    "E" := 4, "F" := 5, "F#" := 6, "Gb" := 6, "G" := 7, "G#" := 8,
    "Ab" := 8, "A" := 9, "A#" := 10, "Bb" := 10, "B" := 11
  ]

  /** The sharp spelling of each pitch class, the table's canonical tonics. */
  const SharpTonics: seq<string> := ["C", "C#", "D", "D#", "E", "F", "F#", "G", "G#", "A", "A#", "B"]

  function ModeSuffix(m: Mode): string {
    if m == Major then " major" else " minor"
  }

  function ModeLetter(m: Mode): char {
    if m == Major then 'B' else 'A'
  }

  /**
    Wheel position of a key: one step of the wheel is a fifth (7
    semitones); C major sits at 8, and a minor key sits with its relative
    major, three semitones up.
   */
  function WheelPosition(pc: int, m: Mode): (pos: int)
    requires 0 <= pc < 12
    ensures 1 <= pos <= 12
  {
    if m == Major then (7 * pc + 7) % 12 + 1 else (7 * pc + 4) % 12 + 1
  }

  function WheelCode(pc: int, m: Mode): Code
    requires 0 <= pc < 12
  {
    Code(WheelPosition(pc, m), ModeLetter(m))
  }

  /** `name` is `tonic` followed by the mode, and its table value is that key's wheel code. */
  predicate OnWheel(name: string, tonic: string, m: Mode) {
    && name in CamelotMap
    && tonic in PitchClasses && 0 <= PitchClasses[tonic] < 12
    && name == tonic + ModeSuffix(m)
    && CamelotMap[name] == FormatCode(WheelCode(PitchClasses[tonic], m))
  }

  /**
    Every entry of the table, synonyms included, is the circle-of-fifths
    code of its tonic's pitch class and its mode: "X major" gives a B code,
    "X minor" an A code, and two spellings of one pitch map alike.
   */
  lemma TableAgreesWithWheel(name: string)
    requires name in CamelotMap
    ensures exists tonic, m :: OnWheel(name, tonic, m)
  {
    if name in {"B major", "F# major", "C# major", "G# major", "D# major", "A# major", "F major", "C major", "G major", "D major", "A major", "E major"} {
      MajorKeysOnWheel(name);
    } else if name in {"G# minor", "D# minor", "A# minor", "F minor", "C minor", "G minor", "D minor", "A minor", "E minor", "B minor", "F# minor", "C# minor"} {
      MinorKeysOnWheel(name);
    } else {
      FlatKeysOnWheel(name);
    }
  }

  /** The table agrees with the wheel on the twelve major keys. */
  lemma MajorKeysOnWheel(name: string)
    requires name in {"B major", "F# major", "C# major", "G# major", "D# major", "A# major", "F major", "C major", "G major", "D major", "A major", "E major"}
    ensures exists tonic, m :: OnWheel(name, tonic, m)
  {
    if name in {"B major", "F# major", "C# major"} {
      MajorKeys1To3();
    } else if name in {"G# major", "D# major", "A# major"} {
      MajorKeys4To6();
    } else if name in {"F major", "C major", "G major"} {
      MajorKeys7To9();
    } else {
      MajorKeys10To12();
    }
  }

  /** The table agrees with the wheel on the twelve minor keys. */
  lemma MinorKeysOnWheel(name: string)
    requires name in {"G# minor", "D# minor", "A# minor", "F minor", "C minor", "G minor", "D minor", "A minor", "E minor", "B minor", "F# minor", "C# minor"}
    ensures exists tonic, m :: OnWheel(name, tonic, m)
  {
    if name in {"G# minor", "D# minor", "A# minor"} {
      MinorKeys1To3();
    } else if name in {"F minor", "C minor", "G minor"} {
      MinorKeys4To6();
    } else if name in {"D minor", "A minor", "E minor"} {
      MinorKeys7To9();
    } else {
      MinorKeys10To12();
    }
  }

  /** The table agrees with the wheel on the eight flat synonyms. */
  lemma FlatKeysOnWheel(name: string)
    requires name in {"Ab major", "Eb major", "Bb major", "Db major", "Gb major", "Ab minor", "Eb minor", "Bb minor"}
    ensures exists tonic, m :: OnWheel(name, tonic, m)
  {
    if name in {"Ab major", "Eb major", "Bb major"} {
      FlatMajorKeysAbEbBb();
    } else if name in {"Db major", "Gb major"} {
      FlatMajorKeysDbGb();
    } else {
      FlatMinorKeys();
    }
  }

  // The table, three entries at a time, against the wheel.

  lemma MajorKeys1To3()
    ensures OnWheel("B major", "B", Major)
    ensures OnWheel("F# major", "F#", Major)
    ensures OnWheel("C# major", "C#", Major)
  {
  }

  lemma MajorKeys4To6()
    ensures OnWheel("G# major", "G#", Major)
    ensures OnWheel("D# major", "D#", Major)
    ensures OnWheel("A# major", "A#", Major)
  {
  }

  lemma MajorKeys7To9()
    ensures OnWheel("F major", "F", Major)
    ensures OnWheel("C major", "C", Major)
    ensures OnWheel("G major", "G", Major)
  {
  }

  lemma MajorKeys10To12()
    ensures OnWheel("D major", "D", Major)
    ensures OnWheel("A major", "A", Major)
    ensures OnWheel("E major", "E", Major)
  {
  }

  lemma MinorKeys1To3()
    ensures OnWheel("G# minor", "G#", Minor)
    ensures OnWheel("D# minor", "D#", Minor)
    ensures OnWheel("A# minor", "A#", Minor)
  {
  }

  lemma MinorKeys4To6()
    ensures OnWheel("F minor", "F", Minor)
    ensures OnWheel("C minor", "C", Minor)
    ensures OnWheel("G minor", "G", Minor)
  {
  }

  lemma MinorKeys7To9()
    ensures OnWheel("D minor", "D", Minor)
    ensures OnWheel("A minor", "A", Minor)
    ensures OnWheel("E minor", "E", Minor)
  {
  }

  lemma MinorKeys10To12()
    ensures OnWheel("B minor", "B", Minor)
    ensures OnWheel("F# minor", "F#", Minor)
    ensures OnWheel("C# minor", "C#", Minor)
  {
  }

  lemma FlatMajorKeysAbEbBb()
    ensures OnWheel("Ab major", "Ab", Major)
    ensures OnWheel("Eb major", "Eb", Major)
    ensures OnWheel("Bb major", "Bb", Major)
  {
  }

  lemma FlatMajorKeysDbGb()
    ensures OnWheel("Db major", "Db", Major)
    ensures OnWheel("Gb major", "Gb", Major)
  {
  }

  lemma FlatMinorKeys()
    ensures OnWheel("Ab minor", "Ab", Minor)
    ensures OnWheel("Eb minor", "Eb", Minor)
    ensures OnWheel("Bb minor", "Bb", Minor)
  {
  }

  /**
    Enharmonic synonyms agree: two spellings of one pitch class in one
    mode, when both are in the table, have the same code (so "Ab major"
    and "G# major" are both 4B).
   */
  lemma EnharmonicSpellingsAgree(t1: string, t2: string, m: Mode)
    requires t1 + ModeSuffix(m) in CamelotMap && t2 + ModeSuffix(m) in CamelotMap
    requires t1 in PitchClasses && t2 in PitchClasses && PitchClasses[t1] == PitchClasses[t2]
    ensures CamelotMap[t1 + ModeSuffix(m)] == CamelotMap[t2 + ModeSuffix(m)]
  {
    SpellingOnWheel(t1, m);
    SpellingOnWheel(t2, m);
  }

  /** The table agrees with the wheel on an entry named by its tonic and mode. */
  lemma SpellingOnWheel(t: string, m: Mode)
    requires t + ModeSuffix(m) in CamelotMap && t in PitchClasses
    ensures 0 <= PitchClasses[t] < 12
    ensures CamelotMap[t + ModeSuffix(m)] == FormatCode(WheelCode(PitchClasses[t], m))
  {
    var name := t + ModeSuffix(m);
    TableAgreesWithWheel(name);
    var tonic, m' :| OnWheel(name, tonic, m');
    assert |ModeSuffix(m)| == |ModeSuffix(m')| == 6;
    assert t == name[..|name| - 6] == tonic;
    assert ModeSuffix(m) == name[|name| - 6..] == ModeSuffix(m');
    assert ModeSuffix(Major)[2] != ModeSuffix(Minor)[2];
  }

  /** Every key of the table names a mode after a space. */
  lemma KeysNameAMode()
    ensures forall name :: name in CamelotMap ==> ' ' in name
  {
    forall name | name in CamelotMap
      ensures ' ' in name
    {
      TableAgreesWithWheel(name);
      var tonic, m :| OnWheel(name, tonic, m);
      assert name[|tonic|] == ' ';
    }
  }

  /** Every value of the table parses, to a position in 1..12 and a letter A or B. */
  lemma TableValuesAreCodes()
    ensures forall name :: name in CamelotMap ==>
      Parses(CamelotMap[name]) && ValidCode(Parsed(CamelotMap[name]))
  {
    forall name | name in CamelotMap
      ensures Parses(CamelotMap[name]) && ValidCode(Parsed(CamelotMap[name]))
    {
      TableAgreesWithWheel(name);
      var tonic, m :| OnWheel(name, tonic, m);
      ExtractFormatRoundTrip(WheelCode(PitchClasses[tonic], m));
    }
  }

  /** The canonical (sharp) spelling of a key. */
  function CanonicalName(pc: int, m: Mode): string
    requires 0 <= pc < 12
  {
    SharpTonics[pc] + ModeSuffix(m)
  }

  /** The pitch class whose key of mode `m` sits at wheel position `pos`. */
  function PitchAt(pos: int, m: Mode): int {
    if m == Major then (7 * (pos - 8)) % 12 else (7 * (pos - 5)) % 12
  }

  function ModeOfLetter(letter: char): Mode {
    if letter == 'B' then Major else Minor
  }

  lemma ModOf(a: int, b: int, t: int)
    requires 0 <= b < 12 && a == b + 12 * t
    ensures a % 12 == b
  {
  }

  /**
    PitchAt undoes WheelPosition: 7 * 7 = 49 = 4 * 12 + 1, so stepping by
    fifths is its own inverse modulo 12.
   */
  lemma WheelInverse(pc: int, m: Mode)
    requires 0 <= pc < 12
    ensures PitchAt(WheelPosition(pc, m), m) == pc
  {
    var k := if m == Major then 7 * pc + 7 else 7 * pc + 4;
    var q := k / 12;
    var pos := k % 12 + 1;
    assert WheelPosition(pc, m) == pos;
    if m == Major {
      ModOf(7 * (pos - 8), pc, 4 * pc - 7 * q);
    } else {
      ModOf(7 * (pos - 5), pc, 4 * pc - 7 * q);
    }
  }

  /** WheelPosition undoes PitchAt on the twelve positions. */
  lemma PositionInverse(pos: int, m: Mode)
    requires 1 <= pos <= 12
    ensures 0 <= PitchAt(pos, m) < 12 && WheelPosition(PitchAt(pos, m), m) == pos
  {
    var j := if m == Major then 7 * (pos - 8) else 7 * (pos - 5);
    var q := j / 12;
    var pc := j % 12;
    assert PitchAt(pos, m) == pc;
    if m == Major {
      ModOf(7 * pc + 7, pos - 1, 4 * pos - 32 - 7 * q);
    } else {
      ModOf(7 * pc + 4, pos - 1, 4 * pos - 20 - 7 * q);
    }
  }

  lemma SharpPitchClass(pc: int)
    requires 0 <= pc < 12
    ensures SharpTonics[pc] in PitchClasses && PitchClasses[SharpTonics[pc]] == pc
  {
    if pc == 0 {
      assert SharpTonics[pc] == "C";
    } else if pc == 1 {
      assert SharpTonics[pc] == "C#";
    } else if pc == 2 {
      assert SharpTonics[pc] == "D";
    } else if pc == 3 {
      assert SharpTonics[pc] == "D#";
    } else if pc == 4 {
      assert SharpTonics[pc] == "E";
    } else if pc == 5 {
      assert SharpTonics[pc] == "F";
    } else if pc == 6 {
      assert SharpTonics[pc] == "F#";
    } else if pc == 7 {
      assert SharpTonics[pc] == "G";
    } else if pc == 8 {
      assert SharpTonics[pc] == "G#";
    } else if pc == 9 {
      assert SharpTonics[pc] == "A";
    } else if pc == 10 {
      assert SharpTonics[pc] == "A#";
    } else {
      assert SharpTonics[pc] == "B";
    }
  }

  lemma CanonicalMajorEntry(pc: int)
    requires 0 <= pc < 12
    ensures OnWheel(CanonicalName(pc, Major), SharpTonics[pc], Major)
  {
    if pc < 6 {
      CanonicalMajorEntryCToF(pc);
    } else {
      CanonicalMajorEntryFSharpToB(pc);
    }
  }

  lemma CanonicalMajorEntryCToF(pc: int)
    requires 0 <= pc < 6
    ensures OnWheel(CanonicalName(pc, Major), SharpTonics[pc], Major)
  {
    if pc == 0 {
      assert SharpTonics[pc] == "C";
      assert CanonicalName(pc, Major) == "C major";
      MajorKeys7To9();
    } else if pc == 1 {
      assert SharpTonics[pc] == "C#";
      assert CanonicalName(pc, Major) == "C# major";
      MajorKeys1To3();
    } else if pc == 2 {
      assert SharpTonics[pc] == "D";
      assert CanonicalName(pc, Major) == "D major";
      MajorKeys10To12();
    } else if pc == 3 {
      assert SharpTonics[pc] == "D#";
      assert CanonicalName(pc, Major) == "D# major";
      MajorKeys4To6();
    } else if pc == 4 {
      assert SharpTonics[pc] == "E";
      assert CanonicalName(pc, Major) == "E major";
      MajorKeys10To12();
    } else {
      assert SharpTonics[pc] == "F";
      assert CanonicalName(pc, Major) == "F major";
      MajorKeys7To9();
    }
  }

  lemma CanonicalMajorEntryFSharpToB(pc: int)
    requires 6 <= pc < 12
    ensures OnWheel(CanonicalName(pc, Major), SharpTonics[pc], Major)
  {
    if pc == 6 {
      assert SharpTonics[pc] == "F#";
      assert CanonicalName(pc, Major) == "F# major";
      MajorKeys1To3();
    } else if pc == 7 {
      assert SharpTonics[pc] == "G";
      assert CanonicalName(pc, Major) == "G major";
      MajorKeys7To9();
    } else if pc == 8 {
      assert SharpTonics[pc] == "G#";
      assert CanonicalName(pc, Major) == "G# major";
      MajorKeys4To6();
    } else if pc == 9 {
      assert SharpTonics[pc] == "A";
      assert CanonicalName(pc, Major) == "A major";
      MajorKeys10To12();
    } else if pc == 10 {
      assert SharpTonics[pc] == "A#";
      assert CanonicalName(pc, Major) == "A# major";
      MajorKeys4To6();
    } else {
      assert SharpTonics[pc] == "B";
      assert CanonicalName(pc, Major) == "B major";
      MajorKeys1To3();
    }
  }

  lemma CanonicalMinorEntry(pc: int)
    requires 0 <= pc < 12
    ensures OnWheel(CanonicalName(pc, Minor), SharpTonics[pc], Minor)
  {
    if pc < 6 {
      CanonicalMinorEntryCToF(pc);
    } else {
      CanonicalMinorEntryFSharpToB(pc);
    }
  }

  lemma CanonicalMinorEntryCToF(pc: int)
    requires 0 <= pc < 6
    ensures OnWheel(CanonicalName(pc, Minor), SharpTonics[pc], Minor)
  {
    if pc == 0 {
      assert SharpTonics[pc] == "C";
      assert CanonicalName(pc, Minor) == "C minor";
      MinorKeys4To6();
    } else if pc == 1 {
      assert SharpTonics[pc] == "C#";
      assert CanonicalName(pc, Minor) == "C# minor";
      MinorKeys10To12();
    } else if pc == 2 {
      assert SharpTonics[pc] == "D";
      assert CanonicalName(pc, Minor) == "D minor";
      MinorKeys7To9();
    } else if pc == 3 {
      assert SharpTonics[pc] == "D#";
      assert CanonicalName(pc, Minor) == "D# minor";
      MinorKeys1To3();
    } else if pc == 4 {
      assert SharpTonics[pc] == "E";
      assert CanonicalName(pc, Minor) == "E minor";
      MinorKeys7To9();
    } else {
      assert SharpTonics[pc] == "F";
      assert CanonicalName(pc, Minor) == "F minor";
      MinorKeys4To6();
    }
  }

  lemma CanonicalMinorEntryFSharpToB(pc: int)
    requires 6 <= pc < 12
    ensures OnWheel(CanonicalName(pc, Minor), SharpTonics[pc], Minor)
  {
    if pc == 6 {
      assert SharpTonics[pc] == "F#";
      assert CanonicalName(pc, Minor) == "F# minor";
      MinorKeys10To12();
    } else if pc == 7 {
      assert SharpTonics[pc] == "G";
      assert CanonicalName(pc, Minor) == "G minor";
      MinorKeys4To6();
    } else if pc == 8 {
      assert SharpTonics[pc] == "G#";
      assert CanonicalName(pc, Minor) == "G# minor";
      MinorKeys1To3();
    } else if pc == 9 {
      assert SharpTonics[pc] == "A";
      assert CanonicalName(pc, Minor) == "A minor";
      MinorKeys7To9();
    } else if pc == 10 {
      assert SharpTonics[pc] == "A#";
      assert CanonicalName(pc, Minor) == "A# minor";
      MinorKeys1To3();
    } else {
      assert SharpTonics[pc] == "B";
      assert CanonicalName(pc, Minor) == "B minor";
      MinorKeys10To12();
    }
  }

  /** The canonical spelling of every key is in the table, at its wheel code. */
  lemma CanonicalEntry(pc: int, m: Mode)
    requires 0 <= pc < 12
    ensures CanonicalName(pc, m) in CamelotMap
    ensures CamelotMap[CanonicalName(pc, m)] == FormatCode(WheelCode(pc, m))
  {
    SharpPitchClass(pc);
    if m == Major {
      CanonicalMajorEntry(pc);
    } else {
      CanonicalMinorEntry(pc);
    }
  }

  /** Every one of the 24 wheel codes is the value of the canonical spelling of its key. */
  lemma CanonicalCovers(c: Code)
    requires ValidCode(c)
    ensures var name := CanonicalName(PitchAt(c.number, ModeOfLetter(c.letter)), ModeOfLetter(c.letter));
      name in CamelotMap && CamelotMap[name] == FormatCode(c)
  {
    PositionInverse(c.number, ModeOfLetter(c.letter));
    CanonicalEntry(PitchAt(c.number, ModeOfLetter(c.letter)), ModeOfLetter(c.letter));
  }

  /**
    The code of a canonical spelling leads back to that spelling, so the
    24 canonical entries map onto distinct codes: with CanonicalCovers, a
    bijection onto the wheel.
   */
  lemma CanonicalDistinct(pc: int, m: Mode)
    requires 0 <= pc < 12
    ensures CanonicalName(pc, m) in CamelotMap
    ensures var v := CamelotMap[CanonicalName(pc, m)];
      && Parses(v) && ValidCode(Parsed(v)) && Parsed(v).letter == ModeLetter(m)
      && PitchAt(Parsed(v).number, ModeOfLetter(Parsed(v).letter)) == pc
      && ModeOfLetter(Parsed(v).letter) == m
  {
    CanonicalEntry(pc, m);
    WheelInverse(pc, m);
    ExtractFormatRoundTrip(WheelCode(pc, m));
  }

}
