/** The semester / academic-year extractor of the teaching-load parser. */
module Semester {
  import opened Wrappers
  import opened Strings

  /** The captures of `(\d(?:ST|ND|RD|TH))\s+Semester,\s*AY\s*(\d{4})-(\d{4})`:
      the ordinal as written and the two year strings. */
  datatype SemesterMatch = SemesterMatch(ordinal: string, startYear: string, endYear: string)

  /** The semester label and the window dates the handler derives from a document. */
  datatype SemesterWindow = SemesterWindow(semester: string, startDate: string, endDate: string)

  const OrdinalSuffixes: seq<string> := ["ST", "ND", "RD", "TH"]

  /** A digit followed by one of the suffixes, in any ASCII case. */
  predicate IsOrdinal(o: string) {
    |o| == 3 && IsDigit(o[0]) && ToUpper(o[1..]) in OrdinalSuffixes
  }

  predicate IsYear(y: string) {
    |y| == 4 && AllDigits(y)
  }

  /** The semester pattern anchored at position `p` (flag `i`). Every `\s*`
      and `\s+` is greedy and is followed by a non-space token, so no
      backtracking is ever needed. */
  function SemesterAt(text: string, p: nat): (r: Option<SemesterMatch>)
    ensures r.Some? ==> IsOrdinal(r.value.ordinal) && IsYear(r.value.startYear) && IsYear(r.value.endYear)
    ensures r.Some? ==> p + 3 <= |text| && r.value.ordinal == text[p..p + 3]
  {
    if p + 3 <= |text| && IsDigit(text[p]) && ToUpper(text[p + 1..p + 3]) in OrdinalSuffixes then
      var q := SkipSpaces(text, p + 3);
      if q > p + 3 && q + 9 <= |text| && EqualsIgnoreCase(text[q..q + 8], "Semester") && text[q + 8] == ',' then
        match YearsAt(text, q + 9)
        case None => None
        case Some((y1, y2)) =>
          assert text[p..p + 3][1..] == text[p + 1..p + 3];
          Some(SemesterMatch(text[p..p + 3], y1, y2))
      else None
    else None
  }

  /** The pattern's tail after the comma, `\s*AY\s*(\d{4})-(\d{4})`, read
      from `i`: the two captured years. */
  function YearsAt(text: string, i: nat): (r: Option<(string, string)>)
    requires i <= |text|
    ensures r.Some? ==> IsYear(r.value.0) && IsYear(r.value.1)
  {
    var a := SkipSpaces(text, i);
    if a + 2 <= |text| && EqualsIgnoreCase(text[a..a + 2], "AY") then
      var y := SkipSpaces(text, a + 2);
      if y + 9 <= |text| && AllDigits(text[y..y + 4]) && text[y + 4] == '-' && AllDigits(text[y + 5..y + 9])
      then Some((text[y..y + 4], text[y + 5..y + 9]))
      else None
    else None
  }

  /** `text.match(...)` for the semester pattern: its leftmost occurrence. */
  function FindSemester(text: string): Option<SemesterMatch> {
    match FirstMatch(text, 0, SemesterAt)
    case None => None
    case Some((_, m)) => Some(m)
  }

  /** The fixed ordinal-to-dates table: the first semester runs from August 1
      to December 15 of the first year, the second from January 10 to May 30
      of the second year, and anything else (or no marker) stays "TBD".
      Years go through `parseInt` and back through a template literal. */
  function WindowOf(m: Option<SemesterMatch>): SemesterWindow
    requires m.Some? ==> IsYear(m.value.startYear) && IsYear(m.value.endYear)
  {
    match m
    case None => SemesterWindow("TBD", "TBD", "TBD")
    case Some(sm) =>
      var semester := ToUpper(sm.ordinal);
      var startYear := ParseDigits(sm.startYear);
      var endYear := ParseDigits(sm.endYear);
      if semester == "1ST" then
        SemesterWindow(semester, NatToString(startYear) + "-08-01", NatToString(startYear) + "-12-15")
      else if semester == "2ND" then
        SemesterWindow(semester, NatToString(endYear) + "-01-10", NatToString(endYear) + "-05-30")
      else
        SemesterWindow(semester, "TBD", "TBD")
  }

  /** The `academicYear` field of the preview: the two captured year strings,
      or the text JavaScript prints for two `undefined` captures. */
  function AcademicYear(m: Option<SemesterMatch>): string {
    match m
    case None => "undefined-undefined"
    case Some(sm) => sm.startYear + "-" + sm.endYear
  }

  /** The handler's step-by-step computation of `semester`,
      `semesterStartDate` and `semesterEndDate`. */
  method ExtractSemester(text: string) returns (w: SemesterWindow)
    ensures w == WindowOf(FindSemester(text))
  {
    var semAyMatch := FindSemester(text);
    var semester := "TBD";
    var semesterStartDate := "TBD";
    var semesterEndDate := "TBD";
    if semAyMatch.Some? {
      semester := ToUpper(semAyMatch.value.ordinal);
      var startYear := ParseDigits(semAyMatch.value.startYear);
      var endYear := ParseDigits(semAyMatch.value.endYear);
      if semester == "1ST" {
        semesterStartDate := NatToString(startYear) + "-08-01";
        semesterEndDate := NatToString(startYear) + "-12-15";
      } else if semester == "2ND" {
        semesterStartDate := NatToString(endYear) + "-01-10";
        semesterEndDate := NatToString(endYear) + "-05-30";
      }
    }
    w := SemesterWindow(semester, semesterStartDate, semesterEndDate);
  }

  /** The match found is the leftmost one, and no match means the pattern
      occurs nowhere in the text. */
  lemma FindSemesterLeftmost(text: string)
    ensures FindSemester(text).None? <==> forall p :: 0 <= p <= |text| ==> SemesterAt(text, p).None?
    ensures FindSemester(text).Some? ==>
      exists p :: (0 <= p <= |text| && SemesterAt(text, p) == FindSemester(text)
        && forall q :: 0 <= q < p ==> SemesterAt(text, q).None?)
  {
    var r := FirstMatch(text, 0, SemesterAt);
    if r.Some? {
      assert SemesterAt(text, r.value.0) == FindSemester(text);
    }
  }

  /** The table, stated on the digits as written: for years without a
      leading zero the dates carry the document's own year strings, the
      semester label is the upper-cased ordinal, and only `1ST` and `2ND`
      give dates. */
  lemma {:induction false} WindowTable(m: SemesterMatch)
    requires IsOrdinal(m.ordinal) && IsYear(m.startYear) && IsYear(m.endYear)
    requires m.startYear[0] != '0' && m.endYear[0] != '0'
    ensures WindowOf(Some(m)).semester == ToUpper(m.ordinal)
    ensures ToUpper(m.ordinal) == "1ST" ==>
      WindowOf(Some(m)) == SemesterWindow("1ST", m.startYear + "-08-01", m.startYear + "-12-15")
    ensures ToUpper(m.ordinal) == "2ND" ==>
      WindowOf(Some(m)) == SemesterWindow("2ND", m.endYear + "-01-10", m.endYear + "-05-30")
    ensures ToUpper(m.ordinal) != "1ST" && ToUpper(m.ordinal) != "2ND" ==>
      WindowOf(Some(m)).startDate == "TBD" && WindowOf(Some(m)).endDate == "TBD"
  {
    PrintParsed(m.startYear);
    PrintParsed(m.endYear);
  }

  /** The semester label never holds a lower-case ASCII letter, whatever the
      case of the document's marker. */
  lemma SemesterUpperCase(text: string)
    ensures HasNoLowerAscii(WindowOf(FindSemester(text)).semester)
  {
    var m := FindSemester(text);
    if m.Some? {
      ToUpperFacts(m.value.ordinal);
    }
  }

  /** A document without the marker gets the "TBD" window. */
  lemma NoMarkerNoDates(text: string)
    requires forall p :: 0 <= p <= |text| ==> SemesterAt(text, p).None?
    ensures WindowOf(FindSemester(text)) == SemesterWindow("TBD", "TBD", "TBD")
    ensures AcademicYear(FindSemester(text)) == "undefined-undefined"
  {
    FindSemesterLeftmost(text);
  }

  /** The marker as a document may write it, followed by the rest of the
      text: the ordinal, a non-empty whitespace run, the word "Semester" and
      a comma, then "AY" and the years, each preceded by any whitespace
      (newlines included). */
  function MarkerText(ordinal: string, g1: string, word: string, g2: string, ay: string, g3: string,
                      y1: string, y2: string, rest: string): string
  {
    ordinal + (g1 + (word + ("," + (g2 + (ay + (g3 + (y1 + ("-" + (y2 + rest)))))))))
  }

  /** The whitespace runs and word spellings the pattern accepts. */
  predicate MarkerPieces(ordinal: string, g1: string, word: string, g2: string, ay: string, g3: string,
                         y1: string, y2: string)
  {
    && IsOrdinal(ordinal) && IsYear(y1) && IsYear(y2)
    && g1 != [] && AllSpaces(g1) && AllSpaces(g2) && AllSpaces(g3)
    && EqualsIgnoreCase(word, "Semester") && EqualsIgnoreCase(ay, "AY")
  }

  /** A marker written anywhere in a text, with any whitespace the pattern
      allows and any case of its words, is read where it starts, and its
      captures are the ordinal and the two years as written. */
  lemma MarkerAt(pre: string, ordinal: string, g1: string, word: string, g2: string, ay: string, g3: string,
                 y1: string, y2: string, rest: string)
    requires MarkerPieces(ordinal, g1, word, g2, ay, g3, y1, y2)
    ensures SemesterAt(pre + MarkerText(ordinal, g1, word, g2, ay, g3, y1, y2, rest), |pre|)
      == Some(SemesterMatch(ordinal, y1, y2))
  {
    var text := pre + MarkerText(ordinal, g1, word, g2, ay, g3, y1, y2, rest);
    assert text[|pre|..] == MarkerText(ordinal, g1, word, g2, ay, g3, y1, y2, rest);
    var q := MarkerLayout(text, |pre|, ordinal, g1, word, g2, ay, g3, y1, y2, rest);
    SemesterAtReads(text, |pre|, q, ordinal, y1, y2);
  }

  /** Where the pieces of a written marker sit, and where each `\s` run stops. */
  lemma MarkerLayout(text: string, p: nat, ordinal: string, g1: string, word: string, g2: string, ay: string,
                     g3: string, y1: string, y2: string, rest: string)
    returns (q: nat)
    requires MarkerPieces(ordinal, g1, word, g2, ay, g3, y1, y2)
    requires p <= |text| && text[p..] == MarkerText(ordinal, g1, word, g2, ay, g3, y1, y2, rest)
    ensures p + 3 < q && q + 9 <= |text|
    ensures text[p..p + 3] == ordinal && SkipSpaces(text, p + 3) == q
    ensures text[q..q + 8] == word && text[q + 8] == ','
    ensures YearsAt(text, q + 9) == Some((y1, y2))
  {
    var t := g2 + (ay + (g3 + (y1 + ("-" + (y2 + rest)))));
    q := OrdinalLayout(text, p, ordinal, g1, word, t);
    YearsLayout(text, q + 9, g2, ay, g3, y1, y2, rest);
  }

  /** The ordinal, its `\s+` run and "Semester," at `p`. */
  lemma OrdinalLayout(text: string, p: nat, ordinal: string, g1: string, word: string, tail: string)
    returns (q: nat)
    requires |ordinal| == 3 && g1 != [] && AllSpaces(g1) && EqualsIgnoreCase(word, "Semester")
    requires p <= |text| && text[p..] == ordinal + (g1 + (word + ("," + tail)))
    ensures p + 3 < q && q + 9 <= |text| && text[q + 9..] == tail
    ensures text[p..p + 3] == ordinal && SkipSpaces(text, p + 3) == q
    ensures text[q..q + 8] == word && text[q + 8] == ','
  {
    assert |ToUpper(word)| == |word| && ToUpper(word)[0] == 'S';
    ReadOver(text, p, ordinal, g1 + (word + ("," + tail)));
    q := SkipToken(text, p + 3, g1, word + ("," + tail));
    ReadOver(text, q, word, "," + tail);
    CharOver(text, q + 8, ",", tail);
  }

  /** "AY" and the two years, each after any `\s` run, from `i`. */
  lemma YearsLayout(text: string, i: nat, g2: string, ay: string, g3: string, y1: string, y2: string, rest: string)
    requires AllSpaces(g2) && AllSpaces(g3) && EqualsIgnoreCase(ay, "AY") && IsYear(y1) && IsYear(y2)
    requires i <= |text| && text[i..] == g2 + (ay + (g3 + (y1 + ("-" + (y2 + rest)))))
    ensures YearsAt(text, i) == Some((y1, y2))
  {
    assert |ToUpper(ay)| == |ay| && ToUpper(ay)[0] == 'A';
    var a := SkipToken(text, i, g2, ay + (g3 + (y1 + ("-" + (y2 + rest)))));
    ReadOver(text, a, ay, g3 + (y1 + ("-" + (y2 + rest))));
    var y := RangeLayout(text, a + 2, g3, y1, y2, rest);
    YearsAtReads(text, i, a, y);
  }

  /** The two years and the hyphen between them, after any `\s` run, from `i`. */
  lemma RangeLayout(text: string, i: nat, g3: string, y1: string, y2: string, rest: string) returns (y: nat)
    requires AllSpaces(g3) && IsYear(y1) && IsYear(y2)
    requires i <= |text| && text[i..] == g3 + (y1 + ("-" + (y2 + rest)))
    ensures i <= y && y + 9 <= |text| && SkipSpaces(text, i) == y
    ensures text[y..y + 4] == y1 && text[y + 4] == '-' && text[y + 5..y + 9] == y2
  {
    y := SkipToken(text, i, g3, y1 + ("-" + (y2 + rest)));
    ReadOver(text, y, y1, "-" + (y2 + rest));
    CharOver(text, y + 4, "-", y2 + rest);
    ReadOver(text, y + 5, y2, rest);
  }

  /** Conversely, whatever the pattern matches at `p` is a marker written
      with whitespace runs and word spellings the pattern accepts, whose
      ordinal and years are the captures. */
  lemma MarkerRead(text: string, p: nat)
    requires SemesterAt(text, p).Some?
    ensures var m := SemesterAt(text, p).value;
      exists g1, word, g2, ay, g3, rest ::
        && MarkerPieces(m.ordinal, g1, word, g2, ay, g3, m.startYear, m.endYear)
        && text[p..] == MarkerText(m.ordinal, g1, word, g2, ay, g3, m.startYear, m.endYear, rest)
  {
    var q, a, y := SemesterAtShape(text, p);
    MarkerPiecesRead(text, p, q, a, y);
    MarkerSlices(text, p, q, a, y);
  }

  /** The positions a match at `p` reads through, and what it finds there. */
  lemma SemesterAtShape(text: string, p: nat) returns (q: nat, a: nat, y: nat)
    requires SemesterAt(text, p).Some?
    ensures p + 3 < q && q + 9 <= a && a + 2 <= y && y + 9 <= |text|
    ensures IsOrdinal(text[p..p + 3]) && SkipSpaces(text, p + 3) == q
    ensures EqualsIgnoreCase(text[q..q + 8], "Semester") && text[q + 8] == ',' && SkipSpaces(text, q + 9) == a
    ensures EqualsIgnoreCase(text[a..a + 2], "AY") && SkipSpaces(text, a + 2) == y
    ensures IsYear(text[y..y + 4]) && text[y + 4] == '-' && IsYear(text[y + 5..y + 9])
    ensures SemesterAt(text, p) == Some(SemesterMatch(text[p..p + 3], text[y..y + 4], text[y + 5..y + 9]))
  {
    q := CommaShape(text, p);
    a, y := YearsAtShape(text, q + 9);
  }

  /** Where a match at `p` finds its comma. */
  lemma CommaShape(text: string, p: nat) returns (q: nat)
    requires SemesterAt(text, p).Some?
    ensures p + 3 < q && q + 9 <= |text| && IsOrdinal(text[p..p + 3]) && SkipSpaces(text, p + 3) == q
    ensures EqualsIgnoreCase(text[q..q + 8], "Semester") && text[q + 8] == ','
    ensures YearsAt(text, q + 9).Some?
    ensures SemesterAt(text, p)
      == Some(SemesterMatch(text[p..p + 3], YearsAt(text, q + 9).value.0, YearsAt(text, q + 9).value.1))
  {
    q := SkipSpaces(text, p + 3);
  }

  /** The positions the tail after the comma reads through, and what it finds there. */
  lemma YearsAtShape(text: string, i: nat) returns (a: nat, y: nat)
    requires i <= |text| && YearsAt(text, i).Some?
    ensures i <= a && a + 2 <= y && y + 9 <= |text|
    ensures SkipSpaces(text, i) == a && EqualsIgnoreCase(text[a..a + 2], "AY") && SkipSpaces(text, a + 2) == y
    ensures IsYear(text[y..y + 4]) && text[y + 4] == '-' && IsYear(text[y + 5..y + 9])
    ensures YearsAt(text, i) == Some((text[y..y + 4], text[y + 5..y + 9]))
  {
    a := SkipSpaces(text, i);
    y := SkipSpaces(text, a + 2);
  }

  /** The pieces between the positions the pattern reads through are ones it accepts. */
  lemma MarkerPiecesRead(text: string, p: nat, q: nat, a: nat, y: nat)
    requires p + 3 < q && q + 9 <= a && a + 2 <= y && y + 9 <= |text|
    requires IsOrdinal(text[p..p + 3]) && SkipSpaces(text, p + 3) == q
    requires EqualsIgnoreCase(text[q..q + 8], "Semester") && SkipSpaces(text, q + 9) == a
    requires EqualsIgnoreCase(text[a..a + 2], "AY") && SkipSpaces(text, a + 2) == y
    requires IsYear(text[y..y + 4]) && IsYear(text[y + 5..y + 9])
    ensures MarkerPieces(text[p..p + 3], text[p + 3..q], text[q..q + 8], text[q + 9..a], text[a..a + 2],
      text[a + 2..y], text[y..y + 4], text[y + 5..y + 9])
  {
    RunIsSpaces(text, p + 3, q);
    RunIsSpaces(text, q + 9, a);
    RunIsSpaces(text, a + 2, y);
  }

  /** The text from `p` cut at the positions the pattern reads through. */
  lemma MarkerSlices(text: string, p: nat, q: nat, a: nat, y: nat)
    requires p + 3 <= q && q + 9 <= a && a + 2 <= y && y + 9 <= |text|
    requires text[q + 8] == ',' && text[y + 4] == '-'
    ensures text[p..] == MarkerText(text[p..p + 3], text[p + 3..q], text[q..q + 8], text[q + 9..a], text[a..a + 2],
      text[a + 2..y], text[y..y + 4], text[y + 5..y + 9], text[y + 9..])
  {
    OrdinalSlices(text, p, q);
    YearsSlices(text, q + 9, a, y);
  }

  lemma OrdinalSlices(text: string, p: nat, q: nat)
    requires p + 3 <= q && q + 9 <= |text| && text[q + 8] == ','
    ensures text[p..] == text[p..p + 3] + (text[p + 3..q] + (text[q..q + 8] + ("," + text[q + 9..])))
  {
    assert text[q + 8..q + 9] == ",";
    Unread(text, q + 8, q + 9);
    Unread(text, q, q + 8);
    Unread(text, p + 3, q);
    Unread(text, p, p + 3);
  }

  lemma YearsSlices(text: string, i: nat, a: nat, y: nat)
    requires i <= a && a + 2 <= y && y + 9 <= |text| && text[y + 4] == '-'
    ensures text[i..] == text[i..a] + (text[a..a + 2] + (text[a + 2..y] + (text[y..y + 4]
      + ("-" + (text[y + 5..y + 9] + text[y + 9..])))))
  {
    Unread(text, y + 5, y + 9);
    assert text[y + 4..y + 5] == "-";
    Unread(text, y + 4, y + 5);
    Unread(text, y, y + 4);
    Unread(text, a + 2, y);
    Unread(text, a, a + 2);
    Unread(text, i, a);
  }

  /** The pattern read at `p` through the position of its comma. */
  lemma SemesterAtReads(text: string, p: nat, q: nat, ordinal: string, y1: string, y2: string)
    requires IsOrdinal(ordinal) && p + 3 < q && q + 9 <= |text| && text[p..p + 3] == ordinal
    requires SkipSpaces(text, p + 3) == q
    requires EqualsIgnoreCase(text[q..q + 8], "Semester") && text[q + 8] == ','
    requires YearsAt(text, q + 9) == Some((y1, y2))
    ensures SemesterAt(text, p) == Some(SemesterMatch(ordinal, y1, y2))
  {
    assert text[p + 1..p + 3] == ordinal[1..];
  }

  /** The tail after the comma read through the positions where its whitespace runs stop. */
  lemma YearsAtReads(text: string, i: nat, a: nat, y: nat)
    requires i <= a && a + 2 <= y && y + 9 <= |text|
    requires SkipSpaces(text, i) == a && EqualsIgnoreCase(text[a..a + 2], "AY") && SkipSpaces(text, a + 2) == y
    requires AllDigits(text[y..y + 4]) && text[y + 4] == '-' && AllDigits(text[y + 5..y + 9])
    ensures YearsAt(text, i) == Some((text[y..y + 4], text[y + 5..y + 9]))
  {
  }

  /** When no marker starts earlier, `text.match` finds that one. */
  lemma MarkerFound(pre: string, ordinal: string, g1: string, word: string, g2: string, ay: string, g3: string,
                    y1: string, y2: string, rest: string)
    requires MarkerPieces(ordinal, g1, word, g2, ay, g3, y1, y2)
    requires forall p :: 0 <= p < |pre| ==>
      SemesterAt(pre + MarkerText(ordinal, g1, word, g2, ay, g3, y1, y2, rest), p).None?
    ensures FindSemester(pre + MarkerText(ordinal, g1, word, g2, ay, g3, y1, y2, rest))
      == Some(SemesterMatch(ordinal, y1, y2))
  {
    var text := pre + MarkerText(ordinal, g1, word, g2, ay, g3, y1, y2, rest);
    MarkerAt(pre, ordinal, g1, word, g2, ay, g3, y1, y2, rest);
    FirstMatchIs(text, |pre|, SemesterAt, SemesterMatch(ordinal, y1, y2));
  }

  lemma UpperExamples()
    ensures ToUpper("ST") == "ST" && ToUpper("1ST") == "1ST"
    ensures ToUpper("nd") == "ND" && ToUpper("2nd") == "2ND"
    ensures EqualsIgnoreCase("Semester", "Semester") && EqualsIgnoreCase("semester", "Semester")
    ensures EqualsIgnoreCase("AY", "AY") && EqualsIgnoreCase("ay", "AY")
  {
    assert ToUpper("ST") == "ST";
    assert ToUpper("1ST") == "1ST";
    assert ToUpper("nd") == "ND";
    assert ToUpper("2nd") == "2ND";
    assert ToUpper("semester") == "SEMESTER";
    assert ToUpper("Semester") == "SEMESTER";
    assert ToUpper("ay") == "AY";
  }

  /** The window of a match of the first-semester marker for AY 2024-2025. */
  lemma FirstSemesterTable()
    ensures WindowOf(Some(SemesterMatch("1ST", "2024", "2025"))) == SemesterWindow("1ST", "2024-08-01", "2024-12-15")
  {
    UpperExamples();
    WindowTable(SemesterMatch("1ST", "2024", "2025"));
  }

  /** The window of a match of the second-semester marker for AY 2024-2025. */
  lemma SecondSemesterTable()
    ensures WindowOf(Some(SemesterMatch("2nd", "2024", "2025"))) == SemesterWindow("2ND", "2025-01-10", "2025-05-30")
  {
    UpperExamples();
    WindowTable(SemesterMatch("2nd", "2024", "2025"));
  }

  /** A first-semester marker gives the August-to-December window of the first year. */
  lemma FirstSemesterExample(rest: string)
    ensures WindowOf(FindSemester("1ST Semester, AY 2024-2025" + rest))
      == SemesterWindow("1ST", "2024-08-01", "2024-12-15")
  {
    UpperExamples();
    assert "1ST Semester, AY 2024-2025" + rest
      == [] + MarkerText("1ST", " ", "Semester", " ", "AY", " ", "2024", "2025", rest);
    MarkerFound([], "1ST", " ", "Semester", " ", "AY", " ", "2024", "2025", rest);
    FirstSemesterTable();
  }

  /** A second-semester marker, in lower case, gives the January-to-May window
      of the second year. */
  lemma SecondSemesterExample(rest: string)
    ensures WindowOf(FindSemester("2nd semester, ay 2024-2025" + rest))
      == SemesterWindow("2ND", "2025-01-10", "2025-05-30")
    ensures AcademicYear(FindSemester("2nd semester, ay 2024-2025" + rest)) == "2024-2025"
  {
    UpperExamples();
    assert "2nd"[1..] == "nd";
    assert "2024" + "-" + "2025" == "2024-2025";
    assert "2nd semester, ay 2024-2025" + rest
      == [] + MarkerText("2nd", " ", "semester", " ", "ay", " ", "2024", "2025", rest);
    MarkerFound([], "2nd", " ", "semester", " ", "ay", " ", "2024", "2025", rest);
    SecondSemesterTable();
  }
}
